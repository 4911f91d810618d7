/**
  The union of two lists of certificates and, within it, the parent of each: the
  first other certificate that can have issued it.
*/
module ParentMaps {
  import opened Seqs
  import opened Certs
  import opened Walks

  // ---------- Union ----------

  function Fps(s: seq<Cert>): set<Fingerprint> {
    set c | c in s :: c.fp
  }

  /** No two positions hold the same fingerprint. */
  ghost predicate Deduped(s: seq<Cert>) {
    forall i, j :: 0 <= i < j < |s| ==> s[i].fp != s[j].fp
  }

  /** The certificates of s whose fingerprint does not occur earlier in s, in order. */
  function FirstOccurrences(s: seq<Cert>): seq<Cert> {
    if s == [] then []
    else
      var prefix := FirstOccurrences(Front(s));
      if Last(s).fp in Fps(Front(s)) then prefix else prefix + [Last(s)]
  }

  lemma {:induction false} FirstOccurrencesDedup(s: seq<Cert>)
    ensures Deduped(FirstOccurrences(s))
    ensures Fps(FirstOccurrences(s)) == Fps(s)
    ensures forall c :: c in FirstOccurrences(s) ==> c in s
  {
    if s != [] {
      FirstOccurrencesDedup(Front(s));
      assert s == Front(s) + [Last(s)];
      FpsSnoc(Front(s), Last(s));
      FpsSnoc(FirstOccurrences(Front(s)), Last(s));
      forall c | c in FirstOccurrences(Front(s)) ensures c.fp in Fps(Front(s)) {
      }
    }
  }

  /** No certificate before position i has the fingerprint of the one there. */
  ghost predicate IsFirst(s: seq<Cert>, i: nat)
    requires i < |s|
  {
    s[i].fp !in Fps(s[..i])
  }

  /** Where each certificate of the union comes from: increasing positions, each the first of its fingerprint. */
  lemma {:induction false} FirstOccurrencesAreFirst(s: seq<Cert>) returns (from: seq<nat>)
    ensures |from| == |FirstOccurrences(s)|
    ensures forall k :: 0 <= k < |from| ==> from[k] < |s| && FirstOccurrences(s)[k] == s[from[k]] && IsFirst(s, from[k])
    ensures forall k, l :: 0 <= k < l < |from| ==> from[k] < from[l]
  {
    if s == [] {
      from := [];
    } else {
      var rest := Front(s);
      var before := FirstOccurrencesAreFirst(rest);
      forall k | 0 <= k < |before| ensures IsFirst(s, before[k]) {
        assert IsFirst(rest, before[k]) && s[..before[k]] == rest[..before[k]];
      }
      from := if Last(s).fp in Fps(rest) then before else before + [|s| - 1];
    }
  }

  /** Deduplicating twice changes nothing, and a list without repetitions is left alone. */
  lemma {:induction false} DedupedIsFixed(s: seq<Cert>)
    requires Deduped(s)
    ensures FirstOccurrences(s) == s
  {
    if s != [] {
      DedupedIsFixed(Front(s));
      assert s == Front(s) + [Last(s)];
    }
  }

  lemma FpsSnoc(s: seq<Cert>, c: Cert)
    ensures Fps(s + [c]) == Fps(s) + {c.fp}
  {
    assert forall d :: d in s + [c] <==> d in s || d == c;
    forall f | f in Fps(s) + {c.fp} ensures f in Fps(s + [c]) {
      if f == c.fp {
        assert c in s + [c];
      } else {
        var d :| d in s && d.fp == f;
        assert d in s + [c];
      }
    }
  }

  method UnionCerts(a: seq<Cert>, b: seq<Cert>) returns (result: seq<Cert>)
    ensures result == FirstOccurrences(a + b)
    ensures Deduped(result) && Fps(result) == Fps(a + b)
  {
    var s := a + b;
    var seen: set<Fingerprint> := {};
    result := [];
    for i := 0 to |s|
      invariant seen == Fps(s[..i]) && result == FirstOccurrences(s[..i])
    {
      var c := s[i];
      assert s[..i + 1] == s[..i] + [c];
      assert Front(s[..i + 1]) == s[..i];
      FpsSnoc(s[..i], c);
      if c.fp !in seen {
        seen := seen + {c.fp};
        result := result + [c];
      }
    }
    assert s[..|s|] == s;
    FirstOccurrencesDedup(s);
  }

  // ---------- Parents ----------

  /** The certificate at j can be the parent of the one at i. */
  predicate Links(all: seq<Cert>, i: nat, j: nat)
    requires i < |all| && j < |all|
  {
    i != j && IsParent(all[i], all[j])
  }

  ghost predicate FirstParent(all: seq<Cert>, i: nat, j: nat)
    requires i < |all|
  {
    j < |all| && Links(all, i, j) && forall k: nat :: k < j ==> !Links(all, i, k)
  }

  type ParentMap = map<Fingerprint, Cert>

  /** Some other certificate can be the parent of the one at i. */
  ghost predicate HasParent(all: seq<Cert>, i: nat)
    requires i < |all|
  {
    exists j: nat :: j < |all| && Links(all, i, j)
  }

  /** The fingerprint f belongs to position i, whose first possible parent m holds. */
  ghost predicate IsEntry(all: seq<Cert>, m: ParentMap, f: Fingerprint, i: nat) {
    && i < |all| && all[i].fp == f && f in m
    && exists j: nat :: FirstParent(all, i, j) && m[f] == all[j]
  }

  /** What m holds for f, if anything, is a first possible parent. */
  ghost predicate IsSound(all: seq<Cert>, m: ParentMap, f: Fingerprint) {
    f in m ==> exists i: nat :: IsEntry(all, m, f, i)
  }

  /** m holds something for the certificate at i if any other can be its parent. */
  ghost predicate IsComplete(all: seq<Cert>, m: ParentMap, i: nat)
    requires i < |all|
  {
    HasParent(all, i) ==> all[i].fp in m
  }

  /** m holds nothing but first possible parents, and one for every certificate that has any. */
  ghost predicate IsParentMap(all: seq<Cert>, m: ParentMap) {
    && (forall f: Fingerprint :: IsSound(all, m, f))
    && forall i: nat :: i < |all| ==> IsComplete(all, m, i)
  }

  method BuildParentMap(all: seq<Cert>) returns (m: ParentMap)
    ensures IsParentMap(all, m)
  {
    m := map[];
    for i := 0 to |all|
      invariant forall f: Fingerprint :: IsSound(all, m, f)
      invariant forall h: nat :: h < i ==> IsComplete(all, m, h)
    {
      ghost var before := m;
      for j := 0 to |all|
        invariant m == before && forall k: nat :: k < j ==> !Links(all, i, k)
      {
        if Links(all, i, j) {
          m := m[all[i].fp := all[j]];
          assert FirstParent(all, i, j);
          break;
        }
      }
      EntryAdded(all, before, m, i);
    }
  }

  lemma EntryAdded(all: seq<Cert>, m: ParentMap, m': ParentMap, i: nat)
    requires i < |all| && forall f: Fingerprint :: IsSound(all, m, f)
    requires forall h: nat :: h < i ==> IsComplete(all, m, h)
    requires if HasParent(all, i) then exists j: nat :: FirstParent(all, i, j) && m' == m[all[i].fp := all[j]]
             else m' == m
    ensures forall f: Fingerprint :: IsSound(all, m', f)
    ensures forall h: nat :: h < i + 1 ==> IsComplete(all, m', h)
  {
    forall f: Fingerprint | f in m' ensures exists h: nat :: IsEntry(all, m', f, h) {
      assert IsSound(all, m, f);
      if f in m && m'[f] == m[f] {
        var h: nat :| IsEntry(all, m, f, h);
        assert IsEntry(all, m', f, h);
      } else {
        assert IsEntry(all, m', f, i);
      }
    }
    forall h: nat | h < i ensures IsComplete(all, m', h) {
      assert IsComplete(all, m, h);
    }
  }

  ghost predicate HasFirstParent(all: seq<Cert>, m: ParentMap, i: nat)
    requires i < |all|
  {
    if all[i].fp in m then exists j: nat :: FirstParent(all, i, j) && m[all[i].fp] == all[j]
    else forall j: nat :: j < |all| ==> !Links(all, i, j)
  }

  /** In a list without repetitions the map gives each certificate its own first possible parent. */
  lemma ParentAt(all: seq<Cert>, m: ParentMap, i: nat)
    requires Deduped(all) && IsParentMap(all, m) && i < |all|
    ensures HasFirstParent(all, m, i)
  {
    assert IsSound(all, m, all[i].fp) && IsComplete(all, m, i);
    if all[i].fp in m {
      var h: nat :| IsEntry(all, m, all[i].fp, h);
      assert h == i;
    } else {
      assert !HasParent(all, i);
    }
  }

  lemma KeysAreMembers(all: seq<Cert>, m: ParentMap)
    requires IsParentMap(all, m)
    ensures m.Keys <= Fps(all)
  {
    forall f | f in m ensures f in Fps(all) {
      assert IsSound(all, m, f);
      var i: nat :| IsEntry(all, m, f, i);
    }
  }

  // ---------- The graph of parents ----------

  /** The parent map between fingerprints. */
  function Graph(m: ParentMap): map<Fingerprint, Fingerprint> {
    map f | f in m :: m[f].fp
  }

  lemma ParentIsMember(all: seq<Cert>, m: ParentMap, c: Cert)
    requires Deduped(all) && IsParentMap(all, m) && c in all && c.fp in m
    ensures m[c.fp] in all && m[c.fp].fp != c.fp && IsParent(c, m[c.fp])
  {
    var i: nat :| i < |all| && all[i] == c;
    ParentAt(all, m, i);
  }

  lemma GraphClosed(all: seq<Cert>, m: ParentMap)
    requires Deduped(all) && IsParentMap(all, m)
    ensures Closed(Graph(m), Fps(all))
  {
    KeysAreMembers(all, m);
    forall f | f in m ensures m[f].fp in Fps(all) {
      var c :| c in all && c.fp == f;
      ParentIsMember(all, m, c);
    }
  }

  /** The parent map is determined by the list. */
  lemma ParentMapUnique(all: seq<Cert>, m: ParentMap, m': ParentMap)
    requires Deduped(all) && IsParentMap(all, m) && IsParentMap(all, m')
    ensures m == m'
  {
    KeysAreMembers(all, m);
    KeysAreMembers(all, m');
    forall f | f in Fps(all)
      ensures f in m <==> f in m'
      ensures f in m ==> m[f] == m'[f]
    {
      var i: nat :| i < |all| && all[i].fp == f;
      ParentAt(all, m, i);
      ParentAt(all, m', i);
    }
  }
}
