/** The chain from the leaf certificate to the last ancestor the union knows. */
module CertChain {
  import opened Wrappers
  import opened Seqs
  import opened Certs
  import opened Walks
  import opened ParentMaps

  datatype Error = NoLeaf

  // ---------- The leaf ----------

  predicate IsSpiffeLeaf(c: Cert) {
    ExtractSpiffeId(c.uris).Some? && !c.isCA
  }

  /** The certificate at i names one with fingerprint f as its possible parent. */
  ghost predicate Claims(all: seq<Cert>, i: nat, f: Fingerprint)
    requires i < |all|
  {
    exists k: nat :: k < |all| && Links(all, i, k) && all[k].fp == f
  }

  /** Some other certificate names the one at j as its possible parent. */
  ghost predicate Claimed(all: seq<Cert>, j: nat)
    requires j < |all|
  {
    exists i: nat :: i < |all| && Claims(all, i, all[j].fp)
  }

  /**
    Which positions may be the leaf: the SPIFFE leaves if there are any, otherwise
    the unclaimed certificates, those that are no CA first.
  */
  ghost predicate IsCandidate(all: seq<Cert>, j: nat)
    requires j < |all|
  {
    if exists i: nat :: i < |all| && IsSpiffeLeaf(all[i]) then IsSpiffeLeaf(all[j])
    else
      && !Claimed(all, j)
      && ((exists i: nat :: i < |all| && !Claimed(all, i) && !all[i].isCA) ==> !all[j].isCA)
  }

  /** r is the first candidate, or an error if there is none. */
  ghost predicate IsLeafChoice(all: seq<Cert>, r: Result<Cert, Error>) {
    match r
    case Success(c) =>
      exists j: nat ::
        j < |all| && all[j] == c && IsCandidate(all, j) && forall i: nat :: i < j ==> !IsCandidate(all, i)
    case Failure(e) => e == NoLeaf && forall j: nat :: j < |all| ==> !IsCandidate(all, j)
  }

  method IdentifyLeaf(all: seq<Cert>) returns (r: Result<Cert, Error>)
    ensures IsLeafChoice(all, r)
  {
    for i := 0 to |all|
      invariant forall h: nat :: h < i ==> !IsSpiffeLeaf(all[h])
    {
      if IsSpiffeLeaf(all[i]) {
        assert IsCandidate(all, i);
        assert forall h: nat :: h < i ==> !IsCandidate(all, h);
        return Success(all[i]);
      }
    }
    var parentFps := ClaimedFps(all);
    var leaves, positions := Unclaimed(all, parentFps);
    r := PickLeaf(all, leaves, positions);
  }

  /** The leaves are the unclaimed certificates, in order, and positions says where they stand. */
  ghost predicate AreUnclaimed(all: seq<Cert>, leaves: seq<Cert>, positions: seq<nat>) {
    && |leaves| == |positions|
    && (forall k :: 0 <= k < |leaves| ==> IsUnclaimedAt(all, leaves[k], positions[k]))
    && (forall k, l :: 0 <= k < l < |positions| ==> positions[k] < positions[l])
    && forall j: nat :: j < |all| && !Claimed(all, j) ==> j in positions
  }

  ghost predicate IsUnclaimedAt(all: seq<Cert>, c: Cert, j: nat) {
    j < |all| && c == all[j] && !Claimed(all, j)
  }

  /** The only unclaimed certificate, or the first that is no CA, or the first. */
  method PickLeaf(all: seq<Cert>, leaves: seq<Cert>, ghost positions: seq<nat>) returns (r: Result<Cert, Error>)
    requires AreUnclaimed(all, leaves, positions) && forall h: nat :: h < |all| ==> !IsSpiffeLeaf(all[h])
    ensures IsLeafChoice(all, r)
  {
    if |leaves| == 1 {
      FirstOfAll(all, leaves, positions);
      return Success(leaves[0]);
    }
    if |leaves| == 0 {
      return Failure(NoLeaf);
    }
    for i := 0 to |leaves|
      invariant forall h: nat :: h < i ==> leaves[h].isCA
    {
      if !leaves[i].isCA {
        FirstNonCA(all, leaves, positions, i);
        return Success(leaves[i]);
      }
    }
    FirstOfAll(all, leaves, positions);
    return Success(leaves[0]);
  }

  lemma FirstNonCA(all: seq<Cert>, leaves: seq<Cert>, positions: seq<nat>, i: nat)
    requires AreUnclaimed(all, leaves, positions) && forall h: nat :: h < |all| ==> !IsSpiffeLeaf(all[h])
    requires i < |leaves| && !leaves[i].isCA && forall h: nat :: h < i ==> leaves[h].isCA
    ensures IsLeafChoice(all, Success(leaves[i]))
  {
    assert IsUnclaimedAt(all, leaves[i], positions[i]);
    assert IsCandidate(all, positions[i]);
    forall h: nat | h < positions[i] ensures !IsCandidate(all, h) {
      if !Claimed(all, h) {
        var k :| 0 <= k < |positions| && positions[k] == h;
        assert IsUnclaimedAt(all, leaves[k], positions[k]) && k < i;
      }
    }
  }

  lemma FirstOfAll(all: seq<Cert>, leaves: seq<Cert>, positions: seq<nat>)
    requires AreUnclaimed(all, leaves, positions) && forall h: nat :: h < |all| ==> !IsSpiffeLeaf(all[h])
    requires leaves != [] && (|leaves| == 1 || forall h :: 0 <= h < |leaves| ==> leaves[h].isCA)
    ensures IsLeafChoice(all, Success(leaves[0]))
  {
    assert IsUnclaimedAt(all, leaves[0], positions[0]);
    forall j: nat | j < |all| && !Claimed(all, j)
      ensures positions[0] <= j && (all[j].isCA || j == positions[0])
    {
      var k :| 0 <= k < |positions| && positions[k] == j;
      assert IsUnclaimedAt(all, leaves[k], positions[k]);
    }
    assert IsCandidate(all, positions[0]);
  }

  /** The fingerprints of the certificates that another one claims as parent. */
  method ClaimedFps(all: seq<Cert>) returns (parentFps: set<Fingerprint>)
    ensures forall f: Fingerprint :: f in parentFps <==> exists i: nat :: i < |all| && Claims(all, i, f)
  {
    parentFps := {};
    for i := 0 to |all|
      invariant forall f: Fingerprint :: f in parentFps <==> exists h: nat :: h < i && Claims(all, h, f)
    {
      ghost var before := parentFps;
      for j := 0 to |all|
        invariant forall f: Fingerprint ::
            f in parentFps <==> f in before || exists k: nat :: k < j && Links(all, i, k) && all[k].fp == f
      {
        if Links(all, i, j) {
          parentFps := parentFps + {all[j].fp};
        }
      }
      assert forall f: Fingerprint :: f in parentFps <==> f in before || Claims(all, i, f);
    }
  }

  /** The unclaimed certificates in order, with their positions. */
  method Unclaimed(all: seq<Cert>, parentFps: set<Fingerprint>) returns (leaves: seq<Cert>, ghost positions: seq<nat>)
    requires forall j: nat :: j < |all| ==> (all[j].fp in parentFps <==> Claimed(all, j))
    ensures AreUnclaimed(all, leaves, positions)
  {
    leaves, positions := [], [];
    for i := 0 to |all|
      invariant |leaves| == |positions|
      invariant forall k :: 0 <= k < |leaves| ==> positions[k] < i && IsUnclaimedAt(all, leaves[k], positions[k])
      invariant forall k, l :: 0 <= k < l < |positions| ==> positions[k] < positions[l]
      invariant forall j: nat :: j < i && !Claimed(all, j) ==> j in positions
    {
      if all[i].fp !in parentFps {
        leaves := leaves + [all[i]];
        positions := positions + [i];
      }
    }
  }

  lemma CandidateAmongUnclaimed(all: seq<Cert>, j: nat) returns (i: nat)
    requires forall h: nat :: h < |all| ==> !IsSpiffeLeaf(all[h])
    requires j < |all| && !Claimed(all, j)
    ensures i < |all| && IsCandidate(all, i)
  {
    i := j;
    if h: nat :| h < |all| && !Claimed(all, h) && !all[h].isCA {
      i := h;
    }
  }

  /** If some certificate has a SPIFFE ID and is no CA, the leaf is the first one like that. */
  lemma SpiffeLeafFirst(all: seq<Cert>, leaf: Cert, i: nat)
    requires IsLeafChoice(all, Success(leaf)) && i < |all| && !all[i].isCA
    requires exists k :: 0 <= k < |all[i].uris| && all[i].uris[k].SpiffeUri?
    ensures ExtractSpiffeId(leaf.uris).Some? && !leaf.isCA
    ensures exists j: nat :: j <= i && all[j] == leaf
  {
    assert IsSpiffeLeaf(all[i]) && IsCandidate(all, i);
  }

  /** No leaf is found exactly when there is no SPIFFE leaf and every certificate is claimed by another. */
  lemma NoLeafIff(all: seq<Cert>, r: Result<Cert, Error>)
    requires IsLeafChoice(all, r)
    ensures r.Failure? <==> forall j: nat :: j < |all| ==> !IsSpiffeLeaf(all[j]) && Claimed(all, j)
  {
    if r.Failure? {
      forall i: nat | i < |all| ensures !IsSpiffeLeaf(all[i]) {
        assert !IsCandidate(all, i);
      }
      forall j: nat | j < |all| ensures Claimed(all, j) {
        if !Claimed(all, j) {
          var _ := CandidateAmongUnclaimed(all, j);
        }
      }
    }
  }

  /** Each certificate of the list is claimed by the next, and the last is the first. */
  ghost predicate IsClaimCycle(all: seq<Cert>, cycle: seq<nat>) {
    && |cycle| >= 2 && cycle[0] == Last(cycle)
    && (forall k :: 0 <= k < |cycle| ==> cycle[k] < |all|)
    && forall k :: 0 <= k < |cycle| - 1 ==> Links(all, cycle[k + 1], cycle[k])
  }

  /** A union in which no chain of possible parents runs in a circle has a leaf. */
  lemma NoLeafMeansCycle(all: seq<Cert>, r: Result<Cert, Error>)
    requires Deduped(all) && IsLeafChoice(all, r) && r.Failure? && all != []
    ensures exists cycle :: IsClaimCycle(all, cycle)
  {
    NoLeafIff(all, r);
    var claimer := ClaimerMap(all, |all|);
    var cycle := ClaimerCycle(all, claimer);
  }

  lemma ClaimerCycle(all: seq<Cert>, claimer: map<nat, nat>) returns (cycle: seq<nat>)
    requires all != [] && forall j :: j in claimer <==> 0 <= j < |all|
    requires forall j :: j in claimer ==> claimer[j] < |all| && Links(all, claimer[j], j)
    ensures IsClaimCycle(all, cycle)
  {
    var y := GroundedOrCyclic(claimer, claimer.Keys, 0, {});
    cycle := CycleThrough(claimer, y);
    forall k | 0 <= k < |cycle| - 1 ensures Links(all, cycle[k + 1], cycle[k]) {
      assert cycle[k] in claimer;
    }
  }

  lemma CycleThrough(p: map<nat, nat>, y: nat) returns (cycle: seq<nat>)
    requires OnCycle(p, y)
    ensures |cycle| >= 2 && cycle[0] == y == Last(cycle)
    ensures forall i :: 0 <= i < |cycle| ==> cycle[i] in p
    ensures forall i :: 0 <= i < |cycle| - 1 ==> cycle[i + 1] == p[cycle[i]]
  {
    var k: nat :| Walk(p, p[y], k) == Some(y);
    var path := PathOf(p, p[y], k);
    cycle := [y] + path;
    forall i | 0 <= i < |cycle| - 1 ensures cycle[i] in p && cycle[i + 1] == p[cycle[i]] {
      assert i > 0 ==> cycle[i] == path[i - 1] && path[i - 1 + 1] == p[path[i - 1]];
    }
  }

  /** For each of the first n positions, a certificate that claims the one there. */
  lemma {:induction false} ClaimerMap(all: seq<Cert>, n: nat) returns (m: map<nat, nat>)
    requires Deduped(all) && n <= |all| && forall j: nat :: j < n ==> Claimed(all, j)
    ensures forall j :: j in m <==> 0 <= j < n
    ensures forall j :: j in m ==> m[j] < |all| && Links(all, m[j], j)
  {
    if n == 0 {
      m := map[];
    } else {
      m := ClaimerMap(all, n - 1);
      assert Claimed(all, n - 1);
      var i: nat :| i < |all| && Claims(all, i, all[n - 1].fp);
      var k: nat :| k < |all| && Links(all, i, k) && all[k].fp == all[n - 1].fp;
      m := m[n - 1 := i];
    }
  }

  lemma {:induction false} PathOf(p: map<nat, nat>, x: nat, k: nat) returns (path: seq<nat>)
    requires Walk(p, x, k).Some?
    ensures |path| == k + 1 && path[0] == x && Last(path) == Walk(p, x, k).value
    ensures forall i :: 0 <= i < k ==> path[i] in p && path[i + 1] == p[path[i]]
    decreases k
  {
    if k == 0 {
      path := [x];
    } else {
      var rest := PathOf(p, p[x], k - 1);
      path := [x] + rest;
    }
  }

  // ---------- The chain ----------

  /**
    c leads from its head down to the leaf along the parent map, without repetition,
    and the head has no parent or one that is already in c.
  */
  ghost predicate IsChain(m: ParentMap, leaf: Cert, c: seq<Cert>) {
    && c != [] && Last(c) == leaf && Deduped(c)
    && (forall k :: 0 < k < |c| ==> IsBelow(m, c, k))
    && (c[0].fp in m ==> m[c[0].fp].fp in Fps(c))
  }

  /** The certificate at k stands directly below its parent. */
  ghost predicate IsBelow(m: ParentMap, c: seq<Cert>, k: nat)
    requires 0 < k < |c|
  {
    c[k].fp in m && m[c[k].fp] == c[k - 1]
  }

  /** The certificate at k is the parent of the one before it. */
  ghost predicate IsAbove(m: ParentMap, c: seq<Cert>, k: nat)
    requires 0 < k < |c|
  {
    c[k - 1].fp in m && m[c[k - 1].fp] == c[k]
  }

  /** Walk from the leaf to its last new ancestor, then turn the list around in place. */
  method WalkToRoot(leaf: Cert, parents: ParentMap) returns (chain: seq<Cert>)
    ensures IsChain(parents, leaf, chain)
  {
    chain := [];
    var visited: set<Fingerprint> := {};
    var cur := leaf;
    ghost var nodes := {leaf.fp} + set f | f in parents :: parents[f].fp;
    while true
      invariant visited == Fps(chain) && Deduped(chain)
      invariant cur.fp in nodes && visited <= nodes
      invariant chain == [] ==> cur == leaf
      invariant chain != [] ==> chain[0] == leaf && Last(chain).fp in parents && cur == parents[Last(chain).fp]
      invariant forall k :: 0 < k < |chain| ==> IsAbove(parents, chain, k)
      decreases nodes - visited
    {
      if cur.fp in visited {
        break;
      }
      visited := visited + {cur.fp};
      Climb(parents, chain, cur);
      chain := chain + [cur];
      if cur.fp !in parents {
        break;
      }
      cur := parents[cur.fp];
    }
    ghost var upward := chain;
    chain := Reverse(chain);
    ReversedIsChain(parents, leaf, upward, chain);
  }

  lemma Climb(m: ParentMap, up: seq<Cert>, c: Cert)
    requires Deduped(up) && c.fp !in Fps(up)
    requires forall k :: 0 < k < |up| ==> IsAbove(m, up, k)
    requires up != [] ==> Last(up).fp in m && m[Last(up).fp] == c
    ensures Deduped(up + [c]) && Fps(up + [c]) == Fps(up) + {c.fp}
    ensures forall k :: 0 < k < |up| + 1 ==> IsAbove(m, up + [c], k)
  {
    FpsSnoc(up, c);
    forall k | 0 < k < |up| + 1 ensures IsAbove(m, up + [c], k) {
      assert k < |up| ==> IsAbove(m, up, k);
    }
  }

  /** Exchange the ends and move inwards. */
  method Reverse(s: seq<Cert>) returns (chain: seq<Cert>)
    ensures |chain| == |s| && forall k :: 0 <= k < |s| ==> chain[k] == s[|s| - 1 - k]
  {
    chain := s;
    var l, r := 0, |s| - 1;
    while l < r
      invariant 0 <= l && r == |s| - 1 - l && |chain| == |s| && l <= r + 1
      invariant forall k :: 0 <= k < |s| && (k < l || k > r) ==> chain[k] == s[|s| - 1 - k]
      invariant forall k :: l <= k <= r ==> chain[k] == s[k]
    {
      chain := chain[l := chain[r]][r := chain[l]];
      l, r := l + 1, r - 1;
    }
  }

  lemma ReversedIsChain(m: ParentMap, leaf: Cert, up: seq<Cert>, c: seq<Cert>)
    requires up != [] && up[0] == leaf && Deduped(up)
    requires forall k :: 0 < k < |up| ==> IsAbove(m, up, k)
    requires Last(up).fp in m ==> m[Last(up).fp].fp in Fps(up)
    requires |c| == |up| && forall k :: 0 <= k < |up| ==> c[k] == up[|up| - 1 - k]
    ensures IsChain(m, leaf, c)
  {
    forall k | 0 < k < |c| ensures IsBelow(m, c, k) {
      assert IsAbove(m, up, |up| - k);
    }
    forall f | f in Fps(up) ensures f in Fps(c) {
      var d :| d in up && d.fp == f;
      var k :| 0 <= k < |up| && up[k] == d;
      assert c[|up| - 1 - k] == d;
    }
    forall i, j | 0 <= i < j < |c| ensures c[i].fp != c[j].fp {
      assert up[|up| - 1 - j].fp != up[|up| - 1 - i].fp;
    }
  }

  /** What building a chain from a union yields. */
  ghost predicate IsChainResult(all: seq<Cert>, r: Result<seq<Cert>, Error>) {
    match r
    case Success(c) => exists m, leaf :: IsParentMap(all, m) && IsLeafChoice(all, Success(leaf)) && IsChain(m, leaf, c)
    case Failure(e) => IsLeafChoice(all, Failure(e))
  }

  method BuildChain(all: seq<Cert>) returns (r: Result<seq<Cert>, Error>)
    ensures IsChainResult(all, r)
  {
    var leaf :- IdentifyLeaf(all);
    var parents := BuildParentMap(all);
    var chain := WalkToRoot(leaf, parents);
    return Success(chain);
  }

  // ---------- What a chain is worth ----------

  /** The leaf and the parent map determine the chain. */
  lemma ChainUnique(m: ParentMap, leaf: Cert, c: seq<Cert>, d: seq<Cert>)
    requires IsChain(m, leaf, c) && IsChain(m, leaf, d)
    ensures c == d
  {
    if |c| <= |d| {
      SameTail(m, leaf, c, d);
    } else {
      SameTail(m, leaf, d, c);
    }
  }

  lemma SameTail(m: ParentMap, leaf: Cert, c: seq<Cert>, d: seq<Cert>)
    requires IsChain(m, leaf, c) && IsChain(m, leaf, d) && |c| <= |d|
    ensures c == d
  {
    var shift := |d| - |c|;
    var k := |c| - 1;
    while k > 0
      invariant 0 <= k < |c|
      invariant forall i :: k <= i < |c| ==> c[i] == d[i + shift]
    {
      assert IsBelow(m, c, k) && IsBelow(m, d, k + shift);
      k := k - 1;
    }
    if shift > 0 {
      LongerRepeats(m, leaf, c, d);
    }
  }

  /** A list that continues a chain beyond its head repeats a certificate. */
  lemma LongerRepeats(m: ParentMap, leaf: Cert, c: seq<Cert>, d: seq<Cert>)
    requires IsChain(m, leaf, c) && |c| < |d| && IsBelow(m, d, |d| - |c|)
    requires forall i :: 0 <= i < |c| ==> c[i] == d[i + |d| - |c|]
    ensures !Deduped(d)
  {
    var shift := |d| - |c|;
    assert c[0] == d[shift];
    var e :| e in c && e.fp == d[shift - 1].fp;
    var i :| 0 <= i < |c| && c[i] == e;
    assert d[i + shift].fp == d[shift - 1].fp;
  }

  /** Every link of a chain is an issuer link within the union, and a chain is no longer than the union. */
  lemma ChainLinks(all: seq<Cert>, m: ParentMap, leaf: Cert, c: seq<Cert>)
    requires Deduped(all) && IsParentMap(all, m) && leaf in all && IsChain(m, leaf, c)
    ensures forall k :: 0 <= k < |c| ==> c[k] in all
    ensures forall k :: 0 < k < |c| ==> IsParent(c[k], c[k - 1]) && Matches(c[k], c[k - 1])
    ensures |c| <= |all|
  {
    var k := |c| - 1;
    while k > 0
      invariant 0 <= k < |c|
      invariant forall i :: k <= i < |c| ==> c[i] in all
      invariant forall i :: k < i < |c| ==> IsParent(c[i], c[i - 1]) && Matches(c[i], c[i - 1])
    {
      assert IsBelow(m, c, k);
      ParentIsMember(all, m, c[k]);
      ParentIffMatches(c[k], c[k - 1]);
      k := k - 1;
    }
    FpsCount(c);
    FpsCount(all);
    forall f | f in Fps(c) ensures f in Fps(all) {
      var e :| e in c && e.fp == f;
    }
    SubsetCount(Fps(c), Fps(all));
  }

  lemma {:induction false} FpsCount(s: seq<Cert>)
    requires Deduped(s)
    ensures |Fps(s)| == |s|
  {
    if s != [] {
      FpsCount(Front(s));
      assert s == Front(s) + [Last(s)];
      FpsSnoc(Front(s), Last(s));
      assert Last(s).fp !in Fps(Front(s));
    }
  }

  lemma {:induction false} SubsetCount(a: set<Fingerprint>, b: set<Fingerprint>)
    requires a <= b
    ensures |a| <= |b|
    decreases a
  {
    if a != {} {
      var x :| x in a;
      SubsetCount(a - {x}, b - {x});
    }
  }

  /** The head has no parent if and only if the walk from the leaf up the parent map ends. */
  lemma HeadIsRootIffGrounded(m: ParentMap, leaf: Cert, c: seq<Cert>)
    requires IsChain(m, leaf, c)
    ensures c[0].fp !in m <==> Grounded(Graph(m), leaf.fp)
    ensures Reaches(Graph(m), leaf.fp, c[0].fp)
  {
    var g := Graph(m);
    ChainReaches(m, leaf, c, 0);
    if c[0].fp !in m {
      RootGrounds(g, leaf.fp, c[0].fp);
    } else {
      var p :| p in c && p.fp == m[c[0].fp].fp;
      var i :| 0 <= i < |c| && c[i] == p;
      Descend(m, leaf, c, i);
      assert OnCycle(g, c[0].fp);
      if Grounded(g, leaf.fp) {
        GroundedAvoidsCycles(g, leaf.fp, c[0].fp);
      }
    }
  }

  lemma {:induction false} ChainReaches(m: ParentMap, leaf: Cert, c: seq<Cert>, k: nat)
    requires IsChain(m, leaf, c) && k < |c|
    ensures Reaches(Graph(m), leaf.fp, c[k].fp)
    decreases |c| - k
  {
    var g := Graph(m);
    if k < |c| - 1 {
      ChainReaches(m, leaf, c, k + 1);
      assert IsBelow(m, c, k + 1);
      ReachesStep(g, c[k + 1].fp);
      ReachesTrans(g, leaf.fp, c[k + 1].fp, c[k].fp);
    } else {
      ReachesStep(g, leaf.fp);
    }
  }

  /** From any position of a chain one climbs to its head. */
  lemma {:induction false} Descend(m: ParentMap, leaf: Cert, c: seq<Cert>, i: nat)
    requires IsChain(m, leaf, c) && i < |c|
    ensures Reaches(Graph(m), c[i].fp, c[0].fp)
  {
    var g := Graph(m);
    ReachesStep(g, c[i].fp);
    if i > 0 {
      Descend(m, leaf, c, i - 1);
      assert IsBelow(m, c, i);
      ReachesTrans(g, c[i].fp, c[i - 1].fp, c[0].fp);
    }
  }

  // ---------- Order independence ----------

  ghost predicate SameMembers(a: seq<Cert>, b: seq<Cert>) {
    forall c :: c in a <==> c in b
  }

  /** No certificate has two possible parents. */
  ghost predicate OneParentEach(all: seq<Cert>) {
    forall i: nat, j: nat, k: nat ::
      i < |all| && j < |all| && k < |all| && Links(all, i, j) && Links(all, i, k) ==> j == k
  }

  ghost predicate OneCandidate(all: seq<Cert>) {
    forall i: nat, j: nat :: i < |all| && j < |all| && IsCandidate(all, i) && IsCandidate(all, j) ==> i == j
  }

  lemma Elsewhere(a: seq<Cert>, b: seq<Cert>, i: nat) returns (j: nat)
    requires SameMembers(a, b) && i < |a|
    ensures j < |b| && b[j] == a[i]
  {
    assert a[i] in b;
    j :| j < |b| && b[j] == a[i];
  }

  lemma ClaimedElsewhere(a: seq<Cert>, b: seq<Cert>, i: nat, j: nat)
    requires Deduped(a) && Deduped(b) && SameMembers(a, b) && i < |a| && j < |b| && a[i] == b[j] && Claimed(a, i)
    ensures Claimed(b, j)
  {
    var h: nat :| h < |a| && Claims(a, h, a[i].fp);
    var k: nat :| k < |a| && Links(a, h, k) && a[k].fp == a[i].fp;
    var h' := Elsewhere(a, b, h);
    assert Links(b, h', j);
    assert Claims(b, h', b[j].fp);
  }

  lemma CandidateElsewhere(a: seq<Cert>, b: seq<Cert>, i: nat, j: nat)
    requires Deduped(a) && Deduped(b) && SameMembers(a, b) && i < |a| && j < |b| && a[i] == b[j] && IsCandidate(a, i)
    ensures IsCandidate(b, j)
  {
    if h: nat :| h < |b| && IsSpiffeLeaf(b[h]) {
      var k := Elsewhere(b, a, h);
      assert IsSpiffeLeaf(a[k]);
    } else if h: nat :| h < |a| && IsSpiffeLeaf(a[h]) {
      var k := Elsewhere(a, b, h);
      assert false;
    } else {
      if Claimed(b, j) {
        ClaimedElsewhere(b, a, j, i);
      }
      if h: nat :| h < |b| && !Claimed(b, h) && !b[h].isCA {
        var k := Elsewhere(b, a, h);
        if Claimed(a, k) {
          ClaimedElsewhere(a, b, k, h);
        }
      }
    }
  }

  lemma SameLeaf(a: seq<Cert>, b: seq<Cert>, r: Result<Cert, Error>, s: Result<Cert, Error>)
    requires Deduped(a) && Deduped(b) && SameMembers(a, b) && OneCandidate(a)
    requires IsLeafChoice(a, r) && IsLeafChoice(b, s)
    ensures r == s
  {
    if s.Success? {
      var j: nat :| j < |b| && b[j] == s.value && IsCandidate(b, j);
      var i := Elsewhere(b, a, j);
      CandidateElsewhere(b, a, j, i);
    } else if r.Success? {
      var i: nat :| i < |a| && a[i] == r.value && IsCandidate(a, i);
      var j := Elsewhere(a, b, i);
      CandidateElsewhere(a, b, i, j);
    }
  }

  lemma SameParents(a: seq<Cert>, b: seq<Cert>, m: ParentMap, m': ParentMap)
    requires Deduped(a) && Deduped(b) && SameMembers(a, b) && OneParentEach(a)
    requires IsParentMap(a, m) && IsParentMap(b, m')
    ensures m == m'
  {
    KeysAreMembers(a, m);
    KeysAreMembers(b, m');
    forall f | f in m || f in m' ensures f in m && f in m' && m[f] == m'[f] {
      var c :| c in a && c.fp == f by {
        if f !in m { var d :| d in b && d.fp == f; }
      }
      var i: nat :| i < |a| && a[i] == c;
      var i' := Elsewhere(a, b, i);
      ParentAt(a, m, i);
      ParentAt(b, m', i');
      if f in m {
        var j: nat :| FirstParent(a, i, j) && m[f] == a[j];
        var j' := Elsewhere(a, b, j);
        assert Links(b, i', j');
      }
      var k': nat :| FirstParent(b, i', k') && m'[f] == b[k'];
      var k := Elsewhere(b, a, k');
      assert Links(a, i, k);
    }
  }

  /**
    If each certificate has at most one possible parent and there is at most one
    candidate leaf, the result does not depend on the order of the certificates.
  */
  lemma OrderIndependent(a: seq<Cert>, b: seq<Cert>, r: Result<seq<Cert>, Error>, s: Result<seq<Cert>, Error>)
    requires Deduped(a) && Deduped(b) && SameMembers(a, b) && OneParentEach(a) && OneCandidate(a)
    requires IsChainResult(a, r) && IsChainResult(b, s)
    ensures r == s
  {
    var leafA: Result<Cert, Error> := Failure(NoLeaf);
    var leafB: Result<Cert, Error> := Failure(NoLeaf);
    if r.Success? {
      var m, leaf :| IsParentMap(a, m) && IsLeafChoice(a, Success(leaf)) && IsChain(m, leaf, r.value);
      leafA := Success(leaf);
      if s.Success? {
        var m', leaf' :| IsParentMap(b, m') && IsLeafChoice(b, Success(leaf')) && IsChain(m', leaf', s.value);
        SameLeaf(a, b, leafA, Success(leaf'));
        SameParents(a, b, m, m');
        ChainUnique(m, leaf, r.value, s.value);
      } else {
        SameLeaf(a, b, leafA, leafB);
      }
    } else if s.Success? {
      var m', leaf' :| IsParentMap(b, m') && IsLeafChoice(b, Success(leaf')) && IsChain(m', leaf', s.value);
      SameLeaf(a, b, leafA, Success(leaf'));
    }
  }
}
