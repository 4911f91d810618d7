/** Small vocabulary for sequences. */
module Seqs {

  function Front<X>(s: seq<X>): seq<X>
    requires s != []
  {
    s[..|s| - 1]
  }

  function Last<X>(s: seq<X>): X
    requires s != []
  {
    s[|s| - 1]
  }

  ghost predicate Distinct<X>(s: seq<X>) {
    forall i, j :: 0 <= i < j < |s| ==> s[i] != s[j]
  }

  function When<X>(condition: bool, x: X): seq<X> {
    if condition then [x] else []
  }

  /** The elements that meet the condition, in order. */
  function Keep<X>(s: seq<X>, p: X -> bool): seq<X> {
    if s == [] then [] else Keep(Front(s), p) + When(p(Last(s)), Last(s))
  }

  lemma KeepAppend<X>(s: seq<X>, x: X, p: X -> bool)
    ensures Keep(s + [x], p) == Keep(s, p) + When(p(x), x)
  {
    assert Front(s + [x]) == s;
  }

  lemma {:induction false} KeepConcat<X>(s: seq<X>, t: seq<X>, p: X -> bool)
    ensures Keep(s + t, p) == Keep(s, p) + Keep(t, p)
  {
    if t == [] {
      assert s + t == s;
    } else {
      KeepConcat(s, Front(t), p);
      FrontOfSum(s, t);
    }
  }

  lemma FrontOfSum<X>(s: seq<X>, t: seq<X>)
    requires t != []
    ensures s + t != [] && Front(s + t) == s + Front(t) && Last(s + t) == Last(t)
  {
  }

  lemma {:induction false} KeepHolds<X>(s: seq<X>, p: X -> bool)
    ensures forall x :: x in Keep(s, p) <==> x in s && p(x)
  {
    if s != [] {
      KeepHolds(Front(s), p);
      assert s == Front(s) + [Last(s)];
    }
  }

  lemma KeepThree<X>(a: X, b: X, c: X, p: X -> bool)
    ensures Keep([a, b, c], p) == When(p(a), a) + When(p(b), b) + When(p(c), c)
  {
    KeepAppend([], a, p);
    KeepAppend([a], b, p);
    KeepAppend([a, b], c, p);
    assert [a] + [b] == [a, b];
    assert [a, b] + [c] == [a, b, c];
  }

  lemma KeepFive<X>(a: X, b: X, c: X, d: X, e: X, p: X -> bool)
    ensures Keep([a, b, c, d, e], p) == When(p(a), a) + When(p(b), b) + When(p(c), c) + When(p(d), d) + When(p(e), e)
  {
    KeepThree(a, b, c, p);
    KeepAppend([a, b, c], d, p);
    KeepAppend([a, b, c, d], e, p);
    assert [a, b, c] + [d] == [a, b, c, d];
    assert [a, b, c, d] + [e] == [a, b, c, d, e];
  }
}
