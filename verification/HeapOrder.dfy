/**
  The binary min-heap order on a sequence of keys, and what one exchange of a node
  with its parent does to it. Positions from n on do not belong to the heap.
*/
module HeapOrder {

  function Parent(j: nat): nat
    requires 0 < j
  {
    (j - 1) / 2
  }

  /** Position j is in order with its parent. */
  ghost predicate InOrder(k: seq<int>, j: nat) {
    0 < j < |k| ==> k[Parent(j)] <= k[j]
  }

  predicate IsChild(i: nat, j: nat) {
    j == 2 * i + 1 || j == 2 * i + 2
  }

  ghost predicate Heap(k: seq<int>, n: nat) {
    forall j: nat :: j < n ==> InOrder(k, j)
  }

  /** The children of i are in order with its parent, which no change of the key at i affects. */
  ghost predicate Bridged(k: seq<int>, n: nat, i: nat)
    requires i < n <= |k|
  {
    0 < i ==>
      && (2 * i + 1 < n ==> k[Parent(i)] <= k[2 * i + 1])
      && (2 * i + 2 < n ==> k[Parent(i)] <= k[2 * i + 2])
  }

  /** Heap order except possibly between i and its parent. */
  ghost predicate HeapButUp(k: seq<int>, n: nat, i: nat)
    requires i < n <= |k|
  {
    Bridged(k, n, i) && forall j: nat :: j < n && j != i ==> InOrder(k, j)
  }

  /** Heap order except possibly around i. */
  ghost predicate HeapBut(k: seq<int>, n: nat, i: nat)
    requires i < n <= |k|
  {
    Bridged(k, n, i) && forall j: nat :: j < n && j != i && !IsChild(i, j) ==> InOrder(k, j)
  }

  function Exchange<X>(s: seq<X>, i: nat, j: nat): (r: seq<X>)
    requires i < |s| && j < |s|
    ensures |r| == |s|
  {
    s[i := s[j]][j := s[i]]
  }

  /** One turn of sifting up: done, or the key at i trades places with its parent. */
  lemma SiftUp(k: seq<int>, n: nat, i: nat)
    requires i < n <= |k| && HeapButUp(k, n, i)
    ensures InOrder(k, i) ==> Heap(k, n)
    ensures !InOrder(k, i) ==> HeapButUp(Exchange(k, Parent(i), i), n, Parent(i))
  {
    if !InOrder(k, i) {
      var p := Parent(i);
      var r := Exchange(k, p, i);
      forall j: nat | j < n && j != p ensures InOrder(r, j) {
        assert j == i || InOrder(k, j);
        assert IsChild(i, j) ==> j == 2 * i + 1 || j == 2 * i + 2;
      }
      if 0 < p {
        assert InOrder(k, p);
        assert 2 * p + 1 < n ==> 2 * p + 1 == i || InOrder(k, 2 * p + 1);
        assert 2 * p + 2 < n ==> 2 * p + 2 == i || InOrder(k, 2 * p + 2);
      }
    }
  }

  /**
    One turn of sifting down, where c is the child of i with the lesser key: either i
    is in order with its children, or its key trades places with that of c.
  */
  lemma SiftDown(k: seq<int>, n: nat, i: nat, c: nat)
    requires i < n <= |k| && IsChild(i, c) && c < n && HeapBut(k, n, i)
    requires k[c] <= k[2 * i + 1] && (2 * i + 2 < n ==> k[c] <= k[2 * i + 2])
    ensures k[i] <= k[c] ==> HeapButUp(k, n, i) && (InOrder(k, i) ==> Heap(k, n))
    ensures k[c] < k[i] ==> HeapBut(Exchange(k, i, c), n, c) && InOrder(Exchange(k, i, c), c)
  {
    if k[i] <= k[c] {
      forall j: nat | j < n && j != i ensures InOrder(k, j) {
        assert IsChild(i, j) || InOrder(k, j);
      }
    } else {
      var r := Exchange(k, i, c);
      forall j: nat | j < n && j != c && !IsChild(c, j) ensures InOrder(r, j) {
        assert j == i || IsChild(i, j) || InOrder(k, j);
      }
      assert 2 * c + 1 < n ==> InOrder(k, 2 * c + 1);
      assert 2 * c + 2 < n ==> InOrder(k, 2 * c + 2);
    }
  }

  /** Sifting down ends at a leaf. */
  lemma Leaf(k: seq<int>, n: nat, i: nat)
    requires i < n <= |k| && 2 * i + 1 >= n && HeapBut(k, n, i)
    ensures HeapButUp(k, n, i) && (InOrder(k, i) ==> Heap(k, n))
  {
  }

  lemma {:induction false} RootIsLeast(k: seq<int>, n: nat, i: nat)
    requires i < n <= |k| && Heap(k, n)
    ensures k[0] <= k[i]
    decreases i
  {
    if 0 < i {
      assert InOrder(k, i);
      RootIsLeast(k, n, Parent(i));
    }
  }

  /** A change of the key at one position leaves a heap in order everywhere else. */
  lemma Disturbed(k: seq<int>, n: nat, i: nat, r: seq<int>)
    requires i < n <= |k| && Heap(k, n) && n <= |r|
    requires forall j :: 0 <= j < n && j != i ==> r[j] == k[j]
    ensures HeapBut(r, n, i)
  {
    assert InOrder(k, i);
    assert 2 * i + 1 < n ==> InOrder(k, 2 * i + 1);
    assert 2 * i + 2 < n ==> InOrder(k, 2 * i + 2);
    forall j: nat | j < n && j != i && !IsChild(i, j) ensures InOrder(r, j) {
      assert InOrder(k, j);
    }
  }

  /** A new key at the end can only be out of order with its parent. */
  lemma Appended(k: seq<int>, x: int)
    requires Heap(k, |k|)
    ensures HeapButUp(k + [x], |k| + 1, |k|)
  {
    forall j: nat | j < |k| ensures InOrder(k + [x], j) {
      assert InOrder(k, j);
    }
  }

  /** The heap order of a prefix does not depend on what follows it. */
  lemma HeapPrefix(k: seq<int>, r: seq<int>, n: nat)
    requires n <= |k| && n <= |r| && Heap(k, n) && forall j :: 0 <= j < n ==> r[j] == k[j]
    ensures Heap(r, n)
  {
    forall j: nat | j < n ensures InOrder(r, j) {
      assert InOrder(k, j);
    }
  }
}
