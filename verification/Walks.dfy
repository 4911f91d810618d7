/**
  Finite graphs in which every node has at most one successor, such as a map from
  certificates to their parents. Following successors either ends at a node that
  has none or enters a cycle.
*/
module Walks {
  import opened Wrappers

  /** The node k steps from x, if the walk gets that far. */
  function Walk<K(==)>(p: map<K, K>, x: K, k: nat): Option<K> {
    if k == 0 then Some(x)
    else if x in p then Walk(p, p[x], k - 1)
    else None
  }

  ghost predicate Reaches<K>(p: map<K, K>, x: K, y: K) {
    exists k: nat :: Walk(p, x, k) == Some(y)
  }

  ghost predicate OnCycle<K>(p: map<K, K>, x: K) {
    x in p && Reaches(p, p[x], x)
  }

  /** The walk from x ends. */
  ghost predicate Grounded<K>(p: map<K, K>, x: K) {
    exists k: nat :: Walk(p, x, k) == None
  }

  ghost predicate Acyclic<K(!new)>(p: map<K, K>) {
    forall x :: x in p ==> !OnCycle(p, x)
  }

  ghost predicate Closed<K>(p: map<K, K>, nodes: set<K>) {
    p.Keys <= nodes && forall x :: x in p ==> p[x] in nodes
  }

  lemma {:induction false} WalkAdd<K>(p: map<K, K>, x: K, i: nat, j: nat)
    ensures Walk(p, x, i + j) == match Walk(p, x, i) case None => None case Some(y) => Walk(p, y, j)
    decreases i
  {
    if i > 0 && x in p {
      WalkAdd(p, p[x], i - 1, j);
    }
  }

  lemma ReachesTrans<K>(p: map<K, K>, x: K, y: K, z: K)
    requires Reaches(p, x, y) && Reaches(p, y, z)
    ensures Reaches(p, x, z)
  {
    var i: nat :| Walk(p, x, i) == Some(y);
    var j: nat :| Walk(p, y, j) == Some(z);
    WalkAdd(p, x, i, j);
  }

  lemma ReachesStep<K>(p: map<K, K>, x: K)
    ensures Reaches(p, x, x)
    ensures x in p ==> Reaches(p, x, p[x])
  {
    assert Walk(p, x, 0) == Some(x);
    if x in p {
      assert Walk(p, p[x], 0) == Some(p[x]);
      assert Walk(p, x, 1) == Some(p[x]);
    }
  }

  /** The first step of a walk that goes anywhere. */
  lemma ReachesSplit<K>(p: map<K, K>, x: K, y: K)
    requires Reaches(p, x, y)
    ensures x == y || (x in p && Reaches(p, p[x], y))
  {
    var k: nat :| Walk(p, x, k) == Some(y);
    if k > 0 {
      assert Walk(p, p[x], k - 1) == Some(y);
    }
  }

  /** A node without successor is the only such node that a walk can reach. */
  lemma {:induction false} OneRoot<K>(p: map<K, K>, x: K, r: K, r': K)
    requires Reaches(p, x, r) && Reaches(p, x, r') && r !in p && r' !in p
    ensures r == r'
  {
    var i: nat :| Walk(p, x, i) == Some(r);
    var j: nat :| Walk(p, x, j) == Some(r');
    if i <= j {
      WalkAdd(p, x, i, j - i);
    } else {
      WalkAdd(p, x, j, i - j);
    }
  }

  /** The walk of a grounded node ends at a root. */
  lemma {:induction false} GroundedReachesRoot<K>(p: map<K, K>, x: K, k: nat) returns (r: K)
    requires Walk(p, x, k) == None
    ensures r !in p && Reaches(p, x, r)
    decreases k
  {
    if x !in p {
      r := x;
      ReachesStep(p, x);
    } else {
      r := GroundedReachesRoot(p, p[x], k - 1);
      ReachesStep(p, x);
      ReachesTrans(p, x, p[x], r);
    }
  }

  lemma RootGrounds<K>(p: map<K, K>, x: K, r: K)
    requires Reaches(p, x, r) && r !in p
    ensures Grounded(p, x)
  {
    var k: nat :| Walk(p, x, k) == Some(r);
    WalkAdd(p, x, k, 1);
    assert Walk(p, x, k + 1) == None;
  }

  /** A walk that enters a cycle never ends. */
  lemma {:induction false} CycleNeverEnds<K>(p: map<K, K>, x: K, c: nat, k: nat)
    requires c > 0 && Walk(p, x, c) == Some(x)
    ensures Walk(p, x, k).Some?
    decreases k
  {
    if k < c {
      WalkAdd(p, x, k, c - k);
    } else {
      WalkAdd(p, x, c, k - c);
      CycleNeverEnds(p, x, c, k - c);
    }
  }

  lemma GroundedAvoidsCycles<K>(p: map<K, K>, x: K, y: K)
    requires Grounded(p, x) && Reaches(p, x, y)
    ensures !OnCycle(p, y)
  {
    if OnCycle(p, y) {
      var n: nat :| Walk(p, x, n) == None;
      var i: nat :| Walk(p, x, i) == Some(y);
      var c: nat :| Walk(p, p[y], c) == Some(y);
      assert Walk(p, y, c + 1) == Some(y);
      CycleNeverEnds(p, y, c + 1, n);
      WalkAdd(p, x, i, n);
      WalkAdd(p, x, n, i);
    }
  }

  /** In a finite graph a walk ends or meets itself: the visited nodes run out. */
  lemma {:induction false} GroundedOrCyclic<K>(p: map<K, K>, nodes: set<K>, x: K, visited: set<K>) returns (y: K)
    requires Closed(p, nodes) && x in nodes
    requires forall v :: v in visited ==> v in p && Reaches(p, p[v], x)
    ensures y in nodes && Reaches(p, x, y) && (y !in p || OnCycle(p, y))
    decreases nodes - visited
  {
    ReachesStep(p, x);
    if x !in p || x in visited {
      y := x;
    } else {
      forall v | v in visited + {x} ensures v in p && Reaches(p, p[v], p[x]) {
        if v in visited {
          ReachesTrans(p, p[v], x, p[x]);
        } else {
          ReachesStep(p, p[x]);
        }
      }
      y := GroundedOrCyclic(p, nodes, p[x], visited + {x});
      ReachesTrans(p, x, p[x], y);
    }
  }

  /** Every walk ends if and only if there is no cycle. */
  lemma AllGroundedIffAcyclic<K(!new)>(p: map<K, K>, nodes: set<K>)
    requires Closed(p, nodes)
    ensures (forall x :: x in nodes ==> Grounded(p, x)) <==> Acyclic(p)
  {
    if forall x :: x in nodes ==> Grounded(p, x) {
      forall x | x in p ensures !OnCycle(p, x) {
        ReachesStep(p, x);
        GroundedAvoidsCycles(p, x, x);
      }
    }
    if Acyclic(p) {
      forall x | x in nodes ensures Grounded(p, x) {
        var y := GroundedOrCyclic(p, nodes, x, {});
        RootGrounds(p, x, y);
      }
    }
  }
}
