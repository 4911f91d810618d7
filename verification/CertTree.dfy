/** The forest of certificates: children, roots and the depth-first rendering. */
module CertTree {
  import opened Wrappers
  import opened Seqs
  import opened Certs
  import opened Walks
  import opened ParentMaps

  type Children = map<Fingerprint, seq<Cert>>

  /** One rendered node and its indentation. */
  datatype Item = Item(depth: nat, cert: Cert)

  datatype Out = Out(visited: set<Fingerprint>, items: seq<Item>, notes: seq<Fingerprint>)

  function Kids(ch: Children, f: Fingerprint): seq<Cert> {
    if f in ch then ch[f] else []
  }

  // ---------- Children and roots ----------

  /** The certificates whose parent is f, in the order of the union. */
  function ChildrenOf(all: seq<Cert>, m: ParentMap, f: Fingerprint): seq<Cert> {
    if all == [] then []
    else
      var c, rest := Last(all), ChildrenOf(Front(all), m, f);
      if c.fp in m && m[c.fp].fp == f then rest + [c] else rest
  }

  ghost predicate IsChildMap(all: seq<Cert>, m: ParentMap, ch: Children) {
    forall f: Fingerprint :: Kids(ch, f) == ChildrenOf(all, m, f)
  }

  method BuildChildren(all: seq<Cert>, parents: ParentMap) returns (children: Children)
    ensures IsChildMap(all, parents, children)
  {
    children := map[];
    for i := 0 to |all|
      invariant IsChildMap(all[..i], parents, children)
    {
      var cert := all[i];
      assert Front(all[..i + 1]) == all[..i];
      if cert.fp in parents {
        var pfp := parents[cert.fp].fp;
        children := children[pfp := Kids(children, pfp) + [cert]];
      }
    }
    assert all[..|all|] == all;
  }

  /** Children are exactly the inverse of the parent map. */
  lemma {:induction false} ChildrenInvert(all: seq<Cert>, m: ParentMap, f: Fingerprint, c: Cert)
    ensures c in ChildrenOf(all, m, f) <==> c in all && c.fp in m && m[c.fp].fp == f
  {
    if all != [] {
      ChildrenInvert(Front(all), m, f, c);
      assert all == Front(all) + [Last(all)];
    }
  }

  /** Children stand in the order of the union. */
  lemma {:induction false} ChildrenInOrder(all: seq<Cert>, m: ParentMap, f: Fingerprint) returns (from: seq<nat>)
    ensures |from| == |ChildrenOf(all, m, f)|
    ensures forall k :: 0 <= k < |from| ==> from[k] < |all| && ChildrenOf(all, m, f)[k] == all[from[k]]
    ensures forall k, l :: 0 <= k < l < |from| ==> from[k] < from[l]
  {
    if all == [] {
      from := [];
    } else {
      from := ChildrenInOrder(Front(all), m, f);
      if Last(all).fp in m && m[Last(all).fp].fp == f {
        from := from + [|all| - 1];
      }
    }
  }

  /** The certificates without parent, in the order of the union. */
  function RootsOf(all: seq<Cert>, m: ParentMap): seq<Cert> {
    if all == [] then []
    else if Last(all).fp in m then RootsOf(Front(all), m)
    else RootsOf(Front(all), m) + [Last(all)]
  }

  method CollectRoots(all: seq<Cert>, parents: ParentMap) returns (roots: seq<Cert>)
    ensures roots == RootsOf(all, parents)
  {
    roots := [];
    for i := 0 to |all|
      invariant roots == RootsOf(all[..i], parents)
    {
      assert Front(all[..i + 1]) == all[..i];
      if all[i].fp !in parents {
        roots := roots + [all[i]];
      }
    }
    assert all[..|all|] == all;
  }

  /** Roots stand in the order of the union. */
  lemma {:induction false} RootsInOrder(all: seq<Cert>, m: ParentMap) returns (from: seq<nat>)
    ensures |from| == |RootsOf(all, m)|
    ensures forall k :: 0 <= k < |from| ==> from[k] < |all| && RootsOf(all, m)[k] == all[from[k]]
    ensures forall k, l :: 0 <= k < l < |from| ==> from[k] < from[l]
  {
    if all == [] {
      from := [];
    } else {
      from := RootsInOrder(Front(all), m);
      if Last(all).fp !in m {
        from := from + [|all| - 1];
      }
    }
  }

  lemma {:induction false} RootsMembers(all: seq<Cert>, m: ParentMap, c: Cert)
    ensures c in RootsOf(all, m) <==> c in all && c.fp !in m
  {
    if all != [] {
      RootsMembers(Front(all), m, c);
      assert all == Front(all) + [Last(all)];
    }
  }

  lemma {:induction false} RootsDeduped(all: seq<Cert>, m: ParentMap)
    requires Deduped(all)
    ensures Deduped(RootsOf(all, m))
  {
    if all != [] {
      RootsDeduped(Front(all), m);
      var prefix := RootsOf(Front(all), m);
      forall k | 0 <= k < |prefix| ensures prefix[k].fp != Last(all).fp {
        RootsMembers(Front(all), m, prefix[k]);
      }
    }
  }

  // ---------- The traversal ----------

  /** Every child has its fingerprint among the nodes. */
  ghost predicate Inside(ch: Children, nodes: set<Fingerprint>) {
    forall f, c :: f in ch && c in ch[f] ==> c.fp in nodes
  }

  ghost predicate AllIn(cs: seq<Cert>, nodes: set<Fingerprint>) {
    forall c :: c in cs ==> c.fp in nodes
  }

  /** Render a node and what is below it, or only note that it has been visited. */
  ghost function Dfs(ch: Children, nodes: set<Fingerprint>, c: Cert, depth: nat, v: set<Fingerprint>): (r: Out)
    requires Inside(ch, nodes) && c.fp in nodes
    ensures v <= r.visited
    decreases nodes - v, 0, 0
  {
    if c.fp in v then Out(v, [], [c.fp])
    else
      var r := DfsAll(ch, nodes, Kids(ch, c.fp), depth + 1, v + {c.fp});
      Out(r.visited, [Item(depth, c)] + r.items, r.notes)
  }

  /** Render several nodes one after the other. */
  ghost function DfsAll(ch: Children, nodes: set<Fingerprint>, cs: seq<Cert>, depth: nat, v: set<Fingerprint>): (r: Out)
    requires Inside(ch, nodes) && AllIn(cs, nodes)
    ensures v <= r.visited
    decreases nodes - v, 1, |cs|
  {
    if cs == [] then Out(v, [], [])
    else
      var a := DfsAll(ch, nodes, Front(cs), depth, v);
      var b := Dfs(ch, nodes, Last(cs), depth, a.visited);
      Out(b.visited, a.items + b.items, a.notes + b.notes)
  }

  /** The list writer, the visited set and the diagnostics that the recursion updates. */
  class TreeWriter {
    var visited: set<Fingerprint>
    var items: seq<Item>
    var depth: nat
    var notes: seq<Fingerprint>

    constructor ()
      ensures visited == {} && items == [] && depth == 0 && notes == []
    {
      visited, items, depth, notes := {}, [], 0, [];
    }

    method WriteTreeNode(cert: Cert, children: Children, ghost nodes: set<Fingerprint>)
      requires Inside(children, nodes) && cert.fp in nodes
      modifies this
      ensures var r := Dfs(children, nodes, cert, old(depth), old(visited));
              visited == r.visited && items == old(items) + r.items && notes == old(notes) + r.notes
      ensures depth == old(depth)
      decreases nodes - visited, 0
    {
      if cert.fp in visited {
        notes := notes + [cert.fp];
        return;
      }
      visited := visited + {cert.fp};
      items := items + [Item(depth, cert)];
      depth := depth + 1;
      ghost var r := DfsAll(children, nodes, Kids(children, cert.fp), depth, visited);
      assert nodes - visited < nodes - old(visited);
      WriteChildren(Kids(children, cert.fp), children, nodes);
      assert items == old(items) + ([Item(old(depth), cert)] + r.items);
      depth := depth - 1;
    }

    /** The loop of WriteTreeNode over the children of a node. */
    method WriteChildren(kids: seq<Cert>, children: Children, ghost nodes: set<Fingerprint>)
      requires Inside(children, nodes) && AllIn(kids, nodes)
      modifies this
      ensures var r := DfsAll(children, nodes, kids, depth, old(visited));
              visited == r.visited && items == old(items) + r.items && notes == old(notes) + r.notes
      ensures depth == old(depth)
      decreases nodes - visited, 1
    {
      for i := 0 to |kids|
        invariant depth == old(depth) && AllIn(kids[..i], nodes)
        invariant var r := DfsAll(children, nodes, kids[..i], depth, old(visited));
                  visited == r.visited && items == old(items) + r.items && notes == old(notes) + r.notes
      {
        assert Front(kids[..i + 1]) == kids[..i];
        assert nodes - visited <= nodes - old(visited);
        WriteTreeNode(kids[i], children, nodes);
      }
      assert kids[..|kids|] == kids;
    }
  }

  // ---------- Accounting ----------

  function ItemFps(items: seq<Item>): seq<Fingerprint> {
    seq(|items|, i requires 0 <= i < |items| => items[i].cert.fp)
  }

  function FpSeq(cs: seq<Cert>): (r: seq<Fingerprint>)
    ensures |r| == |cs| && forall i :: 0 <= i < |cs| ==> r[i] == cs[i].fp
  {
    if cs == [] then [] else FpSeq(Front(cs)) + [Last(cs).fp]
  }

  lemma FpSeqSnoc(cs: seq<Cert>, c: Cert)
    ensures FpSeq(cs + [c]) == FpSeq(cs) + [c.fp]
  {
    assert Front(cs + [c]) == cs;
  }

  /** How often y is rendered. */
  function Shown(items: seq<Item>, y: Fingerprint): nat {
    multiset(ItemFps(items))[y]
  }

  function One(b: bool): nat {
    if b then 1 else 0
  }

  lemma CountAdd(a: seq<Fingerprint>, b: seq<Fingerprint>, y: Fingerprint)
    ensures multiset(a + b)[y] == multiset(a)[y] + multiset(b)[y]
  {
  }

  lemma ShownAdd(a: seq<Item>, b: seq<Item>, y: Fingerprint)
    ensures Shown(a + b, y) == Shown(a, y) + Shown(b, y)
  {
    assert ItemFps(a + b) == ItemFps(a) + ItemFps(b);
  }

  /** The children of each node are, once each, the nodes whose parent it is. */
  ghost predicate Inverts(ch: Children, p: map<Fingerprint, Fingerprint>) {
    forall f: Fingerprint, y: Fingerprint :: InvertsAt(ch, p, f, y)
  }

  ghost predicate InvertsAt(ch: Children, p: map<Fingerprint, Fingerprint>, f: Fingerprint, y: Fingerprint) {
    multiset(FpSeq(Kids(ch, f)))[y] == One(y in p && p[y] == f)
  }

  /** A traversal renders what it newly visits, once each. */
  lemma {:induction false} DfsShows(ch: Children, nodes: set<Fingerprint>, c: Cert, d: nat, v: set<Fingerprint>,
                                    y: Fingerprint)
    requires Inside(ch, nodes) && c.fp in nodes
    ensures var r := Dfs(ch, nodes, c, d, v); Shown(r.items, y) == One(y in r.visited && y !in v)
    decreases nodes - v, 0, 0
  {
    if c.fp !in v {
      var r := DfsAll(ch, nodes, Kids(ch, c.fp), d + 1, v + {c.fp});
      DfsAllShows(ch, nodes, Kids(ch, c.fp), d + 1, v + {c.fp}, y);
      ShownAdd([Item(d, c)], r.items, y);
      assert ItemFps([Item(d, c)]) == [c.fp];
    }
  }

  lemma {:induction false} DfsAllShows(ch: Children, nodes: set<Fingerprint>, cs: seq<Cert>, d: nat,
                                       v: set<Fingerprint>, y: Fingerprint)
    requires Inside(ch, nodes) && AllIn(cs, nodes)
    ensures var r := DfsAll(ch, nodes, cs, d, v); Shown(r.items, y) == One(y in r.visited && y !in v)
    decreases nodes - v, 1, |cs|
  {
    if cs != [] {
      var a := DfsAll(ch, nodes, Front(cs), d, v);
      var b := Dfs(ch, nodes, Last(cs), d, a.visited);
      DfsAllShows(ch, nodes, Front(cs), d, v, y);
      DfsShows(ch, nodes, Last(cs), d, a.visited, y);
      ShownAdd(a.items, b.items, y);
    }
  }

  /** The parent of y is among the nodes visited since v. */
  ghost predicate ParentIsNew(p: map<Fingerprint, Fingerprint>, y: Fingerprint, v: set<Fingerprint>,
                              w: set<Fingerprint>)
  {
    y in p && p[y] in w && p[y] !in v
  }

  lemma NewSplit(p: map<Fingerprint, Fingerprint>, y: Fingerprint, u: set<Fingerprint>, v: set<Fingerprint>,
                 w: set<Fingerprint>)
    requires u <= v <= w
    ensures One(ParentIsNew(p, y, u, w)) == One(ParentIsNew(p, y, u, v)) + One(ParentIsNew(p, y, v, w))
  {
  }

  /**
    Every arrival at a node is either rendered or noted: there is one for the start
    and one from the parent, if the parent is newly visited.
  */
  lemma {:induction false} DfsArrivals(ch: Children, nodes: set<Fingerprint>, p: map<Fingerprint, Fingerprint>,
                                       c: Cert, d: nat, v: set<Fingerprint>, y: Fingerprint)
    requires Inside(ch, nodes) && c.fp in nodes && Inverts(ch, p)
    ensures var r := Dfs(ch, nodes, c, d, v);
            Shown(r.items, y) + multiset(r.notes)[y] ==
            One(y == c.fp) + One(ParentIsNew(p, y, v, r.visited))
    decreases nodes - v, 0, 0
  {
    if c.fp !in v {
      var kids := Kids(ch, c.fp);
      var r := DfsAll(ch, nodes, kids, d + 1, v + {c.fp});
      DfsAllArrivals(ch, nodes, p, kids, d + 1, v + {c.fp}, y);
      assert InvertsAt(ch, p, c.fp, y);
      SumBelow(p, Item(d, c), r, v, y);
    }
  }

  lemma SumBelow(p: map<Fingerprint, Fingerprint>, start: Item, r: Out, v: set<Fingerprint>, y: Fingerprint)
    requires start.cert.fp !in v && start.cert.fp in r.visited
    requires Shown(r.items, y) + multiset(r.notes)[y] ==
             One(y in p && p[y] == start.cert.fp) + One(ParentIsNew(p, y, v + {start.cert.fp}, r.visited))
    ensures Shown([start] + r.items, y) + multiset(r.notes)[y] ==
            One(y == start.cert.fp) + One(ParentIsNew(p, y, v, r.visited))
  {
    ShownAdd([start], r.items, y);
    assert ItemFps([start]) == [start.cert.fp];
  }

  lemma {:induction false} DfsAllArrivals(ch: Children, nodes: set<Fingerprint>, p: map<Fingerprint, Fingerprint>,
                                          cs: seq<Cert>, d: nat, v: set<Fingerprint>, y: Fingerprint)
    requires Inside(ch, nodes) && AllIn(cs, nodes) && Inverts(ch, p)
    ensures var r := DfsAll(ch, nodes, cs, d, v);
            Shown(r.items, y) + multiset(r.notes)[y] ==
            multiset(FpSeq(cs))[y] + One(ParentIsNew(p, y, v, r.visited))
    decreases nodes - v, 1, |cs|
  {
    if cs != [] {
      var a := DfsAll(ch, nodes, Front(cs), d, v);
      var b := Dfs(ch, nodes, Last(cs), d, a.visited);
      DfsAllArrivals(ch, nodes, p, Front(cs), d, v, y);
      DfsArrivals(ch, nodes, p, Last(cs), d, a.visited, y);
      SumArrivals(p, a, b, FpSeq(Front(cs)), Last(cs).fp, v, y);
    }
  }

  lemma SumArrivals(p: map<Fingerprint, Fingerprint>, a: Out, b: Out, fps: seq<Fingerprint>, f: Fingerprint,
                    v: set<Fingerprint>, y: Fingerprint)
    requires v <= a.visited <= b.visited
    requires Shown(a.items, y) + multiset(a.notes)[y] == multiset(fps)[y] + One(ParentIsNew(p, y, v, a.visited))
    requires Shown(b.items, y) + multiset(b.notes)[y] == One(y == f) + One(ParentIsNew(p, y, a.visited, b.visited))
    ensures Shown(a.items + b.items, y) + multiset(a.notes + b.notes)[y] ==
            multiset(fps + [f])[y] + One(ParentIsNew(p, y, v, b.visited))
  {
    ShownAdd(a.items, b.items, y);
    CountAdd(a.notes, b.notes, y);
    CountAdd(fps, [f], y);
    NewSplit(p, y, v, a.visited, b.visited);
  }

  // ---------- What is visited ----------

  lemma KidIsChild(ch: Children, p: map<Fingerprint, Fingerprint>, f: Fingerprint, k: nat)
    requires Inverts(ch, p) && k < |Kids(ch, f)|
    ensures Kids(ch, f)[k].fp in p && p[Kids(ch, f)[k].fp] == f
  {
    var kids := FpSeq(Kids(ch, f));
    assert kids[k] in multiset(kids);
    assert InvertsAt(ch, p, f, kids[k]);
  }

  /** A newly visited node has the start among its ancestors. */
  lemma {:induction false} DfsReaches(ch: Children, nodes: set<Fingerprint>, p: map<Fingerprint, Fingerprint>,
                                      c: Cert, d: nat, v: set<Fingerprint>, y: Fingerprint)
    requires Inside(ch, nodes) && c.fp in nodes && Inverts(ch, p)
    requires y in Dfs(ch, nodes, c, d, v).visited && y !in v
    ensures Reaches(p, y, c.fp)
    decreases nodes - v, 0, 0
  {
    if y == c.fp {
      ReachesStep(p, y);
    } else {
      var kids := Kids(ch, c.fp);
      var k := DfsAllReaches(ch, nodes, p, kids, d + 1, v + {c.fp}, y);
      KidIsChild(ch, p, c.fp, k);
      ReachesStep(p, kids[k].fp);
      ReachesTrans(p, y, kids[k].fp, c.fp);
    }
  }

  lemma {:induction false} DfsAllReaches(ch: Children, nodes: set<Fingerprint>, p: map<Fingerprint, Fingerprint>,
                                         cs: seq<Cert>, d: nat, v: set<Fingerprint>, y: Fingerprint) returns (k: nat)
    requires Inside(ch, nodes) && AllIn(cs, nodes) && Inverts(ch, p)
    requires y in DfsAll(ch, nodes, cs, d, v).visited && y !in v
    ensures k < |cs| && Reaches(p, y, cs[k].fp)
    decreases nodes - v, 1, |cs|
  {
    var a := DfsAll(ch, nodes, Front(cs), d, v);
    if y in a.visited {
      k := DfsAllReaches(ch, nodes, p, Front(cs), d, v, y);
    } else {
      DfsReaches(ch, nodes, p, Last(cs), d, a.visited, y);
      k := |cs| - 1;
    }
  }

  /** The children of a newly visited node are visited too. */
  lemma {:induction false} DfsCloses(ch: Children, nodes: set<Fingerprint>, p: map<Fingerprint, Fingerprint>,
                                     c: Cert, d: nat, v: set<Fingerprint>, y: Fingerprint)
    requires Inside(ch, nodes) && c.fp in nodes && Inverts(ch, p)
    requires y in p && p[y] in Dfs(ch, nodes, c, d, v).visited && p[y] !in v
    ensures y in Dfs(ch, nodes, c, d, v).visited
    decreases nodes - v, 0, 0
  {
    var kids := Kids(ch, c.fp);
    if p[y] == c.fp {
      assert InvertsAt(ch, p, c.fp, y);
      assert y in FpSeq(kids);
      var k :| 0 <= k < |kids| && kids[k].fp == y;
      DfsAllVisits(ch, nodes, kids, d + 1, v + {c.fp}, k);
    } else {
      DfsAllCloses(ch, nodes, p, kids, d + 1, v + {c.fp}, y);
    }
  }

  lemma {:induction false} DfsAllCloses(ch: Children, nodes: set<Fingerprint>, p: map<Fingerprint, Fingerprint>,
                                        cs: seq<Cert>, d: nat, v: set<Fingerprint>, y: Fingerprint)
    requires Inside(ch, nodes) && AllIn(cs, nodes) && Inverts(ch, p)
    requires y in p && p[y] in DfsAll(ch, nodes, cs, d, v).visited && p[y] !in v
    ensures y in DfsAll(ch, nodes, cs, d, v).visited
    decreases nodes - v, 1, |cs|
  {
    var a := DfsAll(ch, nodes, Front(cs), d, v);
    if p[y] in a.visited {
      DfsAllCloses(ch, nodes, p, Front(cs), d, v, y);
    } else {
      DfsCloses(ch, nodes, p, Last(cs), d, a.visited, y);
    }
  }

  lemma {:induction false} DfsAllVisits(ch: Children, nodes: set<Fingerprint>, cs: seq<Cert>, d: nat,
                                        v: set<Fingerprint>, k: nat)
    requires Inside(ch, nodes) && AllIn(cs, nodes) && k < |cs|
    ensures cs[k].fp in DfsAll(ch, nodes, cs, d, v).visited
  {
    if k < |cs| - 1 {
      DfsAllVisits(ch, nodes, Front(cs), d, v, k);
    }
  }

  // ---------- One tree ----------

  /** A traversal from s with nothing visited yet visits the descendants of s. */
  lemma TreeVisits(ch: Children, nodes: set<Fingerprint>, p: map<Fingerprint, Fingerprint>, s: Cert, y: Fingerprint)
    requires Inside(ch, nodes) && s.fp in nodes && Inverts(ch, p)
    ensures y in Dfs(ch, nodes, s, 0, {}).visited <==> Reaches(p, y, s.fp)
  {
    if y in Dfs(ch, nodes, s, 0, {}).visited {
      DfsReaches(ch, nodes, p, s, 0, {}, y);
    }
    if Reaches(p, y, s.fp) {
      var k: nat :| Walk(p, y, k) == Some(s.fp);
      WalkIsVisited(ch, nodes, p, s, y, k);
    }
  }

  lemma {:induction false} WalkIsVisited(ch: Children, nodes: set<Fingerprint>, p: map<Fingerprint, Fingerprint>,
                                         s: Cert, y: Fingerprint, k: nat)
    requires Inside(ch, nodes) && s.fp in nodes && Inverts(ch, p) && Walk(p, y, k) == Some(s.fp)
    ensures y in Dfs(ch, nodes, s, 0, {}).visited
    decreases k
  {
    if k > 0 {
      WalkIsVisited(ch, nodes, p, s, p[y], k - 1);
      DfsCloses(ch, nodes, p, s, 0, {}, y);
    }
  }

  /**
    A tree shows each descendant of its start exactly once and nothing else. The
    start is noted as revisited, once, if it lies on a cycle; nothing else ever is.
  */
  lemma TreeShows(ch: Children, nodes: set<Fingerprint>, p: map<Fingerprint, Fingerprint>, s: Cert, y: Fingerprint)
    requires Inside(ch, nodes) && s.fp in nodes && Inverts(ch, p)
    ensures var r := Dfs(ch, nodes, s, 0, {});
            && Shown(r.items, y) == One(Reaches(p, y, s.fp))
            && multiset(r.notes)[y] == One(y == s.fp && OnCycle(p, y))
  {
    DfsShows(ch, nodes, s, 0, {}, y);
    DfsArrivals(ch, nodes, p, s, 0, {}, y);
    TreeVisits(ch, nodes, p, s, y);
    ReachesStep(p, y);
    if y in p {
      TreeVisits(ch, nodes, p, s, p[y]);
      if Reaches(p, p[y], s.fp) {
        ReachesTrans(p, y, p[y], s.fp);
      }
    }
    if Reaches(p, y, s.fp) {
      ReachesSplit(p, y, s.fp);
    }
  }

  // ---------- Indentation ----------

  /** The item at k stands below an earlier item, one level out, that is its parent; nothing between is further out. */
  ghost predicate Nested(p: map<Fingerprint, Fingerprint>, items: seq<Item>, k: nat)
    requires k < |items|
  {
    exists j: nat :: j < k && IsOwner(p, items, j, k)
  }

  ghost predicate IsOwner(p: map<Fingerprint, Fingerprint>, items: seq<Item>, j: nat, k: nat)
    requires j < k < |items|
  {
    && items[j].depth + 1 == items[k].depth
    && items[k].cert.fp in p && p[items[k].cert.fp] == items[j].cert.fp
    && forall i :: j < i < k ==> items[i].depth >= items[k].depth
  }

  lemma NestedShift(p: map<Fingerprint, Fingerprint>, a: seq<Item>, b: seq<Item>, k: nat)
    requires k < |b| && Nested(p, b, k)
    ensures Nested(p, a + b, |a| + k)
  {
    var j: nat :| j < k && IsOwner(p, b, j, k);
    assert IsOwner(p, a + b, |a| + j, |a| + k);
  }

  lemma NestedKeep(p: map<Fingerprint, Fingerprint>, a: seq<Item>, b: seq<Item>, k: nat)
    requires k < |a| && Nested(p, a, k)
    ensures Nested(p, a + b, k)
  {
    var j: nat :| j < k && IsOwner(p, a, j, k);
    assert IsOwner(p, a + b, j, k);
  }

  /** The item at k belongs at depth d, as one of the given nodes, or is nested further in. */
  ghost predicate Placed(p: map<Fingerprint, Fingerprint>, tops: seq<Fingerprint>, d: nat, items: seq<Item>, k: nat)
    requires k < |items|
  {
    items[k].depth >= d && if items[k].depth == d then items[k].cert.fp in tops else Nested(p, items, k)
  }

  ghost predicate AllPlaced(p: map<Fingerprint, Fingerprint>, tops: seq<Fingerprint>, d: nat, items: seq<Item>) {
    forall k: nat :: k < |items| ==> Placed(p, tops, d, items, k)
  }

  /** The first item is c at depth d, and the others are nested under it. */
  ghost predicate IsTree(p: map<Fingerprint, Fingerprint>, c: Cert, d: nat, items: seq<Item>) {
    items != [] && items[0] == Item(d, c) && forall k: nat :: 0 < k < |items| ==> Deeper(p, d, items, k)
  }

  ghost predicate Deeper(p: map<Fingerprint, Fingerprint>, d: nat, items: seq<Item>, k: nat)
    requires k < |items|
  {
    items[k].depth > d && Nested(p, items, k)
  }

  /**
    The parent of every rendered node but the start can be read off the indentation:
    it is the nearest earlier node that stands further out.
  */
  lemma {:induction false} DfsNests(ch: Children, nodes: set<Fingerprint>, p: map<Fingerprint, Fingerprint>,
                                    c: Cert, d: nat, v: set<Fingerprint>)
    requires Inside(ch, nodes) && c.fp in nodes && Inverts(ch, p)
    ensures var b := Dfs(ch, nodes, c, d, v).items; b == [] || IsTree(p, c, d, b)
    ensures c.fp !in v ==> IsTree(p, c, d, Dfs(ch, nodes, c, d, v).items)
    decreases nodes - v, 0, 0
  {
    if c.fp !in v {
      var kids := Kids(ch, c.fp);
      DfsAllNests(ch, nodes, p, kids, d + 1, v + {c.fp});
      BelowStart(ch, p, c, d, DfsAll(ch, nodes, kids, d + 1, v + {c.fp}).items);
    }
  }

  lemma BelowStart(ch: Children, p: map<Fingerprint, Fingerprint>, c: Cert, d: nat, rest: seq<Item>)
    requires Inverts(ch, p)
    requires AllPlaced(p, FpSeq(Kids(ch, c.fp)), d + 1, rest)
    ensures IsTree(p, c, d, [Item(d, c)] + rest)
  {
    var kids, b := FpSeq(Kids(ch, c.fp)), [Item(d, c)] + rest;
    forall k: nat | 0 < k < |b| ensures Deeper(p, d, b, k) {
      assert Placed(p, kids, d + 1, rest, k - 1);
      if rest[k - 1].depth == d + 1 {
        var f := rest[k - 1].cert.fp;
        assert f in multiset(kids) && InvertsAt(ch, p, c.fp, f);
        forall i | 0 < i < k ensures b[i].depth >= b[k].depth {
          assert Placed(p, kids, d + 1, rest, i - 1);
        }
        assert IsOwner(p, b, 0, k);
      } else {
        NestedShift(p, [Item(d, c)], rest, k - 1);
      }
    }
  }

  lemma {:induction false} DfsAllNests(ch: Children, nodes: set<Fingerprint>, p: map<Fingerprint, Fingerprint>,
                                       cs: seq<Cert>, d: nat, v: set<Fingerprint>)
    requires Inside(ch, nodes) && AllIn(cs, nodes) && Inverts(ch, p)
    ensures AllPlaced(p, FpSeq(cs), d, DfsAll(ch, nodes, cs, d, v).items)
    decreases nodes - v, 1, |cs|
  {
    if cs != [] {
      var a := DfsAll(ch, nodes, Front(cs), d, v);
      var b := Dfs(ch, nodes, Last(cs), d, a.visited);
      DfsAllNests(ch, nodes, p, Front(cs), d, v);
      DfsNests(ch, nodes, p, Last(cs), d, a.visited);
      SideBySide(p, FpSeq(Front(cs)), Last(cs), d, a.items, b.items);
    }
  }

  lemma SideBySide(p: map<Fingerprint, Fingerprint>, tops: seq<Fingerprint>, c: Cert, d: nat, a: seq<Item>,
                   b: seq<Item>)
    requires AllPlaced(p, tops, d, a) && (b == [] || IsTree(p, c, d, b))
    ensures AllPlaced(p, tops + [c.fp], d, a + b)
  {
    forall k: nat | k < |a + b| ensures Placed(p, tops + [c.fp], d, a + b, k) {
      if k < |a| {
        assert Placed(p, tops, d, a, k);
        if a[k].depth != d {
          NestedKeep(p, a, b, k);
        }
      } else if k > |a| {
        assert Deeper(p, d, b, k - |a|);
        NestedShift(p, a, b, k - |a|);
      }
    }
  }
}
