/** The order in which the forest is rendered: trees and siblings stand in the order of the union. */
module CertOrder {
  import opened Wrappers
  import opened Seqs
  import opened Certs
  import opened ParentMaps
  import opened CertTree
  import opened CertForest

  /** One certificate stands before the other in the union. */
  ghost predicate Before(all: seq<Cert>, a: Fingerprint, b: Fingerprint) {
    exists i, j :: 0 <= i < j < |all| && all[i].fp == a && all[j].fp == b
  }

  ghost predicate AreInOrder(all: seq<Cert>, cs: seq<Cert>) {
    forall i, j :: 0 <= i < j < |cs| ==> Before(all, cs[i].fp, cs[j].fp)
  }

  /** If the two have the same parent, they stand in the order of the union. */
  ghost predicate InTurn(all: seq<Cert>, p: map<Fingerprint, Fingerprint>, a: Fingerprint, b: Fingerprint) {
    a in p && b in p && p[a] == p[b] ==> Before(all, a, b)
  }

  /** From the given item on, siblings are rendered in the order of the union, wherever in the tree they are. */
  ghost predicate SiblingsInOrder(all: seq<Cert>, p: map<Fingerprint, Fingerprint>, items: seq<Item>, from: nat) {
    forall i, j :: from <= i < j < |items| ==> InTurn(all, p, items[i].cert.fp, items[j].cert.fp)
  }

  // ---------- Where an item comes from ----------

  lemma ItemIsShown(items: seq<Item>, i: nat)
    requires i < |items|
    ensures Shown(items, items[i].cert.fp) >= 1
  {
    assert ItemFps(items)[i] in multiset(ItemFps(items));
  }

  /** What is rendered is the start, or its parent has been visited on the way. */
  lemma DfsOrigin(ch: Children, nodes: set<Fingerprint>, p: map<Fingerprint, Fingerprint>, c: Cert, d: nat,
                  v: set<Fingerprint>, i: nat)
    requires Inside(ch, nodes) && c.fp in nodes && Inverts(ch, p)
    requires i < |Dfs(ch, nodes, c, d, v).items|
    ensures var r := Dfs(ch, nodes, c, d, v);
            var y := r.items[i].cert.fp;
            (i == 0 && y == c.fp) || (i > 0 && ParentIsNew(p, y, v, r.visited))
  {
    var r := Dfs(ch, nodes, c, d, v);
    if i > 0 {
      var y := r.items[i].cert.fp;
      OnlyOnce(ch, nodes, c, d, v, i);
      DfsArrivals(ch, nodes, p, c, d, v, y);
      ItemIsShown(r.items, i);
    }
  }

  lemma ShownTwice(items: seq<Item>, i: nat, j: nat)
    requires i < j < |items| && items[i].cert.fp == items[j].cert.fp
    ensures Shown(items, items[i].cert.fp) >= 2
  {
    ItemIsShown(items[..j], i);
    ItemIsShown(items[j..], 0);
    assert items == items[..j] + items[j..];
    ShownAdd(items[..j], items[j..], items[i].cert.fp);
  }

  /** The start is rendered first and never again. */
  lemma OnlyOnce(ch: Children, nodes: set<Fingerprint>, c: Cert, d: nat, v: set<Fingerprint>, i: nat)
    requires Inside(ch, nodes) && c.fp in nodes && 0 < i < |Dfs(ch, nodes, c, d, v).items|
    ensures Dfs(ch, nodes, c, d, v).items[i].cert.fp != c.fp
  {
    var items := Dfs(ch, nodes, c, d, v).items;
    DfsShows(ch, nodes, c, d, v, c.fp);
    if items[i].cert.fp == items[0].cert.fp {
      ShownTwice(items, 0, i);
    }
  }

  lemma DfsAllOrigin(ch: Children, nodes: set<Fingerprint>, p: map<Fingerprint, Fingerprint>, cs: seq<Cert>, d: nat,
                     v: set<Fingerprint>, i: nat)
    requires Inside(ch, nodes) && AllIn(cs, nodes) && Inverts(ch, p)
    requires i < |DfsAll(ch, nodes, cs, d, v).items|
    ensures var r := DfsAll(ch, nodes, cs, d, v);
            var y := r.items[i].cert.fp;
            y in FpSeq(cs) || ParentIsNew(p, y, v, r.visited)
  {
    var r := DfsAll(ch, nodes, cs, d, v);
    var y := r.items[i].cert.fp;
    DfsAllArrivals(ch, nodes, p, cs, d, v, y);
    ItemIsShown(r.items, i);
    if y !in FpSeq(cs) {
      assert multiset(FpSeq(cs))[y] == 0;
    }
  }

  // ---------- Siblings ----------

  /** In the tree below a node all siblings are in order; only the node itself may follow one of its own siblings. */
  lemma {:induction false} DfsInOrder(all: seq<Cert>, ch: Children, nodes: set<Fingerprint>,
                                      p: map<Fingerprint, Fingerprint>, c: Cert, d: nat, v: set<Fingerprint>)
    requires Inside(ch, nodes) && c.fp in nodes && Inverts(ch, p)
    requires forall f: Fingerprint :: AreInOrder(all, Kids(ch, f))
    ensures SiblingsInOrder(all, p, Dfs(ch, nodes, c, d, v).items, 1)
    decreases nodes - v, 0, 0
  {
    if c.fp !in v {
      var kids := Kids(ch, c.fp);
      var r := DfsAll(ch, nodes, kids, d + 1, v + {c.fp});
      assert kids[..|kids|] == kids;
      DfsAllInOrder(all, ch, nodes, p, c.fp, |kids|, d + 1, v + {c.fp});
      var items := Dfs(ch, nodes, c, d, v).items;
      forall i, j | 1 <= i < j < |items| ensures InTurn(all, p, items[i].cert.fp, items[j].cert.fp) {
        assert items[i] == r.items[i - 1] && items[j] == r.items[j - 1];
      }
    }
  }

  lemma {:induction false} DfsAllInOrder(all: seq<Cert>, ch: Children, nodes: set<Fingerprint>,
                                         p: map<Fingerprint, Fingerprint>, q: Fingerprint, n: nat, d: nat,
                                         v: set<Fingerprint>)
    requires Inside(ch, nodes) && Inverts(ch, p) && q in v && n <= |Kids(ch, q)| && AllIn(Kids(ch, q)[..n], nodes)
    requires forall f: Fingerprint :: AreInOrder(all, Kids(ch, f))
    ensures SiblingsInOrder(all, p, DfsAll(ch, nodes, Kids(ch, q)[..n], d, v).items, 0)
    decreases nodes - v, 1, n
  {
    if n > 0 {
      var cs := Kids(ch, q)[..n];
      assert Front(cs) == Kids(ch, q)[..n - 1];
      var a := DfsAll(ch, nodes, Front(cs), d, v);
      var b := Dfs(ch, nodes, Last(cs), d, a.visited);
      DfsAllInOrder(all, ch, nodes, p, q, n - 1, d, v);
      DfsInOrder(all, ch, nodes, p, Last(cs), d, a.visited);
      forall j | 0 < j < |b.items| ensures InTurn(all, p, b.items[0].cert.fp, b.items[j].cert.fp) {
        HeadInTurn(all, ch, nodes, p, q, n, d, a.visited, j);
      }
      forall i, j | 0 <= i < |a.items| && 0 <= j < |b.items|
        ensures InTurn(all, p, a.items[i].cert.fp, b.items[j].cert.fp)
      {
        AcrossInTurn(all, ch, nodes, p, q, n, d, v, i, j);
      }
      OrderConcat(all, p, a.items, b.items);
    }
  }

  lemma OrderConcat(all: seq<Cert>, p: map<Fingerprint, Fingerprint>, a: seq<Item>, b: seq<Item>)
    requires SiblingsInOrder(all, p, a, 0) && SiblingsInOrder(all, p, b, 1)
    requires forall j :: 0 < j < |b| ==> InTurn(all, p, b[0].cert.fp, b[j].cert.fp)
    requires forall i, j :: 0 <= i < |a| && 0 <= j < |b| ==> InTurn(all, p, a[i].cert.fp, b[j].cert.fp)
    ensures SiblingsInOrder(all, p, a + b, 0)
  {
    var items := a + b;
    forall i, j | 0 <= i < j < |items| ensures InTurn(all, p, items[i].cert.fp, items[j].cert.fp) {
      if i >= |a| {
        assert items[i] == b[i - |a|] && items[j] == b[j - |a|];
      } else if j >= |a| {
        assert items[i] == a[i] && items[j] == b[j - |a|];
      } else {
        assert items[i] == a[i] && items[j] == a[j];
      }
    }
  }

  /** A child and what is rendered below it are no siblings. */
  lemma HeadInTurn(all: seq<Cert>, ch: Children, nodes: set<Fingerprint>, p: map<Fingerprint, Fingerprint>,
                   q: Fingerprint, n: nat, d: nat, v: set<Fingerprint>, j: nat)
    requires Inside(ch, nodes) && Inverts(ch, p) && q in v && 0 < n <= |Kids(ch, q)|
    requires Kids(ch, q)[n - 1].fp in nodes && 0 < j < |Dfs(ch, nodes, Kids(ch, q)[n - 1], d, v).items|
    ensures var items := Dfs(ch, nodes, Kids(ch, q)[n - 1], d, v).items;
            InTurn(all, p, items[0].cert.fp, items[j].cert.fp)
  {
    KidIsChild(ch, p, q, n - 1);
    DfsOrigin(ch, nodes, p, Kids(ch, q)[n - 1], d, v, 0);
    DfsOrigin(ch, nodes, p, Kids(ch, q)[n - 1], d, v, j);
  }

  /** An item below earlier children and one below the next child are siblings only if they are those children. */
  lemma AcrossInTurn(all: seq<Cert>, ch: Children, nodes: set<Fingerprint>, p: map<Fingerprint, Fingerprint>,
                     q: Fingerprint, n: nat, d: nat, v: set<Fingerprint>, i: nat, j: nat)
    requires Inside(ch, nodes) && Inverts(ch, p) && q in v && 0 < n <= |Kids(ch, q)|
    requires AllIn(Kids(ch, q)[..n - 1], nodes) && Kids(ch, q)[n - 1].fp in nodes && AreInOrder(all, Kids(ch, q))
    requires var a := DfsAll(ch, nodes, Kids(ch, q)[..n - 1], d, v);
             i < |a.items| && j < |Dfs(ch, nodes, Kids(ch, q)[n - 1], d, a.visited).items|
    ensures var a := DfsAll(ch, nodes, Kids(ch, q)[..n - 1], d, v);
            var b := Dfs(ch, nodes, Kids(ch, q)[n - 1], d, a.visited);
            InTurn(all, p, a.items[i].cert.fp, b.items[j].cert.fp)
  {
    var cs := Kids(ch, q)[..n - 1];
    var a := DfsAll(ch, nodes, cs, d, v);
    DfsAllOrigin(ch, nodes, p, cs, d, v, i);
    DfsOrigin(ch, nodes, p, Kids(ch, q)[n - 1], d, a.visited, j);
    KidIsChild(ch, p, q, n - 1);
    if a.items[i].cert.fp in FpSeq(cs) {
      var k :| 0 <= k < |cs| && FpSeq(cs)[k] == a.items[i].cert.fp;
      KidIsChild(ch, p, q, k);
      assert Kids(ch, q)[k] == cs[k];
    }
  }

  // ---------- The forest ----------

  lemma ChildrenAreInOrder(all: seq<Cert>, m: ParentMap, ch: Children, f: Fingerprint)
    requires IsChildMap(all, m, ch)
    ensures AreInOrder(all, Kids(ch, f))
  {
    var from := ChildrenInOrder(all, m, f);
    var kids := Kids(ch, f);
    assert kids == ChildrenOf(all, m, f);
    forall i, j | 0 <= i < j < |kids| ensures Before(all, kids[i].fp, kids[j].fp) {
      assert all[from[i]] == kids[i] && all[from[j]] == kids[j];
    }
  }

  /** The trees stand in the order of their roots in the union, and in each of them all siblings do. */
  lemma ForestInOrder(all: seq<Cert>, m: ParentMap, f: Forest)
    requires Deduped(all) && IsParentMap(all, m) && IsForestOf(all, m, f)
    ensures forall i :: 0 <= i < |f.blocks| ==> f.blocks[i] != [] && SiblingsInOrder(all, Graph(m), f.blocks[i], 1)
    ensures forall i, j :: 0 <= i < j < |f.blocks| ==> Before(all, f.blocks[i][0].cert.fp, f.blocks[j][0].cert.fp)
  {
    var ch :| IsChildMap(all, m, ch) && Inside(ch, Fps(all)) && AllIn(Starts(all, m), Fps(all))
              && (f.blocks, f.notes) == Render(ch, Fps(all), Starts(all, m));
    ChildMapInverts(all, m, ch);
    forall g: Fingerprint ensures AreInOrder(all, Kids(ch, g)) {
      ChildrenAreInOrder(all, m, ch, g);
    }
    RenderInOrder(all, ch, Fps(all), Graph(m), Starts(all, m));
    StartsInOrder(all, m);
    ForestNests(all, m, f);
    forall i, j | 0 <= i < j < |f.blocks| ensures Before(all, f.blocks[i][0].cert.fp, f.blocks[j][0].cert.fp) {
      var starts := Starts(all, m);
      assert IsTree(Graph(m), starts[i], 0, f.blocks[i]) && IsTree(Graph(m), starts[j], 0, f.blocks[j]);
    }
  }

  lemma StartsInOrder(all: seq<Cert>, m: ParentMap)
    ensures AreInOrder(all, Starts(all, m))
  {
    var from := RootsInOrder(all, m);
    var roots := RootsOf(all, m);
    forall i, j | 0 <= i < j < |roots| ensures Before(all, roots[i].fp, roots[j].fp) {
      assert all[from[i]] == roots[i] && all[from[j]] == roots[j];
    }
  }

  lemma {:induction false} RenderInOrder(all: seq<Cert>, ch: Children, nodes: set<Fingerprint>,
                                         p: map<Fingerprint, Fingerprint>, starts: seq<Cert>)
    requires Inside(ch, nodes) && AllIn(starts, nodes) && Inverts(ch, p)
    requires forall f: Fingerprint :: AreInOrder(all, Kids(ch, f))
    ensures forall i :: 0 <= i < |Render(ch, nodes, starts).0| ==>
                          SiblingsInOrder(all, p, Render(ch, nodes, starts).0[i], 1)
  {
    if starts != [] {
      RenderInOrder(all, ch, nodes, p, Front(starts));
      DfsInOrder(all, ch, nodes, p, Last(starts), 0, {});
    }
  }
}
