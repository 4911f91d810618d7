/** The whole forest of a union of certificates, and how it agrees with the chain. */
module CertForest {
  import opened Wrappers
  import opened Seqs
  import opened Certs
  import opened Walks
  import opened ParentMaps
  import opened CertTree
  import CertChain

  datatype Error = UnknownField(field: string)

  /** The rendered trees, the revisits noted, and the stand-in root if there was no root. */
  datatype Forest = Forest(blocks: seq<seq<Item>>, notes: seq<Fingerprint>, synthetic: Option<Cert>)

  const ALLOWED_TREE_FIELDS: set<string> :=
    {"subject", "issuer", "spiffe-id", "serial", "not-after", "key-algorithm", "sha256-fp"}

  /** One tree per start, each with its own visited set. */
  ghost function Render(ch: Children, nodes: set<Fingerprint>, starts: seq<Cert>): (seq<seq<Item>>, seq<Fingerprint>)
    requires Inside(ch, nodes) && AllIn(starts, nodes)
  {
    if starts == [] then ([], [])
    else
      var prefix := Render(ch, nodes, Front(starts));
      var tree := Dfs(ch, nodes, Last(starts), 0, {});
      (prefix.0 + [tree.items], prefix.1 + tree.notes)
  }

  /** Where rendering starts: at the roots or, if all certificates have a parent, at the first one. */
  function Starts(all: seq<Cert>, m: ParentMap): seq<Cert> {
    if RootsOf(all, m) == [] && all != [] then [all[0]] else RootsOf(all, m)
  }

  ghost predicate IsForestOf(all: seq<Cert>, m: ParentMap, f: Forest) {
    exists ch ::
      && IsChildMap(all, m, ch) && Inside(ch, Fps(all)) && AllIn(Starts(all, m), Fps(all))
      && (f.blocks, f.notes) == Render(ch, Fps(all), Starts(all, m))
      && f.synthetic == if RootsOf(all, m) == [] && all != [] then Some(all[0]) else None
  }

  lemma ForestIsWellFounded(all: seq<Cert>, m: ParentMap, ch: Children)
    requires IsChildMap(all, m, ch)
    ensures Inside(ch, Fps(all)) && AllIn(Starts(all, m), Fps(all))
  {
    forall f, c | f in ch && c in ch[f] ensures c.fp in Fps(all) {
      assert Kids(ch, f) == ch[f];
      ChildrenInvert(all, m, f, c);
    }
    forall c | c in Starts(all, m) ensures c.fp in Fps(all) {
      RootsMembers(all, m, c);
    }
  }

  method ConvertCertsToTree(certs: seq<Cert>, bundle: seq<Cert>, treeFields: seq<string>)
    returns (r: Result<Forest, Error>)
    ensures r.Success? <==> forall i :: 0 <= i < |treeFields| ==> treeFields[i] in ALLOWED_TREE_FIELDS
    ensures r.Failure? ==> exists i :: 0 <= i < |treeFields| && r.error == UnknownField(treeFields[i])
                                       && treeFields[i] !in ALLOWED_TREE_FIELDS
                                       && forall k :: 0 <= k < i ==> treeFields[k] in ALLOWED_TREE_FIELDS
    ensures r.Success? ==> exists m ::
                && IsParentMap(FirstOccurrences(certs + bundle), m)
                && IsForestOf(FirstOccurrences(certs + bundle), m, r.value)
  {
    var fields := if treeFields == [] then ["subject"] else treeFields;
    for i := 0 to |fields|
      invariant forall k :: 0 <= k < i ==> fields[k] in ALLOWED_TREE_FIELDS
    {
      if fields[i] !in ALLOWED_TREE_FIELDS {
        return Failure(UnknownField(fields[i]));
      }
    }
    var all := UnionCerts(certs, bundle);
    var parents := BuildParentMap(all);
    var forest := BuildForest(all, parents);
    return Success(forest);
  }

  method BuildForest(all: seq<Cert>, parents: ParentMap) returns (forest: Forest)
    ensures IsForestOf(all, parents, forest)
  {
    var children := BuildChildren(all, parents);
    var roots := CollectRoots(all, parents);
    var synthetic: Option<Cert> := None;
    if |all| > 0 && |roots| == 0 {
      synthetic := Some(all[0]);
      roots := [all[0]];
    }
    ForestIsWellFounded(all, parents, children);
    var blocks, notes := RenderTrees(roots, children, Fps(all));
    forest := Forest(blocks, notes, synthetic);
  }

  method RenderTrees(roots: seq<Cert>, children: Children, ghost nodes: set<Fingerprint>)
    returns (blocks: seq<seq<Item>>, notes: seq<Fingerprint>)
    requires Inside(children, nodes) && AllIn(roots, nodes)
    ensures (blocks, notes) == Render(children, nodes, roots)
  {
    blocks, notes := [], [];
    for i := 0 to |roots|
      invariant AllIn(roots[..i], nodes) && (blocks, notes) == Render(children, nodes, roots[..i])
    {
      assert Front(roots[..i + 1]) == roots[..i] && Last(roots[..i + 1]) == roots[i];
      var l := new TreeWriter();
      l.WriteTreeNode(roots[i], children, nodes);
      ghost var tree := Dfs(children, nodes, roots[i], 0, {});
      assert [] + tree.items == tree.items && [] + tree.notes == tree.notes;
      blocks := blocks + [l.items];
      notes := notes + l.notes;
    }
    assert roots[..|roots|] == roots;
  }

  // ---------- Children invert parents ----------

  lemma {:induction false} ChildrenCount(all: seq<Cert>, m: ParentMap, f: Fingerprint, y: Fingerprint)
    requires Deduped(all)
    ensures multiset(FpSeq(ChildrenOf(all, m, f)))[y] == One(y in Fps(all) && y in m && m[y].fp == f)
  {
    if all != [] {
      var c, kids := Last(all), ChildrenOf(Front(all), m, f);
      ChildrenCount(Front(all), m, f, y);
      LastIsNew(all);
      if c.fp in m && m[c.fp].fp == f {
        CountOneMore(kids, c, y);
        assert ChildrenOf(all, m, f) == kids + [c];
      } else {
        assert ChildrenOf(all, m, f) == kids;
      }
    }
  }

  lemma LastIsNew(all: seq<Cert>)
    requires all != [] && Deduped(all)
    ensures Fps(all) == Fps(Front(all)) + {Last(all).fp} && Last(all).fp !in Fps(Front(all))
  {
    assert all == Front(all) + [Last(all)];
    FpsSnoc(Front(all), Last(all));
  }

  lemma CountOneMore(kids: seq<Cert>, c: Cert, y: Fingerprint)
    ensures multiset(FpSeq(kids + [c]))[y] == multiset(FpSeq(kids))[y] + One(y == c.fp)
  {
    FpSeqSnoc(kids, c);
    CountAdd(FpSeq(kids), [c.fp], y);
  }

  lemma ChildMapCount(all: seq<Cert>, m: ParentMap, ch: Children, f: Fingerprint, y: Fingerprint)
    requires Deduped(all) && m.Keys <= Fps(all) && Kids(ch, f) == ChildrenOf(all, m, f)
    ensures InvertsAt(ch, Graph(m), f, y)
  {
    ChildrenCount(all, m, f, y);
  }

  lemma ChildMapInverts(all: seq<Cert>, m: ParentMap, ch: Children)
    requires Deduped(all) && IsParentMap(all, m) && IsChildMap(all, m, ch)
    ensures Inverts(ch, Graph(m))
  {
    KeysAreMembers(all, m);
    forall f: Fingerprint, y: Fingerprint ensures InvertsAt(ch, Graph(m), f, y) {
      ChildMapCount(all, m, ch, f, y);
    }
  }

  // ---------- The forest ----------

  /** How often y is rendered in all trees together. */
  function TotalShown(blocks: seq<seq<Item>>, y: Fingerprint): nat {
    if blocks == [] then 0 else TotalShown(Front(blocks), y) + Shown(Last(blocks), y)
  }

  ghost predicate ReachesOne(p: map<Fingerprint, Fingerprint>, y: Fingerprint, starts: seq<Cert>) {
    exists i :: 0 <= i < |starts| && Reaches(p, y, starts[i].fp)
  }

  /** Trees under different roots share no node, although each has its own visited set. */
  lemma {:induction false} RenderShows(ch: Children, nodes: set<Fingerprint>, p: map<Fingerprint, Fingerprint>,
                                       roots: seq<Cert>, y: Fingerprint)
    requires Inside(ch, nodes) && AllIn(roots, nodes) && Inverts(ch, p)
    requires Deduped(roots) && forall i :: 0 <= i < |roots| ==> roots[i].fp !in p
    ensures TotalShown(Render(ch, nodes, roots).0, y) == One(ReachesOne(p, y, roots))
    ensures multiset(Render(ch, nodes, roots).1)[y] == 0
  {
    if roots != [] {
      var before, r := Front(roots), Last(roots);
      RenderShows(ch, nodes, p, before, y);
      TreeShows(ch, nodes, p, r, y);
      var trees, tree := Render(ch, nodes, before), Dfs(ch, nodes, r, 0, {});
      CountAdd(trees.1, tree.notes, y);
      TotalAdd(trees.0, tree.items, y);
      OneMoreRoot(p, y, roots);
    }
  }

  lemma TotalAdd(blocks: seq<seq<Item>>, b: seq<Item>, y: Fingerprint)
    ensures TotalShown(blocks + [b], y) == TotalShown(blocks, y) + Shown(b, y)
  {
    assert Front(blocks + [b]) == blocks;
  }

  lemma OneMoreRoot(p: map<Fingerprint, Fingerprint>, y: Fingerprint, roots: seq<Cert>)
    requires roots != [] && Deduped(roots) && forall i :: 0 <= i < |roots| ==> roots[i].fp !in p
    ensures One(ReachesOne(p, y, roots)) == One(ReachesOne(p, y, Front(roots))) + One(Reaches(p, y, Last(roots).fp))
  {
    var before, r := Front(roots), Last(roots);
    ReachesOneSplit(p, y, roots);
    if ReachesOne(p, y, before) && Reaches(p, y, r.fp) {
      var i :| 0 <= i < |before| && Reaches(p, y, before[i].fp);
      assert roots[i] == before[i];
      OneRoot(p, y, before[i].fp, r.fp);
    }
  }

  lemma ReachesOneSplit(p: map<Fingerprint, Fingerprint>, y: Fingerprint, roots: seq<Cert>)
    requires roots != []
    ensures ReachesOne(p, y, roots) <==> ReachesOne(p, y, Front(roots)) || Reaches(p, y, Last(roots).fp)
  {
    var before := Front(roots);
    assert forall i :: 0 <= i < |before| ==> before[i] == roots[i];
    if ReachesOne(p, y, before) {
      var i :| 0 <= i < |before| && Reaches(p, y, before[i].fp);
      assert Reaches(p, y, roots[i].fp);
    }
  }

  lemma SomeNoted(notes: seq<Fingerprint>)
    requires notes != []
    ensures multiset(notes)[notes[0]] > 0
  {
    assert notes[0] in multiset(notes);
  }

  lemma NoneNoted(notes: seq<Fingerprint>)
    requires forall y: Fingerprint :: multiset(notes)[y] == 0
    ensures notes == []
  {
    if notes != [] {
      SomeNoted(notes);
    }
  }

  /**
    If the union has a root, each of its certificates whose parent walk ends is
    rendered exactly once in all, no other certificate is, and nothing is noted.
  */
  lemma ForestShows(all: seq<Cert>, m: ParentMap, f: Forest, y: Fingerprint)
    requires Deduped(all) && IsParentMap(all, m) && IsForestOf(all, m, f) && RootsOf(all, m) != []
    ensures TotalShown(f.blocks, y) == One(y in Fps(all) && Grounded(Graph(m), y))
    ensures f.notes == [] && f.synthetic == None
  {
    var ch :| IsChildMap(all, m, ch) && Inside(ch, Fps(all)) && AllIn(Starts(all, m), Fps(all))
              && (f.blocks, f.notes) == Render(ch, Fps(all), Starts(all, m));
    var p, roots := Graph(m), RootsOf(all, m);
    ChildMapInverts(all, m, ch);
    RootsDeduped(all, m);
    forall i | 0 <= i < |roots| ensures roots[i].fp !in p {
      RootsMembers(all, m, roots[i]);
    }
    forall z: Fingerprint ensures multiset(f.notes)[z] == 0 {
      RenderShows(ch, Fps(all), p, roots, z);
    }
    NoneNoted(f.notes);
    RenderShows(ch, Fps(all), p, roots, y);
    ReachesRootIffGrounded(all, m, y);
  }

  lemma ReachesRootIffGrounded(all: seq<Cert>, m: ParentMap, y: Fingerprint)
    requires Deduped(all) && IsParentMap(all, m)
    ensures ReachesOne(Graph(m), y, RootsOf(all, m)) <==> y in Fps(all) && Grounded(Graph(m), y)
  {
    var p, roots := Graph(m), RootsOf(all, m);
    GraphClosed(all, m);
    if ReachesOne(p, y, roots) {
      var i :| 0 <= i < |roots| && Reaches(p, y, roots[i].fp);
      RootsMembers(all, m, roots[i]);
      RootGrounds(p, y, roots[i].fp);
      ReachesSplit(p, y, roots[i].fp);
    }
    if y in Fps(all) && Grounded(p, y) {
      var k: nat :| Walk(p, y, k) == None;
      var r := GroundedReachesRoot(p, y, k);
      StaysInside(p, Fps(all), y, r);
      var c :| c in all && c.fp == r;
      RootsMembers(all, m, c);
      var i :| 0 <= i < |roots| && roots[i] == c;
    }
  }

  lemma StaysInside(p: map<Fingerprint, Fingerprint>, nodes: set<Fingerprint>, x: Fingerprint, y: Fingerprint)
    requires Closed(p, nodes) && x in nodes && Reaches(p, x, y)
    ensures y in nodes
  {
    var z, k := x, 0;
    var n: nat :| Walk(p, x, n) == Some(y);
    while k < n
      invariant 0 <= k <= n && z in nodes && Walk(p, z, n - k) == Some(y)
    {
      z, k := p[z], k + 1;
    }
  }

  /** The forest shows the whole union if and only if no certificate is its own ancestor. */
  lemma ForestCoversIffAcyclic(all: seq<Cert>, m: ParentMap, f: Forest)
    requires Deduped(all) && IsParentMap(all, m) && IsForestOf(all, m, f) && RootsOf(all, m) != []
    ensures (forall y :: y in Fps(all) ==> TotalShown(f.blocks, y) == 1) <==> Acyclic(Graph(m))
  {
    GraphClosed(all, m);
    AllGroundedIffAcyclic(Graph(m), Fps(all));
    forall y | y in Fps(all) ensures TotalShown(f.blocks, y) == One(Grounded(Graph(m), y)) {
      ForestShows(all, m, f, y);
    }
  }

  /**
    If every certificate has a parent, the one tree shows exactly the descendants of
    the first certificate, once each. It is noted as revisited exactly once if it lies
    on a cycle, and nothing is noted otherwise.
  */
  lemma RootlessShows(all: seq<Cert>, m: ParentMap, f: Forest, y: Fingerprint)
    requires Deduped(all) && IsParentMap(all, m) && IsForestOf(all, m, f) && RootsOf(all, m) == [] && all != []
    ensures f.synthetic == Some(all[0])
    ensures TotalShown(f.blocks, y) == One(Reaches(Graph(m), y, all[0].fp))
    ensures multiset(f.notes)[y] == One(y == all[0].fp && OnCycle(Graph(m), y))
  {
    var ch :| IsChildMap(all, m, ch) && Inside(ch, Fps(all)) && AllIn(Starts(all, m), Fps(all))
              && (f.blocks, f.notes) == Render(ch, Fps(all), Starts(all, m));
    ChildMapInverts(all, m, ch);
    TreeShows(ch, Fps(all), Graph(m), all[0], y);
    RenderOne(ch, Fps(all), all[0], y);
  }

  lemma RenderOne(ch: Children, nodes: set<Fingerprint>, s: Cert, y: Fingerprint)
    requires Inside(ch, nodes) && s.fp in nodes
    ensures var r, tree := Render(ch, nodes, [s]), Dfs(ch, nodes, s, 0, {});
            TotalShown(r.0, y) == Shown(tree.items, y) && r.1 == tree.notes
  {
    var tree := Dfs(ch, nodes, s, 0, {});
    assert Front([s]) == [] && Front([tree.items]) == [];
    assert [] + tree.notes == tree.notes;
  }

  /** Every tree starts at its root without indentation, and its indentation spells out the parent map. */
  lemma ForestNests(all: seq<Cert>, m: ParentMap, f: Forest)
    requires Deduped(all) && IsParentMap(all, m) && IsForestOf(all, m, f)
    ensures |f.blocks| == |Starts(all, m)|
    ensures forall i :: 0 <= i < |f.blocks| ==> IsTree(Graph(m), Starts(all, m)[i], 0, f.blocks[i])
  {
    var ch :| IsChildMap(all, m, ch) && Inside(ch, Fps(all)) && AllIn(Starts(all, m), Fps(all))
              && (f.blocks, f.notes) == Render(ch, Fps(all), Starts(all, m));
    ChildMapInverts(all, m, ch);
    RenderNests(ch, Fps(all), Graph(m), Starts(all, m));
  }

  lemma {:induction false} RenderNests(ch: Children, nodes: set<Fingerprint>, p: map<Fingerprint, Fingerprint>,
                                       starts: seq<Cert>)
    requires Inside(ch, nodes) && AllIn(starts, nodes) && Inverts(ch, p)
    ensures var blocks := Render(ch, nodes, starts).0;
            && |blocks| == |starts|
            && forall i :: 0 <= i < |blocks| ==> IsTree(p, starts[i], 0, blocks[i])
  {
    if starts != [] {
      RenderNests(ch, nodes, p, Front(starts));
      DfsNests(ch, nodes, p, Last(starts), 0, {});
    }
  }

  // ---------- Chain and forest agree ----------

  /**
    If the walk up from the leaf ends, the chain starts at a root of the forest, and
    each certificate of it is a child of the one before.
  */
  lemma ChainIsBranch(all: seq<Cert>, m: ParentMap, ch: Children, leaf: Cert, c: seq<Cert>)
    requires Deduped(all) && IsParentMap(all, m) && IsChildMap(all, m, ch)
    requires leaf in all && CertChain.IsChain(m, leaf, c) && Grounded(Graph(m), leaf.fp)
    ensures c[0] in RootsOf(all, m)
    ensures forall k :: 0 < k < |c| ==> c[k] in Kids(ch, c[k - 1].fp)
  {
    CertChain.HeadIsRootIffGrounded(m, leaf, c);
    CertChain.ChainLinks(all, m, leaf, c);
    RootsMembers(all, m, c[0]);
    forall k | 0 < k < |c| ensures c[k] in Kids(ch, c[k - 1].fp) {
      assert CertChain.IsBelow(m, c, k);
      ChildrenInvert(all, m, c[k - 1].fp, c[k]);
    }
  }

  /** Wherever the tree under its head shows a certificate of the chain, it is indented by its position there. */
  lemma {:induction false} ChainDepth(m: ParentMap, leaf: Cert, c: seq<Cert>, items: seq<Item>, k: nat, i: nat)
    requires CertChain.IsChain(m, leaf, c) && c[0].fp !in m && IsTree(Graph(m), c[0], 0, items)
    requires k < |c| && i < |items| && items[i].cert.fp == c[k].fp
    ensures items[i].depth == k
    decreases k
  {
    if i > 0 {
      assert Deeper(Graph(m), 0, items, i);
      var j: nat :| j < i && IsOwner(Graph(m), items, j, i);
      if k > 0 {
        assert CertChain.IsBelow(m, c, k);
        ChainDepth(m, leaf, c, items, k - 1, j);
      }
    }
  }
}
