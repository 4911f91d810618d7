/**
  Whether the verified path that the chain format shows is the shortest one: exactly
  when it must be, a depth-first search for chains, and an input for which that
  search has a longer path shown.
*/
module PathSearch {
  import opened Wrappers
  import opened Seqs
  import opened Certs
  import opened ParentMaps
  import opened CertChain
  import opened ChainFormat

  // ---------- When the path shown must be the shortest ----------

  /** A chain of the union that verification may list. */
  ghost predicate IsChainOver(all: seq<Cert>, leaf: Cert, now: int, chain: seq<Cert>) {
    leaf in all && IsVerified(leaf, OptionsFor(all, leaf, now), chain)
  }

  ghost predicate EqualLengths(all: seq<Cert>, leaf: Cert, now: int) {
    forall a, b :: IsChainOver(all, leaf, now, a) && IsChainOver(all, leaf, now, b) ==> |a| == |b|
  }

  /** Whatever the order in which the chains are listed, no chain is shorter than the path shown. */
  ghost predicate AlwaysShortest(all: seq<Cert>, leaf: Cert, now: int) {
    forall verify: Verifier, path, alternates, chain |
      && Honest(verify) && IsPathFrom(leaf, OptionsFor(all, leaf, now), verify, Success(path), alternates)
      && IsChainOver(all, leaf, now, chain) :: |path| <= |chain|
  }

  /** The path shown is sure to be a shortest one if and only if all chains that may be listed are equally long. */
  lemma ShortestIffEqualLengths(all: seq<Cert>, leaf: Cert, now: int)
    requires leaf in all
    ensures AlwaysShortest(all, leaf, now) <==> EqualLengths(all, leaf, now)
  {
    if EqualLengths(all, leaf, now) {
      EqualIsShortest(all, leaf, now);
    } else {
      var a, b :| IsChainOver(all, leaf, now, a) && IsChainOver(all, leaf, now, b) && |a| != |b|;
      if |a| > |b| {
        LongerMayBeShown(all, leaf, now, a, b);
      } else {
        LongerMayBeShown(all, leaf, now, b, a);
      }
    }
  }

  lemma EqualIsShortest(all: seq<Cert>, leaf: Cert, now: int)
    requires leaf in all && EqualLengths(all, leaf, now)
    ensures AlwaysShortest(all, leaf, now)
  {
    var o := OptionsFor(all, leaf, now);
    forall verify: Verifier, path, alternates, chain |
      Honest(verify) && IsPathFrom(leaf, o, verify, Success(path), alternates) && IsChainOver(all, leaf, now, chain)
      ensures |path| <= |chain|
    {
      assert AreChains(leaf, o, verify(leaf, o));
      assert IsChainOver(all, leaf, now, verify(leaf, o).value[0]);
    }
  }

  /** Verification that finds just one chain. */
  function Finding(leaf: Cert, o: VerifyOptions, chain: seq<Cert>): Verifier {
    (l, p) => if l == leaf && p == o then Some([chain]) else None
  }

  lemma LongerMayBeShown(all: seq<Cert>, leaf: Cert, now: int, a: seq<Cert>, b: seq<Cert>)
    requires IsChainOver(all, leaf, now, a) && IsChainOver(all, leaf, now, b) && |a| > |b|
    ensures !AlwaysShortest(all, leaf, now)
  {
    var o := OptionsFor(all, leaf, now);
    var verify := Finding(leaf, o, a);
    assert Honest(verify);
    var path := seq(|a|, k requires 0 <= k < |a| => a[|a| - 1 - k]);
    assert IsReverse(path, a);
    assert IsPathFrom(leaf, o, verify, Success(path), 0);
  }

  /** No certificate of the union has two possible signers. */
  ghost predicate OneSigner(all: seq<Cert>) {
    forall c, d, e :: c in all && d in all && e in all && IsSigned(c, d) && IsSigned(c, e) ==> d == e
  }

  /** With one possible signer each there is at most one chain. */
  lemma OneSignerOneChain(all: seq<Cert>, leaf: Cert, now: int)
    requires OneSigner(all) && leaf in all
    ensures forall a, b :: IsChainOver(all, leaf, now, a) && IsChainOver(all, leaf, now, b) ==> a == b
    ensures AlwaysShortest(all, leaf, now)
  {
    forall a, b | IsChainOver(all, leaf, now, a) && IsChainOver(all, leaf, now, b) ensures a == b {
      SameChain(all, leaf, now, a, b);
    }
    EqualIsShortest(all, leaf, now);
  }

  lemma SameChain(all: seq<Cert>, leaf: Cert, now: int, a: seq<Cert>, b: seq<Cert>)
    requires OneSigner(all) && IsChainOver(all, leaf, now, a) && IsChainOver(all, leaf, now, b)
    ensures a == b
    decreases if |a| <= |b| then 0 else 1
  {
    if |a| <= |b| {
      SameStart(all, leaf, now, a, b, |a| - 1);
      EndsAtRoot(all, leaf, now, b, |a| - 1);
      forall k | 0 <= k < |a| ensures a[k] == b[k] {
        SameStart(all, leaf, now, a, b, k);
      }
    } else {
      SameChain(all, leaf, now, b, a);
    }
  }

  lemma {:induction false} SameStart(all: seq<Cert>, leaf: Cert, now: int, a: seq<Cert>, b: seq<Cert>, k: nat)
    requires OneSigner(all) && IsChainOver(all, leaf, now, a) && IsChainOver(all, leaf, now, b) && k < |a| <= |b|
    ensures a[k] == b[k] && (k == |a| - 1 ==> IsSelfSigned(b[k]))
  {
    if k > 0 {
      SameStart(all, leaf, now, a, b, k - 1);
      InUnion(all, leaf, now, a, k - 1);
      InUnion(all, leaf, now, a, k);
      InUnion(all, leaf, now, b, k);
      assert IsSigned(a[k - 1], a[k]) && IsSigned(b[k - 1], b[k]);
    }
    KeepHolds(all, SelfSigned());
  }

  lemma InUnion(all: seq<Cert>, leaf: Cert, now: int, chain: seq<Cert>, k: nat)
    requires IsChainOver(all, leaf, now, chain) && k < |chain|
    ensures chain[k] in all && (0 < k < |chain| - 1 ==> !IsSelfSigned(chain[k]))
  {
    KeepHolds(all, SelfSigned());
    KeepHolds(all, Between(leaf));
  }

  /** A chain goes no further than its first self-signed certificate. */
  lemma EndsAtRoot(all: seq<Cert>, leaf: Cert, now: int, chain: seq<Cert>, k: nat)
    requires OneSigner(all) && IsChainOver(all, leaf, now, chain) && k < |chain| && IsSelfSigned(chain[k])
    ensures k == |chain| - 1
  {
    InUnion(all, leaf, now, chain, k);
    if k < |chain| - 1 {
      InUnion(all, leaf, now, chain, k + 1);
      assert IsSigned(chain[k], chain[k + 1]) && IsSigned(chain[k], chain[k]);
    }
  }

  // ---------- Depth-first search ----------

  /** Two certificates for one subject, key and set of names; a chain holds only one of them. */
  predicate SameHolder(c: Cert, d: Cert) {
    c.rawSubject == d.rawSubject && c.publicKey == d.publicKey && c.uris == d.uris
  }

  predicate AlreadyIn(c: Cert, chain: seq<Cert>) {
    exists d :: d in chain && SameHolder(c, d)
  }

  predicate CanFollow(chain: seq<Cert>, c: Cert, now: int) {
    chain != [] && IsSigned(Last(chain), c) && ValidAt(c, now) && !AlreadyIn(c, chain)
  }

  function Follows(chain: seq<Cert>, now: int): Cert -> bool {
    c => CanFollow(chain, c, now)
  }

  function Untried(o: VerifyOptions, chain: seq<Cert>): set<Cert> {
    set c | c in o.intermediates && c !in chain
  }

  /** All ways to go on from the chain: first to the roots, then through the intermediates, each pool in its order. */
  function Search(o: VerifyOptions, chain: seq<Cert>): seq<seq<Cert>>
    decreases Untried(o, chain), 1, 0
  {
    KeepHolds(o.intermediates, Follows(chain, o.now));
    Ended(chain, Keep(o.roots, Follows(chain, o.now))) + Through(o, chain, Keep(o.intermediates, Follows(chain, o.now)))
  }

  function Ended(chain: seq<Cert>, next: seq<Cert>): seq<seq<Cert>> {
    if next == [] then [] else Ended(chain, Front(next)) + [chain + [Last(next)]]
  }

  function Through(o: VerifyOptions, chain: seq<Cert>, next: seq<Cert>): seq<seq<Cert>>
    requires forall c :: c in next ==> c in o.intermediates && CanFollow(chain, c, o.now)
    decreases Untried(o, chain), 0, |next|
  {
    if next == [] then []
    else
      Narrows(o, chain, Last(next));
      Through(o, chain, Front(next)) + Search(o, chain + [Last(next)])
  }

  lemma Narrows(o: VerifyOptions, chain: seq<Cert>, c: Cert)
    requires c in o.intermediates && CanFollow(chain, c, o.now)
    ensures Untried(o, chain + [c]) < Untried(o, chain)
  {
    assert SameHolder(c, c);
    assert c in Untried(o, chain) && c !in Untried(o, chain + [c]);
  }

  /** Verification by that search; a leaf that is a root is its own chain. */
  function SearchVerify(): Verifier {
    (leaf: Cert, o: VerifyOptions) =>
      if !ValidAt(leaf, o.now) then None
      else if leaf in o.roots then Some([[leaf]])
      else if Search(o, [leaf]) == [] then None
      else Some(Search(o, [leaf]))
  }

  /** A way to go on from the chain to a root. */
  ghost predicate Extends(o: VerifyOptions, chain: seq<Cert>, full: seq<Cert>) {
    && |chain| < |full| && full[..|chain|] == chain && Last(full) in o.roots
    && forall k :: |chain| <= k < |full| ==> IsNext(o, full, k)
  }

  ghost predicate IsNext(o: VerifyOptions, full: seq<Cert>, k: nat)
    requires k < |full|
  {
    CanFollow(full[..k], full[k], o.now) && (k < |full| - 1 ==> full[k] in o.intermediates)
  }

  /** The search lists exactly the ways to go on. */
  lemma {:induction false} SearchLists(o: VerifyOptions, chain: seq<Cert>, full: seq<Cert>)
    ensures full in Search(o, chain) <==> Extends(o, chain, full)
    decreases Untried(o, chain), 1, 0
  {
    var roots, next := Keep(o.roots, Follows(chain, o.now)), Keep(o.intermediates, Follows(chain, o.now));
    KeepHolds(o.roots, Follows(chain, o.now));
    KeepHolds(o.intermediates, Follows(chain, o.now));
    EndedLists(chain, roots, full);
    ThroughLists(o, chain, next, full);
    if Extends(o, chain, full) {
      ExtendsSplit(o, chain, full);
    }
    if full in Ended(chain, roots) {
      EndedExtends(o, chain, full);
    }
    if full in Through(o, chain, next) {
      var c :| c in next && Extends(o, chain + [c], full);
      LongerExtends(o, chain, c, full);
    }
  }

  lemma {:induction false} EndedLists(chain: seq<Cert>, next: seq<Cert>, full: seq<Cert>)
    ensures full in Ended(chain, next) <==> |full| == |chain| + 1 && full[..|chain|] == chain && Last(full) in next
  {
    if next != [] {
      EndedLists(chain, Front(next), full);
      assert next == Front(next) + [Last(next)];
      assert |full| == |chain| + 1 ==> full == full[..|chain|] + [Last(full)];
    }
  }

  lemma {:induction false} ThroughLists(o: VerifyOptions, chain: seq<Cert>, next: seq<Cert>, full: seq<Cert>)
    requires forall c :: c in next ==> c in o.intermediates && CanFollow(chain, c, o.now)
    ensures full in Through(o, chain, next) <==> exists c :: c in next && Extends(o, chain + [c], full)
    decreases Untried(o, chain), 0, |next|
  {
    if next != [] {
      ThroughLists(o, chain, Front(next), full);
      Narrows(o, chain, Last(next));
      SearchLists(o, chain + [Last(next)], full);
      ThroughLast(o, chain, next, full);
      LastOrBefore(o, chain, next, full);
    }
  }

  lemma ThroughLast(o: VerifyOptions, chain: seq<Cert>, next: seq<Cert>, full: seq<Cert>)
    requires next != [] && forall c :: c in next ==> c in o.intermediates && CanFollow(chain, c, o.now)
    ensures full in Through(o, chain, next) <==>
            full in Through(o, chain, Front(next)) || full in Search(o, chain + [Last(next)])
  {
  }

  lemma LastOrBefore(o: VerifyOptions, chain: seq<Cert>, next: seq<Cert>, full: seq<Cert>)
    requires next != []
    ensures (exists c :: c in next && Extends(o, chain + [c], full)) <==>
            (exists c :: c in Front(next) && Extends(o, chain + [c], full)) || Extends(o, chain + [Last(next)], full)
  {
    assert next == Front(next) + [Last(next)];
  }

  lemma ExtendsSplit(o: VerifyOptions, chain: seq<Cert>, full: seq<Cert>)
    requires Extends(o, chain, full)
    ensures CanFollow(chain, full[|chain|], o.now)
    ensures |full| > |chain| + 1 ==> full[|chain|] in o.intermediates && Extends(o, chain + [full[|chain|]], full)
  {
    assert IsNext(o, full, |chain|);
    assert full[..|chain| + 1] == chain + [full[|chain|]];
  }

  lemma EndedExtends(o: VerifyOptions, chain: seq<Cert>, full: seq<Cert>)
    requires |full| == |chain| + 1 && full[..|chain|] == chain
    requires Last(full) in o.roots && CanFollow(chain, Last(full), o.now)
    ensures Extends(o, chain, full)
  {
    assert IsNext(o, full, |chain|);
  }

  lemma LongerExtends(o: VerifyOptions, chain: seq<Cert>, c: Cert, full: seq<Cert>)
    requires Extends(o, chain + [c], full) && c in o.intermediates && CanFollow(chain, c, o.now)
    ensures Extends(o, chain, full)
  {
    assert full[..|chain|] == (chain + [c])[..|chain|] == chain;
    assert full[|chain|] == full[..|chain| + 1][|chain|] == c;
    forall k | |chain| <= k < |full| ensures IsNext(o, full, k) {
      assert k > |chain| ==> IsNext(o, full, k);
    }
  }

  ghost predicate OneEach(chain: seq<Cert>) {
    forall i, j :: 0 <= i < j < |chain| ==> !SameHolder(chain[j], chain[i])
  }

  /** What the search lists for a leaf are verified chains without two certificates of one holder, and all of them. */
  lemma SearchIsComplete(leaf: Cert, o: VerifyOptions, chain: seq<Cert>)
    requires ValidAt(leaf, o.now) && leaf !in o.roots
    ensures chain in Search(o, [leaf]) <==> IsVerified(leaf, o, chain) && OneEach(chain)
  {
    SearchLists(o, [leaf], chain);
    if Extends(o, [leaf], chain) {
      ExtendedIsVerified(leaf, o, chain);
    } else if IsVerified(leaf, o, chain) && OneEach(chain) {
      VerifiedExtends(leaf, o, chain);
    }
  }

  lemma ExtendedIsVerified(leaf: Cert, o: VerifyOptions, chain: seq<Cert>)
    requires ValidAt(leaf, o.now) && Extends(o, [leaf], chain)
    ensures IsVerified(leaf, o, chain) && OneEach(chain)
  {
    assert chain[0] == chain[..1][0];
    forall k | 0 < k < |chain|
      ensures IsSigned(chain[k - 1], chain[k]) && ValidAt(chain[k], o.now) && !AlreadyIn(chain[k], chain[..k])
      ensures k < |chain| - 1 ==> chain[k] in o.intermediates
    {
      assert IsNext(o, chain, k);
      assert Last(chain[..k]) == chain[k - 1];
    }
    forall i, j | 0 <= i < j < |chain| ensures !SameHolder(chain[j], chain[i]) {
      assert chain[i] in chain[..j];
    }
    assert forall i, j :: 0 <= i < j < |chain| ==> chain[i] != chain[j];
  }

  lemma VerifiedExtends(leaf: Cert, o: VerifyOptions, chain: seq<Cert>)
    requires leaf !in o.roots && IsVerified(leaf, o, chain) && OneEach(chain)
    ensures Extends(o, [leaf], chain)
  {
    assert chain[..1] == [leaf];
    forall k | 1 <= k < |chain| ensures IsNext(o, chain, k) {
      assert Last(chain[..k]) == chain[k - 1];
    }
  }

  lemma SearchIsHonest()
    ensures Honest(SearchVerify())
  {
    forall leaf, o ensures AreChains(leaf, o, SearchVerify()(leaf, o)) {
      var chains := SearchVerify()(leaf, o);
      if chains.Some? {
        forall i | 0 <= i < |chains.value| ensures IsVerified(leaf, o, chains.value[i]) {
          if leaf !in o.roots {
            assert chains.value[i] in Search(o, [leaf]);
            SearchIsComplete(leaf, o, chains.value[i]);
          }
        }
      }
    }
  }

  // ---------- A longer path is shown ----------

  const VALID_UNTIL: int := 4_102_444_800 * SECOND

  /** A certificate with the given subject and key, issued under the given issuer and key. */
  function IssuedBy(issuer: nat, fp: Fingerprint, subject: nat, uris: seq<Uri>): Cert {
    var key, signer := Key(subject, Ecdsa(256)), Key(issuer, Ecdsa(256));
    Cert(fp, [subject], [issuer], [], [], uris, uris == [], true, {}, [], [], 0, VALID_UNTIL, key, signer)
  }

  const ROOT: Cert := IssuedBy(0, 10, 0, [])
  const OUTER: Cert := IssuedBy(0, 11, 1, [])
  const INNER: Cert := IssuedBy(1, 12, 2, [])
  const CROSS: Cert := IssuedBy(0, 13, 2, [])
  const LEAF: Cert := IssuedBy(2, 14, 3, [SpiffeUri(SpiffeId("td", ""))])
  const FIVE: seq<Cert> := [LEAF, INNER, OUTER, CROSS, ROOT]

  /**
    The key of one intermediate has two certificates, one from the root and one from
    another intermediate. At any time at which all are valid, the search meets the
    detour first and the path shown is the longer one.
  */
  lemma LongerPathShown(now: int) returns (path: seq<Cert>, shorter: seq<Cert>)
    requires 0 <= now <= VALID_UNTIL
    ensures Honest(SearchVerify()) && Deduped(FIVE)
    ensures IsPathResult(FIVE, now, SearchVerify(), Success(path), 0)
    ensures IsPath(FIVE, LEAF, now, path) && IsPath(FIVE, LEAF, now, shorter) && |shorter| < |path|
  {
    path, shorter := [ROOT, OUTER, INNER, LEAF], [ROOT, CROSS, LEAF];
    SearchIsHonest();
    LeafFirst();
    FiveDeduped();
    LongPath(now);
    ShortPath(now);
    LongerIsFirst(now);
  }

  lemma LeafFirst()
    ensures IsLeafChoice(FIVE, Success(LEAF))
  {
    assert IsSpiffeLeaf(FIVE[0]);
    assert IsCandidate(FIVE, 0);
  }

  lemma FiveDeduped()
    ensures Deduped(FIVE)
  {
  }

  lemma LongPath(now: int)
    requires 0 <= now <= VALID_UNTIL
    ensures IsPath(FIVE, LEAF, now, [ROOT, OUTER, INNER, LEAF])
  {
  }

  lemma ShortPath(now: int)
    requires 0 <= now <= VALID_UNTIL
    ensures IsPath(FIVE, LEAF, now, [ROOT, CROSS, LEAF])
  {
  }

  function FiveOptions(now: int): VerifyOptions {
    VerifyOptions([ROOT], [INNER, OUTER, CROSS], now)
  }

  lemma FivePools(now: int)
    ensures OptionsFor(FIVE, LEAF, now) == FiveOptions(now)
  {
    var p, q := SelfSigned(), Between(LEAF);
    assert !p(LEAF) && !p(INNER) && !p(OUTER) && !p(CROSS) && p(ROOT);
    KeepFive(LEAF, INNER, OUTER, CROSS, ROOT, p);
    assert !q(LEAF) && q(INNER) && q(OUTER) && q(CROSS) && !q(ROOT);
    KeepFive(LEAF, INNER, OUTER, CROSS, ROOT, q);
  }

  lemma LongerIsFirst(now: int)
    requires 0 <= now <= VALID_UNTIL
    ensures IsPathFrom(LEAF, OptionsFor(FIVE, LEAF, now), SearchVerify(), Success([ROOT, OUTER, INNER, LEAF]), 0)
  {
    FivePools(now);
    TwoChains(now);
    FirstOfTwo(LEAF, FiveOptions(now), [ROOT, OUTER, INNER, LEAF], [LEAF, INNER, OUTER, ROOT], [LEAF, CROSS, ROOT]);
  }

  lemma FirstOfTwo(leaf: Cert, o: VerifyOptions, path: seq<Cert>, a: seq<Cert>, b: seq<Cert>)
    requires ValidAt(leaf, o.now) && o.roots != [] && leaf !in o.roots && Search(o, [leaf]) == [a, b]
    requires IsReverse(path, a) && |a| != |b|
    ensures IsPathFrom(leaf, o, SearchVerify(), Success(path), 0)
  {
    KeepAppend([], b, OfLength(|a|));
    assert [] + [b] == [b];
    assert [a, b][1..] == [b];
  }

  /** What the search finds: the detour over both intermediates, then the direct way. */
  lemma TwoChains(now: int)
    requires 0 <= now <= VALID_UNTIL
    ensures Search(FiveOptions(now), [LEAF]) == [[LEAF, INNER, OUTER, ROOT], [LEAF, CROSS, ROOT]]
  {
    FollowsLeaf(now);
    SearchTwo(FiveOptions(now), [LEAF], INNER, CROSS);
    assert [LEAF] + [INNER] == [LEAF, INNER];
    assert [LEAF] + [CROSS] == [LEAF, CROSS];
    Detour(now);
    Direct(now);
  }

  lemma Detour(now: int)
    requires 0 <= now <= VALID_UNTIL
    ensures Search(FiveOptions(now), [LEAF, INNER]) == [[LEAF, INNER, OUTER, ROOT]]
  {
    FollowsInner(now);
    SearchOne(FiveOptions(now), [LEAF, INNER], OUTER);
    assert [LEAF, INNER] + [OUTER] == [LEAF, INNER, OUTER];
    FollowsOuter(now);
    SearchEnds(FiveOptions(now), [LEAF, INNER, OUTER], ROOT);
    assert [LEAF, INNER, OUTER] + [ROOT] == [LEAF, INNER, OUTER, ROOT];
  }

  lemma Direct(now: int)
    requires 0 <= now <= VALID_UNTIL
    ensures Search(FiveOptions(now), [LEAF, CROSS]) == [[LEAF, CROSS, ROOT]]
  {
    FollowsCross(now);
    SearchEnds(FiveOptions(now), [LEAF, CROSS], ROOT);
    assert [LEAF, CROSS] + [ROOT] == [LEAF, CROSS, ROOT];
  }

  lemma SearchEnds(o: VerifyOptions, chain: seq<Cert>, root: Cert)
    requires Keep(o.roots, Follows(chain, o.now)) == [root] && Keep(o.intermediates, Follows(chain, o.now)) == []
    ensures Search(o, chain) == [chain + [root]]
  {
    EndedOne(chain, root);
    assert Through(o, chain, []) == [];
  }

  lemma EndedOne(chain: seq<Cert>, c: Cert)
    ensures Ended(chain, [c]) == [chain + [c]]
  {
    assert Front([c]) == [];
  }

  lemma SearchOne(o: VerifyOptions, chain: seq<Cert>, c: Cert)
    requires Keep(o.roots, Follows(chain, o.now)) == [] && Keep(o.intermediates, Follows(chain, o.now)) == [c]
    ensures Search(o, chain) == Search(o, chain + [c])
  {
    KeepHolds(o.intermediates, Follows(chain, o.now));
    ThroughOne(o, chain, c);
  }

  lemma SearchTwo(o: VerifyOptions, chain: seq<Cert>, c: Cert, d: Cert)
    requires Keep(o.roots, Follows(chain, o.now)) == [] && Keep(o.intermediates, Follows(chain, o.now)) == [c, d]
    ensures Search(o, chain) == Search(o, chain + [c]) + Search(o, chain + [d])
  {
    KeepHolds(o.intermediates, Follows(chain, o.now));
    assert Front([c, d]) == [c];
    assert c in [c, d] && d in [c, d];
    ThroughOne(o, chain, c);
  }

  lemma ThroughOne(o: VerifyOptions, chain: seq<Cert>, c: Cert)
    requires c in o.intermediates && CanFollow(chain, c, o.now)
    ensures Through(o, chain, [c]) == Search(o, chain + [c])
  {
    assert Front([c]) == [];
  }

  /** The certificates of the pools that can follow the chain. */
  ghost predicate Continues(chain: seq<Cert>, now: int, roots: seq<Cert>, intermediates: seq<Cert>) {
    && Keep([ROOT], Follows(chain, now)) == roots
    && Keep([INNER, OUTER, CROSS], Follows(chain, now)) == intermediates
  }

  lemma ContinuesWith(chain: seq<Cert>, now: int, root: bool, inner: bool, outer: bool, cross: bool)
    requires CanFollow(chain, ROOT, now) == root && CanFollow(chain, INNER, now) == inner
    requires CanFollow(chain, OUTER, now) == outer && CanFollow(chain, CROSS, now) == cross
    ensures Continues(chain, now, When(root, ROOT), When(inner, INNER) + When(outer, OUTER) + When(cross, CROSS))
  {
    KeepAppend([], ROOT, Follows(chain, now));
    assert [] + [ROOT] == [ROOT];
    KeepThree(INNER, OUTER, CROSS, Follows(chain, now));
  }

  lemma FollowsLeaf(now: int)
    requires 0 <= now <= VALID_UNTIL
    ensures Continues([LEAF], now, [], [INNER, CROSS])
    ensures CanFollow([LEAF], INNER, now) && CanFollow([LEAF], CROSS, now)
  {
    ContinuesWith([LEAF], now, false, true, false, true);
  }

  lemma FollowsInner(now: int)
    requires 0 <= now <= VALID_UNTIL
    ensures Continues([LEAF, INNER], now, [], [OUTER]) && CanFollow([LEAF, INNER], OUTER, now)
  {
    ContinuesWith([LEAF, INNER], now, false, false, true, false);
  }

  lemma FollowsOuter(now: int)
    requires 0 <= now <= VALID_UNTIL
    ensures Continues([LEAF, INNER, OUTER], now, [ROOT], [])
  {
    ContinuesWith([LEAF, INNER, OUTER], now, true, false, false, false);
  }

  lemma FollowsCross(now: int)
    requires 0 <= now <= VALID_UNTIL
    ensures Continues([LEAF, CROSS], now, [ROOT], [])
  {
    ContinuesWith([LEAF, CROSS], now, true, false, false, false);
  }
}
