/**
  The chain format: the chain of CertChain, or the first path that the X.509 library
  verifies, as indented lines.
*/
module ChainFormat {
  import opened Wrappers
  import opened Seqs
  import opened Certs
  import opened ParentMaps
  import opened CertChain

  datatype PathError = LeafUnknown | NoTrustedRoot | NotVerified

  // ---------- The verified path ----------

  /** The pools and the time that a leaf is verified against. */
  datatype VerifyOptions = VerifyOptions(roots: seq<Cert>, intermediates: seq<Cert>, now: int)

  /** Certificate.Verify: the chains from a leaf to a root. */
  type Verifier = (Cert, VerifyOptions) -> Option<seq<seq<Cert>>>

  ghost predicate IsVerified(leaf: Cert, o: VerifyOptions, chain: seq<Cert>) {
    && chain != [] && chain[0] == leaf && Last(chain) in o.roots && Distinct(chain)
    && (forall k :: 0 < k < |chain| - 1 ==> chain[k] in o.intermediates)
    && (forall k :: 0 < k < |chain| ==> IsSigned(chain[k - 1], chain[k]))
    && (forall k :: 0 <= k < |chain| ==> ValidAt(chain[k], o.now))
  }

  predicate IsSigned(c: Cert, issuer: Cert) {
    c.rawIssuer == issuer.rawSubject && CheckSignatureFrom(c, issuer)
  }

  predicate ValidAt(c: Cert, now: int) {
    c.notBefore <= now <= c.notAfter
  }

  /** Verification that succeeds gives one chain or more, and each of them leads over signatures to a root. */
  ghost predicate Honest(verify: Verifier) {
    forall leaf, o :: AreChains(leaf, o, verify(leaf, o))
  }

  ghost predicate AreChains(leaf: Cert, o: VerifyOptions, chains: Option<seq<seq<Cert>>>) {
    chains.Some? ==>
      chains.value != [] && forall i :: 0 <= i < |chains.value| ==> IsVerified(leaf, o, chains.value[i])
  }

  function SelfSigned(): Cert -> bool {
    c => IsSelfSigned(c)
  }

  function Between(leaf: Cert): Cert -> bool {
    c => !IsSelfSigned(c) && c.fp != leaf.fp
  }

  function OfLength(n: nat): seq<Cert> -> bool {
    c => |c| == n
  }

  /** Self-signed certificates are the roots, the others but the leaf the intermediates. */
  function OptionsFor(all: seq<Cert>, leaf: Cert, now: int): VerifyOptions {
    VerifyOptions(Keep(all, SelfSigned()), Keep(all, Between(leaf)), now)
  }

  ghost predicate IsReverse(a: seq<Cert>, b: seq<Cert>) {
    |a| == |b| && forall k :: 0 <= k < |a| ==> a[k] == b[|b| - 1 - k]
  }

  /** The first chain that verifies, from root to leaf, and how many others are as long; or why there is none. */
  ghost predicate IsPathResult(all: seq<Cert>, now: int, verify: Verifier, r: Result<seq<Cert>, PathError>,
                               alternates: nat)
  {
    if r == Failure(LeafUnknown) then IsLeafChoice(all, Failure(NoLeaf))
    else
      exists leaf ::
        IsLeafChoice(all, Success(leaf)) && IsPathFrom(leaf, OptionsFor(all, leaf, now), verify, r, alternates)
  }

  ghost predicate IsPathFrom(leaf: Cert, o: VerifyOptions, verify: Verifier, r: Result<seq<Cert>, PathError>,
                             alternates: nat)
  {
    var chains := verify(leaf, o);
    match r
    case Success(path) =>
      && o.roots != [] && chains.Some? && chains.value != [] && IsReverse(path, chains.value[0])
      && alternates == |Keep(chains.value[1..], OfLength(|path|))|
    case Failure(NoTrustedRoot) => o.roots == []
    case Failure(NotVerified) => o.roots != [] && chains == None
    case Failure(LeafUnknown) => false
  }

  method Pools(all: seq<Cert>, leaf: Cert, now: int) returns (o: VerifyOptions)
    ensures o == OptionsFor(all, leaf, now)
  {
    var roots, intermediates := [], [];
    for i := 0 to |all|
      invariant roots == Keep(all[..i], SelfSigned()) && intermediates == Keep(all[..i], Between(leaf))
    {
      assert all[..i + 1] == all[..i] + [all[i]];
      KeepAppend(all[..i], all[i], SelfSigned());
      KeepAppend(all[..i], all[i], Between(leaf));
      if IsSelfSigned(all[i]) {
        roots := roots + [all[i]];
      } else if all[i].fp != leaf.fp {
        intermediates := intermediates + [all[i]];
      }
    }
    assert all[..|all|] == all;
    return VerifyOptions(roots, intermediates, now);
  }

  method CountAlternates(chains: seq<seq<Cert>>) returns (count: nat)
    requires chains != []
    ensures count == |Keep(chains[1..], OfLength(|chains[0]|))|
  {
    var others := chains[1..];
    count := 0;
    for i := 0 to |others|
      invariant count == |Keep(others[..i], OfLength(|chains[0]|))|
    {
      assert others[..i + 1] == others[..i] + [others[i]];
      KeepAppend(others[..i], others[i], OfLength(|chains[0]|));
      if |others[i]| == |chains[0]| {
        count := count + 1;
      }
    }
    assert others[..|others|] == others;
  }

  method ShortestPath(all: seq<Cert>, now: int, verify: Verifier)
    returns (r: Result<seq<Cert>, PathError>, alternates: nat)
    requires Honest(verify)
    ensures IsPathResult(all, now, verify, r, alternates)
  {
    var leaf := IdentifyLeaf(all);
    if leaf.Failure? {
      return Failure(LeafUnknown), 0;
    }
    var o := Pools(all, leaf.value, now);
    if o.roots == [] {
      assert IsPathFrom(leaf.value, o, verify, Failure(NoTrustedRoot), 0);
      return Failure(NoTrustedRoot), 0;
    }
    var chains := verify(leaf.value, o);
    if chains.None? {
      assert IsPathFrom(leaf.value, o, verify, Failure(NotVerified), 0);
      return Failure(NotVerified), 0;
    }
    assert AreChains(leaf.value, o, chains);
    alternates := CountAlternates(chains.value);
    var path := Reverse(chains.value[0]);
    r := Success(path);
    assert IsPathFrom(leaf.value, o, verify, r, alternates);
  }

  /**
    A path of the union from a certificate under its own name and signature to the
    leaf. Each certificate is issued in the name and signed with the key of the one
    before, which may sign, and all are valid now.
  */
  ghost predicate IsPath(all: seq<Cert>, leaf: Cert, now: int, path: seq<Cert>) {
    && path != [] && path[0] in all && IsIssuedBy(path[0], path[0]) && Last(path) == leaf
    && (forall k :: 0 < k < |path| ==> path[k] in all && IsIssuedBy(path[k], path[k - 1]))
    && (forall k :: 0 <= k < |path| ==> path[k].notBefore <= now <= path[k].notAfter)
  }

  ghost predicate IsIssuedBy(c: Cert, issuer: Cert) {
    && c.rawIssuer == issuer.rawSubject && c.signedBy == issuer.publicKey
    && issuer.isCA && issuer.basicConstraintsValid && (issuer.keyUsage == {} || CertSign in issuer.keyUsage)
  }

  /** What is shown is a valid path of the union to its leaf. */
  lemma ShownIsPath(all: seq<Cert>, now: int, verify: Verifier, path: seq<Cert>, alternates: nat)
    requires Honest(verify) && IsPathResult(all, now, verify, Success(path), alternates)
    ensures exists leaf :: IsLeafChoice(all, Success(leaf)) && IsPath(all, leaf, now, path)
  {
    var r: Result<seq<Cert>, PathError> := Success(path);
    var leaf :| IsLeafChoice(all, Success(leaf)) && IsPathFrom(leaf, OptionsFor(all, leaf, now), verify, r, alternates);
    var o := OptionsFor(all, leaf, now);
    assert AreChains(leaf, o, verify(leaf, o));
    VerifiedIsPath(all, leaf, now, verify(leaf, o).value[0], path);
  }

  lemma VerifiedIsPath(all: seq<Cert>, leaf: Cert, now: int, chain: seq<Cert>, path: seq<Cert>)
    requires leaf in all && IsReverse(path, chain) && IsVerified(leaf, OptionsFor(all, leaf, now), chain)
    ensures IsPath(all, leaf, now, path)
  {
    KeepHolds(all, SelfSigned());
    KeepHolds(all, Between(leaf));
    var n := |chain|;
    forall k | 0 < k < n ensures path[k] in all && IsIssuedBy(path[k], path[k - 1]) {
      assert IsSigned(chain[n - k - 1], chain[n - k]);
      assert k < n - 1 ==> chain[n - 1 - k] in Keep(all, Between(leaf));
    }
  }

  // ---------- The lines ----------

  /** A line: the depth that it is indented by, the subject, and an ID in brackets. */
  datatype Line = Line(depth: nat, subject: Bytes, id: Option<SpiffeId>)

  /** One line for each certificate, a level deeper than the one before, with an ID for the leaf only. */
  ghost predicate Renders(lines: seq<Line>, chain: seq<Cert>) {
    && |lines| == |chain|
    && forall k :: 0 <= k < |chain| ==> IsLineOf(lines[k], chain[k], k, k == |chain| - 1)
  }

  ghost predicate IsLineOf(line: Line, c: Cert, depth: nat, isLeaf: bool) {
    line == Line(depth, c.rawSubject, if isLeaf then ExtractSpiffeId(c.uris) else None)
  }

  method RenderChain(chain: seq<Cert>) returns (lines: seq<Line>)
    ensures Renders(lines, chain)
  {
    lines := [];
    var last := |chain| - 1;
    for depth := 0 to |chain|
      invariant |lines| == depth
      invariant forall k :: 0 <= k < depth ==> IsLineOf(lines[k], chain[k], k, k == last)
    {
      var line := Line(depth, chain[depth].rawSubject, None);
      if depth == last {
        line := line.(id := ExtractSpiffeId(chain[depth].uris));
      }
      lines := lines + [line];
    }
  }

  /** Which chain of the union of both inputs is shown, or that none is. */
  ghost predicate IsShown(all: seq<Cert>, shortest: bool, now: int, verify: Verifier, chain: seq<Cert>) {
    if shortest then exists alternates :: IsPathResult(all, now, verify, Success(chain), alternates)
    else IsChainResult(all, Success(chain))
  }

  ghost predicate IsRefused(all: seq<Cert>, shortest: bool, now: int, verify: Verifier, e: PathError) {
    if shortest then exists alternates :: IsPathResult(all, now, verify, Failure(e), alternates)
    else e == LeafUnknown && IsChainResult(all, Failure(NoLeaf))
  }

  method ConvertCertsToChain(certs: seq<Cert>, bundle: seq<Cert>, shortest: bool, now: int, verify: Verifier)
    returns (r: Result<seq<Line>, PathError>)
    requires Honest(verify)
    ensures r.Success? ==>
              exists chain ::
                IsShown(FirstOccurrences(certs + bundle), shortest, now, verify, chain) && Renders(r.value, chain)
    ensures r.Failure? ==> IsRefused(FirstOccurrences(certs + bundle), shortest, now, verify, r.error)
  {
    var all := UnionCerts(certs, bundle);
    var chain: seq<Cert>;
    if shortest {
      var path, alternates := ShortestPath(all, now, verify);
      if path.Failure? {
        return Failure(path.error);
      }
      chain := path.value;
    } else {
      var built := BuildChain(all);
      if built.Failure? {
        return Failure(LeafUnknown);
      }
      chain := built.value;
    }
    var lines := RenderChain(chain);
    assert IsShown(FirstOccurrences(certs + bundle), shortest, now, verify, chain);
    return Success(lines);
  }
}
