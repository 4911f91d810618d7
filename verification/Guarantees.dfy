/**
  What holds of every interleaving of rotations and mints, and what the other
  components make of what is minted.
*/
module Guarantees {
  import opened Wrappers
  import opened Seqs
  import opened Certs
  import opened TrustDomains
  import opened Interleavings
  import opened ParentMaps
  import CertChain
  import X = X509Authority
  import J = JwtSvid

  // ---------- The life of a mint ----------

  function Phase<S, T>(m: Mint<S, T>): nat {
    if m.Snapped? then 0 else if m.Checked? then 1 else 2
  }

  /**
    The mint is still there, as far as before or further, and unchanged if no further.
    Passing the check does not touch the snapshot.
  */
  ghost predicate Moved<S, T>(before: map<nat, Mint<S, T>>, after: map<nat, Mint<S, T>>, i: nat) {
    i in before ==>
      && i in after && Phase(before[i]) <= Phase(after[i])
      && (Phase(before[i]) == Phase(after[i]) ==> before[i] == after[i])
      && (before[i].Snapped? && after[i].Checked? ==> before[i].td == after[i].td && before[i].taken == after[i].taken)
  }

  lemma StepPhases(w: World, e: Event, i: nat)
    requires Enabled(w, e)
    ensures Moved(w.x509Mints, Step(w, e).x509Mints, i) && Moved(w.jwtMints, Step(w, e).jwtMints, i)
  {
  }

  lemma OneStepPhases(trace: seq<World>, events: seq<Event>, k: nat, i: nat)
    requires IsRun(trace, events) && k < |events|
    ensures Moved(trace[k].x509Mints, trace[k + 1].x509Mints, i) && Moved(trace[k].jwtMints, trace[k + 1].jwtMints, i)
  {
    assert StepAt(trace, events, k);
    StepPhases(trace[k], events[k], i);
  }

  /** Over a run a mint moves through its phases and changes in no other way. */
  lemma {:induction false} RunPhases(trace: seq<World>, events: seq<Event>, a: nat, b: nat, i: nat)
    requires IsRun(trace, events) && a <= b < |trace|
    ensures Moved(trace[a].x509Mints, trace[b].x509Mints, i) && Moved(trace[a].jwtMints, trace[b].jwtMints, i)
    decreases b - a
  {
    if a < b {
      RunPhases(trace, events, a, b - 1, i);
      OneStepPhases(trace, events, b - 1, i);
      MovedTrans(trace[a].x509Mints, trace[b - 1].x509Mints, trace[b].x509Mints, i);
      MovedTrans(trace[a].jwtMints, trace[b - 1].jwtMints, trace[b].jwtMints, i);
    }
  }

  lemma MovedTrans<S, T>(a: map<nat, Mint<S, T>>, b: map<nat, Mint<S, T>>, c: map<nat, Mint<S, T>>, i: nat)
    requires Moved(a, b, i) && Moved(b, c, i)
    ensures Moved(a, c, i)
  {
  }

  // ---------- The unlocked check ----------

  /**
    A mint that takes its snapshot, passes the check and signs panics if and only if
    the domain had no authority when the snapshot was taken, whatever happens between.
  */
  lemma PanicsIffSnapshotEmpty(trace: seq<World>, events: seq<Event>, i: nat, td: string, s: nat, g: nat,
                               params: X.Params, now: int)
    requires IsRun(trace, events) && s < g < |events|
    requires events[s] == SnapX509(i, td) && events[g] == SignX509SVID(i, params, now)
    ensures td in trace[s].domains && i in trace[g + 1].x509Mints
    ensures trace[g + 1].x509Mints[i].Panicked? <==> trace[s].domains[td].x509 == []
  {
    assert StepAt(trace, events, s) && StepAt(trace, events, g);
    RunPhases(trace, events, s + 1, g, i);
  }

  lemma JwtPanicsIffSnapshotEmpty(trace: seq<World>, events: seq<Event>, i: nat, td: string, s: nat, g: nat,
                                  params: J.Params, capNow: int, now: int)
    requires IsRun(trace, events) && s < g < |events|
    requires events[s] == SnapJwt(i, td) && events[g] == SignJWTSVID(i, params, capNow, now)
    ensures td in trace[s].domains && i in trace[g + 1].jwtMints
    ensures trace[g + 1].jwtMints[i].Panicked? <==> trace[s].domains[td].jwt == []
  {
    assert StepAt(trace, events, s) && StepAt(trace, events, g);
    RunPhases(trace, events, s + 1, g, i);
  }

  /**
    Whatever happens between, a mint is answered by the authority that was the last
    of its domain when its snapshot was taken.
  */
  lemma X509LatestAnswers(trace: seq<World>, events: seq<Event>, i: nat, td: string, s: nat, g: nat,
                          params: X.Params, now: int)
    requires IsRun(trace, events) && s < g < |events|
    requires events[s] == SnapX509(i, td) && events[g] == SignX509SVID(i, params, now)
    ensures td in trace[s].domains && i in trace[g + 1].x509Mints
    ensures var taken := trace[s].domains[td].x509;
            taken != [] ==> IsX509Answer(trace[g + 1].x509Mints[i], td, taken, params, now, trace[g].serial)
  {
    assert StepAt(trace, events, s) && StepAt(trace, events, g);
    RunPhases(trace, events, s + 1, g, i);
    if trace[s].domains[td].x509 != [] {
      SignX509Answers(td, trace[s].domains[td].x509, params, now, trace[g].serial);
    }
  }

  /** The same for a JWT mint; all its authority can contribute to a failure is ruled out by the invariant. */
  lemma JwtLatestAnswers(trace: seq<World>, events: seq<Event>, i: nat, td: string, s: nat, g: nat,
                         params: J.Params, capNow: int, now: int)
    requires IsRun(trace, events) && Inv(trace[0]) && s < g < |events|
    requires events[s] == SnapJwt(i, td) && events[g] == SignJWTSVID(i, params, capNow, now)
    ensures td in trace[s].domains && i in trace[g + 1].jwtMints
    ensures var taken, config, m := trace[s].domains[td].jwt, trace[s].domains[td].config, trace[g + 1].jwtMints[i];
            taken != [] ==>
              && IsJwtAnswer(m, config, td, taken, params, capNow, now)
              && (m.Issued? <==> J.IsAcceptable(params) && now < capNow + config.jwtTTL != J.ZERO_TIME)
  {
    JwtSnapshotSigns(trace, events, i, td, s, g, params, capNow, now);
    var taken := trace[s].domains[td].jwt;
    if taken != [] {
      SignJwtAnswers(trace[s].domains[td].config, td, taken, params, capNow, now);
      RunSlice(trace, events, 0, s);
      RunKeepsInv(trace[0..s + 1], events[0..s]);
      AuthorityIsUsable(trace[s], td, |taken| - 1);
    }
  }

  lemma JwtSnapshotSigns(trace: seq<World>, events: seq<Event>, i: nat, td: string, s: nat, g: nat,
                         params: J.Params, capNow: int, now: int)
    requires IsRun(trace, events) && s < g < |events|
    requires events[s] == SnapJwt(i, td) && events[g] == SignJWTSVID(i, params, capNow, now)
    ensures td in trace[s].domains && i in trace[g + 1].jwtMints
    ensures var d := trace[s].domains[td];
            trace[g + 1].jwtMints[i] == SignJwt(d.config, td, d.jwt, params, capNow, now)
  {
    assert StepAt(trace, events, s) && StepAt(trace, events, g);
    RunPhases(trace, events, s + 1, g, i);
    GrewSince(trace, events, s, g);
  }

  lemma AuthorityIsUsable(w: World, td: string, j: nat)
    requires Inv(w) && td in w.domains && j < |w.domains[td].jwt|
    ensures w.domains[td].jwt[j].keyID != "" && J.IsSupported(w.domains[td].jwt[j].key)
  {
    assert DomainOk(w, w.domains[td]);
    IdNotEmpty(w.domains[td].jwt, w.count, j);
  }

  /** Such a run exists: a rotation between the snapshot and the check makes the mint panic. */
  lemma RaceExists(configs: map<string, Config>, td: string, params: X.Params, now: int)
    returns (trace: seq<World>, events: seq<Event>)
    requires td in configs
    ensures IsRun(trace, events) && trace[0] == InitialWorld(configs)
    ensures 0 in Last(trace).x509Mints && Last(trace).x509Mints[0] == Panicked(td)
  {
    events := [SnapX509(0, td), RotateX509(td, now), CheckX509(0), SignX509SVID(0, params, now)];
    var w := InitialWorld(configs);
    var w1 := Step(w, events[0]);
    var w2 := Step(w1, events[1]);
    var w3 := Step(w2, events[2]);
    trace := [w, w1, w2, w3, Step(w3, events[3])];
    assert StepAt(trace, events, 0) && StepAt(trace, events, 1) && StepAt(trace, events, 2) && StepAt(trace, events, 3);
  }

  lemma JwtRaceExists(configs: map<string, Config>, td: string, params: J.Params, now: int)
    returns (trace: seq<World>, events: seq<Event>)
    requires td in configs
    ensures IsRun(trace, events) && trace[0] == InitialWorld(configs)
    ensures 0 in Last(trace).jwtMints && Last(trace).jwtMints[0] == Panicked(td)
  {
    var w := InitialWorld(configs);
    var w1 := Step(w, SnapJwt(0, td));
    RunExtends([w], [], SnapJwt(0, td));
    trace, events := RotationExtends([w] + [w1], [] + [SnapJwt(0, td)], td, now);
    var w3 := Last(trace);
    var w4 := Step(w3, CheckJwt(0));
    RunExtends(trace, events, CheckJwt(0));
    RunExtends(trace + [w4], events + [CheckJwt(0)], SignJWTSVID(0, params, now, now));
    trace := trace + [w4] + [Step(w4, SignJWTSVID(0, params, now, now))];
    events := events + [CheckJwt(0)] + [SignJWTSVID(0, params, now, now)];
  }

  // ---------- When no mint panics ----------

  predicate Harmless<S, T>(m: Mint<S, T>) {
    match m
    case Snapped(_, taken) => taken != []
    case Checked(_, taken) => taken != []
    case Panicked(_) => false
    case _ => true
  }

  ghost predicate Calm(w: World) {
    && (forall i :: i in w.x509Mints ==> Harmless(w.x509Mints[i]))
    && forall i :: i in w.jwtMints ==> Harmless(w.jwtMints[i])
  }

  /** If the event takes a snapshot, that domain has an authority to take. */
  predicate SnapsSome(w: World, e: Event) {
    match e
    case SnapX509(_, td) => td in w.domains && w.domains[td].x509 != []
    case SnapJwt(_, td) => td in w.domains && w.domains[td].jwt != []
    case _ => true
  }

  lemma StepStaysCalm(w: World, e: Event)
    requires Enabled(w, e) && SnapsSome(w, e) && Calm(w)
    ensures Calm(Step(w, e))
  {
  }

  /**
    If no mint takes its snapshot before the first rotation of its own domain, no
    interleaving makes one index an empty snapshot. Other domains may be anywhere.
  */
  lemma {:induction false} NoMintPanics(trace: seq<World>, events: seq<Event>)
    requires IsRun(trace, events) && Calm(trace[0])
    requires forall k :: 0 <= k < |events| ==> SnapsSome(trace[k], events[k])
    ensures Calm(Last(trace))
    ensures forall i :: i in Last(trace).x509Mints ==> !Last(trace).x509Mints[i].Panicked?
    ensures forall i :: i in Last(trace).jwtMints ==> !Last(trace).jwtMints[i].Panicked?
  {
    if events != [] {
      RunFront(trace, events);
      NoMintPanics(Front(trace), Front(events));
      StepStaysCalm(trace[|events| - 1], Last(events));
    }
  }

  // The order of a domain's own steps: rotations first, then mints.

  predicate RotatesX509(e: Event, td: string) {
    e.RotateX509? && e.td == td
  }

  predicate AppendsJwt(e: Event, td: string) {
    e.AppendJwt? && e.td == td
  }

  ghost predicate RotatedBefore(events: seq<Event>, k: nat)
    requires k < |events|
  {
    && (events[k].SnapX509? ==> exists j :: 0 <= j < k && RotatesX509(events[j], events[k].td))
    && (events[k].SnapJwt? ==> exists j :: 0 <= j < k && AppendsJwt(events[j], events[k].td))
  }

  /** Every snapshot comes after a rotation of its own domain; nothing is said across domains. */
  ghost predicate RotatesFirst(events: seq<Event>) {
    forall k :: 0 <= k < |events| ==> RotatedBefore(events, k)
  }

  lemma GrewSince(trace: seq<World>, events: seq<Event>, a: nat, b: nat)
    requires IsRun(trace, events) && a <= b < |trace|
    ensures Grew(trace[a], trace[b])
  {
    RunSlice(trace, events, a, b);
    AuthoritiesOnlyGrow(trace[a..b + 1], events[a..b]);
  }

  lemma RotatedSnapsSome(trace: seq<World>, events: seq<Event>, k: nat)
    requires IsRun(trace, events) && k < |events| && RotatedBefore(events, k)
    ensures SnapsSome(trace[k], events[k])
  {
    var e := events[k];
    if e.SnapX509? {
      var j: nat :| j < k && RotatesX509(events[j], e.td);
      assert StepAt(trace, events, j);
      assert e.td in trace[j + 1].domains && trace[j + 1].domains[e.td].x509 != [];
      GrewSince(trace, events, j + 1, k);
    } else if e.SnapJwt? {
      var j: nat :| j < k && AppendsJwt(events[j], e.td);
      assert StepAt(trace, events, j);
      assert e.td in trace[j + 1].domains && trace[j + 1].domains[e.td].jwt != [];
      GrewSince(trace, events, j + 1, k);
    }
  }

  /**
    From the start of the program, with any number of domains each of which rotates
    before it mints, no mint ever panics and none is refused for want of an authority.
  */
  lemma RotatingFirstIsSafe(configs: map<string, Config>, trace: seq<World>, events: seq<Event>)
    requires forall td :: td in configs ==> configs[td].name == td
    requires IsRun(trace, events) && trace[0] == InitialWorld(configs) && RotatesFirst(events)
    ensures forall k, i :: 0 <= k < |trace| && i in trace[k].x509Mints ==> !trace[k].x509Mints[i].Panicked?
    ensures forall k, i :: 0 <= k < |trace| && i in trace[k].jwtMints ==> !trace[k].jwtMints[i].Panicked?
    ensures forall k :: 0 <= k < |events| ==> PassesCheck(trace[k + 1], events[k])
  {
    forall k | 0 <= k < |trace| ensures Calm(trace[k]) && Inv(trace[k]) {
      PrefixIsCalm(configs, trace, events, k);
    }
    forall k | 0 <= k < |events| ensures PassesCheck(trace[k + 1], events[k]) {
      assert StepAt(trace, events, k);
      CalmPasses(trace[k], events[k]);
    }
  }

  /** If the event was the check of a mint, the mint has passed it. */
  predicate PassesCheck(w: World, e: Event) {
    match e
    case CheckX509(i) => i in w.x509Mints && w.x509Mints[i].Checked?
    case CheckJwt(i) => i in w.jwtMints && w.jwtMints[i].Checked?
    case _ => true
  }

  lemma CalmPasses(w: World, e: Event)
    requires Inv(w) && Calm(w) && Enabled(w, e)
    ensures PassesCheck(Step(w, e), e)
  {
    if e.CheckX509? {
      assert X509MintOk(w, w.x509Mints[e.i]) && Harmless(w.x509Mints[e.i]);
    } else if e.CheckJwt? {
      assert JwtMintOk(w, w.jwtMints[e.i]) && Harmless(w.jwtMints[e.i]);
    }
  }

  lemma PrefixIsCalm(configs: map<string, Config>, trace: seq<World>, events: seq<Event>, k: nat)
    requires forall td :: td in configs ==> configs[td].name == td
    requires IsRun(trace, events) && trace[0] == InitialWorld(configs) && RotatesFirst(events) && k < |trace|
    ensures Calm(trace[k]) && Inv(trace[k])
  {
    InitialWorldOk(configs);
    RunSlice(trace, events, 0, k);
    var prefix, done := trace[0..k + 1], events[0..k];
    forall j | 0 <= j < k ensures SnapsSome(prefix[j], done[j]) {
      assert RotatedBefore(events, j);
      RotatedSnapsSome(trace, events, j);
    }
    NoMintPanics(prefix, done);
    RunKeepsInv(prefix, done);
  }

  // ---------- X.509-SVIDs ----------

  /**
    An issued certificate meets every rule for an SVID, is valid for some time and no
    longer than its issuer, its signature verifies under its issuer, and its issuer is
    in the bundle of every later state.
  */
  lemma IssuedX509IsSound(trace: seq<World>, events: seq<Event>, k: nat, i: nat)
    requires IsRun(trace, events) && Inv(trace[0]) && k < |trace|
    requires i in trace[k].x509Mints && trace[k].x509Mints[i].Issued?
    ensures var m, last := trace[k].x509Mints[i], Last(trace);
            && i in last.x509Mints && last.x509Mints[i] == m && m.td in last.domains
            && (forall r :: !X.Violates(m.result.cert, r))
            && m.result.cert.notBefore < m.result.cert.notAfter <= m.result.issuer.cert.notAfter
            && CheckSignatureFrom(m.result.cert, m.result.issuer.cert)
            && m.result.issuer.cert in X509Bundle(last.domains[m.td].x509)
  {
    RunKeepsInv(trace, events);
    RunPhases(trace, events, k, |trace| - 1, i);
    var s, all := trace[k].x509Mints[i].result, Last(trace).domains[trace[k].x509Mints[i].td].x509;
    assert X509MintOk(Last(trace), Last(trace).x509Mints[i]);
    X.MintedIsSvid(s.issuer.cert, s.issuer.key, s.params, s.at, s.cert.fp);
    var j :| 0 <= j < |all| && all[j] == s.issuer;
    assert IsRoot(all[j], Last(trace).serial);
    X509BundleHolds(all, j);
  }

  // ---------- JWT-SVIDs ----------

  function Bundles(w: World): J.Bundles {
    map td | td in w.domains :: JwtBundle(w.domains[td].jwt)
  }

  lemma DomainKeyIDsDistinct(w: World, td: string)
    requires KeyIDsDistinct(w) && td in w.domains
    ensures DistinctKeyIDs(w.domains[td].jwt)
  {
  }

  /** Fewer than 2^32 rotations: the bundle of every domain holds all its authorities, each under its own key ID. */
  lemma BundlesLoseNothing(w: World, td: string)
    requires Inv(w) && w.count < 0x1_0000_0000 && td in w.domains
    ensures |Bundles(w)[td]| == |w.domains[td].jwt|
    ensures forall i :: 0 <= i < |w.domains[td].jwt| ==>
                          && w.domains[td].jwt[i].keyID in Bundles(w)[td]
                          && Bundles(w)[td][w.domains[td].jwt[i].keyID] == w.domains[td].jwt[i].key
  {
    DomainKeyIDsDistinct(w, td);
    var jwt := w.domains[td].jwt;
    JwtBundleLosesNothingIff(jwt);
    forall i | 0 <= i < |jwt| ensures jwt[i].keyID in JwtBundle(jwt) && JwtBundle(jwt)[jwt[i].keyID] == jwt[i].key {
      JwtBundleFinds(jwt, i);
    }
  }

  /** A key ID, once published, stands for the same key in every later bundle. */
  lemma KeyIDsKeepTheirKeys(trace: seq<World>, events: seq<Event>, td: string, keyID: string)
    requires IsRun(trace, events) && Inv(trace[0]) && Last(trace).count < 0x1_0000_0000
    requires td in trace[0].domains && keyID in Bundles(trace[0])[td]
    ensures td in Last(trace).domains && keyID in Bundles(Last(trace))[td]
    ensures Bundles(Last(trace))[td][keyID] == Bundles(trace[0])[td][keyID]
  {
    var w, w' := trace[0], Last(trace);
    RunKeepsInv(trace, events);
    AuthoritiesOnlyGrow(trace, events);
    var before, after := w.domains[td].jwt, w'.domains[td].jwt;
    JwtBundleSound(before, keyID);
    var i :| 0 <= i < |before| && before[i].keyID == keyID && before[i].key == JwtBundle(before)[keyID];
    assert after[i] == before[i];
    DomainKeyIDsDistinct(w', td);
    JwtBundleFinds(after, i);
  }

  /** The authority's key is published under its ID in its own domain. */
  lemma PublishedAtHome(w: World, td: string, a: J.Authority, i: nat)
    requires Inv(w) && w.count < 0x1_0000_0000 && td in w.domains
    requires i < |w.domains[td].jwt| && IsAuthority(w.domains[td].jwt[i], a)
    ensures a.keyID in JwtBundle(w.domains[td].jwt) && JwtBundle(w.domains[td].jwt)[a.keyID] == a.key && a.keyID != ""
  {
    DomainKeyIDsDistinct(w, td);
    JwtBundleFinds(w.domains[td].jwt, i);
    IdNotEmpty(w.domains[td].jwt, w.count, i);
  }

  lemma IdNotEmpty(jwt: seq<JwtInfo>, count: nat, i: nat)
    requires AllNumbered(jwt, count) && i < |jwt|
    ensures jwt[i].keyID != ""
  {
    assert IsNumbered(jwt[i], count);
  }

  /** No other domain publishes anything under that ID. */
  lemma PublishedNowhereElse(w: World, td: string, a: J.Authority, i: nat, td': string)
    requires KeyIDsDistinct(w) && td in w.domains && td' in w.domains
    requires i < |w.domains[td].jwt| && IsAuthority(w.domains[td].jwt[i], a)
    requires a.keyID in JwtBundle(w.domains[td'].jwt)
    ensures td' == td
  {
    var there := w.domains[td'].jwt;
    JwtBundleSound(there, a.keyID);
    var j :| 0 <= j < |there| && there[j].keyID == a.keyID;
  }

  lemma AuthorityPosition(jwt: seq<JwtInfo>, a: J.Authority) returns (i: nat)
    requires exists i :: 0 <= i < |jwt| && IsAuthority(jwt[i], a)
    ensures i < |jwt| && IsAuthority(jwt[i], a)
  {
    i :| i < |jwt| && IsAuthority(jwt[i], a);
  }

  /**
    Validation succeeds exactly for an ID of the minting domain, an audience that was
    asked for at the mint, and a time between issue and end; it gives back what was minted.
  */
  ghost predicate AcceptedAtHome(m: JwtMint, audience: seq<string>, at: int, leeway: nat,
                                 r: Result<(SpiffeId, J.Claims), J.ValidationError>)
    requires m.Issued?
  {
    var s := m.result;
    && s.params.id.Some? && s.token.Signed? && s.token.claims.Some?
    && (r.Success? <==>
        && s.params.id.value.trustDomain == m.td && J.Covers(s.params.audience, audience)
        && J.InTime(s.at, J.EarlierOf(s.at + s.params.ttl, s.authority.expiresAt), at, leeway))
    && (r.Success? ==> r.value == (s.params.id.value, s.token.claims.value))
  }

  lemma TokenAccepted(w: World, m: JwtMint, audience: seq<string>, at: int, leeway: nat)
    requires Inv(w) && w.count < 0x1_0000_0000 && m.Issued? && JwtMintOk(w, m)
    ensures AcceptedAtHome(m, audience, at, leeway, J.ValidateToken(m.result.token, Bundles(w), audience, at, leeway))
  {
    var a := m.result.authority;
    var j := AuthorityPosition(w.domains[m.td].jwt, a);
    PublishedAtHome(w, m.td, a, j);
    forall td | td in w.domains && td != m.td ensures a.keyID !in JwtBundle(w.domains[td].jwt) {
      if a.keyID in JwtBundle(w.domains[td].jwt) {
        PublishedNowhereElse(w, m.td, a, j, td);
      }
    }
    AcceptedWherePublished(m, Bundles(w), audience, at, leeway);
  }

  lemma AcceptedWherePublished(m: JwtMint, bundles: J.Bundles, audience: seq<string>, at: int, leeway: nat)
    requires m.Issued? && IsMinted(m.result) && m.result.authority.keyID != ""
    requires m.td in bundles && m.result.authority.keyID in bundles[m.td]
    requires bundles[m.td][m.result.authority.keyID] == m.result.authority.key
    requires forall td :: td in bundles && td != m.td ==> m.result.authority.keyID !in bundles[td]
    ensures AcceptedAtHome(m, audience, at, leeway, J.ValidateToken(m.result.token, bundles, audience, at, leeway))
  {
    var s := m.result;
    J.MintedAcceptedIff(s.authority, s.params, s.at, bundles, audience, at, leeway);
  }

  /**
    A token minted in any state is accepted against the bundles of every later state,
    from issue to its end and for any part of its audience, if and only if the ID it
    was minted for belongs to the minting trust domain, which minting does not check.
    The ID and the claims that come back are those of the token.
  */
  lemma JwtRoundTrip(trace: seq<World>, events: seq<Event>, k: nat, i: nat, audience: seq<string>, at: int, leeway: nat)
    requires IsRun(trace, events) && Inv(trace[0]) && Last(trace).count < 0x1_0000_0000 && k < |trace|
    requires i in trace[k].jwtMints && trace[k].jwtMints[i].Issued?
    ensures var m := trace[k].jwtMints[i];
            var r := J.ValidateToken(m.result.token, Bundles(Last(trace)), audience, at, leeway);
            AcceptedAtHome(m, audience, at, leeway, r)
  {
    var w := Last(trace);
    RunKeepsInv(trace, events);
    RunPhases(trace, events, k, |trace| - 1, i);
    TokenAccepted(w, w.jwtMints[i], audience, at, leeway);
  }

  /** Tokens that are never accepted are issued: for any ID outside the minting domain. */
  lemma ForeignTokenExists(configs: map<string, Config>, td: string, params: J.Params, now: int)
    returns (trace: seq<World>, events: seq<Event>)
    requires forall td :: td in configs ==> configs[td].name == td
    requires td in configs && configs[td].jwtTTL > 0 && now + configs[td].jwtTTL != J.ZERO_TIME
    requires params.id.Some? && params.id.value.trustDomain != td
    requires params.audience != [] && !J.HasEmptyAudience(params.audience) && params.ttl > 0
    ensures IsRun(trace, events) && trace[0] == InitialWorld(configs) && RotatesFirst(events)
    ensures var w := Last(trace);
            && 0 in w.jwtMints && w.jwtMints[0].Issued?
            && w.jwtMints[0].td == td && w.jwtMints[0].result.params == params
            && forall audience, at, leeway: nat ::
                 J.ValidateToken(w.jwtMints[0].result.token, Bundles(w), audience, at, leeway).Failure?
  {
    trace, events := IssuingRun(configs, td, params, now);
    InitialWorldOk(configs);
    var w := Last(trace);
    forall audience, at, leeway: nat
      ensures J.ValidateToken(w.jwtMints[0].result.token, Bundles(w), audience, at, leeway).Failure?
    {
      JwtRoundTrip(trace, events, |trace| - 1, 0, audience, at, leeway);
    }
  }

  lemma IssuingRun(configs: map<string, Config>, td: string, params: J.Params, now: int)
    returns (trace: seq<World>, events: seq<Event>)
    requires td in configs && configs[td].jwtTTL > 0 && now + configs[td].jwtTTL != J.ZERO_TIME
    requires params.id.Some? && params.audience != [] && !J.HasEmptyAudience(params.audience) && params.ttl > 0
    ensures IsRun(trace, events) && trace[0] == InitialWorld(configs) && RotatesFirst(events)
    ensures Last(trace).count == 1 && 0 in Last(trace).jwtMints && Last(trace).jwtMints[0].Issued?
    ensures Last(trace).jwtMints[0].td == td && Last(trace).jwtMints[0].result.params == params
  {
    var w := InitialWorld(configs);
    trace, events := RotationExtends([w], [], td, now);
    trace, events := MintExtends(trace, events, 0, td, params, now);
    assert AppendsJwt(events[1], td);
  }

  // ---------- Inspecting what was minted ----------

  /**
    Inspecting an issued certificate together with the bundle of its domain shows a
    chain of exactly two: its issuer and the certificate, however often the authority
    has rotated.
  */
  lemma IssuedX509Chain(w: World, i: nat, r: Result<seq<Cert>, CertChain.Error>)
    requires Inv(w) && i in w.x509Mints && w.x509Mints[i].Issued?
    requires var m := w.x509Mints[i];
             CertChain.IsChainResult(FirstOccurrences([m.result.cert] + X509Bundle(w.domains[m.td].x509)), r)
    ensures r == Success([w.x509Mints[i].result.issuer.cert, w.x509Mints[i].result.cert])
  {
    var td, s := w.x509Mints[i].td, w.x509Mints[i].result;
    var x509 := w.domains[td].x509;
    var all := [s.cert] + X509Bundle(x509);
    assert X509MintOk(w, w.x509Mints[i]);
    UnionOfMinted(w, td, s);
    DedupedIsFixed(all);
    var issuer := PositionOf(x509, s.issuer);
    LeafOfMinted(w, td, s, all);
    LeafIsFound(all, r);
    var m, leaf :|
      IsParentMap(all, m) && CertChain.IsLeafChoice(all, Success(leaf)) && CertChain.IsChain(m, leaf, r.value);
    ParentsOfMinted(w, td, s, all, m, issuer);
    FirstIsLeaf(all, leaf);
    ChainOfTwo(m, s.issuer.cert, s.cert, r.value);
  }

  lemma LeafIsFound(all: seq<Cert>, r: Result<seq<Cert>, CertChain.Error>)
    requires all != [] && CertChain.IsCandidate(all, 0) && CertChain.IsChainResult(all, r)
    ensures r.Success?
  {
  }

  lemma FirstIsLeaf(all: seq<Cert>, leaf: Cert)
    requires all != [] && CertChain.IsCandidate(all, 0) && CertChain.IsLeafChoice(all, Success(leaf))
    ensures leaf == all[0]
  {
  }

  lemma ChainOfTwo(m: ParentMap, root: Cert, leaf: Cert, c: seq<Cert>)
    requires root.fp != leaf.fp && leaf.fp in m && m[leaf.fp] == root && root.fp !in m
    requires CertChain.IsChain(m, leaf, c)
    ensures c == [root, leaf]
  {
    assert CertChain.IsBelow(m, [root, leaf], 1);
    CertChain.ChainUnique(m, leaf, c, [root, leaf]);
  }

  lemma PositionOf(x509: seq<X509Info>, info: X509Info) returns (j: nat)
    requires info in x509
    ensures j < |x509| && x509[j] == info
  {
    j :| j < |x509| && x509[j] == info;
  }

  /** The certificate and the bundle: position 0 holds the certificate, position j + 1 the authority j. */
  ghost predicate IsMintedUnion(w: World, td: string, s: X509Svid, all: seq<Cert>)
    requires td in w.domains
  {
    && |all| == |w.domains[td].x509| + 1 && all[0] == s.cert
    && forall j :: 0 <= j < |w.domains[td].x509| ==> all[j + 1] == w.domains[td].x509[j].cert
  }

  lemma UnionOfMinted(w: World, td: string, s: X509Svid)
    requires Inv(w) && td in w.domains && X509MintOk(w, Issued(td, s))
    ensures var all := [s.cert] + X509Bundle(w.domains[td].x509); IsMintedUnion(w, td, s, all) && Deduped(all)
  {
    var x509 := w.domains[td].x509;
    var all := [s.cert] + X509Bundle(x509);
    if x509 != [] {
      X509BundleHolds(x509, 0);
    }
    forall j | 0 <= j < |x509| ensures all[j + 1] == x509[j].cert && IsRoot(x509[j], w.serial) {
      X509BundleHolds(x509, j);
      assert DomainOk(w, w.domains[td]);
    }
    forall a, b | 0 <= a < b < |all| ensures all[a].fp != all[b].fp {
      assert all[b] == x509[b - 1].cert;
      if a > 0 {
        assert all[a] == x509[a - 1].cert;
        assert x509[a - 1].key.id < x509[b - 1].key.id;
      }
    }
  }

  lemma LeafOfMinted(w: World, td: string, s: X509Svid, all: seq<Cert>)
    requires Inv(w) && td in w.domains && X509MintOk(w, Issued(td, s)) && IsMintedUnion(w, td, s, all)
    ensures CertChain.IsCandidate(all, 0)
  {
    X.MintedIsSvid(s.issuer.cert, s.issuer.key, s.params, s.at, s.cert.fp);
    assert CertChain.IsSpiffeLeaf(all[0]);
  }

  /** Among the authorities, exactly the issuer can be the parent of the certificate. */
  lemma LinksToIssuer(w: World, td: string, s: X509Svid, all: seq<Cert>, issuer: nat, j: nat)
    requires Inv(w) && td in w.domains && X509MintOk(w, Issued(td, s)) && IsMintedUnion(w, td, s, all)
    requires issuer < |w.domains[td].x509| && w.domains[td].x509[issuer] == s.issuer
    requires 0 < j < |all|
    ensures Links(all, 0, j) <==> j == issuer + 1
  {
    var x509 := w.domains[td].x509;
    assert DomainOk(w, w.domains[td]);
    assert all[j - 1 + 1] == x509[j - 1].cert && IsRoot(x509[j - 1], w.serial) && IsRoot(x509[issuer], w.serial);
    assert j - 1 < issuer ==> x509[j - 1].key.id < x509[issuer].key.id;
    assert issuer < j - 1 ==> x509[issuer].key.id < x509[j - 1].key.id;
  }

  /** Nothing in the union can be the parent of an authority. */
  lemma AuthorityHasNoParent(w: World, td: string, s: X509Svid, all: seq<Cert>, i: nat, j: nat)
    requires Inv(w) && td in w.domains && X509MintOk(w, Issued(td, s)) && IsMintedUnion(w, td, s, all)
    requires 0 < i < |all| && j < |all|
    ensures !Links(all, i, j)
  {
    var x509 := w.domains[td].x509;
    assert DomainOk(w, w.domains[td]);
    assert all[i - 1 + 1] == x509[i - 1].cert && IsRoot(x509[i - 1], w.serial);
    if j > 0 {
      assert all[j - 1 + 1] == x509[j - 1].cert && IsRoot(x509[j - 1], w.serial);
      assert i < j ==> x509[i - 1].key.id < x509[j - 1].key.id;
      assert j < i ==> x509[j - 1].key.id < x509[i - 1].key.id;
    }
  }

  lemma ParentsOfMinted(w: World, td: string, s: X509Svid, all: seq<Cert>, m: ParentMap, issuer: nat)
    requires Inv(w) && td in w.domains && X509MintOk(w, Issued(td, s)) && IsMintedUnion(w, td, s, all) && Deduped(all)
    requires IsParentMap(all, m) && issuer < |w.domains[td].x509| && w.domains[td].x509[issuer] == s.issuer
    ensures s.cert.fp in m && m[s.cert.fp] == s.issuer.cert && s.issuer.cert.fp !in m && s.issuer.cert.fp != s.cert.fp
  {
    assert all[issuer + 1] == s.issuer.cert;
    LinksToIssuer(w, td, s, all, issuer, issuer + 1);
    ParentAt(all, m, 0);
    var j: nat :| FirstParent(all, 0, j) && m[all[0].fp] == all[j];
    LinksToIssuer(w, td, s, all, issuer, j);
    ParentAt(all, m, issuer + 1);
    if s.issuer.cert.fp in m {
      var k: nat :| FirstParent(all, issuer + 1, k);
      AuthorityHasNoParent(w, td, s, all, issuer + 1, k);
    }
  }
}
