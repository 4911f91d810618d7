/**
  All interleavings of rotations and mints over several trust domains. A mint is
  three steps: the snapshot under the lock, the check of the live list, and signing.
  A JWT rotation is two steps under the lock of its domain: it takes a number from
  the counter that all domains share, and appends. Fresh keys and hashes are numbered.
*/
module Interleavings {
  import opened Wrappers
  import opened Seqs
  import opened Certs
  import opened KeyIds
  import opened TrustDomains
  import X = X509Authority
  import J = JwtSvid

  type X509Mint = Mint<X509Info, X509Svid>
  type JwtMint = Mint<JwtInfo, JwtSvid>

  /**
    count is the number of JWT rotations begun so far, serial the next unused key or
    hash. The domains in numbered are locked by a JWT rotation that has its number.
  */
  datatype World = World(
    count: nat,
    serial: nat,
    domains: map<string, Domain>,
    numbered: map<string, nat>,
    x509Mints: map<nat, X509Mint>,
    jwtMints: map<nat, JwtMint>)

  datatype Event =
    | RotateX509(td: string, now: int)
    | NumberJwt(td: string)
    | AppendJwt(td: string, now: int)
    | SnapX509(i: nat, td: string)
    | CheckX509(i: nat)
    | SignX509SVID(i: nat, x509Params: X.Params, now: int)
    | SnapJwt(i: nat, td: string)
    | CheckJwt(i: nat)
    | SignJWTSVID(i: nat, jwtParams: J.Params, capNow: int, now: int)

  function FreshKey(n: nat): Key {
    Key(n, Ecdsa(256))
  }

  /** Where the program starts: no authorities, no mints. */
  function InitialWorld(configs: map<string, Config>): World {
    World(0, 0, map td | td in configs :: Domain(configs[td], [], []), map[], map[], map[])
  }

  /** The lock of the domain can be taken. */
  predicate Unlocked(w: World, td: string) {
    td in w.domains && td !in w.numbered
  }

  /** The mint concerns one of the domains. */
  predicate Knows<S, T>(w: World, mints: map<nat, Mint<S, T>>, i: nat) {
    i in mints && mints[i].td in w.domains
  }

  predicate Enabled(w: World, e: Event) {
    match e
    case RotateX509(td, _) => Unlocked(w, td)
    case NumberJwt(td) => Unlocked(w, td)
    case AppendJwt(td, _) => td in w.domains && td in w.numbered
    case SnapX509(i, td) => i !in w.x509Mints && Unlocked(w, td)
    case CheckX509(i) => Knows(w, w.x509Mints, i) && w.x509Mints[i].Snapped?
    case SignX509SVID(i, _, _) => Knows(w, w.x509Mints, i) && w.x509Mints[i].Checked?
    case SnapJwt(i, td) => i !in w.jwtMints && Unlocked(w, td)
    case CheckJwt(i) => Knows(w, w.jwtMints, i) && w.jwtMints[i].Snapped?
    case SignJWTSVID(i, _, _, _) => Knows(w, w.jwtMints, i) && w.jwtMints[i].Checked?
  }

  function Step(w: World, e: Event): World
    requires Enabled(w, e)
  {
    match e
    case RotateX509(td, now) =>
      w.(domains := w.domains[td := AddX509(w.domains[td], FreshKey(w.serial), now, w.serial)], serial := w.serial + 1)
    case NumberJwt(td) => w.(numbered := w.numbered[td := w.count + 1], count := w.count + 1)
    case AppendJwt(td, now) =>
      var d := AddJwt(w.domains[td], KeyId(w.numbered[td]), FreshKey(w.serial), now);
      w.(domains := w.domains[td := d], numbered := w.numbered - {td}, serial := w.serial + 1)
    case SnapX509(i, td) => w.(x509Mints := w.x509Mints[i := Snapped(td, w.domains[td].x509)])
    case CheckX509(i) =>
      var m := w.x509Mints[i];
      w.(x509Mints := w.x509Mints[i := if w.domains[m.td].x509 == [] then Failed(m.td) else Checked(m.td, m.taken)])
    case SignX509SVID(i, params, now) =>
      var m := w.x509Mints[i];
      w.(x509Mints := w.x509Mints[i := SignX509(m.td, m.taken, params, now, w.serial)], serial := w.serial + 1)
    case SnapJwt(i, td) => w.(jwtMints := w.jwtMints[i := Snapped(td, w.domains[td].jwt)])
    case CheckJwt(i) =>
      var m := w.jwtMints[i];
      w.(jwtMints := w.jwtMints[i := if w.domains[m.td].jwt == [] then Failed(m.td) else Checked(m.td, m.taken)])
    case SignJWTSVID(i, params, capNow, now) =>
      var m := w.jwtMints[i];
      w.(jwtMints := w.jwtMints[i := SignJwt(w.domains[m.td].config, m.td, m.taken, params, capNow, now)])
  }

  ghost predicate IsRun(trace: seq<World>, events: seq<Event>) {
    && |trace| == |events| + 1
    && forall k :: 0 <= k < |events| ==> StepAt(trace, events, k)
  }

  ghost predicate StepAt(trace: seq<World>, events: seq<Event>, k: nat)
    requires k < |events| && k + 1 < |trace|
  {
    Enabled(trace[k], events[k]) && trace[k + 1] == Step(trace[k], events[k])
  }

  lemma RunExtends(trace: seq<World>, events: seq<Event>, e: Event)
    requires IsRun(trace, events) && Enabled(Last(trace), e)
    ensures IsRun(trace + [Step(Last(trace), e)], events + [e])
  {
    var trace', events' := trace + [Step(Last(trace), e)], events + [e];
    forall k | 0 <= k < |events'| ensures StepAt(trace', events', k) {
      assert k < |events| ==> StepAt(trace, events, k);
    }
  }

  /** The three steps of a JWT mint that nothing comes between. */
  lemma MintExtends(trace: seq<World>, events: seq<Event>, i: nat, td: string, params: J.Params, now: int)
    returns (trace': seq<World>, events': seq<Event>)
    requires IsRun(trace, events)
    requires var w := Last(trace); Unlocked(w, td) && i !in w.jwtMints && w.domains[td].jwt != []
    ensures IsRun(trace', events') && trace <= trace'
    ensures events' == events + [SnapJwt(i, td), CheckJwt(i), SignJWTSVID(i, params, now, now)]
    ensures var w, w' := Last(trace), Last(trace');
            var m := SignJwt(w.domains[td].config, td, w.domains[td].jwt, params, now, now);
            w' == w.(jwtMints := w.jwtMints[i := m])
  {
    var w := Last(trace);
    var snap, check, sign := SnapJwt(i, td), CheckJwt(i), SignJWTSVID(i, params, now, now);
    var w1 := Step(w, snap);
    RunExtends(trace, events, snap);
    var w2 := Step(w1, check);
    RunExtends(trace + [w1], events + [snap], check);
    RunExtends(trace + [w1] + [w2], events + [snap] + [check], sign);
    trace', events' := trace + [w1] + [w2] + [Step(w2, sign)], events + [snap] + [check] + [sign];
  }

  /** What a JWT rotation that nothing interrupts makes of the world. */
  function Rotated(w: World, td: string, now: int): World
    requires td in w.domains
  {
    var d := AddJwt(w.domains[td], KeyId(w.count + 1), FreshKey(w.serial), now);
    World(w.count + 1, w.serial + 1, w.domains[td := d], w.numbered, w.x509Mints, w.jwtMints)
  }

  lemma RotationSteps(w: World, td: string, now: int)
    requires Unlocked(w, td)
    ensures Enabled(w, NumberJwt(td)) && Enabled(Step(w, NumberJwt(td)), AppendJwt(td, now))
    ensures Step(Step(w, NumberJwt(td)), AppendJwt(td, now)) == Rotated(w, td, now)
  {
    assert w.numbered[td := w.count + 1] - {td} == w.numbered;
  }

  /** The two steps of a JWT rotation that nothing comes between. */
  lemma RotationExtends(trace: seq<World>, events: seq<Event>, td: string, now: int)
    returns (trace': seq<World>, events': seq<Event>)
    requires IsRun(trace, events) && Unlocked(Last(trace), td)
    ensures IsRun(trace', events') && trace <= trace' && events' == events + [NumberJwt(td), AppendJwt(td, now)]
    ensures Last(trace') == Rotated(Last(trace), td, now)
  {
    var w := Last(trace);
    RotationSteps(w, td, now);
    var w1 := Step(w, NumberJwt(td));
    var w2 := Step(w1, AppendJwt(td, now));
    RunExtends(trace, events, NumberJwt(td));
    RunExtends(trace + [w1], events + [NumberJwt(td)], AppendJwt(td, now));
    trace', events' := trace + [w1] + [w2], events + [NumberJwt(td)] + [AppendJwt(td, now)];
  }

  lemma RunFront(trace: seq<World>, events: seq<Event>)
    requires IsRun(trace, events) && events != []
    ensures IsRun(Front(trace), Front(events)) && StepAt(trace, events, |events| - 1)
    ensures Last(Front(trace)) == trace[|events| - 1] && Last(trace) == trace[|events|]
  {
    forall k | 0 <= k < |events| - 1 ensures StepAt(Front(trace), Front(events), k) {
      assert StepAt(trace, events, k);
    }
  }

  lemma RunSlice(trace: seq<World>, events: seq<Event>, a: nat, b: nat)
    requires IsRun(trace, events) && a <= b < |trace|
    ensures IsRun(trace[a..b + 1], events[a..b]) && Last(trace[a..b + 1]) == trace[b]
  {
    var slice, part := trace[a..b + 1], events[a..b];
    forall k | 0 <= k < |part| ensures StepAt(slice, part, k) {
      assert StepAt(trace, events, a + k);
    }
  }

  // ---------- Authorities ----------

  /** Lists of authorities only grow, at the end. */
  ghost predicate Grew(w: World, w': World) {
    forall td :: td in w.domains ==>
                   && td in w'.domains && w.domains[td].config == w'.domains[td].config
                   && w.domains[td].x509 <= w'.domains[td].x509 && w.domains[td].jwt <= w'.domains[td].jwt
  }

  lemma StepGrows(w: World, e: Event)
    requires Enabled(w, e)
    ensures Grew(w, Step(w, e)) && w.domains.Keys == Step(w, e).domains.Keys
  {
  }

  /** A rotation adds one authority to its own domain; no other event changes any domain. */
  lemma StepIsLocal(w: World, e: Event, td: string)
    requires Enabled(w, e) && td in w.domains
    ensures var d, d' := w.domains[td], Step(w, e).domains[td];
            if e.RotateX509? && e.td == td then
              && d'.config == d.config && d'.jwt == d.jwt && d'.x509 != [] && Front(d'.x509) == d.x509
              && Last(d'.x509).key == FreshKey(w.serial) && Last(d'.x509).cert.fp == w.serial
              && Last(d'.x509).cert.notBefore == Truncate(e.now - BACKDATE)
              && Last(d'.x509).cert.notAfter == Truncate(e.now + d.config.x509TTL)
            else if e.AppendJwt? && e.td == td then
              && d'.config == d.config && d'.x509 == d.x509 && d'.jwt != [] && Front(d'.jwt) == d.jwt
              && Last(d'.jwt).keyID == KeyId(w.numbered[td]) && Last(d'.jwt).key == FreshKey(w.serial)
              && Last(d'.jwt).expiresAt == e.now + d.config.jwtTTL
            else d' == d
  {
  }

  lemma {:induction false} AuthoritiesOnlyGrow(trace: seq<World>, events: seq<Event>)
    requires IsRun(trace, events)
    ensures Grew(trace[0], Last(trace)) && trace[0].domains.Keys == Last(trace).domains.Keys
  {
    if events != [] {
      RunFront(trace, events);
      AuthoritiesOnlyGrow(Front(trace), Front(events));
      StepGrows(trace[|events| - 1], Last(events));
      GrewTrans(trace[0], trace[|events| - 1], Last(trace));
    }
  }

  lemma GrewTrans(a: World, b: World, c: World)
    requires Grew(a, b) && Grew(b, c)
    ensures Grew(a, c)
  {
    forall td | td in a.domains
      ensures td in c.domains && a.domains[td].config == c.domains[td].config
      ensures a.domains[td].x509 <= c.domains[td].x509 && a.domains[td].jwt <= c.domains[td].jwt
    {
      assert td in b.domains;
    }
  }

  /** A root certificate made by a rotation, for a key numbered below n. */
  ghost predicate IsRoot(info: X509Info, n: nat) {
    && info.key.id == info.cert.fp < n
    && info.cert.publicKey == info.cert.signedBy == info.key
    && info.cert.subjectKeyId == X.SubjectKeyId(info.key)
    && info.cert.authorityKeyId == [] && info.cert.rawSubject == info.cert.rawIssuer == []
    && MaySign(info.cert)
  }

  ghost predicate AllRoots(x509: seq<X509Info>, n: nat) {
    forall i :: 0 <= i < |x509| ==> IsRoot(x509[i], n)
  }

  /** The authority has the ID of one of the first count keys. */
  ghost predicate IsNumbered(info: JwtInfo, count: nat) {
    exists n: nat :: n <= count && IsIdOf(info.keyID, n)
  }

  ghost predicate AllNumbered(jwt: seq<JwtInfo>, count: nat) {
    forall i :: 0 <= i < |jwt| ==> IsNumbered(jwt[i], count) && jwt[i].key.kind == Ecdsa(256)
  }

  ghost predicate DomainOk(w: World, d: Domain) {
    && AllRoots(d.x509, w.serial)
    && (forall i, j :: 0 <= i < j < |d.x509| ==> d.x509[i].key.id < d.x509[j].key.id)
    && AllNumbered(d.jwt, w.count)
  }

  /** Every JWT authority of every domain has its own key ID. */
  ghost predicate KeyIDsDistinct(w: World) {
    forall td, td', i, j ::
      && td in w.domains && td' in w.domains
      && 0 <= i < |w.domains[td].jwt| && 0 <= j < |w.domains[td'].jwt|
      && w.domains[td].jwt[i].keyID == w.domains[td'].jwt[j].keyID
      ==> td == td' && i == j
  }

  /** Numbers taken and not yet used for a key belong to one domain each. */
  ghost predicate NumberedOk(w: World) {
    && (forall td :: td in w.numbered ==> td in w.domains && w.numbered[td] <= w.count)
    && (forall td, td' :: td in w.numbered && td' in w.numbered && w.numbered[td] == w.numbered[td'] ==> td == td')
  }

  /** No authority has the ID of such a number. */
  ghost predicate NumberedUnused(w: World) {
    forall td, td' :: td in w.numbered && td' in w.domains ==> Unused(w.domains[td'].jwt, KeyId(w.numbered[td]))
  }

  // ---------- Mints ----------

  ghost predicate X509MintOk(w: World, m: X509Mint) {
    && m.td in w.domains
    && match m
       case Snapped(td, taken) => taken <= w.domains[td].x509
       case Checked(td, taken) => taken <= w.domains[td].x509
       case Issued(td, s) =>
         && s.issuer in w.domains[td].x509
         && X.MintX509SVID(s.issuer.cert, s.issuer.key, s.params, s.at, s.cert.fp) == Success(s.cert)
         && s.cert.fp < w.serial
         && forall i :: 0 <= i < |w.domains[td].x509| ==> w.domains[td].x509[i].cert.fp != s.cert.fp
       case _ => true
  }

  ghost predicate JwtMintOk(w: World, m: JwtMint) {
    && m.td in w.domains
    && match m
       case Snapped(td, taken) => taken <= w.domains[td].jwt
       case Checked(td, taken) => taken <= w.domains[td].jwt
       case Issued(td, s) =>
         IsMinted(s) && exists i :: 0 <= i < |w.domains[td].jwt| && IsAuthority(w.domains[td].jwt[i], s.authority)
       case _ => true
  }

  ghost predicate Inv(w: World) {
    && (forall td :: td in w.domains ==> w.domains[td].config.name == td && DomainOk(w, w.domains[td]))
    && NumberedOk(w) && (w.count < 0x1_0000_0000 ==> KeyIDsDistinct(w) && NumberedUnused(w))
    && (forall i :: i in w.x509Mints ==> X509MintOk(w, w.x509Mints[i]))
    && (forall i :: i in w.jwtMints ==> JwtMintOk(w, w.jwtMints[i]))
  }

  // ---------- Every step keeps the invariant ----------

  /** Numbers only go up, and certificates added since carry hashes that were unused. */
  ghost predicate Advanced(w: World, w': World) {
    && Grew(w, w') && w.serial <= w'.serial && w.count <= w'.count
    && forall td, i :: td in w.domains && |w.domains[td].x509| <= i < |w'.domains[td].x509| ==>
                         w'.domains[td].x509[i].cert.fp >= w.serial
  }

  lemma StepAdvances(w: World, e: Event)
    requires Enabled(w, e)
    ensures Advanced(w, Step(w, e))
  {
    StepGrows(w, e);
  }

  lemma DomainKept(w: World, w': World, d: Domain)
    requires DomainOk(w, d) && w.serial <= w'.serial && w.count <= w'.count
    ensures DomainOk(w', d)
  {
    RootsKept(d.x509, w.serial, w'.serial);
    NumberedKept(d.jwt, w.count, w'.count);
  }

  lemma RootsKept(x509: seq<X509Info>, n: nat, n': nat)
    requires AllRoots(x509, n) && n <= n'
    ensures AllRoots(x509, n')
  {
    forall i | 0 <= i < |x509| ensures IsRoot(x509[i], n') {
      assert IsRoot(x509[i], n);
    }
  }

  lemma NumberedKept(jwt: seq<JwtInfo>, n: nat, n': nat)
    requires AllNumbered(jwt, n) && n <= n'
    ensures AllNumbered(jwt, n')
  {
    forall i | 0 <= i < |jwt| ensures IsNumbered(jwt[i], n') {
      var k: nat :| k <= n && IsIdOf(jwt[i].keyID, k);
    }
  }

  lemma X509MintKept(w: World, w': World, m: X509Mint)
    requires X509MintOk(w, m) && Advanced(w, w')
    ensures X509MintOk(w', m)
  {
    if m.Issued? {
      var before, after := w.domains[m.td].x509, w'.domains[m.td].x509;
      forall i | 0 <= i < |after| ensures after[i].cert.fp != m.result.cert.fp {
        assert i < |before| ==> after[i] == before[i];
      }
      var k :| 0 <= k < |before| && before[k] == m.result.issuer;
      assert after[k] == before[k];
    }
  }

  lemma JwtMintKept(w: World, w': World, m: JwtMint)
    requires JwtMintOk(w, m) && Grew(w, w')
    ensures JwtMintOk(w', m)
  {
    if m.Issued? {
      var before, after := w.domains[m.td].jwt, w'.domains[m.td].jwt;
      var i :| 0 <= i < |before| && IsAuthority(before[i], m.result.authority);
      assert after[i] == before[i];
    }
  }

  lemma RotateX509Keeps(w: World, td: string, now: int)
    requires Inv(w) && Enabled(w, RotateX509(td, now))
    ensures var w' := Step(w, RotateX509(td, now)); DomainOk(w', w'.domains[td])
  {
    var d, n := w.domains[td], w.serial;
    DomainKept(w, Step(w, RotateX509(td, now)), d);
    var d' := AddX509(d, FreshKey(n), now, n);
    assert IsRoot(Last(d'.x509), n + 1);
    forall i | 0 <= i < |d.x509| ensures d.x509[i].key.id < n {
      assert IsRoot(d.x509[i], n);
    }
    assert d'.x509 == d.x509 + [Last(d'.x509)];
  }

  lemma AppendJwtKeeps(w: World, td: string, now: int)
    requires Inv(w) && Enabled(w, AppendJwt(td, now))
    ensures var w' := Step(w, AppendJwt(td, now)); DomainOk(w', w'.domains[td])
  {
    var d := w.domains[td];
    var w' := Step(w, AppendJwt(td, now));
    DomainKept(w, w', d);
    NumberedAdd(d.jwt, Last(w'.domains[td].jwt), w.numbered[td], w.count);
  }

  lemma NumberedAdd(jwt: seq<JwtInfo>, info: JwtInfo, n: nat, count: nat)
    requires AllNumbered(jwt, count) && IsIdOf(info.keyID, n) && n <= count && info.key.kind == Ecdsa(256)
    ensures AllNumbered(jwt + [info], count)
  {
  }

  // ---------- Key IDs ----------

  lemma AppendJwtKeepsIDs(w: World, td: string, now: int)
    requires Inv(w) && Enabled(w, AppendJwt(td, now)) && w.count < 0x1_0000_0000
    ensures KeyIDsDistinct(Step(w, AppendJwt(td, now))) && NumberedUnused(Step(w, AppendJwt(td, now)))
  {
    var w' := Step(w, AppendJwt(td, now));
    var info := Last(w'.domains[td].jwt);
    assert info.keyID == KeyId(w.numbered[td]);
    DistinctAdd(w, td, info, w');
    forall a, b | a in w'.numbered && b in w'.domains ensures Unused(w'.domains[b].jwt, KeyId(w'.numbered[a])) {
      assert IsIdOf(KeyId(w.numbered[a]), w.numbered[a]) && IsIdOf(info.keyID, w.numbered[td]);
      DifferentIds(KeyId(w.numbered[a]), w.numbered[a], info.keyID, w.numbered[td]);
      assert Unused(w.domains[b].jwt, KeyId(w.numbered[a]));
    }
  }

  lemma DistinctAdd(w: World, td: string, info: JwtInfo, w': World)
    requires KeyIDsDistinct(w) && td in w.domains
    requires forall td' :: td' in w.domains ==> Unused(w.domains[td'].jwt, info.keyID)
    requires w'.domains == w.domains[td := w.domains[td].(jwt := w.domains[td].jwt + [info])]
    ensures KeyIDsDistinct(w')
  {
  }

  lemma NumberJwtKeepsIDs(w: World, td: string)
    requires Inv(w) && Enabled(w, NumberJwt(td)) && w.count + 1 < 0x1_0000_0000
    ensures NumberedUnused(Step(w, NumberJwt(td)))
  {
    var w' := Step(w, NumberJwt(td));
    forall a, b | a in w'.numbered && b in w'.domains ensures Unused(w'.domains[b].jwt, KeyId(w'.numbered[a])) {
      if a == td {
        assert IsIdOf(KeyId(w.count + 1), w.count + 1);
        KeyIDIsNew(w.domains[b].jwt, w.count, KeyId(w.count + 1));
      } else {
        assert Unused(w.domains[b].jwt, KeyId(w.numbered[a]));
      }
    }
  }

  lemma OtherKeepsIDs(w: World, e: Event)
    requires KeyIDsDistinct(w) && Enabled(w, e) && !e.AppendJwt?
    ensures KeyIDsDistinct(Step(w, e)) && (NumberedUnused(w) && !e.NumberJwt? ==> NumberedUnused(Step(w, e)))
  {
    SameJwt(w, Step(w, e));
  }

  lemma SameJwt(w: World, w': World)
    requires KeyIDsDistinct(w) && w.domains.Keys == w'.domains.Keys
    requires forall td :: td in w.domains ==> w.domains[td].jwt == w'.domains[td].jwt
    ensures KeyIDsDistinct(w')
    ensures NumberedUnused(w) && w'.numbered == w.numbered ==> NumberedUnused(w')
  {
  }

  lemma StepKeepsIDs(w: World, e: Event)
    requires Inv(w) && Enabled(w, e) && Step(w, e).count < 0x1_0000_0000
    ensures KeyIDsDistinct(Step(w, e)) && NumberedUnused(Step(w, e))
  {
    if e.AppendJwt? {
      AppendJwtKeepsIDs(w, e.td, e.now);
    } else {
      OtherKeepsIDs(w, e);
      if e.NumberJwt? {
        NumberJwtKeepsIDs(w, e.td);
      }
    }
  }

  /** No authority of the list has the given key ID. */
  ghost predicate Unused(jwt: seq<JwtInfo>, keyID: string) {
    forall i :: 0 <= i < |jwt| ==> jwt[i].keyID != keyID
  }

  lemma KeyIDIsNew(jwt: seq<JwtInfo>, count: nat, keyID: string)
    requires AllNumbered(jwt, count) && IsIdOf(keyID, count + 1) && count + 1 < 0x1_0000_0000
    ensures Unused(jwt, keyID)
  {
    forall i | 0 <= i < |jwt| ensures jwt[i].keyID != keyID {
      assert IsNumbered(jwt[i], count);
      var n: nat :| n <= count && IsIdOf(jwt[i].keyID, n);
      DifferentIds(jwt[i].keyID, n, keyID, count + 1);
    }
  }

  lemma SignX509Keeps(w: World, i: nat, params: X.Params, now: int)
    requires Inv(w) && Enabled(w, SignX509SVID(i, params, now))
    ensures var w' := Step(w, SignX509SVID(i, params, now)); X509MintOk(w', w'.x509Mints[i])
  {
    var w' := Step(w, SignX509SVID(i, params, now));
    var td, taken := w.x509Mints[i].td, w.x509Mints[i].taken;
    assert X509MintOk(w, w.x509Mints[i]) && DomainOk(w, w.domains[td]);
    CertificateIsOk(w', td, taken, params, now, w.serial);
  }

  lemma CertificateIsOk(w: World, td: string, taken: seq<X509Info>, params: X.Params, now: int, fp: Fingerprint)
    requires td in w.domains && taken <= w.domains[td].x509 && AllRoots(w.domains[td].x509, fp) && fp < w.serial
    ensures X509MintOk(w, SignX509(td, taken, params, now, fp))
  {
    var m, x509 := SignX509(td, taken, params, now, fp), w.domains[td].x509;
    if m.Issued? {
      assert x509[|taken| - 1] == Last(taken);
      forall i | 0 <= i < |x509| ensures x509[i].cert.fp != m.result.cert.fp {
        assert IsRoot(x509[i], fp);
      }
    }
  }

  lemma SignJwtKeeps(w: World, i: nat, params: J.Params, capNow: int, now: int)
    requires Inv(w) && Enabled(w, SignJWTSVID(i, params, capNow, now))
    ensures var w' := Step(w, SignJWTSVID(i, params, capNow, now)); JwtMintOk(w', w'.jwtMints[i])
  {
    var w' := Step(w, SignJWTSVID(i, params, capNow, now));
    assert JwtMintOk(w, w.jwtMints[i]);
    SignedIsOk(w', w.jwtMints[i].td, w.jwtMints[i].taken, params, capNow, now);
  }

  lemma SignedIsOk(w: World, td: string, taken: seq<JwtInfo>, params: J.Params, capNow: int, now: int)
    requires td in w.domains && taken <= w.domains[td].jwt
    ensures JwtMintOk(w, SignJwt(w.domains[td].config, td, taken, params, capNow, now))
  {
    var m := SignJwt(w.domains[td].config, td, taken, params, capNow, now);
    if m.Issued? {
      SignJwtMints(w.domains[td].config, td, taken, params, capNow, now);
      assert w.domains[td].jwt[|taken| - 1] == Last(taken);
    }
  }

  lemma StepKeepsDomains(w: World, e: Event, td: string)
    requires Inv(w) && Enabled(w, e) && td in w.domains
    ensures var w' := Step(w, e); w'.domains[td].config.name == td && DomainOk(w', w'.domains[td])
  {
    var w' := Step(w, e);
    if e.RotateX509? && e.td == td {
      RotateX509Keeps(w, td, e.now);
    } else if e.AppendJwt? && e.td == td {
      AppendJwtKeeps(w, td, e.now);
    } else {
      DomainKept(w, w', w.domains[td]);
    }
  }

  lemma StepKeepsX509Mints(w: World, e: Event, i: nat)
    requires Inv(w) && Enabled(w, e) && i in Step(w, e).x509Mints
    ensures X509MintOk(Step(w, e), Step(w, e).x509Mints[i])
  {
    var w' := Step(w, e);
    StepAdvances(w, e);
    if e.SignX509SVID? && e.i == i {
      SignX509Keeps(w, i, e.x509Params, e.now);
    } else if !(e.SnapX509? && e.i == i) {
      X509MintKept(w, w', w.x509Mints[i]);
    }
  }

  /** A JWT mint is left alone by every event but its own steps; its check changes only its phase. */
  lemma OtherMintsStay(w: World, e: Event, i: nat)
    requires Enabled(w, e) && i in Step(w, e).jwtMints
    requires !(e.SnapJwt? && e.i == i) && !(e.SignJWTSVID? && e.i == i)
    ensures i in w.jwtMints
    ensures var m, m' := w.jwtMints[i], Step(w, e).jwtMints[i];
            m' == m || m' == Failed(m.td) || (m.Snapped? && m' == Checked(m.td, m.taken))
  {
  }

  lemma StepKeepsJwtMints(w: World, e: Event, i: nat)
    requires Inv(w) && Enabled(w, e) && i in Step(w, e).jwtMints
    ensures JwtMintOk(Step(w, e), Step(w, e).jwtMints[i])
  {
    if e.SignJWTSVID? && e.i == i {
      SignJwtKeeps(w, i, e.jwtParams, e.capNow, e.now);
    } else if !(e.SnapJwt? && e.i == i) {
      StepGrows(w, e);
      OtherMintsStay(w, e, i);
      JwtMintKept(w, Step(w, e), w.jwtMints[i]);
    }
  }

  lemma StepKeepsNumbered(w: World, e: Event)
    requires NumberedOk(w) && Enabled(w, e)
    ensures NumberedOk(Step(w, e))
  {
  }

  lemma StepKeepsAllDomains(w: World, e: Event)
    requires Inv(w) && Enabled(w, e)
    ensures var w' := Step(w, e);
            forall td :: td in w'.domains ==> w'.domains[td].config.name == td && DomainOk(w', w'.domains[td])
  {
    var w' := Step(w, e);
    StepGrows(w, e);
    forall td | td in w'.domains ensures w'.domains[td].config.name == td && DomainOk(w', w'.domains[td]) {
      StepKeepsDomains(w, e, td);
    }
  }

  lemma StepKeepsInv(w: World, e: Event)
    requires Inv(w) && Enabled(w, e)
    ensures Inv(Step(w, e))
  {
    var w' := Step(w, e);
    StepKeepsAllDomains(w, e);
    StepKeepsNumbered(w, e);
    if w'.count < 0x1_0000_0000 {
      StepKeepsIDs(w, e);
    }
    forall i | i in w'.x509Mints ensures X509MintOk(w', w'.x509Mints[i]) {
      StepKeepsX509Mints(w, e, i);
    }
    forall i | i in w'.jwtMints ensures JwtMintOk(w', w'.jwtMints[i]) {
      StepKeepsJwtMints(w, e, i);
    }
  }

  /** The program starts well, with any number of trust domains. */
  lemma InitialWorldOk(configs: map<string, Config>)
    requires forall td :: td in configs ==> configs[td].name == td
    ensures Inv(InitialWorld(configs))
  {
  }

  lemma {:induction false} RunKeepsInv(trace: seq<World>, events: seq<Event>)
    requires IsRun(trace, events) && Inv(trace[0])
    ensures Inv(Last(trace))
  {
    if events != [] {
      RunFront(trace, events);
      RunKeepsInv(Front(trace), Front(events));
      StepKeepsInv(trace[|events| - 1], Last(events));
    }
  }
}
