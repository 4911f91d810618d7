/**
  Minting JWT-SVIDs, validating them against the bundles of trust domains, and
  judging whether a token is one. Parsing and signing are symbolic: a token is what
  its compact form decodes to, with the key pair that signed it.
*/
module JwtSvid {
  import opened Wrappers
  import opened Seqs
  import opened Certs

  /** The zero time, the first instant of year 1. */
  const ZERO_TIME: int := -62_135_596_800 * SECOND

  const SVID_ALGORITHMS: set<string> :=
    {"RS256", "RS384", "RS512", "ES256", "ES384", "ES512", "PS256", "PS384", "PS512"}

  /** A subject claim is the text of a SPIFFE ID or something else. */
  datatype Subject = IdSubject(id: SpiffeId) | OtherSubject(text: string)

  /** Times in claims are whole seconds since the Unix epoch. */
  datatype Claims = Claims(
    issuer: string,
    subject: Subject,
    audience: seq<string>,
    expiry: Option<int>,
    notBefore: Option<int>,
    issuedAt: Option<int>)

  /** A decoded JSON value: a string, null, or anything else. */
  datatype HeaderValue = Text(text: string) | Null | OtherValue

  /** Headers besides the algorithm and the key ID are in extra, which is absent if there are none. */
  datatype Header = Header(algorithm: string, keyID: string, extra: Option<map<string, HeaderValue>>)

  /** The claims are absent if the payload does not hold any. */
  datatype Token = Unparsable | Signed(headers: seq<Header>, claims: Option<Claims>, signer: Key)

  // ---------- Minting ----------

  datatype MintError =
    | KeyIDRequired | ExpiresAtRequired | UnsupportedKey
    | IdUnset | AudienceUnset | AudienceEmptyValue | TtlNotPositive | AuthorityExpired

  datatype Authority = Authority(keyID: string, key: Key, algorithm: string, issuer: string, expiresAt: int)

  datatype Params = Params(id: Option<SpiffeId>, audience: seq<string>, ttl: int)

  function JoseAlgFromPublicKey(k: Key): Result<string, MintError> {
    match k.kind
    case Rsa(size) => if size < 256 then Failure(UnsupportedKey) else Success("RS256")
    case Ecdsa(256) => Success("ES256")
    case Ecdsa(384) => Success("ES384")
    case Ecdsa(_) => Failure(UnsupportedKey)
    case OtherKind => Failure(UnsupportedKey)
  }

  function NewAuthority(keyID: string, key: Key, issuer: string, expiresAt: int): Result<Authority, MintError> {
    if keyID == "" then Failure(KeyIDRequired)
    else if expiresAt == ZERO_TIME then Failure(ExpiresAtRequired)
    else
      var alg :- JoseAlgFromPublicKey(key);
      Success(Authority(keyID, key, alg, issuer, expiresAt))
  }

  function DetermineExpiry(now: int, ttl: int, cap: int): Result<int, MintError> {
    if now >= cap then Failure(AuthorityExpired)
    else Success(if now + ttl > cap then cap else now + ttl)
  }

  /** A numeric date drops fractions; the zero time has none. */
  function NumericDate(t: int): Option<int> {
    if t == ZERO_TIME then None else Some(t / SECOND)
  }

  predicate HasEmptyAudience(audience: seq<string>) {
    exists i :: 0 <= i < |audience| && audience[i] == ""
  }

  function MintJWTSVID(a: Authority, params: Params, now: int): Result<Token, MintError> {
    if params.id.None? then Failure(IdUnset)
    else if |params.audience| == 0 then Failure(AudienceUnset)
    else if HasEmptyAudience(params.audience) then Failure(AudienceEmptyValue)
    else if params.ttl <= 0 then Failure(TtlNotPositive)
    else
      var expiry :- DetermineExpiry(now, params.ttl, a.expiresAt);
      var subject := IdSubject(params.id.value);
      var claims := Claims(a.issuer, subject, params.audience, NumericDate(expiry), None, NumericDate(now));
      Success(Signed([Header(a.algorithm, a.keyID, Some(map["typ" := Text("JWT")]))], Some(claims), a.key))
  }

  // ---------- Validation ----------

  datatype ValidationError =
    | NotParsed | NotOneHeader | BadAlgorithm | NoKeyID | NoClaims | NoSubject | BadSubject
    | NoBundle | KeyNotFound | BadSignature
    | BadAudience | NotYetValid | Expired | IssuedInFuture

  /** The JWT authorities of each trust domain, by key ID. */
  type Bundles = map<string, map<string, Key>>

  /** The checks on the claims; the library tolerates a clock skew of leeway. */
  function ValidateClaims(c: Claims, audience: seq<string>, now: int, leeway: nat): Result<(), ValidationError> {
    if exists i :: 0 <= i < |audience| && audience[i] !in c.audience then Failure(BadAudience)
    else if c.notBefore.Some? && now + leeway < c.notBefore.value * SECOND then Failure(NotYetValid)
    else if c.expiry.Some? && now - leeway > c.expiry.value * SECOND then Failure(Expired)
    else if c.issuedAt.Some? && now + leeway < c.issuedAt.value * SECOND then Failure(IssuedInFuture)
    else Success(())
  }

  function ValidateToken(token: Token, bundles: Bundles, audience: seq<string>, now: int, leeway: nat)
    : Result<(SpiffeId, Claims), ValidationError>
  {
    if token.Unparsable? then Failure(NotParsed)
    else if |token.headers| != 1 then Failure(NotOneHeader)
    else if token.headers[0].algorithm !in SVID_ALGORITHMS then Failure(BadAlgorithm)
    else if token.headers[0].keyID == "" then Failure(NoKeyID)
    else if token.claims.None? then Failure(NoClaims)
    else if token.claims.value.subject == OtherSubject("") then Failure(NoSubject)
    else if token.claims.value.subject.OtherSubject? then Failure(BadSubject)
    else
      var id := token.claims.value.subject.id;
      if id.trustDomain !in bundles then Failure(NoBundle)
      else if token.headers[0].keyID !in bundles[id.trustDomain] then Failure(KeyNotFound)
      else if bundles[id.trustDomain][token.headers[0].keyID] != token.signer then Failure(BadSignature)
      else
        var _ :- ValidateClaims(token.claims.value, audience, now, leeway);
        Success((id, token.claims.value))
  }

  // ---------- Is it a JWT-SVID? ----------

  datatype Reason = UnsupportedAlgorithm | BadTypeHeader | SubjectNotSpiffe | NoAudience | NoExpiry

  /** A type header that is absent and one that is null look the same. */
  ghost predicate TypeHeaderOk(h: Header) {
    h.extra.Some? && ("typ" in h.extra.value ==> h.extra.value["typ"] in {Text("JWT"), Text("JOSE"), Null})
  }

  /** The token, whose claims are c, breaks the given rule. */
  ghost predicate Violates(headers: seq<Header>, c: Claims, r: Reason) {
    match r
    case UnsupportedAlgorithm => forall i :: 0 <= i < |headers| ==> headers[i].algorithm !in SVID_ALGORITHMS
    case BadTypeHeader => forall i :: 0 <= i < |headers| ==> !TypeHeaderOk(headers[i])
    case SubjectNotSpiffe => !c.subject.IdSubject?
    case NoAudience => c.audience == []
    case NoExpiry => c.expiry == None || c.expiry.value * SECOND == ZERO_TIME
  }

  const RULES: seq<Reason> := [UnsupportedAlgorithm, BadTypeHeader, SubjectNotSpiffe, NoAudience, NoExpiry]

  ghost function Breaks(headers: seq<Header>, c: Claims): Reason -> bool {
    r => Violates(headers, c, r)
  }

  /** The broken ones of the rules, in order. */
  ghost function BrokenRules(headers: seq<Header>, c: Claims): seq<Reason> {
    Keep(RULES, Breaks(headers, c))
  }

  /**
    The reasons are the broken ones of the rules, in the order of the rules, and no
    broken rule is missing; a token without claims is an error.
  */
  method IsSvid(headers: seq<Header>, claims: Option<Claims>) returns (r: Result<(bool, seq<Reason>), ValidationError>)
    ensures claims == None ==> r == Failure(NoClaims)
    ensures claims.Some? ==> r.Success? && r.value.1 == BrokenRules(headers, claims.value)
    ensures claims.Some? ==> forall x :: x in r.value.1 <==> Violates(headers, claims.value, x)
    ensures claims.Some? ==> (r.value.0 <==> forall x :: !Violates(headers, claims.value, x))
  {
    var usesSupportedAlgorithm, typeHeaderCorrect := CheckHeaders(headers);
    var reasons := When(!usesSupportedAlgorithm, UnsupportedAlgorithm) + When(!typeHeaderCorrect, BadTypeHeader);
    if claims.None? {
      return Failure(NoClaims);
    }
    var c := claims.value;
    reasons := reasons + When(!c.subject.IdSubject?, SubjectNotSpiffe);
    reasons := reasons + When(|c.audience| == 0, NoAudience);
    reasons := reasons + When(c.expiry.None? || c.expiry.value * SECOND == ZERO_TIME, NoExpiry);
    FiveReasons(headers, c, !usesSupportedAlgorithm, !typeHeaderCorrect);
    KeptAreBroken(headers, c, reasons);
    return Success((|reasons| == 0, reasons));
  }

  method CheckHeaders(headers: seq<Header>) returns (usesSupportedAlgorithm: bool, typeHeaderCorrect: bool)
    ensures usesSupportedAlgorithm <==> exists i :: 0 <= i < |headers| && headers[i].algorithm in SVID_ALGORITHMS
    ensures typeHeaderCorrect <==> exists i :: 0 <= i < |headers| && TypeHeaderOk(headers[i])
  {
    usesSupportedAlgorithm, typeHeaderCorrect := false, false;
    for i := 0 to |headers|
      invariant usesSupportedAlgorithm <==> exists k :: 0 <= k < i && headers[k].algorithm in SVID_ALGORITHMS
      invariant typeHeaderCorrect <==> exists k :: 0 <= k < i && TypeHeaderOk(headers[k])
    {
      var header := headers[i];
      if header.algorithm != "" {
        if header.algorithm in SVID_ALGORITHMS {
          usesSupportedAlgorithm := true;
        }
      }
      if header.extra.Some? {
        var typ := if "typ" in header.extra.value then header.extra.value["typ"] else Null;
        if typ in {Text("JWT"), Text("JOSE"), Null} {
          typeHeaderCorrect := true;
        }
      }
    }
  }

  lemma FiveReasons(headers: seq<Header>, c: Claims, badAlgorithm: bool, badType: bool)
    requires badAlgorithm == Violates(headers, c, UnsupportedAlgorithm)
    requires badType == Violates(headers, c, BadTypeHeader)
    ensures BrokenRules(headers, c) ==
            When(badAlgorithm, UnsupportedAlgorithm) + When(badType, BadTypeHeader)
            + When(!c.subject.IdSubject?, SubjectNotSpiffe) + When(|c.audience| == 0, NoAudience)
            + When(c.expiry.None? || c.expiry.value * SECOND == ZERO_TIME, NoExpiry)
  {
    KeepFive(UnsupportedAlgorithm, BadTypeHeader, SubjectNotSpiffe, NoAudience, NoExpiry, Breaks(headers, c));
  }

  lemma KeptAreBroken(headers: seq<Header>, c: Claims, reasons: seq<Reason>)
    requires reasons == BrokenRules(headers, c)
    ensures forall r :: r in reasons <==> Violates(headers, c, r)
    ensures reasons == [] <==> forall r :: !Violates(headers, c, r)
  {
    KeepHolds(RULES, Breaks(headers, c));
    if reasons != [] {
      assert reasons[0] in reasons;
    }
  }

  // ---------- Laws ----------

  ghost predicate Covers(granted: seq<string>, asked: seq<string>) {
    forall i :: 0 <= i < |asked| ==> asked[i] in granted
  }

  function EarlierOf(a: int, b: int): int {
    if a < b then a else b
  }

  /** A numeric date stands for the second that t falls in, unless t is the zero time. */
  ghost predicate Encodes(date: Option<int>, t: int) {
    && (date.None? <==> t == ZERO_TIME)
    && (date.Some? ==> date.value * SECOND <= t < (date.value + 1) * SECOND)
  }

  /** What a minted token says: its one header names the key, and its claims are what was asked for, up to the cap. */
  lemma MintedClaims(a: Authority, params: Params, now: int)
    requires MintJWTSVID(a, params, now).Success?
    ensures var t := MintJWTSVID(a, params, now).value;
            && t.Signed? && t.signer == a.key && t.claims.Some?
            && |t.headers| == 1 && t.headers[0].algorithm == a.algorithm && t.headers[0].keyID == a.keyID
            && t.headers[0].extra == Some(map["typ" := Text("JWT")])
            && t.claims.value.issuer == a.issuer && t.claims.value.audience == params.audience
            && t.claims.value.subject.IdSubject? && Some(t.claims.value.subject.id) == params.id
            && Encodes(t.claims.value.expiry, EarlierOf(now + params.ttl, a.expiresAt))
            && t.claims.value.notBefore == None && Encodes(t.claims.value.issuedAt, now)
  {
  }

  predicate IsAcceptable(params: Params) {
    params.id.Some? && params.audience != [] && "" !in params.audience && params.ttl > 0
  }

  /** Minting succeeds exactly for acceptable parameters before the cap; otherwise the first defect is reported. */
  lemma MintsIff(a: Authority, params: Params, now: int)
    ensures var r := MintJWTSVID(a, params, now);
            && (r.Success? <==> IsAcceptable(params) && now < a.expiresAt)
            && (r == Failure(IdUnset) <==> params.id == None)
            && (r == Failure(AudienceUnset) <==> params.id != None && params.audience == [])
            && (r == Failure(AudienceEmptyValue) <==> params.id != None && "" in params.audience)
            && (r == Failure(TtlNotPositive) <==>
                params.id != None && params.audience != [] && "" !in params.audience && params.ttl <= 0)
            && (r == Failure(AuthorityExpired) <==> IsAcceptable(params) && now >= a.expiresAt)
  {
    assert HasEmptyAudience(params.audience) <==> "" in params.audience;
  }

  /** RSA from 2048 bits, and the two smaller NIST curves. */
  predicate IsSupported(k: Key) {
    (k.kind.Rsa? && k.kind.sizeBytes >= 256) || k.kind == Ecdsa(256) || k.kind == Ecdsa(384)
  }

  /** An authority is made for every key with an ID, a time and a supported kind, and its algorithm is the key's. */
  lemma NewAuthorityIff(keyID: string, key: Key, issuer: string, expiresAt: int)
    ensures var r := NewAuthority(keyID, key, issuer, expiresAt);
            && (r.Success? <==> keyID != "" && expiresAt != ZERO_TIME && IsSupported(key))
            && (r == Failure(KeyIDRequired) <==> keyID == "")
            && (r == Failure(ExpiresAtRequired) <==> keyID != "" && expiresAt == ZERO_TIME)
            && (r.Success? ==>
                  && r.value == Authority(keyID, key, r.value.algorithm, issuer, expiresAt)
                  && r.value.algorithm in SVID_ALGORITHMS
                  && (r.value.algorithm == "RS256" <==> key.kind.Rsa?)
                  && (r.value.algorithm == "ES256" <==> key.kind == Ecdsa(256))
                  && (r.value.algorithm == "ES384" <==> key.kind == Ecdsa(384)))
  {
  }

  /** From its second of issue to that of its end, give or take the skew; the zero time does not count. */
  ghost predicate InTime(issued: int, end: int, at: int, leeway: nat) {
    && (issued != ZERO_TIME ==> Truncate(issued) <= at + leeway)
    && (end != ZERO_TIME ==> at - leeway <= Truncate(end))
  }

  ghost predicate IsHeld(bundles: Bundles, td: string, keyID: string, key: Key) {
    td in bundles && keyID in bundles[td] && bundles[td][keyID] == key
  }

  /**
    A bundle set accepts a minted token exactly if it holds, under the ID's trust
    domain and the authority's key ID, the authority's key, the audience asked for is
    part of the one minted for, and the time is between the issue and the earlier of
    TTL and cap. The ID that comes back is the one it was minted for.
  */
  lemma MintedAcceptedIff(a: Authority, params: Params, now: int, bundles: Bundles, audience: seq<string>, at: int,
                          leeway: nat)
    requires a.keyID != "" && JoseAlgFromPublicKey(a.key) == Success(a.algorithm)
    requires MintJWTSVID(a, params, now).Success?
    ensures var r := ValidateToken(MintJWTSVID(a, params, now).value, bundles, audience, at, leeway);
            r.Success? <==>
            && IsHeld(bundles, params.id.value.trustDomain, a.keyID, a.key) && Covers(params.audience, audience)
            && InTime(now, EarlierOf(now + params.ttl, a.expiresAt), at, leeway)
    ensures var t := MintJWTSVID(a, params, now).value;
            ValidateToken(t, bundles, audience, at, leeway).Success? ==>
              ValidateToken(t, bundles, audience, at, leeway).value == (params.id.value, t.claims.value)
  {
    AcceptedIff(MintJWTSVID(a, params, now).value, bundles, audience, at, leeway);
  }

  /** Beyond the tolerated skew no token outlives its TTL or its cap, unless its expiry is the zero time. */
  lemma MintedExpires(a: Authority, params: Params, now: int, bundles: Bundles, audience: seq<string>, at: int,
                      leeway: nat)
    requires MintJWTSVID(a, params, now).Success? && a.expiresAt != ZERO_TIME && now + params.ttl != ZERO_TIME
    requires at - leeway > now + params.ttl || at - leeway > a.expiresAt
    ensures ValidateToken(MintJWTSVID(a, params, now).value, bundles, audience, at, leeway).Failure?
  {
    var end := DetermineExpiry(now, params.ttl, a.expiresAt).value;
    assert Truncate(end) <= end;
  }

  /** A minted token breaks no rule, unless its expiry falls in the second that stands for no time at all. */
  lemma MintedIsSvidIff(a: Authority, params: Params, now: int)
    requires JoseAlgFromPublicKey(a.key) == Success(a.algorithm)
    requires MintJWTSVID(a, params, now).Success?
    ensures var t, end := MintJWTSVID(a, params, now).value, DetermineExpiry(now, params.ttl, a.expiresAt).value;
            (forall r :: !Violates(t.headers, t.claims.value, r)) <==> Truncate(end) != ZERO_TIME
  {
    var t := MintJWTSVID(a, params, now).value;
    var end := DetermineExpiry(now, params.ttl, a.expiresAt).value;
    assert TypeHeaderOk(t.headers[0]);
    assert Truncate(ZERO_TIME) == ZERO_TIME;
    assert Violates(t.headers, t.claims.value, NoExpiry) <==> Truncate(end) == ZERO_TIME;
  }

  /** The token has one header, and that names a supported algorithm and the key that signed the token. */
  ghost predicate SignedUnder(token: Token, authorities: map<string, Key>) {
    && token.Signed? && |token.headers| == 1
    && token.headers[0].algorithm in SVID_ALGORITHMS
    && token.headers[0].keyID != "" && token.headers[0].keyID in authorities
    && authorities[token.headers[0].keyID] == token.signer
  }

  /** The claims cover the audience, and the time is not outside their bounds by more than the tolerated skew. */
  ghost predicate Current(c: Claims, audience: seq<string>, now: int, leeway: nat) {
    && Covers(c.audience, audience)
    && (c.expiry.Some? ==> now - leeway <= c.expiry.value * SECOND)
    && (c.notBefore.Some? ==> c.notBefore.value * SECOND <= now + leeway)
    && (c.issuedAt.Some? ==> c.issuedAt.value * SECOND <= now + leeway)
  }

  /**
    A token is accepted exactly if its subject is a SPIFFE ID whose trust domain has
    a bundle, it is signed under that bundle, and its claims are current. So nobody
    without the key of an authority of that trust domain gets a token accepted.
  */
  lemma AcceptedIff(token: Token, bundles: Bundles, audience: seq<string>, now: int, leeway: nat)
    ensures ValidateToken(token, bundles, audience, now, leeway).Success? <==>
            && token.Signed? && token.claims.Some? && token.claims.value.subject.IdSubject?
            && token.claims.value.subject.id.trustDomain in bundles
            && SignedUnder(token, bundles[token.claims.value.subject.id.trustDomain])
            && Current(token.claims.value, audience, now, leeway)
    ensures var r := ValidateToken(token, bundles, audience, now, leeway);
            r.Success? ==> r.value == (token.claims.value.subject.id, token.claims.value)
  {
    if token.Signed? && token.claims.Some? {
      var c := token.claims.value;
      assert ValidateClaims(c, audience, now, leeway).Success? <==> Current(c, audience, now, leeway);
    }
  }

  predicate HasHeader(token: Token) {
    token.Signed? && |token.headers| == 1
  }

  predicate HasClaims(token: Token) {
    token.Signed? && token.claims.Some?
  }

  /** The token names a SPIFFE ID whose trust domain has a bundle. */
  predicate HasBundle(token: Token, bundles: Bundles) {
    && HasHeader(token) && HasClaims(token) && token.claims.value.subject.IdSubject?
    && token.claims.value.subject.id.trustDomain in bundles
  }

  function BundleOf(token: Token, bundles: Bundles): map<string, Key>
    requires HasBundle(token, bundles)
  {
    bundles[token.claims.value.subject.id.trustDomain]
  }

  /** The check that gives this error fails. */
  ghost predicate Fails(token: Token, bundles: Bundles, audience: seq<string>, now: int, leeway: nat,
                        e: ValidationError)
  {
    match e
    case NotParsed => token.Unparsable?
    case NotOneHeader => token.Signed? && |token.headers| != 1
    case BadAlgorithm => HasHeader(token) && token.headers[0].algorithm !in SVID_ALGORITHMS
    case NoKeyID => HasHeader(token) && token.headers[0].keyID == ""
    case NoClaims => token.Signed? && token.claims == None
    case NoSubject => HasClaims(token) && token.claims.value.subject == OtherSubject("")
    case BadSubject =>
      HasClaims(token) && token.claims.value.subject.OtherSubject? && token.claims.value.subject.text != ""
    case NoBundle => HasClaims(token) && token.claims.value.subject.IdSubject? && !HasBundle(token, bundles)
    case KeyNotFound => HasBundle(token, bundles) && token.headers[0].keyID !in BundleOf(token, bundles)
    case BadSignature =>
      && HasBundle(token, bundles) && token.headers[0].keyID in BundleOf(token, bundles)
      && BundleOf(token, bundles)[token.headers[0].keyID] != token.signer
    case BadAudience => HasClaims(token) && !Covers(token.claims.value.audience, audience)
    case NotYetValid => HasClaims(token) && IsAfter(token.claims.value.notBefore, now + leeway)
    case Expired => HasClaims(token) && IsBefore(token.claims.value.expiry, now - leeway)
    case IssuedInFuture => HasClaims(token) && IsAfter(token.claims.value.issuedAt, now + leeway)
  }

  predicate IsAfter(date: Option<int>, t: int) {
    date.Some? && date.value * SECOND > t
  }

  predicate IsBefore(date: Option<int>, t: int) {
    date.Some? && date.value * SECOND < t
  }

  /** The order of the checks. */
  function Rank(e: ValidationError): nat {
    match e
    case NotParsed => 0
    case NotOneHeader => 1
    case BadAlgorithm => 2
    case NoKeyID => 3
    case NoClaims => 4
    case NoSubject => 5
    case BadSubject => 6
    case NoBundle => 7
    case KeyNotFound => 8
    case BadSignature => 9
    case BadAudience => 10
    case NotYetValid => 11
    case Expired => 12
    case IssuedInFuture => 13
  }

  /** A token is refused with an error exactly if that is the first check that fails, and accepted if none does. */
  lemma RefusedIff(token: Token, bundles: Bundles, audience: seq<string>, now: int, leeway: nat, e: ValidationError)
    ensures var r := ValidateToken(token, bundles, audience, now, leeway);
            && (r == Failure(e) <==>
                && Fails(token, bundles, audience, now, leeway, e)
                && forall x :: Fails(token, bundles, audience, now, leeway, x) ==> Rank(e) <= Rank(x))
            && (r.Success? <==> forall x :: !Fails(token, bundles, audience, now, leeway, x))
  {
    FirstCheckFails(token, bundles, audience, now, leeway);
    var r := ValidateToken(token, bundles, audience, now, leeway);
    if r.Failure? && Rank(e) <= Rank(r.error) {
      SameRank(e, r.error);
    }
  }

  lemma SameRank(e: ValidationError, x: ValidationError)
    ensures Rank(e) == Rank(x) ==> e == x
  {
  }

  lemma FirstCheckFails(token: Token, bundles: Bundles, audience: seq<string>, now: int, leeway: nat)
    ensures var r := ValidateToken(token, bundles, audience, now, leeway);
            && (r.Failure? ==> Fails(token, bundles, audience, now, leeway, r.error))
            && (forall x :: Fails(token, bundles, audience, now, leeway, x) ==> r.Failure? && Rank(r.error) <= Rank(x))
  {
    forall x | Fails(token, bundles, audience, now, leeway, x)
      ensures var r := ValidateToken(token, bundles, audience, now, leeway); r.Failure? && Rank(r.error) <= Rank(x)
    {
      EarlierCheck(token, bundles, audience, now, leeway, x);
    }
  }

  lemma EarlierCheck(token: Token, bundles: Bundles, audience: seq<string>, now: int, leeway: nat, x: ValidationError)
    requires Fails(token, bundles, audience, now, leeway, x)
    ensures var r := ValidateToken(token, bundles, audience, now, leeway); r.Failure? && Rank(r.error) <= Rank(x)
  {
  }

  /** No header gives a type, or only a null one. */
  ghost predicate NoType(headers: seq<Header>) {
    forall i :: 0 <= i < |headers| ==>
                  headers[i].extra.Some? ==> "typ" in headers[i].extra.value ==> headers[i].extra.value["typ"] == Null
  }

  /** The type header is optional, but a token that gives none needs some other extra header to pass. */
  lemma MissingTypeAcceptedIff(headers: seq<Header>, c: Claims)
    requires NoType(headers)
    ensures !Violates(headers, c, BadTypeHeader) <==> exists i :: 0 <= i < |headers| && headers[i].extra.Some?
  {
    if i :| 0 <= i < |headers| && headers[i].extra.Some? {
      assert TypeHeaderOk(headers[i]);
    }
  }

  /**
    Such a token exists: a minted token without its type header is validated just like
    the minted one, and yet is judged not to be a JWT-SVID, for that reason only.
  */
  lemma UntypedToken(a: Authority, params: Params, now: int) returns (token: Token)
    requires JoseAlgFromPublicKey(a.key) == Success(a.algorithm) && MintJWTSVID(a, params, now).Success?
    requires Truncate(DetermineExpiry(now, params.ttl, a.expiresAt).value) != ZERO_TIME
    ensures token == MintJWTSVID(a, params, now).value.(headers := [Header(a.algorithm, a.keyID, None)])
    ensures forall bundles, audience, at, leeway ::
              ValidateToken(token, bundles, audience, at, leeway)
              == ValidateToken(MintJWTSVID(a, params, now).value, bundles, audience, at, leeway)
    ensures forall r :: Violates(token.headers, token.claims.value, r) <==> r == BadTypeHeader
  {
    var minted := MintJWTSVID(a, params, now).value;
    token := minted.(headers := [Header(a.algorithm, a.keyID, None)]);
    MintedIsSvidIff(a, params, now);
    forall r ensures Violates(token.headers, token.claims.value, r) <==> r == BadTypeHeader {
      assert !Violates(minted.headers, minted.claims.value, r);
      assert token.headers[0].algorithm in SVID_ALGORITHMS;
    }
  }
}
