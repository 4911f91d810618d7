/**
  The development trust domain: authorities that rotate, the bundles they make up,
  and minting, which takes a snapshot of the authorities under the lock but checks
  the live list without it.
*/
module TrustDomains {
  import opened Wrappers
  import opened Seqs
  import opened Certs
  import opened KeyIds
  import X = X509Authority
  import J = JwtSvid

  const BACKDATE: int := SECOND

  datatype X509Info = X509Info(key: Key, cert: Cert)

  datatype JwtInfo = JwtInfo(keyID: string, key: Key, expiresAt: int, issuer: string)

  datatype Config = Config(name: string, x509TTL: int, jwtTTL: int)

  datatype Domain = Domain(config: Config, x509: seq<X509Info>, jwt: seq<JwtInfo>)

  // ---------- Rotation ----------

  function RootTemplate(config: Config, key: Key, now: int): Cert {
    Cert(
      fp := 0,
      rawSubject := [],
      rawIssuer := [],
      authorityKeyId := [],
      subjectKeyId := [],
      uris := [SpiffeUri(SpiffeId(config.name, ""))],
      isCA := true,
      basicConstraintsValid := true,
      keyUsage := {},
      extKeyUsage := [],
      unknownExtKeyUsage := [],
      notBefore := now - BACKDATE,
      notAfter := now + config.x509TTL,
      publicKey := key,
      signedBy := key)
  }

  function AddX509(d: Domain, key: Key, now: int, fp: Fingerprint): Domain {
    var template := RootTemplate(d.config, key, now);
    d.(x509 := d.x509 + [X509Info(key, X.CreateCertificate(template, template, key, key, fp))])
  }

  function AddJwt(d: Domain, keyID: string, key: Key, now: int): Domain {
    d.(jwt := d.jwt + [JwtInfo(keyID, key, now + d.config.jwtTTL, "")])
  }

  /**
    A new authority is a self-signed CA named after the trust domain, backdated by a
    second, and mints for exactly as long as its TTL lasts, up to the fraction of a
    second that its certificate drops.
  */
  lemma NewAuthorityMints(d: Domain, key: Key, now: int, fp: Fingerprint, params: X.Params, at: int,
                          svidFp: Fingerprint)
    requires params.id.Some? && params.publicKey.Some? && params.ttl > 0
    ensures var root := Last(AddX509(d, key, now, fp).x509).cert;
            && IsSelfSigned(root) && ExtractSpiffeId(root.uris) == Some(SpiffeId(d.config.name, ""))
            && root.fp == fp && root.publicKey == key && root.keyUsage == {} && root.extKeyUsage == []
            && root.notBefore == Truncate(now - BACKDATE) && root.notAfter == Truncate(now + d.config.x509TTL)
            && (X.MintX509SVID(root, key, params, at, svidFp).Success? <==> at < Truncate(now + d.config.x509TTL))
            && (X.MintX509SVID(root, key, params, at, svidFp) == Failure(X.AuthorityExpired) <==>
                at >= Truncate(now + d.config.x509TTL))
  {
    X.TruncateBounds(now - BACKDATE);
    X.TruncateBounds(now + d.config.x509TTL);
  }

  /** A rotation adds one authority at the end, with the given key, and leaves everything else. */
  lemma RotationsAppend(d: Domain, key: Key, now: int, fp: Fingerprint, keyID: string)
    ensures var d' := AddX509(d, key, now, fp);
            && d'.config == d.config && d'.jwt == d.jwt && d'.x509 != [] && Front(d'.x509) == d.x509
            && Last(d'.x509).key == key == Last(d'.x509).cert.publicKey
    ensures var d' := AddJwt(d, keyID, key, now);
            && d'.config == d.config && d'.x509 == d.x509 && d'.jwt != [] && Front(d'.jwt) == d.jwt
            && Last(d'.jwt).keyID == keyID && Last(d'.jwt).key == key && Last(d'.jwt).issuer == ""
            && Last(d'.jwt).expiresAt - now == d.config.jwtTTL
  {
  }

  // ---------- Minting ----------

  datatype Mint<+S, +T> =
    | Snapped(td: string, taken: seq<S>)    // the list was read under the lock
    | Checked(td: string, taken: seq<S>)    // the live list was found not to be empty
    | Issued(td: string, result: T)
    | Failed(td: string)                    // an error was returned
    | Panicked(td: string)                  // an empty snapshot was indexed

  /** An SVID with the authority and the inputs it was minted from. */
  datatype X509Svid = X509Svid(issuer: X509Info, params: X.Params, at: int, cert: Cert)

  /** A token with the authority and the inputs it was minted from. */
  datatype JwtSvid = JwtSvid(authority: J.Authority, params: J.Params, at: int, token: J.Token)

  function SignX509(td: string, taken: seq<X509Info>, params: X.Params, now: int, fp: Fingerprint)
    : Mint<X509Info, X509Svid>
  {
    if taken == [] then Panicked(td)
    else
      match X.MintX509SVID(Last(taken).cert, Last(taken).key, params, now, fp)
      case Success(cert) => Issued(td, X509Svid(Last(taken), params, now, cert))
      case Failure(_) => Failed(td)
  }

  /** The cap is computed from the clock again, not taken from the authority. */
  function SignJwt(config: Config, td: string, taken: seq<JwtInfo>, params: J.Params, capNow: int, now: int)
    : Mint<JwtInfo, JwtSvid>
  {
    if taken == [] then Panicked(td)
    else
      var info := Last(taken);
      match J.NewAuthority(info.keyID, info.key, info.issuer, capNow + config.jwtTTL)
      case Failure(_) => Failed(td)
      case Success(a) =>
        match J.MintJWTSVID(a, params, now)
        case Success(token) => Issued(td, JwtSvid(a, params, now, token))
        case Failure(_) => Failed(td)
  }

  /** The authority that signs is the last one of the snapshot. */
  ghost predicate IsAuthority(info: JwtInfo, a: J.Authority) {
    info.keyID == a.keyID && info.key == a.key
  }

  /** The token is what the recorded authority makes of the recorded inputs. */
  ghost predicate IsMinted(s: JwtSvid) {
    && J.MintJWTSVID(s.authority, s.params, s.at) == Success(s.token)
    && J.JoseAlgFromPublicKey(s.authority.key) == Success(s.authority.algorithm)
  }

  lemma SignJwtMints(config: Config, td: string, taken: seq<JwtInfo>, params: J.Params, capNow: int, now: int)
    requires SignJwt(config, td, taken, params, capNow, now).Issued?
    ensures var m := SignJwt(config, td, taken, params, capNow, now);
            taken != [] && m.td == td && IsMinted(m.result) && IsAuthority(Last(taken), m.result.authority)
  {
  }

  /**
    A mint is answered by the last authority: it issues for complete parameters until
    that authority's certificate ends, with that authority's key, and fails otherwise.
  */
  ghost predicate IsX509Answer(m: Mint<X509Info, X509Svid>, td: string, taken: seq<X509Info>, params: X.Params,
                               now: int, fp: Fingerprint)
    requires taken != []
  {
    && m.td == td && (m.Issued? || m.Failed?)
    && (m.Issued? <==> X.IsComplete(params) && now < Last(taken).cert.notAfter)
    && (m.Issued? ==>
          && m.result.issuer == Last(taken) && m.result.params == params && m.result.at == now
          && m.result.cert.signedBy == Last(taken).key && m.result.cert.rawIssuer == Last(taken).cert.rawSubject
          && Some(m.result.cert.publicKey) == params.publicKey && m.result.cert.fp == fp)
  }

  lemma SignX509Answers(td: string, taken: seq<X509Info>, params: X.Params, now: int, fp: Fingerprint)
    requires taken != []
    ensures IsX509Answer(SignX509(td, taken, params, now, fp), td, taken, params, now, fp)
  {
    X.MintsIff(Last(taken).cert, Last(taken).key, params, now, fp);
  }

  /**
    A mint is answered by the last authority under a cap of a full TTL from capNow,
    whenever that authority was made and whatever end it recorded: it issues for
    acceptable parameters before the cap, and the token ends with the TTL or the cap.
  */
  ghost predicate IsJwtAnswer(m: Mint<JwtInfo, JwtSvid>, config: Config, td: string, taken: seq<JwtInfo>,
                              params: J.Params, capNow: int, now: int)
    requires taken != []
  {
    var info, cap := Last(taken), capNow + config.jwtTTL;
    && m.td == td && (m.Issued? || m.Failed?)
    && (m.Issued? <==>
        && info.keyID != "" && J.IsSupported(info.key) && cap != J.ZERO_TIME
        && J.IsAcceptable(params) && now < cap)
    && (m.Issued? ==>
          && m.result.authority.keyID == info.keyID && m.result.authority.key == info.key
          && m.result.authority.issuer == info.issuer && m.result.authority.expiresAt == cap
          && m.result.params == params && m.result.at == now && m.result.token.Signed? && m.result.token.claims.Some?
          && m.result.token.signer == info.key
          && J.Encodes(m.result.token.claims.value.expiry, J.EarlierOf(now + params.ttl, cap)))
  }

  lemma SignJwtAnswers(config: Config, td: string, taken: seq<JwtInfo>, params: J.Params, capNow: int, now: int)
    requires taken != []
    ensures IsJwtAnswer(SignJwt(config, td, taken, params, capNow, now), config, td, taken, params, capNow, now)
  {
    var info, cap := Last(taken), capNow + config.jwtTTL;
    J.NewAuthorityIff(info.keyID, info.key, info.issuer, cap);
    var a := J.NewAuthority(info.keyID, info.key, info.issuer, cap);
    if a.Success? {
      J.MintsIff(a.value, params, now);
      if J.MintJWTSVID(a.value, params, now).Success? {
        J.MintedClaims(a.value, params, now);
      }
    }
  }

  // ---------- Bundles ----------

  function X509Bundle(x509: seq<X509Info>): seq<Cert> {
    if x509 == [] then [] else X509Bundle(Front(x509)) + [Last(x509).cert]
  }

  /** A later authority with the same key ID replaces an earlier one. */
  function JwtBundle(jwt: seq<JwtInfo>): map<string, Key> {
    if jwt == [] then map[] else JwtBundle(Front(jwt))[Last(jwt).keyID := Last(jwt).key]
  }

  ghost predicate DistinctKeyIDs(jwt: seq<JwtInfo>) {
    forall i, j :: 0 <= i < j < |jwt| ==> jwt[i].keyID != jwt[j].keyID
  }

  lemma {:induction false} X509BundleHolds(x509: seq<X509Info>, i: nat)
    requires i < |x509|
    ensures |X509Bundle(x509)| == |x509| && X509Bundle(x509)[i] == x509[i].cert
  {
    if |x509| > 1 {
      X509BundleHolds(Front(x509), if i < |x509| - 1 then i else 0);
    } else {
      assert Front(x509) == [];
    }
  }

  lemma {:induction false} JwtBundleSound(jwt: seq<JwtInfo>, keyID: string)
    ensures keyID in JwtBundle(jwt) ==>
              exists i :: 0 <= i < |jwt| && jwt[i].keyID == keyID && jwt[i].key == JwtBundle(jwt)[keyID]
    ensures (exists i :: 0 <= i < |jwt| && jwt[i].keyID == keyID) ==> keyID in JwtBundle(jwt)
  {
    if jwt != [] {
      JwtBundleSound(Front(jwt), keyID);
      assert forall i :: 0 <= i < |jwt| - 1 ==> jwt[i] == Front(jwt)[i];
    }
  }

  /** No authority is lost from the bundle if and only if no two share a key ID. */
  lemma {:induction false} JwtBundleLosesNothingIff(jwt: seq<JwtInfo>)
    ensures |JwtBundle(jwt)| <= |jwt|
    ensures |JwtBundle(jwt)| == |jwt| <==> DistinctKeyIDs(jwt)
  {
    if jwt != [] {
      var rest, last := Front(jwt), Last(jwt);
      JwtBundleLosesNothingIff(rest);
      JwtBundleSound(rest, last.keyID);
      assert JwtBundle(jwt).Keys == JwtBundle(rest).Keys + {last.keyID};
      assert forall i :: 0 <= i < |rest| ==> rest[i] == jwt[i];
      if last.keyID in JwtBundle(rest) {
        var i :| 0 <= i < |rest| && rest[i].keyID == last.keyID;
        assert jwt[i].keyID == jwt[|jwt| - 1].keyID;
      }
    }
  }

  /** Each authority is found under its key ID. */
  lemma JwtBundleFinds(jwt: seq<JwtInfo>, i: nat)
    requires DistinctKeyIDs(jwt) && i < |jwt|
    ensures jwt[i].keyID in JwtBundle(jwt) && JwtBundle(jwt)[jwt[i].keyID] == jwt[i].key
  {
    JwtBundleSound(jwt, jwt[i].keyID);
    var j :| 0 <= j < |jwt| && jwt[j].keyID == jwt[i].keyID && jwt[j].key == JwtBundle(jwt)[jwt[i].keyID];
  }

  // ---------- The objects ----------

  /** The process-wide counter of JWT keys, a 32-bit atomic. */
  class JwtKeyCounter {
    var value: int
    ghost var count: nat

    ghost predicate Valid()
      reads this
    {
      value == Counter(count)
    }

    constructor ()
      ensures Valid() && count == 0
    {
      value, count := 0, 0;
    }

    method Add() returns (v: int)
      requires Valid()
      modifies this
      ensures Valid() && count == old(count) + 1 && v == Counter(count)
    {
      value := Increment(value);
      count := count + 1;
      v := value;
    }
  }

  class TrustDomain {
    const config: Config
    var x509Authorities: seq<X509Info>
    var jwtAuthorities: seq<JwtInfo>

    function Contents(): Domain
      reads this
    {
      Domain(config, x509Authorities, jwtAuthorities)
    }

    constructor (config: Config)
      ensures Contents() == Domain(config, [], [])
    {
      this.config, x509Authorities, jwtAuthorities := config, [], [];
    }

    /** The rotations that precede all minting. */
    method Start(counter: JwtKeyCounter, x509Key: Key, jwtKey: Key, now: int, fp: Fingerprint)
      requires counter.Valid()
      modifies this, counter
      ensures counter.Valid() && counter.count == old(counter.count) + 1
      ensures Contents() == AddJwt(AddX509(old(Contents()), x509Key, now, fp), KeyId(counter.count), jwtKey, now)
      ensures x509Authorities != [] && jwtAuthorities != []
    {
      RotateX509Authority(x509Key, now, fp);
      RotateJWTAuthority(counter, jwtKey, now);
    }

    method RotateX509Authority(key: Key, now: int, fp: Fingerprint)
      modifies `x509Authorities
      ensures Contents() == AddX509(old(Contents()), key, now, fp)
    {
      var template := RootTemplate(config, key, now);
      var cert := X.CreateCertificate(template, template, key, key, fp);
      x509Authorities := x509Authorities + [X509Info(key, cert)];
    }

    method RotateJWTAuthority(counter: JwtKeyCounter, key: Key, now: int)
      requires counter.Valid()
      modifies `jwtAuthorities, counter
      ensures counter.Valid() && counter.count == old(counter.count) + 1
      ensures Contents() == AddJwt(old(Contents()), KeyId(counter.count), key, now)
    {
      var n := counter.Add();
      jwtAuthorities := jwtAuthorities + [JwtInfo(PREFIX + Decimal(n), key, now + config.jwtTTL, "")];
    }

    /** Without interference the snapshot is the live list, so nothing can panic. */
    method MintX509SVID(params: X.Params, now: int, fp: Fingerprint) returns (r: Mint<X509Info, X509Svid>)
      ensures r == if x509Authorities == [] then Failed(config.name)
                   else SignX509(config.name, x509Authorities, params, now, fp)
      ensures x509Authorities != [] ==> IsX509Answer(r, config.name, x509Authorities, params, now, fp)
      ensures !r.Panicked?
    {
      var authorities := x509Authorities;
      if |x509Authorities| == 0 {
        return Failed(config.name);
      }
      var info := authorities[|authorities| - 1];
      SignX509Answers(config.name, authorities, params, now, fp);
      var minted := X.MintX509SVID(info.cert, info.key, params, now, fp);
      match minted {
        case Failure(_) => return Failed(config.name);
        case Success(cert) => return Issued(config.name, X509Svid(info, params, now, cert));
      }
    }

    method MintJWTSVID(params: J.Params, capNow: int, now: int) returns (r: Mint<JwtInfo, JwtSvid>)
      ensures r == if jwtAuthorities == [] then Failed(config.name)
                   else SignJwt(config, config.name, jwtAuthorities, params, capNow, now)
      ensures jwtAuthorities != [] ==> IsJwtAnswer(r, config, config.name, jwtAuthorities, params, capNow, now)
      ensures !r.Panicked?
    {
      var authorities := jwtAuthorities;
      if |jwtAuthorities| == 0 {
        return Failed(config.name);
      }
      var info := authorities[|authorities| - 1];
      SignJwtAnswers(config, config.name, authorities, params, capNow, now);
      var authority := J.NewAuthority(info.keyID, info.key, info.issuer, capNow + config.jwtTTL);
      if authority.Failure? {
        return Failed(config.name);
      }
      var minted := J.MintJWTSVID(authority.value, params, now);
      match minted {
        case Failure(_) => return Failed(config.name);
        case Success(token) => return Issued(config.name, JwtSvid(authority.value, params, now, token));
      }
    }

    method X509Bundles() returns (certs: seq<Cert>)
      ensures certs == X509Bundle(x509Authorities)
    {
      certs := [];
      for i := 0 to |x509Authorities|
        invariant certs == X509Bundle(x509Authorities[..i])
      {
        assert Front(x509Authorities[..i + 1]) == x509Authorities[..i];
        certs := certs + [x509Authorities[i].cert];
      }
      assert x509Authorities[..|x509Authorities|] == x509Authorities;
    }

    method JWTBundles() returns (authorities: map<string, Key>)
      ensures authorities == JwtBundle(jwtAuthorities)
    {
      authorities := map[];
      for i := 0 to |jwtAuthorities|
        invariant authorities == JwtBundle(jwtAuthorities[..i])
      {
        assert Front(jwtAuthorities[..i + 1]) == jwtAuthorities[..i];
        authorities := authorities[jwtAuthorities[i].keyID := jwtAuthorities[i].key];
      }
      assert jwtAuthorities[..|jwtAuthorities|] == jwtAuthorities;
    }
  }
}
