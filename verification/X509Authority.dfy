/** Minting X.509-SVIDs, and the rules that a certificate must meet to be one. */
module X509Authority {
  import opened Wrappers
  import opened Seqs
  import opened Certs

  const SVID_BACKDATE: int := 10 * SECOND

  datatype Error = IdUnset | PublicKeyUnset | TtlNotPositive | AuthorityExpired

  /** An unset ID or key is None. */
  datatype Params = Params(id: Option<SpiffeId>, publicKey: Option<Key>, ttl: int)

  /** The hash of a public key that identifies it. */
  function SubjectKeyId(k: Key): Bytes {
    [k.id]
  }

  function DetermineLifetime(now: int, ttl: int, cap: int): Result<(int, int), Error> {
    if now >= cap then Failure(AuthorityExpired)
    else
      var notAfter := now + ttl;
      Success((now - SVID_BACKDATE, if notAfter > cap then cap else notAfter))
  }

  /**
    What x509.CreateCertificate makes of a template: the issuer is the parent's
    subject, the parent's key identifier wins over the template's unless the
    certificate is self-issued, a CA without key identifier gets one, and times lose
    their fractions.
  */
  function CreateCertificate(template: Cert, parent: Cert, publicKey: Key, signer: Key, fp: Fingerprint): Cert {
    var selfIssued := template.rawSubject == parent.rawSubject;
    var inheritsId := !selfIssued && |parent.subjectKeyId| > 0;
    var needsId := |template.subjectKeyId| == 0 && template.isCA;
    Cert(
      fp := fp,
      rawSubject := template.rawSubject,
      rawIssuer := parent.rawSubject,
      authorityKeyId := if inheritsId then parent.subjectKeyId else template.authorityKeyId,
      subjectKeyId := if needsId then SubjectKeyId(publicKey) else template.subjectKeyId,
      uris := template.uris,
      isCA := template.isCA,
      basicConstraintsValid := template.basicConstraintsValid,
      keyUsage := template.keyUsage,
      extKeyUsage := template.extKeyUsage,
      unknownExtKeyUsage := template.unknownExtKeyUsage,
      notBefore := Truncate(template.notBefore),
      notAfter := Truncate(template.notAfter),
      publicKey := publicKey,
      signedBy := signer)
  }

  /** The subject of an SVID: country, organisation and a unique identifier of the ID. It is never empty. */
  function SvidSubject(id: SpiffeId): (r: Bytes)
    ensures r != []
  {
    [1] + seq(|id.trustDomain|, i requires 0 <= i < |id.trustDomain| => id.trustDomain[i] as nat)
    + [0] + seq(|id.path|, i requires 0 <= i < |id.path| => id.path[i] as nat)
  }

  function SvidTemplate(authority: Cert, id: SpiffeId, publicKey: Key, notBefore: int, notAfter: int): Cert {
    Cert(
      fp := 0,
      rawSubject := SvidSubject(id),
      rawIssuer := [],
      authorityKeyId := authority.subjectKeyId,
      subjectKeyId := SubjectKeyId(publicKey),
      uris := [SpiffeUri(id)],
      isCA := false,
      basicConstraintsValid := true,
      keyUsage := {DigitalSignature},
      extKeyUsage := [ServerAuth, ClientAuth],
      unknownExtKeyUsage := [],
      notBefore := notBefore,
      notAfter := notAfter,
      publicKey := publicKey,
      signedBy := publicKey)
  }

  /** Mint an SVID at the given time; fp is the hash of the bytes that result. */
  function MintX509SVID(authority: Cert, key: Key, params: Params, now: int, fp: Fingerprint): Result<Cert, Error> {
    if params.id.None? then Failure(IdUnset)
    else if params.publicKey.None? then Failure(PublicKeyUnset)
    else if params.ttl <= 0 then Failure(TtlNotPositive)
    else
      var lifetime :- DetermineLifetime(now, params.ttl, authority.notAfter);
      var template := SvidTemplate(authority, params.id.value, params.publicKey.value, lifetime.0, lifetime.1);
      Success(CreateCertificate(template, authority, params.publicKey.value, key, fp))
  }

  // ---------- The rules for an X.509-SVID ----------

  datatype Reason =
    | NoUri | ManyUris | UriNotSpiffe
    | MarkedCA | NoBasicConstraints
    | NoDigitalSignature | HasCertSign | HasCRLSign
    | ExtKeyUsageNotAllowed(usage: ExtKeyUsage)
    | ExtKeyUsageUnknown(oid: nat)
    | EmptyValidity

  /** The certificate breaks the given rule. */
  ghost predicate Violates(c: Cert, r: Reason) {
    match r
    case NoUri => c.uris == []
    case ManyUris => |c.uris| > 1
    case UriNotSpiffe => |c.uris| == 1 && !c.uris[0].SpiffeUri?
    case MarkedCA => c.isCA
    case NoBasicConstraints => !c.basicConstraintsValid
    case NoDigitalSignature => DigitalSignature !in c.keyUsage
    case HasCertSign => CertSign in c.keyUsage
    case HasCRLSign => CRLSign in c.keyUsage
    case ExtKeyUsageNotAllowed(u) => u in c.extKeyUsage && u != ServerAuth && u != ClientAuth
    case ExtKeyUsageUnknown(o) => o in c.unknownExtKeyUsage
    case EmptyValidity => c.notBefore >= c.notAfter
  }

  /** The test for a broken rule. */
  ghost function Breaks(c: Cert): Reason -> bool {
    r => Violates(c, r)
  }

  const NAME_RULES: seq<Reason> := [NoUri, ManyUris, UriNotSpiffe]
  const FLAG_RULES: seq<Reason> := [MarkedCA, NoBasicConstraints, NoDigitalSignature, HasCertSign, HasCRLSign]

  /** A rule for every entry of the usage lists. */
  function UsageRules(c: Cert): seq<Reason> {
    NotAllowed(c.extKeyUsage) + NotKnown(c.unknownExtKeyUsage)
  }

  function NotAllowed(usages: seq<ExtKeyUsage>): seq<Reason> {
    if usages == [] then [] else NotAllowed(Front(usages)) + [ExtKeyUsageNotAllowed(Last(usages))]
  }

  function NotKnown(oids: seq<nat>): seq<Reason> {
    if oids == [] then [] else NotKnown(Front(oids)) + [ExtKeyUsageUnknown(Last(oids))]
  }

  /** All the rules, in the order of the SPIFFE X.509-SVID document. */
  function Rules(c: Cert): seq<Reason> {
    NAME_RULES + FLAG_RULES + UsageRules(c) + [EmptyValidity]
  }

  /** The broken ones among the rules. */
  ghost function BrokenRules(c: Cert): seq<Reason> {
    Keep(Rules(c), Breaks(c))
  }

  lemma {:induction false} NotAllowedHolds(usages: seq<ExtKeyUsage>, u: ExtKeyUsage)
    ensures ExtKeyUsageNotAllowed(u) in NotAllowed(usages) <==> u in usages
  {
    if usages != [] {
      NotAllowedHolds(Front(usages), u);
      assert usages == Front(usages) + [Last(usages)];
    }
  }

  lemma {:induction false} NotKnownHolds(oids: seq<nat>, o: nat)
    ensures ExtKeyUsageUnknown(o) in NotKnown(oids) <==> o in oids
  {
    if oids != [] {
      NotKnownHolds(Front(oids), o);
      assert oids == Front(oids) + [Last(oids)];
    }
  }

  /** The list of rules is complete. */
  lemma RulesAreAll(c: Cert)
    ensures forall r :: Violates(c, r) ==> r in Rules(c)
  {
    forall r | Violates(c, r) ensures r in Rules(c) {
      match r
      case ExtKeyUsageNotAllowed(u) => NotAllowedHolds(c.extKeyUsage, u);
      case ExtKeyUsageUnknown(o) => NotKnownHolds(c.unknownExtKeyUsage, o);
      case _ =>
    }
  }

  /**
    The reasons are the broken ones of the rules, in the order of the rules and with
    one reason for each disallowed usage listed; no broken rule is missing.
  */
  method CheckIsSvid(cert: Cert) returns (ok: bool, reasons: seq<Reason>)
    ensures reasons == BrokenRules(cert)
    ensures forall r :: r in reasons <==> Violates(cert, r)
    ensures ok <==> forall r :: !Violates(cert, r)
  {
    var names := CheckNames(cert);
    var usages := CheckUsages(cert);
    reasons := names + CheckFlags(cert) + usages + When(cert.notBefore >= cert.notAfter, EmptyValidity);
    Assembled(cert, names, CheckFlags(cert), usages);
    LastRule(cert);
    KeptAreBroken(cert, reasons);
    ok := |reasons| == 0;
  }

  lemma KeptAreBroken(c: Cert, reasons: seq<Reason>)
    requires reasons == BrokenRules(c)
    ensures forall r :: r in reasons <==> Violates(c, r)
    ensures reasons == [] <==> forall r :: !Violates(c, r)
  {
    RulesAreAll(c);
    KeepHolds(Rules(c), Breaks(c));
    if reasons != [] {
      assert reasons[0] in reasons;
    }
  }

  lemma KeepRules(c: Cert)
    ensures var p := Breaks(c);
            Keep(Rules(c), p) ==
            Keep(NAME_RULES, p) + Keep(FLAG_RULES, p) + Keep(UsageRules(c), p)
            + When(p(EmptyValidity), EmptyValidity)
  {
    KeepFour(NAME_RULES, FLAG_RULES, UsageRules(c), EmptyValidity, Breaks(c));
  }

  lemma Assembled(c: Cert, names: seq<Reason>, flags: seq<Reason>, usages: seq<Reason>)
    requires names == Keep(NAME_RULES, Breaks(c)) && flags == Keep(FLAG_RULES, Breaks(c))
    requires usages == Keep(UsageRules(c), Breaks(c))
    ensures names + flags + usages + When(Breaks(c)(EmptyValidity), EmptyValidity) == BrokenRules(c)
  {
    KeepRules(c);
  }

  lemma LastRule(c: Cert)
    ensures Breaks(c)(EmptyValidity) == (c.notBefore >= c.notAfter)
  {
  }

  lemma KeepFour(a: seq<Reason>, b: seq<Reason>, c: seq<Reason>, r: Reason, p: Reason -> bool)
    ensures Keep(a + b + c + [r], p) == Keep(a, p) + Keep(b, p) + Keep(c, p) + When(p(r), r)
  {
    KeepAppend(a + b + c, r, p);
    KeepConcat(a + b, c, p);
    KeepConcat(a, b, p);
  }

  function CheckFlags(cert: Cert): (reasons: seq<Reason>)
    ensures reasons == Keep(FLAG_RULES, Breaks(cert))
  {
    assert Keep(FLAG_RULES, Breaks(cert)) == Flags(cert) by {
      KeepFive(MarkedCA, NoBasicConstraints, NoDigitalSignature, HasCertSign, HasCRLSign, Breaks(cert));
    }
    Flags(cert)
  }

  function Flags(cert: Cert): seq<Reason> {
    When(cert.isCA, MarkedCA) + When(!cert.basicConstraintsValid, NoBasicConstraints)
    + When(DigitalSignature !in cert.keyUsage, NoDigitalSignature)
    + When(CertSign in cert.keyUsage, HasCertSign) + When(CRLSign in cert.keyUsage, HasCRLSign)
  }

  method CheckNames(cert: Cert) returns (reasons: seq<Reason>)
    ensures reasons == Keep(NAME_RULES, Breaks(cert))
  {
    KeepThree(NoUri, ManyUris, UriNotSpiffe, Breaks(cert));
    reasons := [];
    if |cert.uris| == 0 {
      reasons := [NoUri];
    } else if |cert.uris| > 1 {
      reasons := [ManyUris];
    } else if !cert.uris[0].SpiffeUri? {
      reasons := [UriNotSpiffe];
    }
  }

  method CheckUsages(cert: Cert) returns (reasons: seq<Reason>)
    ensures reasons == Keep(UsageRules(cert), Breaks(cert))
  {
    var usages := CheckKnown(cert);
    var oids := CheckUnknown(cert);
    KeepConcat(NotAllowed(cert.extKeyUsage), NotKnown(cert.unknownExtKeyUsage), Breaks(cert));
    return usages + oids;
  }

  method CheckKnown(cert: Cert) returns (reasons: seq<Reason>)
    ensures reasons == Keep(NotAllowed(cert.extKeyUsage), Breaks(cert))
  {
    var usages := cert.extKeyUsage;
    reasons := [];
    for i := 0 to |usages|
      invariant reasons == Keep(NotAllowed(usages[..i]), Breaks(cert))
    {
      assert usages[..i + 1] == usages[..i] + [usages[i]];
      KeepNextUsage(cert, usages[..i], usages[i]);
      if usages[i] !in {ServerAuth, ClientAuth} {
        reasons := reasons + [ExtKeyUsageNotAllowed(usages[i])];
      }
    }
    assert usages[..|usages|] == usages;
  }

  lemma KeepNextUsage(c: Cert, done: seq<ExtKeyUsage>, u: ExtKeyUsage)
    requires u in c.extKeyUsage
    ensures Keep(NotAllowed(done + [u]), Breaks(c)) ==
            Keep(NotAllowed(done), Breaks(c)) + When(u != ServerAuth && u != ClientAuth, ExtKeyUsageNotAllowed(u))
  {
    NotAllowedAppend(done, u);
    KeepAppend(NotAllowed(done), ExtKeyUsageNotAllowed(u), Breaks(c));
  }

  lemma NotAllowedAppend(done: seq<ExtKeyUsage>, u: ExtKeyUsage)
    ensures NotAllowed(done + [u]) == NotAllowed(done) + [ExtKeyUsageNotAllowed(u)]
  {
    assert Front(done + [u]) == done;
  }

  method CheckUnknown(cert: Cert) returns (reasons: seq<Reason>)
    ensures reasons == Keep(NotKnown(cert.unknownExtKeyUsage), Breaks(cert))
  {
    var oids := cert.unknownExtKeyUsage;
    reasons := [];
    for i := 0 to |oids|
      invariant reasons == Keep(NotKnown(oids[..i]), Breaks(cert))
    {
      assert oids[..i + 1] == oids[..i] + [oids[i]];
      KeepNextOid(cert, oids[..i], oids[i]);
      reasons := reasons + [ExtKeyUsageUnknown(oids[i])];
    }
    assert oids[..|oids|] == oids;
  }

  lemma KeepNextOid(c: Cert, done: seq<nat>, o: nat)
    requires o in c.unknownExtKeyUsage
    ensures Keep(NotKnown(done + [o]), Breaks(c)) == Keep(NotKnown(done), Breaks(c)) + [ExtKeyUsageUnknown(o)]
  {
    NotKnownAppend(done, o);
    KeepAppend(NotKnown(done), ExtKeyUsageUnknown(o), Breaks(c));
  }

  lemma NotKnownAppend(done: seq<nat>, o: nat)
    ensures NotKnown(done + [o]) == NotKnown(done) + [ExtKeyUsageUnknown(o)]
  {
    assert Front(done + [o]) == done;
  }

  // ---------- What is minted is accepted ----------

  lemma TruncateBounds(t: int)
    ensures t - SECOND < Truncate(t) <= t
    ensures Truncate(t - SVID_BACKDATE) == Truncate(t) - SVID_BACKDATE
  {
  }

  lemma TruncateMonotone(a: int, b: int)
    requires a <= b
    ensures Truncate(a) <= Truncate(b)
  {
  }

  /**
    Whatever the parameters, the clock and the authority, a minted certificate breaks
    no rule. In particular its validity is not empty although both ends lose their
    fractions. It is for the given ID and key, serves both sides of a connection, is
    signed by the authority, starts with the second of ten seconds ago, and ends with
    the second of the earlier of the TTL and the authority's own end, never later.
  */
  lemma MintedIsSvid(authority: Cert, key: Key, params: Params, now: int, fp: Fingerprint)
    requires MintX509SVID(authority, key, params, now, fp).Success?
    ensures var c := MintX509SVID(authority, key, params, now, fp).value;
            && (forall r :: !Violates(c, r))
            && ExtractSpiffeId(c.uris) == params.id && Some(c.publicKey) == params.publicKey
            && c.rawSubject == SvidSubject(params.id.value) && c.subjectKeyId == SubjectKeyId(c.publicKey)
            && c.fp == fp && !MaySign(c)
            && c.keyUsage == {DigitalSignature} && ServerAuth in c.extKeyUsage && ClientAuth in c.extKeyUsage
            && c.signedBy == key && c.rawIssuer == authority.rawSubject
            && c.notBefore == Truncate(now - SVID_BACKDATE)
            && c.notBefore < c.notAfter <= authority.notAfter && c.notAfter <= now + params.ttl
            && (c.notAfter == Truncate(authority.notAfter) || c.notAfter == Truncate(now + params.ttl))
  {
    var end := if now + params.ttl > authority.notAfter then authority.notAfter else now + params.ttl;
    TruncateBounds(now);
    TruncateBounds(end);
    TruncateMonotone(now, end);
  }

  /** Inspection links a minted certificate to its authority, if that holds the signing key and may sign. */
  lemma MintedHasParent(authority: Cert, key: Key, params: Params, now: int, fp: Fingerprint)
    requires MintX509SVID(authority, key, params, now, fp).Success?
    requires authority.publicKey == key && MaySign(authority)
    ensures var c := MintX509SVID(authority, key, params, now, fp).value;
            IsParent(c, authority) && CheckSignatureFrom(c, authority) && c.authorityKeyId == authority.subjectKeyId
  {
  }

  /** Minting succeeds exactly for complete parameters under a live authority; otherwise it reports the first defect. */
  lemma MintsIff(authority: Cert, key: Key, params: Params, now: int, fp: Fingerprint)
    ensures var r := MintX509SVID(authority, key, params, now, fp);
            && (r.Success? <==> IsComplete(params) && now < authority.notAfter)
            && (r == Failure(IdUnset) <==> params.id == None)
            && (r == Failure(PublicKeyUnset) <==> params.id != None && params.publicKey == None)
            && (r == Failure(TtlNotPositive) <==> params.id != None && params.publicKey != None && params.ttl <= 0)
            && (r == Failure(AuthorityExpired) <==> IsComplete(params) && now >= authority.notAfter)
  {
  }

  predicate IsComplete(params: Params) {
    params.id.Some? && params.publicKey.Some? && params.ttl > 0
  }

  predicate HasNul(s: string) {
    exists i :: 0 <= i < |s| && s[i] as nat == 0
  }

  /** Different IDs have different subjects, as trust domain names hold no NUL. */
  lemma SubjectsDiffer(a: SpiffeId, b: SpiffeId)
    requires !HasNul(a.trustDomain) && !HasNul(b.trustDomain) && SvidSubject(a) == SvidSubject(b)
    ensures a == b
  {
    var s, n := SvidSubject(a), |a.trustDomain|;
    SubjectAt(a);
    SubjectAt(b);
    NoLonger(a, b);
    NoLonger(b, a);
    forall i | 0 <= i < n ensures a.trustDomain[i] == b.trustDomain[i] {
      assert s[i + 1] == a.trustDomain[i] as nat;
    }
    forall i | 0 <= i < |a.path| ensures a.path[i] == b.path[i] {
      assert s[n + 2 + i] == a.path[i] as nat;
    }
  }

  lemma NoLonger(a: SpiffeId, b: SpiffeId)
    requires SvidSubject(a) == SvidSubject(b)
    ensures |b.trustDomain| <= |a.trustDomain| || HasNul(b.trustDomain)
  {
    var s, n := SvidSubject(b), |a.trustDomain|;
    SubjectAt(a);
    SubjectAt(b);
    if n < |b.trustDomain| {
      assert s[n + 1] == b.trustDomain[n] as nat;
    }
  }

  lemma SubjectAt(id: SpiffeId)
    ensures var s, n := SvidSubject(id), |id.trustDomain|;
            && |s| == n + 2 + |id.path| && s[n + 1] == 0
            && (forall i :: 0 <= i < n ==> s[i + 1] == id.trustDomain[i] as nat)
            && (forall i :: 0 <= i < |id.path| ==> s[n + 2 + i] == id.path[i] as nat)
  {
  }

  /** Different keys have different identifiers. */
  lemma KeyIdentifiersDiffer(a: Key, b: Key)
    ensures SubjectKeyId(a) == SubjectKeyId(b) <==> a.id == b.id
  {
    assert SubjectKeyId(a) == SubjectKeyId(b) ==> SubjectKeyId(a)[0] == SubjectKeyId(b)[0];
  }
}
