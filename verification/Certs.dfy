/**
  Certificates as far as chains, trees and the SVID rules look at them. DER bytes,
  hashes and signatures are symbolic: the fingerprint stands for the SHA-256 of the
  bytes, a key for its pair, and a signature for the key pair that made it. Times are
  nanoseconds since the Unix epoch.
*/
module Certs {
  import opened Wrappers

  /** Times count nanoseconds. */
  const SECOND: int := 1_000_000_000

  /** Without its fraction of a second. */
  function Truncate(t: int): int {
    t / SECOND * SECOND
  }

  type Fingerprint = nat
  type Bytes = seq<nat>

  /** A key pair, by an identity and what kind of key it is. */
  datatype KeyKind = Rsa(sizeBytes: nat) | Ecdsa(bits: nat) | OtherKind

  datatype Key = Key(id: nat, kind: KeyKind)

  datatype SpiffeId = SpiffeId(trustDomain: string, path: string)

  datatype Uri = SpiffeUri(id: SpiffeId) | OtherUri(text: string)

  datatype KeyUsage = DigitalSignature | CertSign | CRLSign | OtherUsage(bit: nat)

  datatype ExtKeyUsage = ServerAuth | ClientAuth | OtherExtKeyUsage(code: nat)

  datatype Cert = Cert(
    fp: Fingerprint,
    rawSubject: Bytes,
    rawIssuer: Bytes,
    authorityKeyId: Bytes,
    subjectKeyId: Bytes,
    uris: seq<Uri>,
    isCA: bool,
    basicConstraintsValid: bool,
    keyUsage: set<KeyUsage>,
    extKeyUsage: seq<ExtKeyUsage>,
    unknownExtKeyUsage: seq<nat>,
    notBefore: int,
    notAfter: int,
    publicKey: Key,
    signedBy: Key)

  /** A certificate may sign others if it is a CA whose key usage, when given, allows it. */
  predicate MaySign(c: Cert) {
    c.basicConstraintsValid && c.isCA && (c.keyUsage == {} || CertSign in c.keyUsage)
  }

  predicate CheckSignatureFrom(cert: Cert, parent: Cert) {
    MaySign(parent) && cert.signedBy == parent.publicKey
  }

  predicate IsSelfSigned(c: Cert) {
    c.rawIssuer == c.rawSubject && CheckSignatureFrom(c, c)
  }

  /**
    Key identifiers decide when both are present (RFC 5280 sections 4.2.1.1 and
    4.2.1.2), without any signature check; otherwise names and the signature do.
  */
  predicate IsParent(cert: Cert, parent: Cert) {
    if |cert.authorityKeyId| > 0 && |parent.subjectKeyId| > 0 then
      cert.authorityKeyId == parent.subjectKeyId && cert.rawIssuer == parent.rawSubject
    else
      cert.rawIssuer == parent.rawSubject && CheckSignatureFrom(cert, parent)
  }

  /**
    The issuer's name is the subject of the other, and the key identifiers agree if
    both are given; if one is missing the other is a CA that may sign and made the signature.
  */
  ghost predicate Matches(c: Cert, issuer: Cert) {
    && c.rawIssuer == issuer.rawSubject
    && (c.authorityKeyId != [] && issuer.subjectKeyId != [] ==> c.authorityKeyId == issuer.subjectKeyId)
    && (c.authorityKeyId == [] || issuer.subjectKeyId == [] ==>
          && issuer.isCA && issuer.basicConstraintsValid && c.signedBy == issuer.publicKey
          && (issuer.keyUsage != {} ==> CertSign in issuer.keyUsage))
  }

  lemma ParentIffMatches(c: Cert, issuer: Cert)
    ensures IsParent(c, issuer) <==> Matches(c, issuer)
  {
  }

  /** The first SPIFFE ID among the URI names, if any. */
  function ExtractSpiffeId(uris: seq<Uri>): (r: Option<SpiffeId>)
    ensures r.None? ==> forall i :: 0 <= i < |uris| ==> !uris[i].SpiffeUri?
    ensures r.Some? ==> exists i :: IsFirstSpiffeId(uris, i, r.value)
  {
    if uris == [] then None
    else if uris[0].SpiffeUri? then
      assert IsFirstSpiffeId(uris, 0, uris[0].id);
      Some(uris[0].id)
    else
      var r := ExtractSpiffeId(uris[1..]);
      assert forall i :: 1 <= i < |uris| ==> uris[i] == uris[1..][i - 1];
      assert forall i :: IsFirstSpiffeId(uris[1..], i, r.GetOr(SpiffeId("", ""))) ==>
                           IsFirstSpiffeId(uris, i + 1, r.GetOr(SpiffeId("", "")));
      r
  }

  ghost predicate IsFirstSpiffeId(uris: seq<Uri>, i: int, id: SpiffeId) {
    0 <= i < |uris| && uris[i] == SpiffeUri(id) && forall j :: 0 <= j < i ==> !uris[j].SpiffeUri?
  }
}
