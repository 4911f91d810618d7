/** The stream to a workload within a run of the trust domains, whose authorities rotate under it. */
module Streams {
  import opened Wrappers
  import opened Seqs
  import opened Certs
  import opened TrustDomains
  import opened Interleavings
  import opened Workload
  import X = X509Authority

  /** What a mint of the domain signs with in this state. */
  function Signer(w: World, td: string): Option<X509Info> {
    if td in w.domains && w.domains[td].x509 != [] then Some(Last(w.domains[td].x509)) else None
  }

  /** Round k finds the authority that the domain has at step steps[k] of the run. */
  ghost predicate ServedBy(rounds: seq<Round>, trace: seq<World>, steps: seq<nat>, td: string) {
    |steps| == |rounds| && forall k :: 0 <= k < |rounds| ==> IsServedAt(rounds[k], trace, steps[k], td)
  }

  ghost predicate IsServedAt(r: Round, trace: seq<World>, step: nat, td: string) {
    step < |trace| && r.issuer == Signer(trace[step], td)
  }

  /** A mint without interference signs with that authority, and a round of the stream is such a mint. */
  lemma SignerMints(w: World, td: string, config: WorkloadConfig, r: Round)
    requires td in w.domains && r.issuer == Signer(w, td)
    ensures Signer(w, td) == None <==> w.domains[td].x509 == []
    ensures MintIn(config, r) == Failure(NoAuthority) <==> w.domains[td].x509 == []
    ensures var taken, params := w.domains[td].x509, X.Params(config.id, r.key, config.svidTTL);
            taken != [] ==>
              var m := SignX509(td, taken, params, r.at, r.fp);
              && (m.Issued? <==> MintIn(config, r).Success?)
              && (m.Issued? ==> m.result.issuer == Signer(w, td).value && MintIn(config, r) == Success(m.result.cert))
  {
  }

  /**
    Every certificate of the stream verifies under an authority in the bundle of its
    domain, from the round that minted it on and however often the domain rotates.
  */
  lemma SentVerifiesLater(config: WorkloadConfig, rounds: seq<Round>, sent: seq<Cert>, ended: Ended,
                          trace: seq<World>, events: seq<Event>, steps: seq<nat>, td: string, k: nat, later: nat)
    requires IsOutcome(config, rounds, sent, ended) && k < |sent|
    requires IsRun(trace, events) && Inv(trace[0]) && ServedBy(rounds, trace, steps, td)
    requires steps[k] <= later < |trace|
    ensures rounds[k].issuer.Some? && td in trace[later].domains
    ensures var issuer := rounds[k].issuer.value.cert;
            && issuer in X509Bundle(trace[later].domains[td].x509)
            && CheckSignatureFrom(sent[k], issuer) && sent[k].rawIssuer == issuer.rawSubject
            && sent[k].notAfter <= issuer.notAfter && forall r :: !X.Violates(sent[k], r)
  {
    assert SendsIn(config, rounds[k], sent[k]) && IsServedAt(rounds[k], trace, steps[k], td);
    SentAreSvids(config, rounds, sent, ended, k);
    MintedIsSigned(config, rounds[k], sent[k]);
    SignerStays(trace, events, td, steps[k], later);
  }

  lemma MintedIsSigned(config: WorkloadConfig, r: Round, cert: Cert)
    requires SendsIn(config, r, cert)
    ensures cert.rawIssuer == r.issuer.value.cert.rawSubject
  {
  }

  lemma SignerStays(trace: seq<World>, events: seq<Event>, td: string, step: nat, later: nat)
    requires IsRun(trace, events) && Inv(trace[0]) && step <= later < |trace| && Signer(trace[step], td).Some?
    ensures td in trace[later].domains
    ensures var info := Signer(trace[step], td).value;
            && info.cert in X509Bundle(trace[later].domains[td].x509)
            && MaySign(info.cert) && info.cert.publicKey == info.key
  {
    RunSlice(trace, events, 0, step);
    RunKeepsInv(trace[0..step + 1], events[0..step]);
    RunSlice(trace, events, step, later);
    AuthoritiesOnlyGrow(trace[step..later + 1], events[step..later]);
    var before, after := trace[step].domains[td].x509, trace[later].domains[td].x509;
    assert IsRoot(before[|before| - 1], trace[step].serial);
    assert after[|before| - 1] == Last(before);
    X509BundleHolds(after, |before| - 1);
  }

  /**
    The stream goes on exactly as long as the authority that the domain has at each
    round has not expired, and no key, send or wait fails.
  */
  lemma GoesOnIff(config: WorkloadConfig, rounds: seq<Round>, sent: seq<Cert>, ended: Ended,
                  trace: seq<World>, steps: seq<nat>, td: string)
    requires IsOutcome(config, rounds, sent, ended) && ServedBy(rounds, trace, steps, td)
    requires config.id.Some? && config.svidTTL > 0
    requires forall k :: 0 <= k < |rounds| ==> rounds[k].key.Some? && rounds[k].sends && rounds[k].wait == Elapsed
    ensures ended == Running <==> forall k :: 0 <= k < |rounds| ==> IsLive(trace, steps[k], td, rounds[k].at)
  {
    RunningIff(config, rounds, sent, ended);
    forall k | 0 <= k < |rounds| ensures Goes(config, rounds[k]) <==> IsLive(trace, steps[k], td, rounds[k].at) {
      assert IsServedAt(rounds[k], trace, steps[k], td);
    }
  }

  ghost predicate IsLive(trace: seq<World>, step: nat, td: string, at: int) {
    step < |trace| && Signer(trace[step], td).Some? && at < Signer(trace[step], td).value.cert.notAfter
  }
}
