/** The stream of X.509-SVIDs to a workload: mint, send, wait for the rotation time, and again. */
module Workload {
  import opened Wrappers
  import opened Seqs
  import opened Certs
  import opened TrustDomains
  import X = X509Authority

  datatype WorkloadConfig = WorkloadConfig(id: Option<SpiffeId>, svidTTL: int, rotateAt: int)

  /** How a wait ends: its time is over, the client cancels, or the context fails in another way. */
  datatype Wait = Elapsed | ClientCancelled | ContextDone

  /**
    What one round of the loop meets: the instant, the hash of the certificate, the
    fresh key if one could be made, the authority that signs then if there is one,
    whether sending succeeds, and the wait after it.
  */
  datatype Round = Round(at: int, fp: Fingerprint, key: Option<Key>, issuer: Option<X509Info>, sends: bool, wait: Wait)

  datatype MintError = NoAuthority | Rejected(error: X.Error)

  /** Cancelled is the only end that is not an error; a Running stream has used up the rounds given. */
  datatype Ended = Running | Cancelled | ContextFailed | SendFailed | NoKey | MintFailed(error: MintError)

  function MintIn(config: WorkloadConfig, r: Round): Result<Cert, MintError> {
    if r.issuer.None? then Failure(NoAuthority)
    else
      var params := X.Params(config.id, r.key, config.svidTTL);
      match X.MintX509SVID(r.issuer.value.cert, r.issuer.value.key, params, r.at, r.fp)
      case Success(cert) => Success(cert)
      case Failure(e) => Failure(Rejected(e))
  }

  /** What a round sends, or why it ends the stream without sending. */
  ghost predicate SendsIn(config: WorkloadConfig, r: Round, cert: Cert) {
    r.key.Some? && r.sends && MintIn(config, r) == Success(cert)
  }

  ghost predicate StopsIn(config: WorkloadConfig, r: Round, ended: Ended) {
    match ended
    case NoKey => r.key.None?
    case MintFailed(e) => r.key.Some? && MintIn(config, r) == Failure(e)
    case SendFailed => r.key.Some? && MintIn(config, r).Success? && !r.sends
    case _ => false
  }

  /** Why a stream that has sent in the first n rounds goes no further, if it is because of the wait. */
  ghost predicate EndsAfter(rounds: seq<Round>, n: nat, ended: Ended)
    requires n <= |rounds|
  {
    match ended
    case Running => n == |rounds| && (n > 0 ==> rounds[n - 1].wait == Elapsed)
    case Cancelled => n > 0 && rounds[n - 1].wait == ClientCancelled
    case ContextFailed => n > 0 && rounds[n - 1].wait == ContextDone
    case _ => false
  }

  ghost predicate AllElapsed(rounds: seq<Round>, n: int)
    requires n <= |rounds|
  {
    forall k :: 0 <= k < n ==> rounds[k].wait == Elapsed
  }

  /** One certificate per round, each after the wait of the round before, up to the round that ended the stream. */
  ghost predicate IsOutcome(config: WorkloadConfig, rounds: seq<Round>, sent: seq<Cert>, ended: Ended) {
    && |sent| <= |rounds| && (forall k :: 0 <= k < |sent| ==> SendsIn(config, rounds[k], sent[k]))
    && AllElapsed(rounds, |sent| - 1)
    && (EndsAfter(rounds, |sent|, ended) ||
        (|sent| < |rounds| && AllElapsed(rounds, |sent|) && StopsIn(config, rounds[|sent|], ended)))
  }

  method FetchX509SVID(config: WorkloadConfig, rounds: seq<Round>) returns (sent: seq<Cert>, ended: Ended)
    ensures IsOutcome(config, rounds, sent, ended)
  {
    sent := [];
    for k := 0 to |rounds|
      invariant |sent| == k && AllElapsed(rounds, k)
      invariant forall j :: 0 <= j < k ==> SendsIn(config, rounds[j], sent[j])
    {
      if rounds[k].key.None? {
        return sent, NoKey;
      }
      var minted := MintIn(config, rounds[k]);
      if minted.Failure? {
        return sent, MintFailed(minted.error);
      }
      if !rounds[k].sends {
        return sent, SendFailed;
      }
      sent := sent + [minted.value];
      match rounds[k].wait {
        case Elapsed =>
        case ClientCancelled => return sent, Cancelled;
        case ContextDone => return sent, ContextFailed;
      }
    }
    return sent, Running;
  }

  // ---------- Any surroundings ----------

  /** The round keeps the stream going: its authority has not expired, and neither key, sending nor waiting fails. */
  predicate Goes(config: WorkloadConfig, r: Round) {
    && r.key.Some? && r.issuer.Some? && config.id.Some? && config.svidTTL > 0
    && r.at < r.issuer.value.cert.notAfter && r.sends && r.wait == Elapsed
  }

  /** The outcome is determined: the rounds decide how many certificates are sent, which, and why it ends. */
  lemma OutcomeUnique(config: WorkloadConfig, rounds: seq<Round>, a: seq<Cert>, x: Ended, b: seq<Cert>, y: Ended)
    requires IsOutcome(config, rounds, a, x) && IsOutcome(config, rounds, b, y)
    ensures a == b && x == y
  {
    assert forall k :: 0 <= k < |a| ==> SendsIn(config, rounds[k], a[k]);
    assert forall k :: 0 <= k < |b| ==> SendsIn(config, rounds[k], b[k]);
    forall k | 0 <= k < |a| && k < |b| ensures a[k] == b[k] {
      assert SendsIn(config, rounds[k], a[k]) && SendsIn(config, rounds[k], b[k]);
    }
  }

  /** The stream goes on for as long as each round finds an authority that has not expired, be it always another one. */
  lemma RunningIff(config: WorkloadConfig, rounds: seq<Round>, sent: seq<Cert>, ended: Ended)
    requires IsOutcome(config, rounds, sent, ended)
    ensures ended == Running <==> forall k :: 0 <= k < |rounds| ==> Goes(config, rounds[k])
    ensures ended == Running ==> |sent| == |rounds|
  {
    if ended == Running {
      forall k | 0 <= k < |rounds| ensures Goes(config, rounds[k]) {
        assert SendsIn(config, rounds[k], sent[k]);
      }
    } else if |sent| < |rounds| {
      assert Goes(config, rounds[|sent|]) ==> MintIn(config, rounds[|sent|]).Success?;
    }
  }

  /**
    Whatever happens, every certificate sent breaks no rule, is for the workload and
    its fresh key, and does not outlast the authority of its round.
  */
  lemma SentAreSvids(config: WorkloadConfig, rounds: seq<Round>, sent: seq<Cert>, ended: Ended, k: nat)
    requires IsOutcome(config, rounds, sent, ended) && k < |sent|
    ensures (forall r :: !X.Violates(sent[k], r)) && ExtractSpiffeId(sent[k].uris) == config.id
    ensures Some(sent[k].publicKey) == rounds[k].key && sent[k].signedBy == rounds[k].issuer.value.key
    ensures sent[k].notAfter <= rounds[k].issuer.value.cert.notAfter
    ensures rounds[k].at < rounds[k].issuer.value.cert.notAfter
  {
    var r := rounds[k];
    assert SendsIn(config, r, sent[k]);
    X.MintedIsSvid(r.issuer.value.cert, r.issuer.value.key, X.Params(config.id, r.key, config.svidTTL), r.at, r.fp);
  }

  // ---------- One authority, exact waits ----------

  /** A workload, the authority that stays, and the first instant. */
  datatype Stream = Stream(config: WorkloadConfig, issuer: X509Info, start: int) {

    function Instant(k: nat): int {
      if k == 0 then start else Instant(k - 1) + config.rotateAt
    }

    /** The number of instants before the authority expires. */
    function Sends(): nat
      requires config.rotateAt > 0
    {
      if issuer.cert.notAfter <= start then 0 else (issuer.cert.notAfter - start - 1) / config.rotateAt + 1
    }
  }

  /** Nothing fails but perhaps the last wait. */
  ghost predicate Steady(s: Stream, rounds: seq<Round>) {
    && s.config.rotateAt > 0 && s.config.svidTTL > 0 && s.config.id.Some?
    && AllElapsed(rounds, |rounds| - 1)
    && forall k :: 0 <= k < |rounds| ==> IsSteady(s, rounds[k], k)
  }

  ghost predicate IsSteady(s: Stream, r: Round, k: nat) {
    r.at == s.Instant(k) && r.key.Some? && r.issuer == Some(s.issuer) && r.sends
  }

  lemma {:induction false} InstantAt(s: Stream, k: nat)
    ensures s.Instant(k) == s.start + k * s.config.rotateAt
  {
    if k > 0 {
      InstantAt(s, k - 1);
      assert k * s.config.rotateAt == (k - 1) * s.config.rotateAt + s.config.rotateAt;
    }
  }

  lemma InTimeIff(s: Stream, k: nat)
    requires s.config.rotateAt > 0
    ensures k < s.Sends() <==> s.Instant(k) < s.issuer.cert.notAfter
  {
    var d, r := s.issuer.cert.notAfter - s.start, s.config.rotateAt;
    InstantAt(s, k);
    MulMonotone(0, k, r);
    if d > 0 {
      var q := (d - 1) / r;
      assert d - 1 == q * r + (d - 1) % r;
      if k <= q {
        MulMonotone(k, q, r);
      } else {
        MulMonotone(q + 1, k, r);
        assert (q + 1) * r == q * r + r;
      }
    }
  }

  lemma MulMonotone(a: nat, b: nat, r: nat)
    requires a <= b
    ensures a * r <= b * r
  {
    assert (b - a) * r >= 0;
    assert b * r == a * r + (b - a) * r;
  }

  /**
    With an authority that stays the same, the stream of a client that keeps waiting
    ends because the authority has expired, after exactly the sends that start before
    that. If the rounds end earlier, each has sent and the last wait says how it ended.
  */
  lemma StreamLength(s: Stream, rounds: seq<Round>, sent: seq<Cert>, ended: Ended)
    requires Steady(s, rounds) && IsOutcome(s.config, rounds, sent, ended)
    ensures s.Sends() < |rounds| ==> |sent| == s.Sends() && ended == MintFailed(Rejected(X.AuthorityExpired))
    ensures s.Sends() >= |rounds| ==> |sent| == |rounds| && EndsAfter(rounds, |rounds|, ended)
  {
    var n := |sent|;
    InTimeIff(s, n);
    if n > 0 {
      InTimeIff(s, n - 1);
      assert SendsIn(s.config, rounds[n - 1], sent[n - 1]) && IsSteady(s, rounds[n - 1], n - 1);
    }
    if n < |rounds| {
      assert IsSteady(s, rounds[n], n);
    }
  }

  // ---------- Coverage ----------

  /** At instant t the workload holds a certificate, sent by then, that is valid. */
  ghost predicate Covered(rounds: seq<Round>, sent: seq<Cert>, t: int)
    requires |sent| <= |rounds|
  {
    exists k: nat :: k < |sent| && Holds(rounds, sent, k, t)
  }

  ghost predicate Holds(rounds: seq<Round>, sent: seq<Cert>, k: nat, t: int)
    requires k < |sent| <= |rounds|
  {
    rounds[k].at <= t && sent[k].notBefore <= t <= sent[k].notAfter
  }

  /** Sending at the given instant, a certificate is valid from before and until this, less its fraction of a second. */
  function EndOf(config: WorkloadConfig, r: Round): int {
    var end := r.at + config.svidTTL;
    if r.issuer.Some? && end > r.issuer.value.cert.notAfter then r.issuer.value.cert.notAfter else end
  }

  lemma SentTimes(config: WorkloadConfig, r: Round, cert: Cert)
    requires SendsIn(config, r, cert)
    ensures cert.notBefore <= r.at && cert.notAfter == Truncate(EndOf(config, r))
  {
  }

  /** Each certificate but the last lasts a second beyond the next send. */
  ghost predicate Overlaps(config: WorkloadConfig, rounds: seq<Round>, n: nat)
    requires n <= |rounds|
  {
    forall k :: 0 <= k < n - 1 ==> rounds[k].at <= rounds[k + 1].at <= EndOf(config, rounds[k]) - SECOND
  }

  /**
    Whichever authority each round finds and however long it waits: if the ends
    overlap the next sends by a second, everything from the first send to the end of
    the last certificate is covered.
  */
  lemma OverlapCovers(config: WorkloadConfig, rounds: seq<Round>, sent: seq<Cert>, ended: Ended, t: int)
    requires IsOutcome(config, rounds, sent, ended) && sent != [] && Overlaps(config, rounds, |sent|)
    requires rounds[0].at <= t <= Last(sent).notAfter
    ensures Covered(rounds, sent, t)
  {
    var k := 0;
    while k + 1 < |sent| && rounds[k + 1].at <= t
      invariant k < |sent| && rounds[k].at <= t
    {
      k := k + 1;
    }
    assert SendsIn(config, rounds[k], sent[k]);
    SentTimes(config, rounds[k], sent[k]);
    assert Holds(rounds, sent, k, t);
  }

  // ---------- Coverage by one authority ----------

  /** The outcome for a client that is served and waits until the authority has expired. */
  ghost predicate IsFullStream(s: Stream, rounds: seq<Round>, sent: seq<Cert>, ended: Ended) {
    && Steady(s, rounds) && IsOutcome(s.config, rounds, sent, ended) && s.start < s.issuer.cert.notAfter
    && ended == MintFailed(Rejected(X.AuthorityExpired))
  }

  ghost predicate FullyCovered(s: Stream, rounds: seq<Round>, sent: seq<Cert>)
    requires |sent| <= |rounds|
  {
    forall t :: s.start <= t <= s.issuer.cert.notAfter ==> Covered(rounds, sent, t)
  }

  /** The certificate lasts until the next send, or to the end of the authority. */
  ghost predicate Lasts(s: Stream, sent: seq<Cert>, k: nat)
    requires k < |sent|
  {
    sent[k].notAfter >= if k + 1 < |sent| then s.Instant(k + 1) - 1 else s.issuer.cert.notAfter
  }

  lemma {:induction false} LaterInstant(s: Stream, i: nat, j: nat)
    requires s.config.rotateAt > 0 && i <= j
    ensures s.Instant(i) <= s.Instant(j) && (i < j ==> s.Instant(i + 1) <= s.Instant(j))
    decreases j - i
  {
    if i < j {
      LaterInstant(s, i, j - 1);
    }
  }

  /** The last send at or before t. */
  lemma SendBefore(s: Stream, n: nat, t: int) returns (k: nat)
    requires s.config.rotateAt > 0 && n == s.Sends()
    requires s.start <= t <= s.issuer.cert.notAfter && s.start < s.issuer.cert.notAfter
    ensures k < n && s.Instant(k) <= t
    ensures k + 1 < n ==> t < s.Instant(k + 1)
  {
    InTimeIff(s, 0);
    k := 0;
    while k + 1 < n && s.Instant(k + 1) <= t
      invariant k < n && s.Instant(k) <= t
    {
      k := k + 1;
    }
  }

  /** Of a stream that ends with its authority: when each certificate is sent and how long it is valid. */
  lemma FullStreamAt(s: Stream, rounds: seq<Round>, sent: seq<Cert>, ended: Ended, k: nat)
    requires IsFullStream(s, rounds, sent, ended)
    ensures |sent| == s.Sends() > 0
    ensures k < |sent| ==> rounds[k].at == s.Instant(k) && s.Instant(k) < s.issuer.cert.notAfter
    ensures k < |sent| ==> sent[k].notBefore <= s.Instant(k) && sent[k].notAfter == Truncate(EndOf(s.config, rounds[k]))
    ensures k < |sent| ==> rounds[k].issuer == Some(s.issuer)
  {
    StreamLength(s, rounds, sent, ended);
    InTimeIff(s, 0);
    if k < |sent| {
      InTimeIff(s, k);
      assert SendsIn(s.config, rounds[k], sent[k]) && IsSteady(s, rounds[k], k);
      SentTimes(s.config, rounds[k], sent[k]);
    }
  }

  /**
    Every instant from the first send to the end of the authority is covered if and
    only if each certificate lasts until the next one is sent, and the last to the end.
  */
  lemma CoverageIff(s: Stream, rounds: seq<Round>, sent: seq<Cert>, ended: Ended)
    requires IsFullStream(s, rounds, sent, ended)
    ensures FullyCovered(s, rounds, sent) <==> forall k :: 0 <= k < |sent| ==> Lasts(s, sent, k)
  {
    if forall k :: 0 <= k < |sent| ==> Lasts(s, sent, k) {
      forall t | s.start <= t <= s.issuer.cert.notAfter ensures Covered(rounds, sent, t) {
        FullStreamAt(s, rounds, sent, ended, 0);
        var k := SendBefore(s, |sent|, t);
        FullStreamAt(s, rounds, sent, ended, k);
        assert Lasts(s, sent, k) && Holds(rounds, sent, k, t);
      }
    } else {
      var k: nat :| k < |sent| && !Lasts(s, sent, k);
      var t := GapAfter(s, rounds, sent, ended, k);
      assert !Covered(rounds, sent, t);
    }
  }

  /** If a certificate does not last, the instant after its end, or that of its own send, is not covered. */
  lemma GapAfter(s: Stream, rounds: seq<Round>, sent: seq<Cert>, ended: Ended, k: nat) returns (t: int)
    requires IsFullStream(s, rounds, sent, ended) && k < |sent| && !Lasts(s, sent, k)
    ensures t == if sent[k].notAfter < s.Instant(k) then s.Instant(k) else sent[k].notAfter + 1
    ensures s.start <= t <= s.issuer.cert.notAfter && !Covered(rounds, sent, t)
  {
    t := if sent[k].notAfter < s.Instant(k) then s.Instant(k) else sent[k].notAfter + 1;
    FullStreamAt(s, rounds, sent, ended, k);
    FullStreamAt(s, rounds, sent, ended, k + 1);
    LaterInstant(s, 0, k);
    forall j: nat | j < |sent| ensures !Holds(rounds, sent, j, t) {
      FullStreamAt(s, rounds, sent, ended, j);
      if j < k {
        LaterInstant(s, j, k);
        X.TruncateMonotone(EndOf(s.config, rounds[j]), EndOf(s.config, rounds[k]));
      } else if j > k {
        LaterInstant(s, k, j);
      }
    }
  }

  predicate Whole(t: int) {
    t % SECOND == 0
  }

  /** The durations and the end of the authority are whole seconds; the first instant need not be. */
  ghost predicate WholeDurations(s: Stream) {
    Whole(s.config.rotateAt) && Whole(s.config.svidTTL) && Whole(s.issuer.cert.notAfter)
  }

  lemma {:induction false} InstantFraction(s: Stream, k: nat)
    requires Whole(s.config.rotateAt)
    ensures s.Instant(k) % SECOND == s.start % SECOND
  {
    if k > 0 {
      InstantFraction(s, k - 1);
    }
  }

  lemma WholeEnd(s: Stream, rounds: seq<Round>, sent: seq<Cert>, ended: Ended, k: nat)
    requires IsFullStream(s, rounds, sent, ended) && WholeDurations(s) && k < |sent|
    ensures var end := s.Instant(k) - s.start % SECOND + s.config.svidTTL;
            sent[k].notAfter == if end > s.issuer.cert.notAfter then s.issuer.cert.notAfter else end
  {
    FullStreamAt(s, rounds, sent, ended, k);
    InstantFraction(s, k);
    TruncateEnd(s.Instant(k), s.config.svidTTL, s.issuer.cert.notAfter);
  }

  lemma TruncateEnd(instant: int, ttl: int, cap: int)
    requires Whole(ttl) && Whole(cap)
    ensures instant + ttl > cap ==> Truncate(cap) == cap <= instant - instant % SECOND + ttl
    ensures instant + ttl <= cap ==> Truncate(instant + ttl) == instant - instant % SECOND + ttl <= cap
  {
  }

  /**
    With whole durations and a first instant a fraction f past a second, everything is
    covered if and only if RotateAt + f is at most the TTL and a nanosecond, or the
    first certificate already lasts to the end of the authority.
  */
  lemma WholeDurationsCoverageIff(s: Stream, rounds: seq<Round>, sent: seq<Cert>, ended: Ended)
    requires IsFullStream(s, rounds, sent, ended) && WholeDurations(s)
    ensures var f := s.start % SECOND;
            FullyCovered(s, rounds, sent) <==>
            s.config.rotateAt + f <= s.config.svidTTL + 1 || s.start - f + s.config.svidTTL >= s.issuer.cert.notAfter
  {
    var f := s.start % SECOND;
    CoverageIff(s, rounds, sent, ended);
    FullStreamAt(s, rounds, sent, ended, 0);
    WholeEnd(s, rounds, sent, ended, 0);
    if s.config.rotateAt + f <= s.config.svidTTL + 1 || s.start - f + s.config.svidTTL >= s.issuer.cert.notAfter {
      forall k | 0 <= k < |sent| ensures Lasts(s, sent, k) {
        WholeLasts(s, rounds, sent, ended, k);
      }
    } else {
      assert s.Instant(1) == s.start + s.config.rotateAt;
      assert !Lasts(s, sent, 0);
    }
  }

  lemma WholeLasts(s: Stream, rounds: seq<Round>, sent: seq<Cert>, ended: Ended, k: nat)
    requires IsFullStream(s, rounds, sent, ended) && WholeDurations(s) && k < |sent|
    requires var f := s.start % SECOND;
             s.config.rotateAt + f <= s.config.svidTTL + 1 || s.start - f + s.config.svidTTL >= s.issuer.cert.notAfter
    ensures Lasts(s, sent, k)
  {
    WholeEnd(s, rounds, sent, ended, k);
    FullStreamAt(s, rounds, sent, ended, k);
    FullStreamAt(s, rounds, sent, ended, k + 1);
    LaterInstant(s, 0, k);
    InstantFraction(s, k);
    InTimeIff(s, k + 1);
  }

  /** If the first instant is whole: RotateAt is at most the TTL, or the first certificate already lasts. */
  lemma WholeCoverageIff(s: Stream, rounds: seq<Round>, sent: seq<Cert>, ended: Ended)
    requires IsFullStream(s, rounds, sent, ended) && WholeDurations(s) && Whole(s.start)
    ensures FullyCovered(s, rounds, sent) <==>
            s.config.rotateAt <= s.config.svidTTL || s.issuer.cert.notAfter - s.start <= s.config.svidTTL
  {
    WholeDurationsCoverageIff(s, rounds, sent, ended);
  }

  /**
    Rotating exactly when the TTL is over leaves a gap of less than a second unless
    the first instant is no more than a nanosecond past a whole second.
  */
  lemma RotatingAtTtl(s: Stream, rounds: seq<Round>, sent: seq<Cert>, ended: Ended)
    requires IsFullStream(s, rounds, sent, ended) && WholeDurations(s) && s.config.rotateAt == s.config.svidTTL
    requires s.start + s.config.svidTTL < s.issuer.cert.notAfter
    ensures FullyCovered(s, rounds, sent) <==> s.start % SECOND <= 1
    ensures s.start % SECOND > 1 ==>
              !Covered(rounds, sent, s.start + s.config.svidTTL - s.start % SECOND + 1)
  {
    var f := s.start % SECOND;
    WholeDurationsCoverageIff(s, rounds, sent, ended);
    FullStreamAt(s, rounds, sent, ended, 0);
    WholeEnd(s, rounds, sent, ended, 0);
    if f > 1 {
      assert s.Instant(1) == s.start + s.config.rotateAt;
      assert !Lasts(s, sent, 0);
      var t := GapAfter(s, rounds, sent, ended, 0);
    }
  }
}
