/**
  The deterministic test clock seen from outside: a clock reading and, for every
  timer or ticker ever made, what can be observed of it. The heap, the order in
  which ties are broken and the loop that fires timers do not appear here; they
  are in TestClock, whose methods are proved to change the state in the ways
  described by this module.
*/
module ClockModel {
  import opened Wrappers

  /** One timer. The interval of a one-shot timer is 0, that of a ticker is positive. */
  datatype Timer = Timer(when: int, interval: nat, ch: Option<int>, pending: bool) {

    predicate Due(target: int) {
      pending && when <= target
    }

    /** Send the expiry on the one-place channel unless it is occupied, then reschedule or drop. */
    function Fire(): Timer {
      Timer(when + interval, interval, Some(ch.GetOr(when)), interval > 0)
    }

    /** A bound on how many times the timer can still expire up to target. */
    function Room(target: int): nat {
      if !Due(target) then 0 else if interval == 0 then 1 else target - when + 2
    }

    /** How many times the timer expires up to and including target. */
    function Firings(target: int): nat
      decreases Room(target)
    {
      if Due(target) then 1 + Fire().Firings(target) else 0
    }

    /** What the timer looks like once every expiry up to target has happened. */
    function Settle(target: int): Timer
      decreases Room(target)
    {
      if Due(target) then Fire().Settle(target) else this
    }
  }

  type Timers<T(==)> = map<T, Timer>

  datatype State<T(==)> = State(now: int, timers: Timers<T>)

  // ---------- Operations ----------

  /** All timers settled at target. */
  function SettleAll<T>(m: Timers<T>, target: int): Timers<T> {
    map t | t in m :: m[t].Settle(target)
  }

  /** The total number of expiries up to target. */
  ghost function Total<T>(m: Timers<T>, target: int): nat {
    if m == map[] then 0
    else
      var t :| t in m;
      m[t].Firings(target) + Total(m - {t}, target)
  }

  function AdvanceTo<T>(s: State<T>, target: int): State<T> {
    State(target, SettleAll(s.timers, target))
  }

  function Advance<T>(s: State<T>, d: int): State<T> {
    AdvanceTo(s, s.now + d)
  }

  /** t is one of the timers that expire first. */
  ghost predicate IsNext<T>(m: Timers<T>, t: T) {
    && t in m && m[t].pending
    && forall u :: u in m && m[u].pending ==> m[t].when <= m[u].when
  }

  function FireIn<T>(m: Timers<T>, t: T): Timers<T>
    requires t in m
  {
    m[t := m[t].Fire()]
  }

  function Clamp(d: int): nat {
    if d < 0 then 0 else d
  }

  /** A new timer that has already expired is delivered at once and never becomes pending. */
  function MadeTimer(now: int, d: int, oneShot: bool): Timer {
    var interval := if oneShot then 0 else Clamp(d);
    if Clamp(d) == 0 then Timer(now, interval, Some(now), false)
    else Timer(now + d, interval, None, true)
  }

  function NewTimer<T>(s: State<T>, t: T, d: int, oneShot: bool): State<T> {
    State(s.now, s.timers[t := MadeTimer(s.now, d, oneShot)])
  }

  /** Resetting leaves the channel alone, and always makes the timer pending. */
  function Reset<T>(s: State<T>, t: T, d: int): State<T>
    requires t in s.timers
  {
    var r := s.timers[t];
    var interval := if r.interval > 0 then Clamp(d) else 0;
    s.(timers := s.timers[t := Timer(s.now + Clamp(d), interval, r.ch, true)])
  }

  function Stop<T>(s: State<T>, t: T): State<T>
    requires t in s.timers
  {
    s.(timers := s.timers[t := s.timers[t].(pending := false)])
  }

  /** A client takes what the channel holds. */
  function Receive<T>(s: State<T>, t: T): State<T>
    requires t in s.timers
  {
    s.(timers := s.timers[t := s.timers[t].(ch := None)])
  }

  // ---------- One timer ----------

  /**
    The closed form. A one-shot that is due expires once and is dropped. A ticker
    that is due expires once for every interval that fits before target and once
    more, and then stands at the least point of its grid after target; its channel
    keeps the first value.
  */
  lemma {:induction false} ClosedForm(r: Timer, target: int)
    requires r.Due(target)
    ensures r.interval == 0 ==>
              r.Firings(target) == 1 && r.Settle(target) == Timer(r.when, 0, Some(r.ch.GetOr(r.when)), false)
    ensures r.interval > 0 ==>
              var n := (target - r.when) / r.interval + 1;
              var w := r.when + n * r.interval;
              && r.Firings(target) == n
              && r.Settle(target) == Timer(w, r.interval, Some(r.ch.GetOr(r.when)), true)
              && w - r.interval <= target < w
  {
    if r.interval > 0 {
      var d, i := target - r.when, r.interval;
      var q := d / i;
      assert d == q * i + d % i;
      Distribute(q, i);
      GridPoints(r, target, q + 1);
    }
  }

  /** A ticker expires n times if target lies between its grid points n - 1 and n. */
  lemma {:induction false} GridPoints(r: Timer, target: int, n: nat)
    requires r.pending && r.interval > 0 && n > 0
    requires r.when + (n - 1) * r.interval <= target < r.when + n * r.interval
    ensures r.Firings(target) == n
    ensures r.Settle(target) == Timer(r.when + n * r.interval, r.interval, Some(r.ch.GetOr(r.when)), true)
    decreases n
  {
    var i := r.interval;
    Product(n - 1, i);
    if n > 1 {
      Distribute(n - 1, i);
      Distribute(n - 2, i);
      GridPoints(r.Fire(), target, n - 1);
    }
  }

  lemma {:induction false} SettledIsNotDue(r: Timer, target: int)
    ensures !r.Settle(target).Due(target) && r.Settle(target).interval == r.interval
    decreases r.Room(target)
  {
    if r.Due(target) {
      SettledIsNotDue(r.Fire(), target);
    }
  }

  lemma Distribute(k: nat, i: nat)
    ensures (k + 1) * i == k * i + i
  {
  }

  lemma Product(x: int, i: nat)
    requires 0 < i
    ensures x >= 1 ==> x * i >= i
    ensures x <= -1 ==> x * i <= 0 - i
  {
  }

  /** Settling in two stages is settling once, and no expiry is lost or counted twice. */
  lemma {:induction false} SettleTwice(r: Timer, a: int, b: int)
    requires a <= b
    ensures r.Settle(a).Settle(b) == r.Settle(b)
    ensures r.Firings(a) + r.Settle(a).Firings(b) == r.Firings(b)
    decreases r.Room(a)
  {
    if r.Due(a) {
      SettleTwice(r.Fire(), a, b);
    }
  }

  // ---------- Totals ----------

  lemma TotalSplit<T>(m: Timers<T>, t: T, target: int)
    requires t in m
    ensures Total(m, target) == m[t].Firings(target) + Total(m - {t}, target)
    decreases |m|
  {
    var u :| u in m && Total(m, target) == m[u].Firings(target) + Total(m - {u}, target);
    if u != t {
      TotalSplit(m - {u}, t, target);
      TotalSplit(m - {t}, u, target);
      assert m - {u} - {t} == m - {t} - {u};
    }
  }

  lemma TotalUpdate<T>(m: Timers<T>, t: T, r: Timer, target: int)
    requires t in m
    ensures Total(m[t := r], target) + m[t].Firings(target) == Total(m, target) + r.Firings(target)
  {
    TotalSplit(m, t, target);
    TotalSplit(m[t := r], t, target);
    assert m[t := r] - {t} == m - {t};
  }

  lemma {:induction false} TotalZero<T>(m: Timers<T>, target: int)
    ensures Total(m, target) == 0 <==> forall t :: t in m ==> !m[t].Due(target)
    decreases |m|
  {
    if m != map[] {
      var t :| t in m && Total(m, target) == m[t].Firings(target) + Total(m - {t}, target);
      var rest := m - {t};
      TotalZero(rest, target);
      assert m[t].Firings(target) == 0 <==> !m[t].Due(target);
      if Total(m, target) == 0 {
        forall u | u in m ensures !m[u].Due(target) {
          if u != t { assert u in rest && rest[u] == m[u]; }
        }
      }
    }
  }

  // ---------- Advance composes ----------

  lemma TotalTwice<T>(m: Timers<T>, a: int, b: int)
    requires a <= b
    ensures Total(m, a) + Total(SettleAll(m, a), b) == Total(m, b)
    decreases |m|
  {
    if m != map[] {
      var t :| t in m;
      TotalSplit(m, t, a);
      TotalSplit(m, t, b);
      TotalSplit(SettleAll(m, a), t, b);
      assert SettleAll(m, a) - {t} == SettleAll(m - {t}, a);
      TotalTwice(m - {t}, a, b);
      SettleTwice(m[t], a, b);
    }
  }

  lemma SettleAllTwice<T>(m: Timers<T>, a: int, b: int)
    requires a <= b
    ensures SettleAll(SettleAll(m, a), b) == SettleAll(m, b)
  {
    forall t | t in m ensures m[t].Settle(a).Settle(b) == m[t].Settle(b) {
      SettleTwice(m[t], a, b);
    }
  }

  /**
    Advancing by a and then by b is advancing by a + b: same clock reading, same
    pending timers with the same expiries, same channel contents, same count.
  */
  lemma AdvanceComposes<T>(s: State<T>, a: nat, b: nat)
    ensures Advance(Advance(s, a), b) == Advance(s, a + b)
    ensures Total(s.timers, s.now + a) + Total(Advance(s, a).timers, s.now + a + b) == Total(s.timers, s.now + a + b)
  {
    var mid, end := s.now + a, s.now + a + b;
    TotalTwice(s.timers, mid, end);
    SettleAllTwice(s.timers, mid, end);
    assert Advance(Advance(s, a), b) == State(end, SettleAll(SettleAll(s.timers, mid), end));
  }

  /**
    A new one-shot timer with no time to run is delivered at once. Resetting a
    one-shot to no time at all is different: it becomes pending with its channel as
    it was, and is only delivered by the next advance, be it by zero.
  */
  lemma ResetIsNotDelivered<T>(s: State<T>, t: T, d: int)
    requires t in s.timers && s.timers[t].interval == 0 && d <= 0
    ensures MadeTimer(s.now, d, true) == Timer(s.now, 0, Some(s.now), false)
    ensures Reset(s, t, d).timers[t] == Timer(s.now, 0, s.timers[t].ch, true)
    ensures Advance(Reset(s, t, d), 0).timers[t] == Timer(s.now, 0, Some(s.timers[t].ch.GetOr(s.now)), false)
  {
    ClosedForm(Reset(s, t, d).timers[t], s.now);
  }

  // ---------- What the operations are for ----------

  /** Over the next e of time, a ticker just made or reset to d expires once per full d. */
  lemma TickerRate<T>(s: State<T>, t: T, d: int, e: nat)
    requires d > 0
    ensures MadeTimer(s.now, d, false).Firings(s.now + e) == e / d
    ensures t in s.timers && s.timers[t].interval > 0 ==> Reset(s, t, d).timers[t].Firings(s.now + e) == e / d
  {
    FullIntervals(MadeTimer(s.now, d, false), s.now, e);
    if t in s.timers && s.timers[t].interval > 0 {
      FullIntervals(Reset(s, t, d).timers[t], s.now, e);
    }
  }

  lemma FullIntervals(r: Timer, now: int, e: nat)
    requires r.pending && r.interval > 0 && r.when == now + r.interval
    ensures r.Firings(now + e) == e / r.interval
  {
    if r.interval <= e {
      ClosedForm(r, now + e);
      assert now + e - r.when == e - r.interval;
      DivMinus(e, r.interval);
    }
  }

  lemma DivMinus(d: nat, i: nat)
    requires 0 < i <= d
    ensures d / i == (d - i) / i + 1
  {
    var q, q', m, m' := (d - i) / i, d / i, (d - i) % i, d % i;
    assert d == q' * i + m' && d == (q + 1) * i + m;
    Product(q' - q - 1, i);
    assert (q' - q - 1) * i == m - m';
  }

  /** A one-shot just made or reset to d expires once, and not before d has passed. */
  lemma OneShotExpiresOnce<T>(s: State<T>, t: T, d: nat, e: nat)
    requires d > 0
    ensures MadeTimer(s.now, d, true).Firings(s.now + e) == if e < d then 0 else 1
    ensures t in s.timers && s.timers[t].interval == 0 ==>
              Reset(s, t, d).timers[t].Firings(s.now + e) == if e < d then 0 else 1
  {
    var r := MadeTimer(s.now, d, true);
    if r.Due(s.now + e) {
      ClosedForm(r, s.now + e);
    }
    if t in s.timers && s.timers[t].interval == 0 && d <= e {
      ClosedForm(Reset(s, t, d).timers[t], s.now + e);
    }
  }

  /** After settling, the channel holds what it held or, if it was empty and the timer was due, the first expiry. */
  lemma ChannelAfter(r: Timer, target: int)
    ensures r.Settle(target).ch == if r.Due(target) then Some(r.ch.GetOr(r.when)) else r.ch
  {
    if r.Due(target) {
      ClosedForm(r, target);
    }
  }

  /** The channel of a new timer or ticker is empty until its time has passed, and then holds its first expiry. */
  lemma NewDelivers<T>(s: State<T>, t: T, d: int, oneShot: bool, e: nat)
    requires oneShot || d > 0
    ensures Advance(NewTimer(s, t, d, oneShot), e).timers[t].ch == if e < d then None else Some(s.now + Clamp(d))
  {
    ChannelAfter(MadeTimer(s.now, d, oneShot), s.now + e);
  }

  /** A reset leaves what the channel holds, and if that is nothing the new expiry is delivered in its time. */
  lemma ResetDelivers<T>(s: State<T>, t: T, d: int, e: nat)
    requires t in s.timers && (s.timers[t].interval > 0 ==> d > 0)
    ensures var ch := s.timers[t].ch;
            Advance(Reset(s, t, d), e).timers[t].ch == if e < d then ch else Some(ch.GetOr(s.now + Clamp(d)))
  {
    ChannelAfter(Reset(s, t, d).timers[t], s.now + e);
  }

  /**
    Once received, a value is gone: nothing more is received until the timer expires
    again, and what is received then is the first expiry since.
  */
  lemma ReceivedOnce<T>(s: State<T>, t: T, e: nat)
    requires t in s.timers
    ensures Receive(s, t).timers[t].ch == None && Receive(Receive(s, t), t) == Receive(s, t)
    ensures var r := s.timers[t];
            Advance(Receive(s, t), e).timers[t].ch == if r.pending && r.when <= s.now + e then Some(r.when) else None
    ensures Total(Receive(s, t).timers, s.now + e) == Total(s.timers, s.now + e)
  {
    var r := s.timers[t].(ch := None);
    ChannelAfter(r, s.now + e);
    TotalUpdate(s.timers, t, r, s.now + e);
    FiringsIgnoreChannel(s.timers[t], None, s.now + e);
  }

  lemma {:induction false} FiringsIgnoreChannel(r: Timer, ch: Option<int>, target: int)
    ensures r.(ch := ch).Firings(target) == r.Firings(target)
    decreases r.Room(target)
  {
    if r.Due(target) {
      FiringsIgnoreChannel(r.Fire(), r.(ch := ch).Fire().ch, target);
    }
  }

  /** A stopped timer stays as it is however far the clock advances, and exactly its expiries leave the count. */
  lemma StoppedIsSilent<T>(s: State<T>, t: T, d: nat)
    requires t in s.timers
    ensures Advance(Stop(s, t), d).timers[t] == s.timers[t].(pending := false)
    ensures Total(Stop(s, t).timers, s.now + d) + s.timers[t].Firings(s.now + d) == Total(s.timers, s.now + d)
  {
    TotalUpdate(s.timers, t, s.timers[t].(pending := false), s.now + d);
  }
}
