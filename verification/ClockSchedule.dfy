/**
  The order in which timers expire. A log lists expiries one by one; it is legal
  when each entry is a timer that expires first in the state reached so far. The
  clock may break ties either way, so a state has many legal logs, and the results
  here hold for all of them.
*/
module ClockSchedule {
  import opened Wrappers
  import opened ClockModel
  import opened Seqs

  datatype Firing<T(==)> = Firing(timer: T, at: int)

  /** The timers after the expiries in the log. */
  function After<T>(m: Timers<T>, log: seq<Firing<T>>): (r: Timers<T>)
    ensures r.Keys == m.Keys
  {
    if log == [] then m
    else
      var prev := After(m, Front(log));
      if Last(log).timer in m then FireIn(prev, Last(log).timer) else prev
  }

  ghost predicate Legal<T>(m: Timers<T>, log: seq<Firing<T>>) {
    log == [] ||
    var prev := After(m, Front(log));
    && Legal(m, Front(log))
    && IsNext(prev, Last(log).timer)
    && Last(log).at == prev[Last(log).timer].when
  }

  ghost predicate Within<T>(log: seq<Firing<T>>, target: int) {
    forall i :: 0 <= i < |log| ==> log[i].at <= target
  }

  /** Nothing is due at target any more. */
  ghost predicate Exhausted<T>(m: Timers<T>, target: int) {
    forall t :: t in m ==> !m[t].Due(target)
  }

  /** The times at which one timer expired, in order. */
  function TimesOf<T(==)>(log: seq<Firing<T>>, t: T): seq<int> {
    if log == [] then []
    else if Last(log).timer == t then TimesOf(Front(log), t) + [Last(log).at]
    else TimesOf(Front(log), t)
  }

  // ---------- Legal logs ----------

  lemma Extend<T>(m: Timers<T>, log: seq<Firing<T>>, t: T)
    requires Legal(m, log) && IsNext(After(m, log), t)
    ensures var log' := log + [Firing(t, After(m, log)[t].when)];
            Legal(m, log') && After(m, log') == FireIn(After(m, log), t)
  {
    var log' := log + [Firing(t, After(m, log)[t].when)];
    assert Front(log') == log;
  }

  lemma ExtendDue<T>(m: Timers<T>, log: seq<Firing<T>>, t: T, target: int)
    requires Legal(m, log) && Within(log, target) && IsNext(After(m, log), t) && After(m, log)[t].when <= target
    ensures var log' := log + [Firing(t, After(m, log)[t].when)];
            && Legal(m, log') && Within(log', target)
            && After(m, log') == FireIn(After(m, log), t)
            && Total(FireIn(After(m, log), t), target) < Total(After(m, log), target)
  {
    var now := After(m, log);
    Extend(m, log, t);
    TotalUpdate(now, t, now[t].Fire(), target);
  }

  /** A legal log neither changes where the timers will settle nor how many expiries there are in all. */
  lemma {:induction false} LegalSettles<T>(m: Timers<T>, log: seq<Firing<T>>, target: int)
    requires Legal(m, log) && Within(log, target)
    ensures SettleAll(After(m, log), target) == SettleAll(m, target)
    ensures |log| + Total(After(m, log), target) == Total(m, target)
  {
    if log != [] {
      LegalSettles(m, Front(log), target);
      var prev, t := After(m, Front(log)), Last(log).timer;
      TotalUpdate(prev, t, prev[t].Fire(), target);
    }
  }

  /** Expiries happen in order of time, and what is still pending comes later. */
  lemma {:induction false} LegalSorted<T>(m: Timers<T>, log: seq<Firing<T>>)
    requires Legal(m, log)
    ensures forall i, j :: 0 <= i <= j < |log| ==> log[i].at <= log[j].at
    ensures log != [] ==> forall t :: t in m && After(m, log)[t].pending ==> Last(log).at <= After(m, log)[t].when
  {
    if log != [] {
      var prefix := Front(log);
      LegalSorted(m, prefix);
      forall i, j | 0 <= i <= j < |log| ensures log[i].at <= log[j].at {
        if j == |log| - 1 && i < j {
          assert prefix[i].at <= Last(prefix).at;
        } else if i < j {
          assert prefix[i].at <= prefix[j].at;
        }
      }
    }
  }

  /**
    The expiries of one timer: a one-shot has at most one, at its expiry; those of
    a ticker are consecutive points of its grid. Its channel keeps the first value
    unless it already held one.
  */
  lemma {:induction false} LegalTimes<T>(m: Timers<T>, log: seq<Firing<T>>, t: T)
    requires Legal(m, log) && t in m
    ensures var r, ts := m[t], TimesOf(log, t);
            && (forall k :: 0 <= k < |ts| ==> ts[k] == r.when + k * r.interval)
            && (ts != [] ==> r.pending)
            && (r.interval == 0 ==> |ts| <= 1)
            && After(m, log)[t] ==
               if ts == [] then r
               else Timer(r.when + |ts| * r.interval, r.interval, Some(r.ch.GetOr(ts[0])), r.interval > 0)
  {
    if log != [] {
      LegalTimes(m, Front(log), t);
      var ts := TimesOf(Front(log), t);
      if Last(log).timer == t {
        assert Last(log).at == m[t].when + |ts| * m[t].interval;
        assert (|ts| + 1) * m[t].interval == |ts| * m[t].interval + m[t].interval;
      }
    }
  }

  lemma SameMultiple(n: nat, k: nat, i: nat)
    requires 0 < i && n * i == k * i
    ensures n == k
  {
    Product(n - k, i);
    assert (n - k) * i == 0;
  }

  lemma ExhaustedCount<T>(m: Timers<T>, log: seq<Firing<T>>, target: int, t: T)
    requires Legal(m, log) && t in m && After(m, log)[t] == m[t].Settle(target)
    ensures |TimesOf(log, t)| == m[t].Firings(target)
  {
    LegalTimes(m, log, t);
    var n, r := |TimesOf(log, t)|, m[t];
    if r.Due(target) {
      ClosedForm(r, target);
    }
    if r.interval > 0 && r.pending {
      var k := r.Firings(target);
      assert n * r.interval == k * r.interval;
      SameMultiple(n, k, r.interval);
    }
  }

  lemma ExhaustedTotal<T>(m: Timers<T>, log: seq<Firing<T>>, target: int)
    requires Legal(m, log) && Within(log, target) && Exhausted(After(m, log), target)
    ensures After(m, log) == SettleAll(m, target) && |log| == Total(m, target)
  {
    LegalSettles(m, log, target);
    TotalZero(After(m, log), target);
    assert SettleAll(After(m, log), target) == After(m, log);
  }

  /**
    Whatever way ties are broken, a legal log that exhausts target ends in the same
    state, with the same number of expiries in all and for each timer.
  */
  lemma ExhaustingLog<T>(m: Timers<T>, log: seq<Firing<T>>, target: int)
    requires Legal(m, log) && Within(log, target) && Exhausted(After(m, log), target)
    ensures After(m, log) == SettleAll(m, target)
    ensures |log| == Total(m, target)
    ensures forall t :: t in m ==> |TimesOf(log, t)| == m[t].Firings(target)
  {
    ExhaustedTotal(m, log, target);
    forall t | t in m ensures |TimesOf(log, t)| == m[t].Firings(target) {
      assert After(m, log)[t] == m[t].Settle(target);
      ExhaustedCount(m, log, target, t);
    }
  }

  /** If the clock stops at the last expiry of a log, nothing pending is overdue. */
  lemma LogEnds<T>(m: Timers<T>, log: seq<Firing<T>>, target: int)
    requires Legal(m, log) && log != [] && Last(log).at == target
    ensures NothingOverdue(State(target, After(m, log)))
  {
    LegalSorted(m, log);
  }

  lemma OneEntry<T>(m: Timers<T>, log: seq<Firing<T>>)
    requires Legal(m, log) && |log| == 1
    ensures IsNext(m, log[0].timer) && After(m, log) == FireIn(m, log[0].timer)
  {
    assert Front(log) == [];
  }

  // ---------- Small steps and the big step ----------

  /** The clock after one step per entry of the log; StepExtends and StepRun tie this to the operation. */
  function Steps<T>(s: State<T>, log: seq<Firing<T>>): State<T> {
    State(if log == [] then s.now else Last(log).at, After(s.timers, log))
  }

  /** Every pending timer expires now or later. */
  ghost predicate NothingOverdue<T>(s: State<T>) {
    forall t :: t in s.timers && s.timers[t].pending ==> s.now <= s.timers[t].when
  }

  /**
    Stepping from expiry to expiry, for as long as the next one is no later than
    now + d, and then advancing over what remains, is advancing by d at once. Every
    step is counted by the advance, and if nothing due is left the counts are equal.
  */
  lemma SmallStepsRefineAdvance<T>(s: State<T>, log: seq<Firing<T>>, d: nat)
    requires NothingOverdue(s) && Legal(s.timers, log) && Within(log, s.now + d)
    ensures s.now <= Steps(s, log).now <= s.now + d
    ensures Advance(Steps(s, log), s.now + d - Steps(s, log).now) == Advance(s, d)
    ensures |log| + Total(Steps(s, log).timers, s.now + d) == Total(s.timers, s.now + d)
    ensures Exhausted(Steps(s, log).timers, s.now + d) <==> |log| == Total(s.timers, s.now + d)
  {
    var s' := Steps(s, log);
    LegalSettles(s.timers, log, s.now + d);
    TotalZero(s'.timers, s.now + d);
    LogStartsNow(s, log);
    assert Advance(s', s.now + d - s'.now) == State(s.now + d, SettleAll(s'.timers, s.now + d));
  }

  /** If nothing is overdue, no expiry of a legal log lies in the past. */
  lemma LogStartsNow<T>(s: State<T>, log: seq<Firing<T>>)
    requires NothingOverdue(s) && Legal(s.timers, log)
    ensures forall i :: 0 <= i < |log| ==> s.now <= log[i].at
  {
    if log != [] {
      LegalSorted(s.timers, log);
      FirstEntry(s.timers, log);
      assert forall i :: 0 <= i < |log| ==> log[0].at <= log[i].at;
    }
  }

  lemma {:induction false} FirstEntry<T>(m: Timers<T>, log: seq<Firing<T>>)
    requires Legal(m, log) && log != []
    ensures IsNext(m, log[0].timer) && log[0].at == m[log[0].timer].when
  {
    if |log| > 1 {
      FirstEntry(m, Front(log));
    } else {
      OneEntry(m, log);
    }
  }

  /** There is always such a sequence of steps, so the driver that repeats them stops. */
  lemma {:induction false} StepsExist<T>(m: Timers<T>, target: int) returns (log: seq<Firing<T>>)
    ensures Legal(m, log) && Within(log, target) && Exhausted(After(m, log), target)
  {
    log := [];
    while !Exhausted(After(m, log), target)
      invariant Legal(m, log) && Within(log, target)
      decreases Total(After(m, log), target)
    {
      var now := After(m, log);
      var t := FirstDue(now, target);
      ExtendDue(m, log, t, target);
      log := log + [Firing(t, now[t].when)];
    }
  }

  lemma {:induction false} FirstDue<T>(m: Timers<T>, target: int) returns (t: T)
    requires !Exhausted(m, target)
    ensures IsNext(m, t) && m[t].Due(target)
    decreases |m|
  {
    var u :| u in m && m[u].Due(target);
    var rest := m - {u};
    assert forall v :: v in m <==> v == u || v in rest;
    if Exhausted(rest, m[u].when) {
      assert forall v :: v in m && v != u ==> rest[v] == m[v];
      t := u;
    } else {
      t := FirstDue(rest, m[u].when);
      assert forall v :: v in rest ==> rest[v] == m[v];
    }
  }

  // ---------- Operations ----------

  /** What clients and tests can do; Step names the timer that the clock happens to pick. */
  datatype Op<T(==)> =
    | OpNew(t: T, d: int, oneShot: bool)
    | OpReset(t: T, d: int)
    | OpStop(t: T)
    | OpReceive(t: T)
    | OpAdvance(d: int)
    | OpStep(t: T)

  /** Calls that the clock rejects with a panic leave the state alone and are not part of a run. */
  ghost predicate Allowed<T>(s: State<T>, op: Op<T>) {
    match op
    case OpNew(t, d, oneShot) => t !in s.timers && (oneShot || d > 0)
    case OpReset(t, d) => t in s.timers && (s.timers[t].interval > 0 ==> d > 0)
    case OpStop(t) => t in s.timers
    case OpReceive(t) => t in s.timers
    case OpAdvance(d) => d >= 0
    case OpStep(t) => IsNext(s.timers, t)
  }

  function Do<T>(s: State<T>, op: Op<T>): State<T>
    requires Allowed(s, op)
  {
    match op
    case OpNew(t, d, oneShot) => NewTimer(s, t, d, oneShot)
    case OpReset(t, d) => Reset(s, t, d)
    case OpStop(t) => Stop(s, t)
    case OpReceive(t) => Receive(s, t)
    case OpAdvance(d) => Advance(s, d)
    case OpStep(t) => State(s.timers[t].when, FireIn(s.timers, t))
  }

  // ---------- Runs of steps ----------

  /** One step of the clock is one more entry in the log. */
  lemma StepExtends<T>(s: State<T>, log: seq<Firing<T>>, t: T, target: int)
    requires Legal(s.timers, log) && Within(log, target)
    requires IsNext(Steps(s, log).timers, t) && Steps(s, log).timers[t].when <= target
    ensures var log' := log + [Firing(t, Steps(s, log).timers[t].when)];
            && Legal(s.timers, log') && Within(log', target)
            && Steps(s, log') == Do(Steps(s, log), OpStep(t))
            && Total(Steps(s, log').timers, target) < Total(Steps(s, log).timers, target)
  {
    ExtendDue(s.timers, log, t, target);
  }

  /** The operation is a step to an expiry no later than target. */
  ghost predicate StepsTo<T>(s: State<T>, op: Op<T>, target: int) {
    op.OpStep? && op.t in s.timers && s.timers[op.t].when <= target
  }

  lemma {:induction false} StepRun<T>(trace: seq<State<T>>, ops: seq<Op<T>>, target: int) returns (log: seq<Firing<T>>)
    requires IsRun(trace, ops) && forall i :: 0 <= i < |ops| ==> StepsTo(trace[i], ops[i], target)
    ensures Legal(trace[0].timers, log) && Within(log, target) && |log| == |ops|
    ensures Last(trace) == Steps(trace[0], log)
  {
    log := [];
    if ops != [] {
      RunFront(trace, ops);
      log := StepRun(Front(trace), Front(ops), target);
      var s, t := trace[|ops| - 1], ops[|ops| - 1].t;
      StepExtends(trace[0], log, t, target);
      log := log + [Firing(t, s.timers[t].when)];
    }
  }

  /**
    However a client steps from expiry to expiry, each no later than now + d, and
    wherever it stops: advancing over what remains reaches the state of one advance
    by d, and its count and the steps add up to the count of that advance.
  */
  lemma StepsThenAdvance<T>(trace: seq<State<T>>, ops: seq<Op<T>>, d: nat)
    requires IsRun(trace, ops) && NothingOverdue(trace[0])
    requires forall i :: 0 <= i < |ops| ==> StepsTo(trace[i], ops[i], trace[0].now + d)
    ensures var rest := trace[0].now + d - Last(trace).now;
            && rest >= 0 && Do(Last(trace), OpAdvance(rest)) == Do(trace[0], OpAdvance(d))
            && |ops| + Total(Last(trace).timers, Last(trace).now + rest) == Total(trace[0].timers, trace[0].now + d)
  {
    var log := StepRun(trace, ops, trace[0].now + d);
    SmallStepsRefineAdvance(trace[0], log, d);
  }

  // ---------- Whole runs ----------

  ghost predicate IsRun<T>(trace: seq<State<T>>, ops: seq<Op<T>>) {
    && |trace| == |ops| + 1
    && forall i :: 0 <= i < |ops| ==> StepAt(trace, ops, i)
  }

  ghost predicate StepAt<T>(trace: seq<State<T>>, ops: seq<Op<T>>, i: nat)
    requires i < |ops| && i + 1 < |trace|
  {
    Allowed(trace[i], ops[i]) && trace[i + 1] == Do(trace[i], ops[i])
  }

  lemma RunFront<T>(trace: seq<State<T>>, ops: seq<Op<T>>)
    requires IsRun(trace, ops) && ops != []
    ensures IsRun(Front(trace), Front(ops)) && StepAt(trace, ops, |ops| - 1)
    ensures Front(trace)[0] == trace[0] && Last(Front(trace)) == trace[|ops| - 1] && Last(trace) == trace[|ops|]
  {
    forall i | 0 <= i < |ops| - 1 ensures StepAt(Front(trace), Front(ops), i) {
      assert StepAt(trace, ops, i);
    }
  }

  /**
    Over any run the clock never goes back, no pending timer is ever overdue (so
    the delay to the next expiry is never negative), no timer is forgotten, and a
    ticker stays a ticker and a one-shot a one-shot.
  */
  lemma {:induction false} RunsAreSafe<T>(trace: seq<State<T>>, ops: seq<Op<T>>)
    requires IsRun(trace, ops) && NothingOverdue(trace[0])
    ensures NothingOverdue(Last(trace)) && trace[0].now <= Last(trace).now
    ensures forall t :: t in trace[0].timers ==>
                          && t in Last(trace).timers
                          && (Last(trace).timers[t].interval > 0 <==> trace[0].timers[t].interval > 0)
  {
    if ops != [] {
      RunFront(trace, ops);
      RunsAreSafe(Front(trace), Front(ops));
      OpIsSafe(trace[|ops| - 1], ops[|ops| - 1]);
    }
  }

  /** All operations but advancing leave the other timers alone, and only advancing and stepping move the clock. */
  lemma OpIsLocal<T>(s: State<T>, op: Op<T>, u: T)
    requires Allowed(s, op) && u in s.timers && !op.OpAdvance? && op.t != u
    ensures Do(s, op).timers[u] == s.timers[u] && (!op.OpStep? ==> Do(s, op).now == s.now)
  {
  }

  lemma OpIsSafe<T>(s: State<T>, op: Op<T>)
    requires Allowed(s, op) && NothingOverdue(s)
    ensures NothingOverdue(Do(s, op)) && s.now <= Do(s, op).now
    ensures forall t :: t in s.timers ==>
                          t in Do(s, op).timers && (Do(s, op).timers[t].interval > 0 <==> s.timers[t].interval > 0)
  {
    if op.OpAdvance? {
      var target := s.now + op.d;
      forall t | t in s.timers
        ensures var r := s.timers[t].Settle(target); !r.Due(target) && r.interval == s.timers[t].interval
      {
        SettledIsNotDue(s.timers[t], target);
      }
    }
  }
}
