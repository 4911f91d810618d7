/**
  The deterministic test clock as it is built: timers that are updated in place and
  a slice of them kept in heap order by container/heap. Every operation is proved
  to change what can be observed exactly as ClockModel says.
*/
module TestClock {
  import opened Wrappers
  import opened Seqs
  import opened HeapOrder
  import opened ClockSchedule
  import Model = ClockModel

  datatype Panic = NegativeDelta | ConcurrentCall | NonPositiveInterval | UnexpectedCount(triggered: nat)

  class TestTimer {
    const b: TestBackend
    var ch: Option<int>
    var when: int
    var interval: nat

    constructor (b: TestBackend, when: int, interval: nat)
      ensures this.b == b && this.when == when && this.interval == interval && ch == None
    {
      this.b, this.when, this.interval, ch := b, when, interval, None;
    }

    ghost function Seen(pending: bool): Model.Timer
      reads this
    {
      Model.Timer(when, interval, ch, pending)
    }

    /** A non-blocking send on a channel of capacity 1: a value not yet received is kept. */
    method Trigger()
      modifies `ch
      ensures ch == Some(old(ch).GetOr(old(when)))
    {
      if ch.None? {
        ch := Some(when);
      }
    }

    /** A non-blocking receive by a client. */
    method Receive() returns (value: Option<int>)
      requires b.Valid() && this in b.created
      modifies `ch, b`state
      ensures b.Valid() && value == old(ch)
      ensures b.state == Model.Receive(old(b.state), this)
    {
      value := ch;
      ch := None;
      b.state := Model.Receive(b.state, this);
    }

    method Reset(d: int) returns (active: bool)
      requires b.Valid() && this in b.created && this !in b.tickers
      modifies b, b.created
      ensures b.Valid() && b.created == old(b.created) && b.tickers == old(b.tickers)
      ensures active == old(this in b.timers)
      ensures b.state == Model.Reset(old(b.state), this, d)
    {
      active := b.ResetTimer(this, d);
    }

    method Stop() returns (active: bool)
      requires b.Valid() && this in b.created
      modifies b, b.created
      ensures b.Valid() && b.created == old(b.created) && b.tickers == old(b.tickers)
      ensures active == old(this in b.timers)
      ensures b.state == Model.Stop(old(b.state), this)
    {
      active := b.StopTimer(this);
    }
  }

  class TestTicker {
    const timer: TestTimer

    constructor (timer: TestTimer)
      ensures this.timer == timer
    {
      this.timer := timer;
    }

    method Reset(d: int) returns (r: Result<(), Panic>)
      requires timer.b.Valid() && timer in timer.b.tickers
      modifies timer.b, timer.b.created
      ensures timer.b.Valid() && timer.b.created == old(timer.b.created) && timer.b.tickers == old(timer.b.tickers)
      ensures d <= 0 ==> r == Failure(NonPositiveInterval) && timer.b.state == old(timer.b.state)
      ensures d > 0 ==> r == Success(()) && timer.b.state == Model.Reset(old(timer.b.state), timer, d)
    {
      if d <= 0 {
        return Failure(NonPositiveInterval);
      }
      var _ := timer.b.ResetTimer(timer, d);
      return Success(());
    }
  }

  /** The same timers, each once, in another order. */
  lemma SameTimers(a: seq<TestTimer>, b: seq<TestTimer>)
    requires multiset(a) == multiset(b)
    ensures forall t :: t in a <==> t in b
    ensures Distinct(a) ==> Distinct(b)
  {
    assert forall t :: t in a <==> t in multiset(a);
    assert forall t :: t in b <==> t in multiset(b);
    if Distinct(a) {
      forall i, j | 0 <= i < j < |b| ensures b[i] != b[j] {
        if b[i] == b[j] {
          CountedTwice(b, i, j);
          OncePerTimer(a, b[i]);
        }
      }
    }
  }

  lemma CountedTwice(b: seq<TestTimer>, i: nat, j: nat)
    requires i < j < |b| && b[i] == b[j]
    ensures multiset(b)[b[i]] >= 2
  {
    assert b == b[..i] + [b[i]] + b[i + 1..j] + [b[j]] + b[j + 1..];
  }

  lemma RemovedLast(a: seq<TestTimer>, b: seq<TestTimer>, t: TestTimer)
    requires Distinct(a) && multiset(a) == multiset(b) && b != [] && b[|b| - 1..] == [t]
    ensures Distinct(Front(b)) && forall u :: u in Front(b) <==> u in a && u != t
  {
    SameTimers(a, b);
    assert Last(b) == b[|b| - 1..][0];
    assert b == Front(b) + [t];
    assert forall u :: u in b <==> u in Front(b) || u == t;
    assert t !in Front(b);
  }

  lemma {:induction false} OncePerTimer(a: seq<TestTimer>, t: TestTimer)
    requires Distinct(a)
    ensures multiset(a)[t] <= 1
  {
    if a != [] {
      var rest := Front(a);
      OncePerTimer(rest, t);
      assert a == rest + [Last(a)];
      assert t in multiset(rest) <==> t in rest;
    }
  }

  class TestBackend {
    var now: int
    var advancing: bool
    var timers: seq<TestTimer>
    ghost var created: set<TestTimer>           // every timer ever made
    ghost var tickers: set<TestTimer>           // those made by NewTicker
    ghost var keys: seq<int>                    // the expiries of the timers, in heap positions
    ghost var state: Model.State<TestTimer>     // what can be observed

    /** The keys are the expiries of the timers. */
    ghost predicate Keyed()
      reads this, timers`when
    {
      |keys| == |timers| && forall i :: 0 <= i < |timers| ==> keys[i] == timers[i].when
    }

    /** The slice is a heap in which no timer is stored twice. */
    ghost predicate HeapReady()
      reads this, timers`when
    {
      Keyed() && Distinct(timers) && Heap(keys, |keys|)
    }

    /** The fields agree with what can be observed. */
    ghost predicate Consistent()
      reads this, created
    {
      && (forall t :: t in timers ==> t in created)
      && tickers <= created
      && state.now == now && state.timers.Keys == created
      && forall t :: t in created ==> Recorded(t)
    }

    ghost predicate Recorded(t: TestTimer)
      reads this, t
    {
      && t.b == this && (t.interval > 0 <==> t in tickers)
      && t in state.timers && state.timers[t] == t.Seen(t in timers)
    }

    /** What holds between calls: no advance is under way and no timer is overdue. */
    ghost predicate Valid()
      reads this, created, timers
    {
      Consistent() && HeapReady() && !advancing && NothingOverdue(state)
    }

    constructor (now: int)
      ensures Valid() && state == Model.State(now, map[]) && created == {} && tickers == {}
    {
      this.now, advancing, timers := now, false, [];
      created, tickers, keys, state := {}, {}, [], Model.State(now, map[]);
    }

    // ---------- container/heap ----------

    predicate Less(i: nat, j: nat)
      requires i < |timers| && j < |timers|
      reads this, timers
    {
      timers[i].when < timers[j].when
    }

    method Swap(i: nat, j: nat)
      requires Keyed() && i < |timers| && j < |timers|
      modifies `timers, `keys
      ensures Keyed() && timers == Exchange(old(timers), i, j) && keys == Exchange(old(keys), i, j)
      ensures multiset(timers) == multiset(old(timers))
    {
      timers := timers[i := timers[j]][j := timers[i]];
      keys := Exchange(keys, i, j);
    }

    /** Sift the timer at j0 up. The ghost n bounds the part of the slice that is the heap. */
    method HeapUp(j0: nat, ghost n: nat)
      requires Keyed() && j0 < n <= |timers| && HeapButUp(keys, n, j0)
      modifies `timers, `keys
      ensures Keyed() && |timers| == |old(timers)| && multiset(timers) == multiset(old(timers))
      ensures Heap(keys, n) && timers[n..] == old(timers[n..])
    {
      var j := j0;
      while true
        invariant Keyed() && 0 <= j < n <= |timers| == |old(timers)| && HeapButUp(keys, n, j)
        invariant multiset(timers) == multiset(old(timers)) && timers[n..] == old(timers[n..])
        decreases j
      {
        SiftUp(keys, n, j);
        var i := if j == 0 then 0 else (j - 1) / 2;
        if i == j || !Less(j, i) {
          break;
        }
        Swap(i, j);
        j := i;
      }
    }

    /** Sift the timer at i0 down, and report whether it moved. */
    method HeapDown(i0: nat, n: nat) returns (moved: bool)
      requires Keyed() && i0 < n <= |timers| && HeapBut(keys, n, i0)
      modifies `timers, `keys
      ensures Keyed() && |timers| == |old(timers)| && multiset(timers) == multiset(old(timers))
      ensures timers[n..] == old(timers[n..])
      ensures if moved then Heap(keys, n) else HeapButUp(keys, n, i0)
    {
      var i := i0;
      while true
        invariant Keyed() && i0 <= i < n <= |timers| == |old(timers)| && HeapBut(keys, n, i)
        invariant i > i0 ==> InOrder(keys, i)
        invariant multiset(timers) == multiset(old(timers)) && timers[n..] == old(timers[n..])
        decreases n - i
      {
        var j1 := 2 * i + 1;
        if j1 >= n {
          Leaf(keys, n, i);
          break;
        }
        var j := j1;
        var j2 := j1 + 1;
        if j2 < n && Less(j2, j1) {
          j := j2;
        }
        SiftDown(keys, n, i, j);
        if !Less(j, i) {
          break;
        }
        Swap(i, j);
        i := j;
      }
      moved := i > i0;
    }

    /** Restore heap order after the key at i has changed. */
    method HeapFix(i: nat)
      requires Keyed() && Distinct(timers) && i < |timers| && HeapBut(keys, |keys|, i)
      modifies `timers, `keys
      ensures HeapReady() && forall t :: t in timers <==> t in old(timers)
    {
      Restore(i, |timers|);
      SameTimers(old(timers), timers);
    }

    /** Sift the timer at i down or, if that leaves it in place, up. */
    method Restore(i: nat, n: nat)
      requires Keyed() && i < n <= |timers| && HeapBut(keys, n, i)
      modifies `timers, `keys
      ensures Keyed() && |timers| == |old(timers)| && multiset(timers) == multiset(old(timers))
      ensures Heap(keys, n) && timers[n..] == old(timers[n..])
    {
      var moved := HeapDown(i, n);
      if !moved {
        HeapUp(i, n);
      }
    }

    method HeapPush(timer: TestTimer)
      requires HeapReady() && timer !in timers
      modifies `timers, `keys
      ensures HeapReady() && forall t :: t in timers <==> t in old(timers) || t == timer
    {
      Appended(keys, timer.when);
      timers := timers + [timer];
      keys := keys + [timer.when];
      HeapUp(|timers| - 1, |timers|);
      SameTimers(old(timers) + [timer], timers);
    }

    /** Take out the timer at i. */
    method HeapRemove(i: nat)
      requires HeapReady() && i < |timers|
      modifies `timers, `keys
      ensures HeapReady() && forall t :: t in timers <==> t in old(timers) && t != old(timers)[i]
    {
      MoveToEnd(i);
      RemovedLast(old(timers), timers, old(timers)[i]);
      Pop();
    }

    /** Exchange the timer at i with the last one and restore heap order before it. */
    method MoveToEnd(i: nat)
      requires HeapReady() && i < |timers|
      modifies `timers, `keys
      ensures Keyed() && timers != [] && multiset(timers) == multiset(old(timers))
      ensures Heap(keys, |timers| - 1) && timers[|timers| - 1..] == [old(timers)[i]]
    {
      var n := |timers| - 1;
      if n != i {
        Swap(i, n);
        Disturbed(old(keys), n, i, keys);
        Restore(i, n);
      }
    }

    method Pop()
      requires Keyed() && timers != [] && Heap(keys, |timers| - 1)
      modifies `timers, `keys
      ensures Keyed() && Heap(keys, |keys|) && timers == Front(old(timers))
    {
      var n := |timers| - 1;
      HeapPrefix(keys, keys[..n], n);
      timers := timers[..n];
      keys := keys[..n];
    }

    /** Drop the timer from the heap if it is there. */
    method DropTimer(timer: TestTimer) returns (dropped: bool)
      requires HeapReady()
      modifies `timers, `keys
      ensures HeapReady() && dropped == (timer in old(timers))
      ensures forall t :: t in timers <==> t in old(timers) && t != timer
    {
      for i := 0 to |timers|
        invariant timers == old(timers) && keys == old(keys) && timer !in timers[..i]
      {
        if timers[i] == timer {
          HeapRemove(i);
          return true;
        }
      }
      return false;
    }

    // ---------- The clock ----------

    /** Time until the next expiry, or -1 when nothing is pending. */
    method Next() returns (d: int)
      requires Valid()
      ensures (d == -1 <==> timers == []) && d >= -1
      ensures timers != [] ==> Model.IsNext(state.timers, timers[0]) && d == state.timers[timers[0]].when - now
    {
      if |timers| == 0 {
        return -1;
      }
      RootIsNext();
      return timers[0].when - now;
    }

    lemma RootIsNext()
      requires Consistent() && HeapReady() && timers != []
      ensures Model.IsNext(state.timers, timers[0]) && state.timers[timers[0]].when == timers[0].when
    {
      forall u | u in timers ensures timers[0].when <= u.when {
        var i :| 0 <= i < |timers| && timers[i] == u;
        RootIsLeast(keys, |timers|, i);
      }
    }

    /**
      Move the clock to the next expiry and fire exactly one timer, one that expires
      first. The count is always 1, so the panic that checks it cannot happen.
    */
    method Step() returns (r: Result<(int, bool), Panic>)
      requires Valid()
      modifies this, created
      ensures Valid() && created == old(created) && tickers == old(tickers)
      ensures old(timers) == [] ==> r == Success((0, false)) && state == old(state)
      ensures old(timers) != [] ==>
                && Model.IsNext(old(state.timers), old(timers[0]))
                && r == Success((old(timers[0].when - now), true))
                && state == Model.State(old(timers[0].when), Model.FireIn(old(state.timers), old(timers[0])))
    {
      if |timers| == 0 {
        return Success((0, false));
      }
      RootIsNext();
      var advanceBy := timers[0].when - now;
      var triggered, _ := AdvanceUnderLock(advanceBy, true);
      match triggered {
        case Failure(p) =>
          return Failure(p);
        case Success(n) =>
          if n != 1 {
            return Failure(UnexpectedCount(n));
          }
          return Success((advanceBy, true));
      }
    }

    /**
      Advance by d. The log lists the expiries in the order in which they happened;
      what the laws of ClockSchedule say about legal logs holds of it.
    */
    method Advance(d: int) returns (r: Result<nat, Panic>, ghost log: seq<Firing<TestTimer>>)
      requires Valid()
      modifies this, created
      ensures Valid() && created == old(created) && tickers == old(tickers)
      ensures d < 0 ==> r == Failure(NegativeDelta) && state == old(state)
      ensures d >= 0 ==>
                && r == Success(Model.Total(old(state.timers), old(now) + d))
                && state == Model.Advance(old(state), d)
                && Legal(old(state.timers), log) && Within(log, old(now) + d)
                && After(old(state.timers), log) == state.timers
    {
      r, log := AdvanceUnderLock(d, false);
    }

    method AdvanceTo(t: int) returns (r: Result<nat, Panic>, ghost log: seq<Firing<TestTimer>>)
      requires Valid()
      modifies this, created
      ensures Valid() && created == old(created) && tickers == old(tickers)
      ensures t < old(now) ==> r == Failure(NegativeDelta) && state == old(state)
      ensures t >= old(now) ==>
                && r == Success(Model.Total(old(state.timers), t))
                && state == Model.AdvanceTo(old(state), t)
                && Legal(old(state.timers), log) && Within(log, t)
                && After(old(state.timers), log) == state.timers
    {
      r, log := AdvanceUnderLock(t - now, false);
    }

    /**
      Fire what is due by now + d, one timer at a time from the root of the heap. With
      once set it stops after the first; its caller then moves exactly to that expiry.
    */
    method AdvanceUnderLock(d: int, once: bool) returns (r: Result<nat, Panic>, ghost log: seq<Firing<TestTimer>>)
      requires Consistent() && HeapReady() && NothingOverdue(state)
      requires once ==> timers != [] && d == timers[0].when - now
      modifies this, created
      ensures created == old(created) && tickers == old(tickers)
      ensures d < 0 ==> r == Failure(NegativeDelta)
      ensures d >= 0 && old(advancing) ==> r == Failure(ConcurrentCall)
      ensures r.Failure? ==> state == old(state) && unchanged(this) && unchanged(created)
      ensures d >= 0 && !old(advancing) ==> Valid()
      ensures d >= 0 && !old(advancing) && once ==>
                r == Success(1) && state == Model.State(old(now) + d, Model.FireIn(old(state.timers), old(timers[0])))
      ensures d >= 0 && !old(advancing) && !once ==>
                && r == Success(Model.Total(old(state.timers), old(now) + d))
                && state == Model.AdvanceTo(old(state), old(now) + d)
                && Legal(old(state.timers), log) && Within(log, old(now) + d)
                && After(old(state.timers), log) == state.timers
    {
      log := [];
      if d < 0 {
        return Failure(NegativeDelta), log;
      }
      if advancing {
        return Failure(ConcurrentCall), log;
      }
      advancing := true;
      var target := now + d;
      var triggered;
      triggered, log := FireDue(target, once);
      now := target;
      state := Model.State(target, state.timers);
      advancing := false;
      r := Success(triggered);
    }

    /** The loop of AdvanceUnderLock. */
    method FireDue(target: int, once: bool) returns (triggered: nat, ghost log: seq<Firing<TestTimer>>)
      requires Consistent() && HeapReady()
      requires once ==> timers != [] && timers[0].when == target
      modifies `timers, `keys, `state, created
      ensures Consistent() && HeapReady() && NothingOverdue(Model.State(target, state.timers))
      ensures once ==> triggered == 1 && state.timers == Model.FireIn(old(state.timers), old(timers[0]))
      ensures !once ==>
                && triggered == Model.Total(old(state.timers), target)
                && Model.State(target, state.timers) == Model.AdvanceTo(old(state), target)
                && Legal(old(state.timers), log) && Within(log, target)
                && After(old(state.timers), log) == state.timers
    {
      ghost var m := state.timers;
      triggered, log := 0, [];
      while |timers| > 0
        invariant Consistent() && HeapReady() && triggered == |log|
        invariant Legal(m, log) && Within(log, target) && After(m, log) == state.timers
        invariant once ==> log == [] && timers == old(timers) && timers[0].when == target
        decreases Model.Total(state.timers, target)
      {
        var timer := timers[0];
        if target < timer.when {
          break;
        }
        triggered := triggered + 1;
        RootIsNext();
        ExtendDue(m, log, timer, target);
        log := log + [Firing(timer, timer.when)];
        FireRoot(timer);
        if once {
          LogEnds(m, log, target);
          return;
        }
      }
      RootIsEarliest(target);
      ExhaustedTotal(m, log, target);
    }

    lemma RootIsEarliest(target: int)
      requires Consistent() && HeapReady() && (timers == [] || target < timers[0].when)
      ensures Exhausted(state.timers, target)
    {
      if timers != [] {
        RootIsNext();
      }
    }

    /** Trigger the root of the heap, then reschedule it if it is a ticker and drop it otherwise. */
    method FireRoot(timer: TestTimer)
      requires Consistent() && HeapReady() && timers != [] && timer == timers[0]
      modifies `timers, `keys, `state, timer`ch, timer`when
      ensures Consistent() && HeapReady()
      ensures state == old(state).(timers := Model.FireIn(old(state.timers), timer))
    {
      ghost var was := keys;
      timer.Trigger();
      if timer.interval > 0 {
        timer.when := timer.when + timer.interval;
        keys := keys[0 := timer.when];
        Disturbed(was, |timers|, 0, keys);
        HeapFix(0);
      } else {
        var _ := DropTimer(timer);
      }
      state := state.(timers := Model.FireIn(state.timers, timer));
    }

    method NewTicker(d: int) returns (r: Result<TestTicker, Panic>)
      requires Valid()
      modifies this
      ensures Valid()
      ensures d <= 0 ==> r == Failure(NonPositiveInterval) && unchanged(this)
      ensures d > 0 ==>
                && r.Success? && fresh(r.value) && fresh(r.value.timer)
                && created == old(created) + {r.value.timer} && tickers == old(tickers) + {r.value.timer}
                && state == Model.NewTimer(old(state), r.value.timer, d, false)
    {
      if d <= 0 {
        return Failure(NonPositiveInterval);
      }
      var timer := MakeTimer(d, false);
      var ticker := new TestTicker(timer);
      return Success(ticker);
    }

    method NewTimer(d: int) returns (timer: TestTimer)
      requires Valid()
      modifies this
      ensures Valid() && fresh(timer)
      ensures created == old(created) + {timer} && tickers == old(tickers)
      ensures state == Model.NewTimer(old(state), timer, d, true)
    {
      timer := MakeTimer(d, true);
    }

    method MakeTimer(d: int, oneShot: bool) returns (timer: TestTimer)
      requires Valid() && (oneShot || d > 0)
      modifies this
      ensures Valid() && fresh(timer)
      ensures created == old(created) + {timer}
      ensures tickers == if oneShot then old(tickers) else old(tickers) + {timer}
      ensures state == Model.NewTimer(old(state), timer, d, oneShot)
    {
      var interval: nat := if d < 0 then 0 else d;
      var when := now + interval;
      if oneShot {
        interval := 0;
      }
      timer := Register(when, interval);
      Admit(timer);
      assert state.timers == old(state.timers)[timer := state.timers[timer]];
    }

    /** A new timer, not pending yet. */
    method Register(when: int, interval: nat) returns (timer: TestTimer)
      requires Valid()
      modifies this
      ensures Valid() && fresh(timer) && timer !in timers
      ensures timer.ch == None && timer.when == when && timer.interval == interval
      ensures created == old(created) + {timer} && now == old(now)
      ensures tickers == if interval > 0 then old(tickers) + {timer} else old(tickers)
      ensures state == Model.State(now, old(state.timers)[timer := Model.Timer(when, interval, None, false)])
    {
      timer := new TestTimer(this, when, interval);
      created := created + {timer};
      tickers := if interval > 0 then tickers + {timer} else tickers;
      state := state.(timers := state.timers[timer := timer.Seen(false)]);
    }

    /** Trigger a new timer that has already expired, and make any other one pending. */
    method Admit(timer: TestTimer)
      requires Valid() && timer in created && timer !in timers && now <= timer.when && timer.ch == None
      modifies `timers, `keys, `state, timer`ch
      ensures Valid()
      ensures state == Model.State(now, old(state.timers)[timer := state.timers[timer]])
      ensures state.timers[timer] == if timer.when == now then Model.Timer(now, timer.interval, Some(now), false)
                                     else Model.Timer(timer.when, timer.interval, None, true)
    {
      if timer.when == now {
        timer.Trigger();
        state := state.(timers := state.timers[timer := timer.Seen(false)]);
      } else {
        HeapPush(timer);
        state := state.(timers := state.timers[timer := timer.Seen(true)]);
      }
    }

    method ResetTimer(timer: TestTimer, d: int) returns (active: bool)
      requires Valid() && timer in created && (timer in tickers ==> d > 0)
      modifies `timers, `keys, `state, timer`when, timer`interval
      ensures Valid()
      ensures active == old(timer in timers)
      ensures state == Model.Reset(old(state), timer, d)
    {
      var d': nat := if d < 0 then 0 else d;
      timer.when := now + d';
      if timer.interval > 0 {
        timer.interval := d';
      }
      active := Reschedule(timer);
      state := Model.Reset(state, timer, d);
      assert state.timers[timer] == timer.Seen(true);
    }

    /** Put a timer whose expiry has just been set in its place: a pending one is moved, another one pushed. */
    method Reschedule(timer: TestTimer) returns (active: bool)
      requires Distinct(timers) && Heap(keys, |keys|) && |keys| == |timers|
      requires forall i :: 0 <= i < |timers| && timers[i] != timer ==> keys[i] == timers[i].when
      modifies `timers, `keys
      ensures HeapReady() && active == (timer in old(timers))
      ensures forall t :: t in timers <==> t in old(timers) || t == timer
    {
      for i := 0 to |timers|
        invariant timers == old(timers) && keys == old(keys) && timer !in timers[..i]
      {
        if timers[i] == timer {
          ghost var was := keys;
          keys := keys[i := timer.when];
          Disturbed(was, |timers|, i, keys);
          HeapFix(i);
          return true;
        }
      }
      assert timer !in timers;
      HeapPush(timer);
      return false;
    }

    method StopTimer(timer: TestTimer) returns (dropped: bool)
      requires Valid() && timer in created
      modifies `timers, `keys, `state
      ensures Valid()
      ensures dropped == old(timer in timers)
      ensures state == Model.Stop(old(state), timer)
    {
      dropped := DropTimer(timer);
      state := Model.Stop(state, timer);
    }
  }

  // ---------- Small steps ----------

  type Snapshot = Model.State<TestTimer>
  type Log = seq<Firing<TestTimer>>

  /**
    A client that steps for as long as the next expiry is no more than d away and then
    advances over the rest. That is Advance(d), its steps are the count of Advance(d),
    and the last advance triggers nothing.
  */
  method AdvanceBySteps(clock: TestBackend, d: nat) returns (steps: nat, rest: Result<nat, Panic>)
    requires clock.Valid()
    modifies clock, clock.created
    ensures clock.Valid() && clock.created == old(clock.created) && clock.tickers == old(clock.tickers)
    ensures clock.state == Model.Advance(old(clock.state), d)
    ensures steps == Model.Total(old(clock.state.timers), old(clock.now) + d) && rest == Success(0)
  {
    ghost var s, log := clock.state, [];
    var target := clock.now + d;
    steps := 0;
    while true
      invariant clock.Valid() && clock.created == old(clock.created) && clock.tickers == old(clock.tickers)
      invariant IsLog(s, log, target, clock.state) && steps == |log|
      decreases Model.Total(clock.state.timers, target)
    {
      var next := clock.Next();
      if next < 0 || target - clock.now < next {
        break;
      }
      log := StepOnce(clock, s, log, target);
      steps := steps + 1;
    }
    rest := AdvanceRest(clock, s, log, d, target);
  }

  /** The clock has come from s by the steps of the log, none beyond target. */
  ghost predicate IsLog(s: Snapshot, log: Log, target: int, s': Snapshot) {
    Legal(s.timers, log) && Within(log, target) && s' == Steps(s, log)
  }

  method StepOnce(clock: TestBackend, ghost s: Snapshot, ghost log: Log, ghost target: int)
    returns (ghost log': Log)
    requires clock.Valid() && clock.timers != [] && clock.timers[0].when <= target
    requires IsLog(s, log, target, clock.state)
    modifies clock, clock.created
    ensures clock.Valid() && clock.created == old(clock.created) && clock.tickers == old(clock.tickers)
    ensures IsLog(s, log', target, clock.state) && |log'| == |log| + 1
    ensures Model.Total(clock.state.timers, target) < Model.Total(old(clock.state.timers), target)
  {
    ghost var t := clock.timers[0];
    clock.RootIsNext();
    StepExtends(s, log, t, target);
    log' := log + [Firing(t, clock.state.timers[t].when)];
    var _ := clock.Step();
  }

  method AdvanceRest(clock: TestBackend, ghost s: Snapshot, ghost log: Log, ghost d: nat, target: int)
    returns (rest: Result<nat, Panic>)
    requires clock.Valid() && (clock.timers == [] || target < clock.timers[0].when)
    requires NothingOverdue(s) && IsLog(s, log, target, clock.state) && target == s.now + d
    modifies clock, clock.created
    ensures clock.Valid() && clock.created == old(clock.created) && clock.tickers == old(clock.tickers)
    ensures clock.state == Model.Advance(s, d) && |log| == Model.Total(s.timers, s.now + d) && rest == Success(0)
  {
    clock.RootIsEarliest(target);
    RestIsEmpty(s, log, clock.state, d, target);
    ghost var fired;
    rest, fired := clock.Advance(target - clock.now);
  }

  lemma RestIsEmpty(s: Snapshot, log: Log, s': Snapshot, d: nat, target: int)
    requires NothingOverdue(s) && IsLog(s, log, target, s') && target == s.now + d && Exhausted(s'.timers, target)
    ensures s'.now <= target && Model.AdvanceTo(s', target) == Model.Advance(s, d)
    ensures |log| == Model.Total(s.timers, target) && Model.Total(s'.timers, target) == 0
  {
    SmallStepsRefineAdvance(s, log, d);
    Model.TotalZero(s'.timers, target);
  }
}
