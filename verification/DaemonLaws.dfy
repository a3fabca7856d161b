/** Laws of every run of the daemon loop, for any order of calls. */
module DaemonLaws {
  import opened Prelude
  import opened Text
  import opened Daemon

  lemma AfterNext(startedAt: u64, period: nat, ops: seq<Op>, n: nat)
    requires n < |ops|
    ensures After(startedAt, period, ops[..n + 1]) == Step(After(startedAt, period, ops[..n]), period, ops[n])
  {
    assert ops[..n + 1][..n] == ops[..n];
  }

  // ---------- the invariant, and that it is exact ----------

  /** The part of the state that decides what happens next. */
  datatype Control =
    Control(mode: DaemonMode, shutdownRequested: bool, inFlight: bool, pending: bool, critical: bool)

  function ControlOf(l: Loop): Control {
    Control(l.state.mode, l.shutdownRequested, l.state.inFlightSync, l.state.syncTriggerPending,
        l.state.lastCriticalError.Some?)
  }

  /**
   Stopping exactly when shutdown was requested with a sync in flight; nothing in flight once
   stopped; no shutdown requested while running; a critical error or a shutdown request behind
   every stop; after a critical error nothing pending.
   */
  predicate Consistent(c: Control) {
    && (c.mode == Stopping <==> c.shutdownRequested && c.inFlight)
    && (c.mode == Stopped ==> !c.inFlight)
    && (c.mode == Running ==> !c.shutdownRequested)
    && (c.critical ==> c.mode == Stopped && !c.pending)
    && (c.mode == Stopped && !c.shutdownRequested ==> c.critical)
  }

  lemma StepConsistent(l: Loop, period: nat, op: Op)
    requires Consistent(ControlOf(l))
    ensures Consistent(ControlOf(Step(l, period, op)))
  {
  }

  lemma {:induction false} AlwaysConsistent(startedAt: u64, period: nat, ops: seq<Op>)
    ensures Consistent(ControlOf(After(startedAt, period, ops)))
  {
    if ops != [] {
      var n := |ops| - 1;
      AfterNext(startedAt, period, ops, n);
      AlwaysConsistent(startedAt, period, ops[..n]);
      StepConsistent(After(startedAt, period, ops[..n]), period, ops[n]);
    }
  }

  predicate Reaches(startedAt: u64, period: nat, ops: seq<Op>, c: Control) {
    ControlOf(After(startedAt, period, ops)) == c
  }

  lemma Extend(startedAt: u64, period: nat, ops: seq<Op>, c: Control, op: Op)
    requires Reaches(startedAt, period, ops, c)
    ensures After(startedAt, period, ops + [op]) == Step(After(startedAt, period, ops), period, op)
  {
    AfterSnoc(startedAt, period, ops, op);
  }

  /** A run that leaves the loop running, with a sync in flight and a trigger pending as asked. */
  lemma ReachRunning(startedAt: u64, period: nat, inFlight: bool, pending: bool) returns (ops: seq<Op>)
    ensures Reaches(startedAt, period, ops, Control(Running, false, inFlight, pending, false))
  {
    ops := [];
    if inFlight {
      Extend(startedAt, period, ops, Control(Running, false, false, false, false), Start(DueAt(startedAt, period)));
      ops := ops + [Start(DueAt(startedAt, period))];
    }
    if pending {
      Extend(startedAt, period, ops, Control(Running, false, inFlight, false, false), Trigger);
      ops := ops + [Trigger];
    }
  }

  lemma ReachAny(startedAt: u64, period: nat, c: Control) returns (ops: seq<Op>)
    requires Consistent(c)
    ensures Reaches(startedAt, period, ops, c)
  {
    match c.mode
    case Running =>
      ops := ReachRunning(startedAt, period, c.inFlight, c.pending);
    case Stopping =>
      var before := ReachRunning(startedAt, period, true, c.pending);
      Extend(startedAt, period, before, Control(Running, false, true, c.pending, false), RequestShutdown);
      ops := before + [RequestShutdown];
    case Stopped =>
      var before := ReachRunning(startedAt, period, false, c.pending);
      if c.critical {
        var fail := Finish(CriticalFailure(""), startedAt);
        Extend(startedAt, period, before, Control(Running, false, false, false, false), fail);
        ops := before + [fail];
        if c.shutdownRequested {
          Extend(startedAt, period, ops, Control(Stopped, false, false, false, true), RequestShutdown);
          ops := ops + [RequestShutdown];
        }
      } else {
        Extend(startedAt, period, before, Control(Running, false, false, c.pending, false), RequestShutdown);
        ops := before + [RequestShutdown];
      }
  }

  /** The reachable control states are exactly the consistent ones. */
  lemma ReachableIff(startedAt: u64, period: nat, c: Control)
    ensures Consistent(c) <==> exists ops: seq<Op> :: Reaches(startedAt, period, ops, c)
  {
    hide Consistent;
    if Consistent(c) {
      var ops := ReachAny(startedAt, period, c);
    }
    if ops: seq<Op> :| Reaches(startedAt, period, ops, c) {
      AlwaysConsistent(startedAt, period, ops);
    }
  }

  // ---------- shutdown ----------

  /** The loop just before operation `i`. */
  function At(startedAt: u64, period: nat, ops: seq<Op>, i: nat): Loop
    requires i <= |ops|
  {
    After(startedAt, period, ops[..i])
  }

  lemma AtNext(startedAt: u64, period: nat, ops: seq<Op>, i: nat)
    requires i < |ops|
    ensures At(startedAt, period, ops, i + 1) == Step(At(startedAt, period, ops, i), period, ops[i])
    ensures Consistent(ControlOf(At(startedAt, period, ops, i)))
  {
    AfterNext(startedAt, period, ops, i);
    AlwaysConsistent(startedAt, period, ops[..i]);
    hide After, Step, Consistent;
  }

  /** The direct start at position `i` succeeds. */
  predicate Starts(startedAt: u64, period: nat, ops: seq<Op>, i: nat)
    requires i < |ops|
  {
    ops[i].Start? && ShouldStart(At(startedAt, period, ops, i), ops[i].now)
  }

  /** The loop was idle at `i`, or some sync ended in `i..j`. */
  predicate IdleOrEnded(startedAt: u64, period: nat, ops: seq<Op>, i: nat, j: nat)
    requires i <= j <= |ops|
  {
    !At(startedAt, period, ops, i).state.inFlightSync || exists m :: i <= m < j && EndsSync(ops[m])
  }

  lemma {:induction false} ShutdownSticks(startedAt: u64, period: nat, ops: seq<Op>, i: nat, j: nat)
    requires i < j <= |ops| && ops[i] == RequestShutdown
    ensures At(startedAt, period, ops, j).shutdownRequested
    ensures IdleOrEnded(startedAt, period, ops, i, j) ==> At(startedAt, period, ops, j).state.mode == Stopped
  {
    AtNext(startedAt, period, ops, j - 1);
    hide At;
    if i < j - 1 {
      ShutdownSticks(startedAt, period, ops, i, j - 1);
    }
  }

  /**
   After a shutdown request no direct start succeeds; the loop is stopped at once when nothing was
   in flight, and otherwise from the first finish on, for good.
   */
  lemma ShutdownRun(startedAt: u64, period: nat, ops: seq<Op>, i: nat, j: nat)
    requires i < j <= |ops| && ops[i] == RequestShutdown
    ensures j < |ops| ==> !Starts(startedAt, period, ops, j)
    ensures At(startedAt, period, ops, j).state.mode != Running
    ensures At(startedAt, period, ops, j).state.mode == Stopped <==> IdleOrEnded(startedAt, period, ops, i, j)
  {
    ShutdownSticks(startedAt, period, ops, i, j);
    AlwaysConsistent(startedAt, period, ops[..j]);
    if !IdleOrEnded(startedAt, period, ops, i, j) {
      FlightLasts(startedAt, period, ops, i, j);
    }
    hide After;
  }

  /** A loop that was told to shut down and has stopped stays stopped. */
  lemma {:induction false} StaysStopped(startedAt: u64, period: nat, ops: seq<Op>, more: seq<Op>)
    requires var l := After(startedAt, period, ops); l.shutdownRequested && l.state.mode == Stopped
    ensures var l := After(startedAt, period, ops + more); l.shutdownRequested && l.state.mode == Stopped
  {
    if more == [] {
      AppendNil(ops);
    } else {
      var n := |more| - 1;
      assert (ops + more)[..|ops| + n] == ops + more[..n];
      AfterNext(startedAt, period, ops + more, |ops| + n);
      StaysStopped(startedAt, period, ops, more[..n]);
      assert (ops + more)[..|ops| + n + 1] == ops + more;
      AlwaysConsistent(startedAt, period, ops + more[..n]);
      hide After;
    }
  }

  /**
   A stop is final exactly when shutdown was requested: a loop stopped by a critical failure alone
   runs again as soon as a sync finishes successfully.
   */
  lemma StoppedForGoodIff(startedAt: u64, period: nat, ops: seq<Op>)
    requires After(startedAt, period, ops).state.mode == Stopped
    ensures (forall more: seq<Op> :: After(startedAt, period, ops + more).state.mode == Stopped)
       <==> After(startedAt, period, ops).shutdownRequested
  {
    if After(startedAt, period, ops).shutdownRequested {
      forall more: seq<Op>
        ensures After(startedAt, period, ops + more).state.mode == Stopped
      {
        StaysStopped(startedAt, period, ops, more);
      }
    } else {
      var op := Finish(Success(SyncCycleResult(startedAt, [])), startedAt);
      AfterSnoc(startedAt, period, ops, op);
      assert After(startedAt, period, ops + [op]).state.mode == Running;
    }
  }

  /** A run that stops on a critical failure and runs again. */
  lemma RunsAgain(startedAt: u64, period: nat)
    ensures var fail := Finish(CriticalFailure("disk full"), startedAt);
            var success := Finish(Success(SyncCycleResult(startedAt, [])), startedAt);
            After(startedAt, period, [fail]).state.mode == Stopped
            && After(startedAt, period, [fail, success]).state.mode == Running
  {
    var fail := Finish(CriticalFailure("disk full"), startedAt);
    var success := Finish(Success(SyncCycleResult(startedAt, [])), startedAt);
    AfterSnoc(startedAt, period, [], fail);
    assert [] + [fail] == [fail];
    AfterSnoc(startedAt, period, [fail], success);
    assert [fail] + [success] == [fail, success];
  }

  // ---------- what becomes of a trigger ----------

  /** A trigger taken up while the loop was running, with no sync ended since. */
  predicate Untouched(startedAt: u64, period: nat, ops: seq<Op>, i: nat)
    requires i < |ops|
  {
    ops[i] == Trigger && At(startedAt, period, ops, i).state.mode == Running && forall m :: i < m < |ops| ==>
        !EndsSync(ops[m])
  }

  /**
   A trigger is pending exactly when one was taken up and no sync has ended since: also one that
   arrives while a sync is in flight is gone when that sync ends.
   */
  lemma {:induction false} TriggerPendingIff(startedAt: u64, period: nat, ops: seq<Op>)
    ensures After(startedAt, period, ops).state.syncTriggerPending
       <==> exists i :: 0 <= i < |ops| && Untouched(startedAt, period, ops, i)
  {
    if ops != [] {
      hide Untouched, Step, After;
      var n := |ops| - 1;
      var init := ops[..n];
      AfterNext(startedAt, period, ops, n);
      assert ops[..n + 1] == ops;
      TriggerPendingIff(startedAt, period, init);
      TriggerStep(After(startedAt, period, init), period, ops[n]);
      UntouchedLast(startedAt, period, ops);
      forall i | 0 <= i < n
        ensures Untouched(startedAt, period, ops, i) <==> Untouched(startedAt, period, init, i) && !EndsSync(ops[n])
      {
        UntouchedPrefix(startedAt, period, ops, i);
      }
    }
  }

  lemma TriggerStep(l: Loop, period: nat, op: Op)
    ensures Step(l, period, op).state.syncTriggerPending
       <==> (op == Trigger && l.state.mode == Running) || (l.state.syncTriggerPending && !EndsSync(op))
  {
    hide DueAt, ShouldStart;
  }

  lemma UntouchedLast(startedAt: u64, period: nat, ops: seq<Op>)
    requires ops != []
    ensures var n := |ops| - 1;
            Untouched(startedAt, period, ops, n)
            <==> ops[n] == Trigger && After(startedAt, period, ops[..n]).state.mode == Running
  {
    hide After;
  }

  lemma UntouchedPrefix(startedAt: u64, period: nat, ops: seq<Op>, i: nat)
    requires i < |ops| - 1
    ensures var n := |ops| - 1;
            Untouched(startedAt, period, ops, i) <==> Untouched(startedAt, period, ops[..n], i) && !EndsSync(ops[n])
  {
    hide After;
    var n := |ops| - 1;
    assert ops[..n][..i] == ops[..i];
    assert forall m :: i < m < n ==> ops[..n][m] == ops[m];
  }

  // ---------- starts are separated and bounded in rate ----------

  /** A sync in flight stays in flight until something ends it. */
  lemma {:induction false} FlightLasts(startedAt: u64, period: nat, ops: seq<Op>, i: nat, j: nat)
    requires i <= j <= |ops| && At(startedAt, period, ops, i).state.inFlightSync
    requires forall m :: i <= m < j ==> !EndsSync(ops[m])
    ensures At(startedAt, period, ops, j).state.inFlightSync
    decreases j
  {
    if i < j {
      FlightLasts(startedAt, period, ops, i, j - 1);
      AtNext(startedAt, period, ops, j - 1);
      hide At;
    }
  }

  /** Two successful starts always have a finish between them. */
  lemma StartsSeparated(startedAt: u64, period: nat, ops: seq<Op>, i: nat, j: nat)
    requires i < j < |ops|
    requires Starts(startedAt, period, ops, i) && Starts(startedAt, period, ops, j)
    ensures exists m :: i < m < j && EndsSync(ops[m])
  {
    AtNext(startedAt, period, ops, i);
    hide At;
    if forall m :: i + 1 <= m < j ==> !EndsSync(ops[m]) {
      FlightLasts(startedAt, period, ops, i + 1, j);
    }
  }

  /** The last clock reading of a run. */
  function LastTime(startedAt: u64, ops: seq<Op>): u64 {
    if ops == [] then startedAt
    else
      match TimeOf(ops[|ops| - 1])
      case Some(t) => t
      case None => LastTime(startedAt, ops[..|ops| - 1])
  }

  /** Clock readings never go back and never precede the start of the daemon. */
  predicate ClockForward(startedAt: u64, ops: seq<Op>) {
    ops == [] || (ClockForward(startedAt, ops[..|ops| - 1])
        && LastTime(startedAt, ops[..|ops| - 1]) <= LastTime(startedAt, ops))
  }

  /** How many direct starts succeed. */
  function CountStarts(startedAt: u64, period: nat, ops: seq<Op>): nat {
    if ops == [] then 0
    else
      var n := |ops| - 1;
      CountStarts(startedAt, period, ops[..n]) + (if Starts(startedAt, period, ops, n) then 1 else 0)
  }

  /** Discovery triggers that raised the flag: the loop was running and nothing was pending yet. */
  function CountRaised(startedAt: u64, period: nat, ops: seq<Op>): nat {
    if ops == [] then 0
    else
      var n := |ops| - 1;
      var s := At(startedAt, period, ops, n).state;
      CountRaised(startedAt, period, ops[..n])
          + (if ops[n] == Trigger && s.mode == Running && !s.syncTriggerPending then 1 else 0)
  }

  lemma MulBound(k: int, d: int)
    requires d > 0
    ensures k >= 1 ==> k * d >= d
    ensures k <= -1 ==> k * d <= -d
  {
  }

  lemma DivUnique(x: int, d: int, q: int, r: int)
    requires d > 0 && x == q * d + r && 0 <= r < d
    ensures x / d == q
  {
    var k := x / d - q;
    assert x == (x / d) * d + x % d;
    assert k * d == r - x % d;
    MulBound(k, d);
  }

  lemma DivMonotone(x: int, y: int, d: int)
    requires d > 0 && x <= y
    ensures x / d <= y / d
  {
    var k := x / d - y / d;
    assert x == (x / d) * d + x % d && y == (y / d) * d + y % d;
    assert k * d == (x - y) + (y % d - x % d);
    MulBound(k, d);
  }

  /** Whole periods between the start of the daemon and `t`. */
  function Periods(startedAt: u64, period: nat, t: int): int
    requires period >= 1
  {
    (t - startedAt) / period
  }

  lemma PeriodsMonotone(startedAt: u64, period: nat, t: int, u: int)
    requires period >= 1
    ensures t <= u ==> Periods(startedAt, period, t) <= Periods(startedAt, period, u)
    ensures Periods(startedAt, period, t + period) == Periods(startedAt, period, t) + 1
  {
    if t <= u {
      DivMonotone(t - startedAt, u - startedAt, period);
    }
    var x := t - startedAt;
    assert x == (x / period) * period + x % period;
    assert (x / period + 1) * period == (x / period) * period + period;
    DivUnique(x + period, period, x / period + 1, x % period);
  }

  /** No due time of the run wraps. */
  predicate Fits(startedAt: u64, period: nat, ops: seq<Op>) {
    startedAt + period <= U64_MAX && forall i :: 0 <= i < |ops| ==> NoOverflow(period, ops[i])
  }

  predicate NoOverflow(period: nat, op: Op) {
    EndsSync(op) ==> op.now + period <= U64_MAX
  }

  lemma FitsPrefix(startedAt: u64, period: nat, ops: seq<Op>, n: nat)
    requires Fits(startedAt, period, ops) && n < |ops|
    ensures Fits(startedAt, period, ops[..n]) && NoOverflow(period, ops[n])
  {
  }

  /** The counting invariant: `starts` successes, `raised` triggers, last clock reading `last`. */
  predicate Counted(startedAt: u64, period: nat, l: Loop, starts: nat, raised: nat, last: u64)
    requires period >= 1
  {
    var base := l.state.nextSyncDueSecs - period;
    && startedAt <= base <= last
    && starts <= raised + Periods(startedAt, period, last)
    && (l.state.mode == Running && !l.state.inFlightSync ==>
          starts + (if l.state.syncTriggerPending then 1 else 0) <= raised + Periods(startedAt, period, base))
  }

  lemma CountedStep(startedAt: u64, period: nat, l: Loop, op: Op, starts: nat, raised: nat, last: u64, now: u64)
    requires period >= 1 && Counted(startedAt, period, l, starts, raised, last) && Consistent(ControlOf(l))
             && NoOverflow(period, op)
    requires last <= now && (match TimeOf(op) case Some(t) => t == now case None => now == last)
    ensures Counted(startedAt, period, Step(l, period, op),
                    starts + (if op.Start? && ShouldStart(l, op.now) then 1 else 0),
                    raised + (if op == Trigger && l.state.mode == Running
                        && !l.state.syncTriggerPending then 1 else 0), now)
  {
    hide Periods;
    PeriodsMonotone(startedAt, period, last, now);
    var base := l.state.nextSyncDueSecs - period;
    PeriodsMonotone(startedAt, period, base, last);
    PeriodsMonotone(startedAt, period, base + period, now);
  }

  lemma {:induction false} AlwaysCounted(startedAt: u64, period: nat, ops: seq<Op>)
    requires period >= 1 && Fits(startedAt, period, ops) && ClockForward(startedAt, ops)
    ensures Counted(startedAt, period, After(startedAt, period, ops), CountStarts(startedAt, period, ops),
                    CountRaised(startedAt, period, ops), LastTime(startedAt, ops))
  {
    if ops == [] {
      assert Periods(startedAt, period, startedAt) == 0;
    } else {
      var n := |ops| - 1;
      AfterNext(startedAt, period, ops, n);
      FitsPrefix(startedAt, period, ops, n);
      assert ops[..n + 1] == ops;
      AlwaysConsistent(startedAt, period, ops[..n]);
      AlwaysCounted(startedAt, period, ops[..n]);
      hide Counted, Step, Consistent, ShouldStart;
      CountedStep(startedAt, period, After(startedAt, period, ops[..n]), ops[n],
          CountStarts(startedAt, period, ops[..n]),
                  CountRaised(startedAt, period, ops[..n]), LastTime(startedAt, ops[..n]), LastTime(startedAt, ops));
    }
  }

  /**
   Sync rate bound: on a clock that never goes back, the direct starts that succeed number at most
   the triggers that raised the flag plus the whole periods (interval plus jitter) elapsed.
   */
  lemma SyncRateBound(startedAt: u64, period: nat, ops: seq<Op>)
    requires period >= 1 && Fits(startedAt, period, ops) && ClockForward(startedAt, ops)
    ensures CountStarts(startedAt, period, ops)
         <= CountRaised(startedAt, period, ops) + (LastTime(startedAt, ops) - startedAt) / period
  {
    hide CountStarts, CountRaised, After, LastTime;
    AlwaysCounted(startedAt, period, ops);
  }

  /** Due exactly one period after the `n`th, with nothing pending. */
  predicate Regular(startedAt: u64, period: nat, n: nat, ops: seq<Op>)
    requires period >= 1
  {
    && ClockForward(startedAt, ops)
    && CountStarts(startedAt, period, ops) == n && CountRaised(startedAt, period, ops) == 0
    && LastTime(startedAt, ops) == startedAt + n * period
    && var l := After(startedAt, period, ops);
       !l.shutdownRequested && l.state.mode == Running && !l.state.inFlightSync && !l.state.syncTriggerPending
       && l.state.nextSyncDueSecs == startedAt + n * period + period
  }

  lemma RegularStep(startedAt: u64, period: nat, n: nat, ops: seq<Op>, t: u64)
    requires period >= 1 && Regular(startedAt, period, n, ops) && t == startedAt + n * period + period
             && t + period <= U64_MAX
    ensures var finish := Finish(Success(SyncCycleResult(t, [])), t);
            Regular(startedAt, period, n + 1, ops + [Start(t)] + [finish])
  {
    hide After, CountStarts, CountRaised, LastTime, ClockForward;
    var finish := Finish(Success(SyncCycleResult(t, [])), t);
    AfterSnoc(startedAt, period, ops, Start(t));
    CountSnoc(startedAt, period, ops, Start(t));
    AfterSnoc(startedAt, period, ops + [Start(t)], finish);
    CountSnoc(startedAt, period, ops + [Start(t)], finish);
    assert (n + 1) * period == n * period + period;
  }

  lemma CountSnoc(startedAt: u64, period: nat, ops: seq<Op>, op: Op)
    ensures var all, l := ops + [op], After(startedAt, period, ops);
            CountStarts(startedAt, period, all)
                == CountStarts(startedAt, period, ops) + (if op.Start? && ShouldStart(l, op.now) then 1 else 0)
            && (op != Trigger ==> CountRaised(startedAt, period, all) == CountRaised(startedAt, period, ops))
            && LastTime(startedAt, all) == (if TimeOf(op).Some? then TimeOf(op).value else LastTime(startedAt, ops))
            && (ClockForward(startedAt, all)
            <==> ClockForward(startedAt, ops) && LastTime(startedAt, ops) <= LastTime(startedAt, all))
  {
    hide After, ShouldStart;
    assert (ops + [op])[..|ops|] == ops;
  }

  lemma {:induction false} RegularRun(startedAt: u64, period: nat, n: nat) returns (ops: seq<Op>)
    requires period >= 1 && startedAt + n * period + period <= U64_MAX
    ensures Regular(startedAt, period, n, ops)
  {
    if n == 0 {
      ops := [];
    } else {
      assert n * period == (n - 1) * period + period;
      var t := startedAt + n * period;
      hide Regular;
      var before := RegularRun(startedAt, period, n - 1);
      RegularStep(startedAt, period, n - 1, before, t);
      ops := before + [Start(t)] + [Finish(Success(SyncCycleResult(t, [])), t)];
    }
  }

  /** The rate bound is attained, for every number of periods the clock has room for. */
  lemma SyncRateAttained(startedAt: u64, period: nat, n: nat) returns (ops: seq<Op>)
    requires period >= 1 && startedAt + n * period + period <= U64_MAX
    ensures ClockForward(startedAt, ops)
    ensures CountStarts(startedAt, period, ops)
         == CountRaised(startedAt, period, ops) + (LastTime(startedAt, ops) - startedAt) / period == n
  {
    ops := RegularRun(startedAt, period, n);
    DivUnique(n * period, period, n, 0);
    hide After, CountStarts, CountRaised, LastTime, ClockForward;
  }

  // ---------- clocks for which the bound holds ----------

  /** The rate bound holds of every run whose clock stays at `t` or before. */
  ghost predicate RateBounded(startedAt: u64, period: nat, t: u64)
    requires period >= 1
  {
    forall ops: seq<Op> :: ClockForward(startedAt, ops) && LastTime(startedAt, ops) <= t ==>
      CountStarts(startedAt, period, ops)
      <= CountRaised(startedAt, period, ops) + (LastTime(startedAt, ops) - startedAt) / period
  }

  lemma {:induction false} TimesFit(startedAt: u64, period: nat, ops: seq<Op>)
    requires ClockForward(startedAt, ops) && LastTime(startedAt, ops) + period <= U64_MAX
    ensures Fits(startedAt, period, ops)
  {
    if ops != [] {
      var n := |ops| - 1;
      TimesFit(startedAt, period, ops[..n]);
      assert forall i :: 0 <= i < n ==> ops[..n][i] == ops[i];
    }
  }

  /** Always due: idle, nothing pending, `n` starts so far, all the time at `t`. */
  predicate Spinning(startedAt: u64, period: nat, n: nat, t: u64, ops: seq<Op>) {
    && ClockForward(startedAt, ops) && LastTime(startedAt, ops) == t
    && CountStarts(startedAt, period, ops) == n && CountRaised(startedAt, period, ops) == 0
    && var l := After(startedAt, period, ops);
       !l.shutdownRequested && l.state.mode == Running && !l.state.inFlightSync && l.state.nextSyncDueSecs <= t
  }

  lemma SpinStep(startedAt: u64, period: nat, n: nat, t: u64, ops: seq<Op>)
    requires Spinning(startedAt, period, n, t, ops) && DueAt(t, period) <= t
    ensures Spinning(startedAt, period, n + 1, t, ops + [Start(t)] + [Finish(Success(SyncCycleResult(t, [])), t)])
  {
    hide After, CountStarts, CountRaised, LastTime, ClockForward;
    var finish := Finish(Success(SyncCycleResult(t, [])), t);
    AfterSnoc(startedAt, period, ops, Start(t));
    CountSnoc(startedAt, period, ops, Start(t));
    AfterSnoc(startedAt, period, ops + [Start(t)], finish);
    CountSnoc(startedAt, period, ops + [Start(t)], finish);
  }

  lemma SpinStart(startedAt: u64, period: nat, t: u64)
    requires startedAt <= t && DueAt(t, period) <= t
    ensures Spinning(startedAt, period, 0, t, [] + [RunStartup(Success(SyncCycleResult(t, [])), t)])
  {
    hide After, CountStarts, CountRaised, LastTime, ClockForward;
    FirstState(startedAt, period);
    AfterSnoc(startedAt, period, [], RunStartup(Success(SyncCycleResult(t, [])), t));
    CountSnoc(startedAt, period, [], RunStartup(Success(SyncCycleResult(t, [])), t));
  }

  lemma FirstState(startedAt: u64, period: nat)
    ensures CountStarts(startedAt, period, []) == 0 && CountRaised(startedAt, period, []) == 0
    ensures LastTime(startedAt, []) == startedAt && ClockForward(startedAt, [])
    ensures After(startedAt, period, []) == Initial(startedAt, period)
  {
  }

  lemma {:induction false} Spin(startedAt: u64, period: nat, n: nat, t: u64) returns (ops: seq<Op>)
    requires startedAt <= t && DueAt(t, period) <= t
    ensures Spinning(startedAt, period, n, t, ops)
  {
    hide Spinning, DueAt;
    if n == 0 {
      SpinStart(startedAt, period, t);
      ops := [] + [RunStartup(Success(SyncCycleResult(t, [])), t)];
    } else {
      var before := Spin(startedAt, period, n - 1, t);
      SpinStep(startedAt, period, n - 1, t, before);
      ops := before + [Start(t)] + [Finish(Success(SyncCycleResult(t, [])), t)];
    }
  }

  /**
   The bound holds of every run up to clock reading `t` exactly when the due time of a sync ending at
   `t` does not wrap. Past that point every sync is due at once.
   */
  lemma RateBoundedIff(startedAt: u64, period: nat, t: u64)
    requires 1 <= period <= U64_MAX && startedAt <= t
    ensures RateBounded(startedAt, period, t) <==> t + period <= U64_MAX
  {
    hide CountStarts, CountRaised, ClockForward, LastTime, Fits, After;
    if t + period <= U64_MAX {
      forall ops: seq<Op> | ClockForward(startedAt, ops) && LastTime(startedAt, ops) <= t
        ensures CountStarts(startedAt, period, ops)
             <= CountRaised(startedAt, period, ops) + (LastTime(startedAt, ops) - startedAt) / period
      {
        TimesFit(startedAt, period, ops);
        SyncRateBound(startedAt, period, ops);
      }
    } else {
      DivMonotone(0, t - startedAt, period);
      DivUnique(0, period, 0, 0);
      var n := (t - startedAt) / period + 1;
      var ops := Spin(startedAt, period, n, t);
    }
  }

  // ---------- what the state remembers ----------

  /** Operation `i` is the last of its kind. */
  predicate LastCount(ops: seq<Op>, i: nat) {
    i < |ops| && ops[i].SetKnownPeers? && forall j :: i < j < |ops| ==> !ops[j].SetKnownPeers?
  }

  predicate LastEnd(ops: seq<Op>, i: nat) {
    i < |ops| && EndsSync(ops[i]) && forall j :: i < j < |ops| ==> !EndsSync(ops[j])
  }

  predicate Succeeds(op: Op) {
    EndsSync(op) && op.execution.Success?
  }

  predicate LastSuccess(ops: seq<Op>, i: nat) {
    i < |ops| && Succeeds(ops[i]) && forall j :: i < j < |ops| ==> !Succeeds(ops[j])
  }

  /** The peer count is the last one set. */
  lemma {:induction false} PeersCountIs(startedAt: u64, period: nat, ops: seq<Op>, i: nat)
    requires LastCount(ops, i)
    ensures After(startedAt, period, ops).state.knownPeersCount == ops[i].count
    decreases |ops|
  {
    hide DueAt;
    var n := |ops| - 1;
    if i < n {
      PeersCountIs(startedAt, period, ops[..n], i);
    }
  }

  /** The critical error is that of the last sync that ended, if it failed; starts and triggers leave it. */
  lemma {:induction false} CriticalErrorIs(startedAt: u64, period: nat, ops: seq<Op>, i: nat)
    requires LastEnd(ops, i)
    ensures After(startedAt, period, ops).state.lastCriticalError
         == match ops[i].execution case Success(_) => None case CriticalFailure(message) => Some(message)
    decreases |ops|
  {
    hide DueAt;
    var n := |ops| - 1;
    if i < n {
      CriticalErrorIs(startedAt, period, ops[..n], i);
    }
  }

  /**
   The time of the last success, its peer errors and the due time are those of the last sync that
   succeeded; a failed one leaves all three. Due is interval and jitter after it ended, in 64 bits.
   */
  lemma {:induction false} SuccessIs(startedAt: u64, period: nat, ops: seq<Op>, i: nat)
    requires LastSuccess(ops, i)
    ensures var state, result := After(startedAt, period, ops).state, ops[i].execution.result;
            state.lastSuccessfulSyncAtSecs == Some(result.completedAtSecs) && state.lastPeerErrors == result.peerErrors
            && state.nextSyncDueSecs == (ops[i].now + period) % 0x1_0000_0000_0000_0000
    decreases |ops|
  {
    hide DueAt;
    var n := |ops| - 1;
    if i < n {
      SuccessIs(startedAt, period, ops[..n], i);
    }
    DueIs(ops[i].now, period);
  }

  lemma DueIs(t: u64, period: nat)
    ensures DueAt(t, period) == (t + period) % 0x1_0000_0000_0000_0000
  {
  }

  /** Before any operation of the kind the fields are as at the start. */
  lemma {:induction false} NothingYet(startedAt: u64, period: nat, ops: seq<Op>)
    ensures var state := After(startedAt, period, ops).state;
            ((forall i :: 0 <= i < |ops| ==> !ops[i].SetKnownPeers?) ==> state.knownPeersCount == 0)
            && ((forall i :: 0 <= i < |ops| ==> !EndsSync(ops[i])) ==> state.lastCriticalError == None)
            && ((forall i :: 0 <= i < |ops| ==> !Succeeds(ops[i])) ==>
                  state.lastSuccessfulSyncAtSecs == None && state.lastPeerErrors == []
                  && state.nextSyncDueSecs == (startedAt + period) % 0x1_0000_0000_0000_0000)
  {
    hide DueAt;
    DueIs(startedAt, period);
    if ops != [] {
      var n := |ops| - 1;
      NothingYet(startedAt, period, ops[..n]);
    }
  }
}
