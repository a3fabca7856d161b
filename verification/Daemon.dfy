/** The daemon loop: mode, in-flight sync, trigger and due time. */
module Daemon {
  import opened Prelude

  datatype DaemonMode = Running | Stopping | Stopped

  datatype PeerSyncErrorKind = AuthFailed | Unreachable | InvalidPayload

  datatype PeerSyncError = PeerSyncError(participantId: string, kind: PeerSyncErrorKind, message: string)

  datatype SyncCycleResult = SyncCycleResult(completedAtSecs: u64, peerErrors: seq<PeerSyncError>)

  datatype SyncExecution = Success(result: SyncCycleResult) | CriticalFailure(message: string)

  datatype DaemonState = DaemonState(
    mode: DaemonMode,
    knownPeersCount: nat,
    syncTriggerPending: bool,
    nextSyncDueSecs: u64,
    inFlightSync: bool,
    lastSuccessfulSyncAtSecs: Option<u64>,
    lastPeerErrors: seq<PeerSyncError>,
    lastCriticalError: Option<string>)

  /** Everything the loop remembers; `period` is interval plus jitter. */
  datatype Loop = Loop(state: DaemonState, shutdownRequested: bool)

  datatype Op =
    | SetKnownPeers(count: nat)
    | Trigger
    | RequestShutdown
    | Start(now: u64)
    | RunStartup(execution: SyncExecution, now: u64)
    | Finish(execution: SyncExecution, now: u64)

  function Max1(interval: u64): u64 {
    if interval < 1 then 1 else interval
  }

  /** A clock reading plus interval and jitter; 64-bit additions wrap. */
  function DueAt(t: u64, period: nat): u64 {
    (t + period) % (U64_MAX + 1)
  }

  lemma DueAdds(t: u64, interval: u64, jitter: u64)
    ensures DueAt(t, interval + jitter) == WrappingAdd(WrappingAdd(t, interval), jitter)
  {
  }

  function Initial(startedAt: u64, period: nat): Loop {
    Loop(DaemonState(Running, 0, false, DueAt(startedAt, period), false, None, [], None), false)
  }

  predicate ShouldStart(l: Loop, now: u64) {
    l.state.mode != Stopped && !l.shutdownRequested && !l.state.inFlightSync
    && (l.state.syncTriggerPending || now >= l.state.nextSyncDueSecs)
  }

  function Finished(l: Loop, period: nat, execution: SyncExecution, now: u64): Loop {
    var s := l.state.(inFlightSync := false, syncTriggerPending := false);
    match execution
    case Success(result) =>
      Loop(s.(lastSuccessfulSyncAtSecs := Some(result.completedAtSecs),
              lastPeerErrors := result.peerErrors,
              lastCriticalError := None,
              nextSyncDueSecs := DueAt(now, period),
              mode := if l.shutdownRequested then Stopped else Running), l.shutdownRequested)
    case CriticalFailure(message) =>
      Loop(s.(lastCriticalError := Some(message), mode := Stopped), l.shutdownRequested)
  }

  /** The time an operation carries, if any. */
  function TimeOf(op: Op): Option<u64> {
    match op
    case Start(now) => Some(now)
    case RunStartup(_, now) => Some(now)
    case Finish(_, now) => Some(now)
    case _ => None
  }

  /** A sync ends in this operation, which adds the period to its clock reading. */
  predicate EndsSync(op: Op) {
    op.Finish? || op.RunStartup?
  }

  function Step(l: Loop, period: nat, op: Op): Loop {
    match op
    case SetKnownPeers(count) => l.(state := l.state.(knownPeersCount := count))
    case Trigger => if l.state.mode == Running then l.(state := l.state.(syncTriggerPending := true)) else l
    case RequestShutdown =>
      if l.state.mode == Stopped then l.(shutdownRequested := true)
      else Loop(l.state.(mode := if l.state.inFlightSync then Stopping else Stopped), true)
    case Start(now) => if ShouldStart(l, now) then l.(state := l.state.(inFlightSync := true)) else l
    case RunStartup(execution, now) => Finished(l.(state := l.state.(inFlightSync := true)), period, execution, now)
    case Finish(execution, now) => Finished(l, period, execution, now)
  }

  function After(startedAt: u64, period: nat, ops: seq<Op>): Loop {
    if ops == [] then Initial(startedAt, period)
    else Step(After(startedAt, period, ops[..|ops| - 1]), period, ops[|ops| - 1])
  }

  lemma AfterSnoc(startedAt: u64, period: nat, ops: seq<Op>, op: Op)
    ensures After(startedAt, period, ops + [op]) == Step(After(startedAt, period, ops), period, op)
  {
    assert (ops + [op])[..|ops|] == ops;
  }

  class DaemonLoop {
    const syncIntervalSecs: u64
    const jitterSecs: u64
    var shutdownRequested: bool
    var state: DaemonState
    ghost const startedAt: u64
    ghost var history: seq<Op>

    ghost function Period(): nat {
      syncIntervalSecs + jitterSecs
    }

    /** The fields are what the calls so far lead to. */
    ghost predicate Valid()
      reads this
    {
      Loop(state, shutdownRequested) == After(startedAt, Period(), history)
    }

    constructor (startedAtSecs: u64, syncIntervalSecs: u64, jitterSecs: u64)
      ensures Valid() && history == [] && startedAt == startedAtSecs
      ensures Period() == (if syncIntervalSecs == 0 then 1 else syncIntervalSecs) + jitterSecs
    {
      var interval := if syncIntervalSecs < 1 then 1 else syncIntervalSecs;
      this.syncIntervalSecs := interval;
      this.jitterSecs := jitterSecs;
      shutdownRequested := false;
      DueAdds(startedAtSecs, interval, jitterSecs);
      var due := WrappingAdd(WrappingAdd(startedAtSecs, interval), jitterSecs);
      state := DaemonState(Running, 0, false, due, false, None, [], None);
      startedAt := startedAtSecs;
      history := [];
    }

    method SetKnownPeersCount(count: nat)
      requires Valid()
      modifies this
      ensures Valid() && history == old(history) + [SetKnownPeers(count)]
    {
      AfterSnoc(startedAt, Period(), history, SetKnownPeers(count));
      history := history + [SetKnownPeers(count)];
      state := state.(knownPeersCount := count);
    }

    method TriggerSyncFromDiscovery()
      requires Valid()
      modifies this
      ensures Valid() && history == old(history) + [Trigger]
    {
      AfterSnoc(startedAt, Period(), history, Trigger);
      history := history + [Trigger];
      if state.mode == Running {
        state := state.(syncTriggerPending := true);
      }
    }

    method RequestShutdown()
      requires Valid()
      modifies this
      ensures Valid() && history == old(history) + [Op.RequestShutdown]
    {
      AfterSnoc(startedAt, Period(), history, Op.RequestShutdown);
      history := history + [Op.RequestShutdown];
      shutdownRequested := true;
      if state.mode == Stopped {
        return;
      }
      if state.inFlightSync {
        state := state.(mode := Stopping);
      } else {
        state := state.(mode := Stopped);
      }
    }

    method ShouldStartSync(nowSecs: u64) returns (r: bool)
      ensures r == ShouldStart(Loop(state, shutdownRequested), nowSecs)
    {
      if state.mode == Stopped || shutdownRequested || state.inFlightSync {
        return false;
      }
      return state.syncTriggerPending || nowSecs >= state.nextSyncDueSecs;
    }

    method StartSync(nowSecs: u64) returns (started: bool)
      requires Valid()
      modifies this
      ensures Valid() && history == old(history) + [Start(nowSecs)]
      ensures started == ShouldStart(After(startedAt, Period(), old(history)), nowSecs)
    {
      AfterSnoc(startedAt, Period(), history, Start(nowSecs));
      history := history + [Start(nowSecs)];
      started := Begin(nowSecs);
    }

    /** `start_sync` on the fields. */
    method Begin(nowSecs: u64) returns (started: bool)
      modifies this`state
      ensures started == ShouldStart(Loop(old(state), shutdownRequested), nowSecs)
      ensures state == if started then old(state).(inFlightSync := true) else old(state)
    {
      var should := ShouldStartSync(nowSecs);
      if !should {
        return false;
      }
      state := state.(inFlightSync := true);
      return true;
    }

    /** `finish_sync` on the fields. */
    method Complete(execution: SyncExecution, nowSecs: u64)
      modifies this`state
      ensures Loop(state, shutdownRequested)
              == Finished(Loop(old(state), shutdownRequested), Period(), execution, nowSecs)
    {
      state := state.(inFlightSync := false);
      state := state.(syncTriggerPending := false);
      match execution {
        case Success(result) =>
          state := state.(lastSuccessfulSyncAtSecs := Some(result.completedAtSecs));
          state := state.(lastPeerErrors := result.peerErrors);
          state := state.(lastCriticalError := None);
          DueAdds(nowSecs, syncIntervalSecs, jitterSecs);
          state := state.(nextSyncDueSecs := WrappingAdd(WrappingAdd(nowSecs, syncIntervalSecs), jitterSecs));
        case CriticalFailure(message) =>
          state := state.(lastCriticalError := Some(message));
          state := state.(mode := Stopped);
          return;
      }
      if shutdownRequested {
        state := state.(mode := Stopped);
      } else {
        state := state.(mode := Running);
      }
    }

    method RunStartupSync(execution: SyncExecution, nowSecs: u64)
      requires Valid()
      modifies this
      ensures Valid() && history == old(history) + [RunStartup(execution, nowSecs)]
    {
      hide After, DueAt, ShouldStart;
      AfterSnoc(startedAt, Period(), history, RunStartup(execution, nowSecs));
      history := history + [RunStartup(execution, nowSecs)];
      var started := Begin(nowSecs);
      if !started {
        state := state.(inFlightSync := true);
      }
      Complete(execution, nowSecs);
    }

    method FinishSync(execution: SyncExecution, nowSecs: u64)
      requires Valid()
      modifies this
      ensures Valid() && history == old(history) + [Finish(execution, nowSecs)]
    {
      hide After, DueAt;
      AfterSnoc(startedAt, Period(), history, Finish(execution, nowSecs));
      history := history + [Finish(execution, nowSecs)];
      Complete(execution, nowSecs);
    }
  }
}
