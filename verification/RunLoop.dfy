/**
 The loop the daemon runs: hear announcements, take the sync trigger, sync when it was set or the
 next sync is due. It keeps its own clock and does not use the daemon-loop object.
 */
module RunLoop {
  import opened Prelude
  import opened Text
  import opened Auth
  import opened Replay
  import opened Discovery
  import opened DiscoveryLaws
  import Daemon
  import DaemonLaws

  /** What a run starts from. */
  datatype Setup = Setup(crypto: Crypto, cfg: Config, bootstrap: seq<string>, startedAt: u64, interval: u64)

  /** One turn of the loop: the announcements that came in, and the clock reading after them. */
  datatype Turn = Turn(announcements: seq<Call>, now: u64)

  function Heard(t: Turn): (ops: seq<Op>)
    ensures |ops| == |t.announcements| && forall i :: 0 <= i < |ops| ==> ops[i] == Announce(t.announcements[i])
  {
    seq(|t.announcements|, i requires 0 <= i < |t.announcements| => Announce(t.announcements[i]))
  }

  /** What the discovery engine goes through in a run. */
  function OpsOf(s: Setup, turns: seq<Turn>): seq<Op>
    decreases |turns|, 1
  {
    if turns == [] then [Bootstrap(s.bootstrap)] else OpsBefore(s, turns) + [Take]
  }

  /** The same up to the last take. */
  function OpsBefore(s: Setup, turns: seq<Turn>): seq<Op>
    requires turns != []
    decreases |turns|, 0
  {
    OpsOf(s, turns[..|turns| - 1]) + Heard(turns[|turns| - 1])
  }

  /** The last turn finds the trigger set. */
  predicate Triggered(s: Setup, turns: seq<Turn>)
    requires turns != []
  {
    StateAfter(s.crypto, s.cfg, OpsBefore(s, turns)).pending
  }

  function Period(s: Setup): (d: u64)
    ensures d >= 1
  {
    Daemon.Max1(s.interval)
  }

  /** When the next sync is due after these turns; the 64-bit addition wraps. */
  function NextSync(s: Setup, turns: seq<Turn>): u64
    decreases |turns|, 1
  {
    if turns == [] then s.startedAt
    else if Syncs(s, turns) then WrappingAdd(turns[|turns| - 1].now, Period(s))
    else NextSync(s, turns[..|turns| - 1])
  }

  /** The last turn runs a sync cycle. */
  predicate Syncs(s: Setup, turns: seq<Turn>)
    requires turns != []
    decreases |turns|, 0
  {
    turns[|turns| - 1].now >= NextSync(s, turns[..|turns| - 1]) || Triggered(s, turns)
  }

  /** The loop, turn by turn, over a discovery engine. */
  method Run(s: Setup, turns: seq<Turn>) returns (synced: seq<bool>)
    ensures |synced| == |turns| && forall n :: 0 <= n < |turns| ==> synced[n] == Syncs(s, turns[..n + 1])
  {
    hide StateAfter, AnnouncementStep, Heard, Period, VerifierCalls, SeenAfter;
    var discovery := new DiscoveryEngine(s.crypto, s.cfg.expectedSid, s.cfg.sidToken, s.cfg.skew, s.cfg.ttl);
    discovery.AddBootstrapPeers(s.bootstrap);
    var nextSyncAt := s.startedAt;
    synced := [];
    for n := 0 to |turns|
      invariant fresh(discovery) && fresh(discovery.verifier)
      invariant discovery.Valid() && discovery.crypto == s.crypto && discovery.Cfg() == s.cfg
      invariant discovery.history == OpsOf(s, turns[..n]) && nextSyncAt == NextSync(s, turns[..n])
      invariant |synced| == n && forall m :: 0 <= m < n ==> synced[m] == Syncs(s, turns[..m + 1])
    {
      assert turns[..n + 1][..n] == turns[..n];
      Hear(discovery, turns[n]);
      assert discovery.history == OpsBefore(s, turns[..n + 1]);
      var now := turns[n].now;
      var syncDue := now >= nextSyncAt;
      var discoveryTrigger := discovery.TakeSyncTrigger();
      var syncs := syncDue || discoveryTrigger;
      if syncs {
        nextSyncAt := WrappingAdd(now, Period(s));
      }
      synced := synced + [syncs];
    }
  }

  /** The announcements of one turn. */
  method Hear(discovery: DiscoveryEngine, turn: Turn)
    requires discovery.Valid()
    modifies discovery, discovery.verifier
    ensures discovery.Valid() && discovery.history == old(discovery.history) + Heard(turn)
    ensures discovery.Cfg() == old(discovery.Cfg())
  {
    hide StateAfter, AnnouncementStep;
    var calls := turn.announcements;
    AppendNil(discovery.history);
    for i := 0 to |calls|
      invariant discovery.Valid() && discovery.Cfg() == old(discovery.Cfg())
      invariant discovery.history == old(discovery.history) + Heard(turn)[..i]
    {
      var outcome := discovery.ProcessAnnouncement(calls[i].envelope, calls[i].now);
      assert Heard(turn)[..i + 1] == Heard(turn)[..i] + [Announce(calls[i])];
      Assoc(old(discovery.history), Heard(turn)[..i], [Announce(calls[i])]);
    }
    assert Heard(turn)[..|calls|] == Heard(turn);
  }

  // ---------- news is acted on in the turn that brings it ----------

  /** Where the operations of the last turn begin; the bootstrap counts with the first. */
  function TurnStart(s: Setup, turns: seq<Turn>): nat
    requires turns != []
  {
    if |turns| == 1 then 0 else |OpsOf(s, turns[..|turns| - 1])|
  }

  /** The last turn brings news: a peer added or updated, or a new bootstrap id before the first turn. */
  predicate News(s: Setup, turns: seq<Turn>)
    requires turns != []
  {
    exists k :: TurnStart(s, turns) <= k < |OpsBefore(s, turns)| && Raises(s.crypto, s.cfg, OpsBefore(s, turns), k)
  }

  lemma TakesOutside(s: Setup, turns: seq<Turn>)
    requires turns != []
    ensures var ops, start := OpsBefore(s, turns), TurnStart(s, turns);
            start <= |ops| && (start > 0 ==> ops[start - 1] == Take) && forall m :: start <= m < |ops| ==> !ops[m].Take?
  {
    var init := turns[..|turns| - 1];
    if |turns| == 1 {
      assert init == [];
      assert OpsOf(s, init) == [Bootstrap(s.bootstrap)];
    } else {
      assert OpsOf(s, init) == OpsBefore(s, init) + [Take];
    }
  }

  /** The trigger is set in a turn exactly when the turn itself brings news. */
  lemma TriggeredIff(s: Setup, turns: seq<Turn>)
    requires turns != []
    ensures Triggered(s, turns) <==> News(s, turns)
  {
    hide StateAfter, Raises, OpsBefore, TurnStart;
    var ops, start := OpsBefore(s, turns), TurnStart(s, turns);
    PendingIff(s.crypto, s.cfg, ops);
    TakesOutside(s, turns);
    if start > 0 {
      TakeIsNoNews(s.crypto, s.cfg, ops, start - 1);
    }
  }

  /** A turn syncs exactly when a sync is due or the turn itself brings news. */
  lemma SyncsIff(s: Setup, turns: seq<Turn>)
    requires turns != []
    ensures Syncs(s, turns) <==> turns[|turns| - 1].now >= NextSync(s, turns[..|turns| - 1]) || News(s, turns)
  {
    hide News, Triggered;
    TriggeredIff(s, turns);
  }

  // ---------- the rate of syncs ----------

  /** The clock never goes back, from the start on. */
  predicate ClockForward(s: Setup, turns: seq<Turn>) {
    (forall i :: 0 <= i < |turns| ==> s.startedAt <= turns[i].now)
    && forall i, j :: 0 <= i < j < |turns| ==> turns[i].now <= turns[j].now
  }

  function CountSyncs(s: Setup, turns: seq<Turn>): nat {
    if turns == [] then 0 else CountSyncs(s, turns[..|turns| - 1]) + (if Syncs(s, turns) then 1 else 0)
  }

  /** How many turns bring news. */
  function CountNews(s: Setup, turns: seq<Turn>): nat {
    if turns == [] then 0 else CountNews(s, turns[..|turns| - 1]) + (if News(s, turns) then 1 else 0)
  }

  /** No due time of the run wraps. */
  predicate Fits(s: Setup, turns: seq<Turn>) {
    s.startedAt + Period(s) <= U64_MAX && (turns == [] || turns[|turns| - 1].now + Period(s) <= U64_MAX)
  }

  /** Every sync beyond the news has moved the due time on by a whole period, and it is never more than one ahead. */
  lemma {:induction false} Paced(s: Setup, turns: seq<Turn>)
    requires ClockForward(s, turns) && Fits(s, turns)
    ensures CountNews(s, turns) <= CountSyncs(s, turns)
    ensures s.startedAt + (CountSyncs(s, turns) - CountNews(s, turns)) * Period(s) <= NextSync(s, turns)
    ensures NextSync(s, turns) <= (if turns == [] then s.startedAt else turns[|turns| - 1].now + Period(s))
  {
    hide News, Triggered, Period;
    if turns != [] {
      var init := turns[..|turns| - 1];
      Paced(s, init);
      TriggeredIff(s, turns);
      var extra, d := CountSyncs(s, init) - CountNews(s, init), Period(s);
      assert (extra + 1) * d == extra * d + d;
    }
  }

  /**
   Over every run on a clock that does not go back, the sync cycles number at most the turns that
   bring news, plus the whole intervals elapsed, plus the one at the start.
   */
  lemma SyncBound(s: Setup, turns: seq<Turn>)
    requires turns != [] && ClockForward(s, turns) && Fits(s, turns)
    ensures CountSyncs(s, turns)
         <= CountNews(s, turns) + 1 + (turns[|turns| - 1].now - s.startedAt) / Period(s)
  {
    hide CountSyncs, CountNews, NextSync, Period;
    Paced(s, turns);
    var d, elapsed, extra :=
        Period(s), turns[|turns| - 1].now - s.startedAt, CountSyncs(s, turns) - CountNews(s, turns);
    DaemonLaws.DivUnique(extra * d, d, extra, 0);
    DaemonLaws.DivMonotone(extra * d, elapsed + d, d);
    DaemonLaws.PeriodsMonotone(0, d, elapsed, elapsed);
  }

  /** Nothing is heard. */
  predicate Quiet(turns: seq<Turn>) {
    forall i :: 0 <= i < |turns| ==> turns[i].announcements == []
  }

  lemma QuietState(s: Setup, turns: seq<Turn>)
    requires s.bootstrap == [] && Quiet(turns)
    ensures !StateAfter(s.crypto, s.cfg, OpsOf(s, turns)).pending
    ensures turns != [] ==> !Triggered(s, turns)
  {
    var init := if turns == [] then [] else turns[..|turns| - 1];
    if turns == [] {
      StateSnoc(s.crypto, s.cfg, [], Bootstrap([]));
      assert [] + [Bootstrap([])] == [Bootstrap([])];
      BootstrapNone(StateAfter(s.crypto, s.cfg, []));
    } else {
      QuietState(s, init);
      assert Heard(turns[|turns| - 1]) == [];
      AppendNil(OpsOf(s, init));
      StateSnoc(s.crypto, s.cfg, OpsBefore(s, turns), Take);
    }
  }

  /** One more quiet turn, just when the next sync is due. */
  lemma QuietStep(s: Setup, init: seq<Turn>, now: u64)
    requires s.bootstrap == [] && Quiet(init) && ClockForward(s, init) && NextSync(s, init) == now
    requires now + Period(s) <= U64_MAX && s.startedAt <= now && (init != [] ==> init[|init| - 1].now <= now)
    ensures var turns := init + [Turn([], now)];
            Quiet(turns) && ClockForward(s, turns) &&
            CountSyncs(s, turns) == CountSyncs(s, init) + 1 && CountNews(s, turns) == CountNews(s, init)
            && NextSync(s, turns) == now + Period(s)
  {
    hide *;
    var turns := init + [Turn([], now)];
    ForwardSnoc(s, init, Turn([], now));
    QuietSnoc(init, now);
    QuietState(s, turns);
    TriggeredIff(s, turns);
    DueTurn(s, init, Turn([], now));
  }

  lemma QuietSnoc(init: seq<Turn>, now: u64)
    requires Quiet(init)
    ensures Quiet(init + [Turn([], now)])
  {
  }

  /** A turn at or after the due time syncs, and counts so. */
  lemma DueTurn(s: Setup, init: seq<Turn>, t: Turn)
    requires t.now >= NextSync(s, init)
    ensures var turns := init + [t];
            CountSyncs(s, turns) == CountSyncs(s, init) + 1 && NextSync(s, turns) == WrappingAdd(t.now, Period(s))
            && CountNews(s, turns) == CountNews(s, init) + (if News(s, turns) then 1 else 0)
            && (t.now + Period(s) <= U64_MAX ==> NextSync(s, turns) == t.now + Period(s))
  {
    hide News, Triggered, Period;
    assert (init + [t])[..|init|] == init;
  }

  lemma ForwardSnoc(s: Setup, init: seq<Turn>, t: Turn)
    requires ClockForward(s, init) && s.startedAt <= t.now && (init != [] ==> init[|init| - 1].now <= t.now)
    ensures ClockForward(s, init + [t])
  {
  }

  /** The end of the `n`th period. */
  function Due(s: Setup, n: nat): nat {
    s.startedAt + n * Period(s)
  }

  lemma DueNext(s: Setup, n: nat)
    ensures Due(s, 0) == s.startedAt && Due(s, n + 1) == Due(s, n) + Period(s) && Due(s, n) >= s.startedAt
  {
    hide Period;
  }

  lemma DueElapsed(s: Setup, n: nat)
    ensures (Due(s, n) - s.startedAt) / Period(s) == n
  {
    hide Period;
    DaemonLaws.DivUnique(n * Period(s), Period(s), n, 0);
  }

  /** The bound is attained: a quiet run syncs once at the start and then once a period. */
  lemma {:induction false} SyncBoundAttained(s: Setup, n: nat) returns (turns: seq<Turn>)
    requires s.bootstrap == [] && Due(s, n + 1) <= U64_MAX
    ensures |turns| == n + 1 && Quiet(turns) && ClockForward(s, turns)
    ensures CountSyncs(s, turns) == n + 1 && CountNews(s, turns) == 0
    ensures turns[n].now == Due(s, n) && NextSync(s, turns) == Due(s, n + 1)
    ensures CountSyncs(s, turns) == CountNews(s, turns) + 1 + (turns[n].now - s.startedAt) / Period(s)
  {
    hide *;
    DueNext(s, n);
    DueElapsed(s, n);
    var init := [];
    if n == 0 {
      QuietStart(s);
    } else {
      DueNext(s, n - 1);
      init := SyncBoundAttained(s, n - 1);
    }
    QuietStep(s, init, Due(s, n));
    turns := init + [Turn([], Due(s, n))];
  }

  lemma QuietStart(s: Setup)
    ensures Quiet([]) && CountSyncs(s, []) == 0 && CountNews(s, []) == 0 && NextSync(s, []) == s.startedAt
            && ClockForward(s, [])
  {
  }

  // ---------- clocks for which the bound holds ----------

  /** The bound holds of every run whose clock stays at `t` or before. */
  ghost predicate SyncBounded(s: Setup, t: u64) {
    forall turns: seq<Turn> :: turns != [] && ClockForward(s, turns) && turns[|turns| - 1].now <= t ==>
      CountSyncs(s, turns) <= CountNews(s, turns) + 1 + (turns[|turns| - 1].now - s.startedAt) / Period(s)
  }

  /** Any turn but the first brings no news when nothing is heard. */
  lemma SilentTurn(s: Setup, init: seq<Turn>, t: u64)
    requires init != []
    ensures !News(s, init + [Turn([], t)])
  {
    hide Raises;
    var turns := init + [Turn([], t)];
    assert turns[..|turns| - 1] == init && Heard(turns[|turns| - 1]) == [];
    AppendNil(OpsOf(s, init));
  }

  /** Where the due time wraps, every turn syncs. */
  lemma {:induction false} Spin(s: Setup, n: nat, t: u64) returns (turns: seq<Turn>)
    requires s.startedAt <= t && WrappingAdd(t, Period(s)) <= t
    ensures |turns| == n + 1 && ClockForward(s, turns) && turns[n].now == t
    ensures CountSyncs(s, turns) == n + 1 && CountNews(s, turns) <= 1 && NextSync(s, turns) <= t
  {
    hide *;
    var init := [];
    if n == 0 {
      QuietStart(s);
    } else {
      init := Spin(s, n - 1, t);
      SilentTurn(s, init, t);
    }
    turns := init + [Turn([], t)];
    ForwardSnoc(s, init, Turn([], t));
    DueTurn(s, init, Turn([], t));
  }

  /** The bound holds of every run up to clock reading `t` exactly when a due time set at `t` does not wrap. */
  lemma SyncBoundedIff(s: Setup, t: u64)
    requires s.startedAt <= t
    ensures SyncBounded(s, t) <==> t + Period(s) <= U64_MAX
  {
    hide CountSyncs, CountNews, ClockForward, Period;
    if t + Period(s) <= U64_MAX {
      forall turns: seq<Turn> | turns != [] && ClockForward(s, turns) && turns[|turns| - 1].now <= t
        ensures CountSyncs(s, turns) <= CountNews(s, turns) + 1 + (turns[|turns| - 1].now - s.startedAt) / Period(s)
      {
        SyncBound(s, turns);
      }
    } else {
      DaemonLaws.DivMonotone(0, t - s.startedAt, Period(s));
      DaemonLaws.DivUnique(0, Period(s), 0, 0);
      var turns := Spin(s, (t - s.startedAt) / Period(s) + 2, t);
    }
  }

  /** The next sync after one is due a whole interval later, at least a second, unless news comes first. */
  lemma NextAfterSync(s: Setup, turns: seq<Turn>, t: Turn)
    requires turns != [] && Syncs(s, turns)
    ensures var now := turns[|turns| - 1].now;
            var interval := if s.interval == 0 then 1 else s.interval;
            now + interval < 0x1_0000_0000_0000_0000 ==>
              (Syncs(s, turns + [t]) <==> t.now >= now + interval || News(s, turns + [t]))
  {
    hide News, Triggered;
    assert (turns + [t])[..|turns|] == turns;
    SyncsIff(s, turns + [t]);
  }

  /** A turn without a sync leaves the due time, and the first sync is due at once. */
  lemma NextWithoutSync(s: Setup, turns: seq<Turn>)
    ensures turns == [] ==> NextSync(s, turns) == s.startedAt
    ensures turns != [] && !Syncs(s, turns) ==> NextSync(s, turns) == NextSync(s, turns[..|turns| - 1])
  {
    hide News, Triggered;
  }
}
