/** Laws of every run of the verifier: the replay threshold, and what pruning leaves unchanged. */
module ReplayLaws {
  import opened Prelude
  import opened Auth
  import opened Replay

  predicate Accepted(crypto: Crypto, cfg: Config, calls: seq<Call>, i: nat)
    requires i < |calls|
  {
    ResultAt(crypto, cfg, calls, i).Ok?
  }

  /** No later call reads a clock more than `back` seconds behind an earlier one; 0 is a non-decreasing clock. */
  predicate ClockBack(calls: seq<Call>, back: nat) {
    forall i, j :: 0 <= i < j < |calls| ==> calls[i].now <= calls[j].now + back
  }

  predicate SameMessage(a: SignedEnvelope, b: SignedEnvelope) {
    a.senderId == b.senderId && a.nonce == b.nonce && a.timestampSecs == b.timestampSecs
  }

  lemma SeenStep(crypto: Crypto, cfg: Config, calls: seq<Call>, i: nat)
    requires i < |calls|
    ensures SeenAfter(crypto, cfg, calls[..i + 1])
            == VerifyStep(crypto, cfg, SeenAfter(crypto, cfg, calls[..i]), calls[i]).0
  {
    assert calls[..i + 1][..i] == calls[..i];
  }

  /** An accepted key stays cached while no clock reading is more than the TTL past it. */
  lemma {:induction false} StaysCached(crypto: Crypto, cfg: Config, calls: seq<Call>, i: nat, j: nat)
    requires i < j <= |calls| && Accepted(crypto, cfg, calls, i)
    requires forall m :: i < m < j ==> SatSub(calls[m].now, calls[i].now) <= cfg.ttl
    ensures var seen := SeenAfter(crypto, cfg, calls[..j]); var k := NonceKey(calls[i].envelope);
            k in seen && seen[k] == calls[i].now
  {
    hide VerifyEnvelope, SeenAfter, NonceKey, InWindow;
    SeenStep(crypto, cfg, calls, j - 1);
    if j > i + 1 {
      StaysCached(crypto, cfg, calls, i, j - 1);
    }
  }

  /** Two clock readings whose windows share a timestamp are at most twice the skew apart. */
  lemma WindowGap(cfg: Config, c: Call, d: Call)
    requires InWindow(cfg, c) && InWindow(cfg, d) && c.envelope.timestampSecs == d.envelope.timestampSecs
    ensures d.now <= c.now + 2 * cfg.skew
  {
  }

  predicate LongEnough(cfg: Config, back: nat) {
    2 * cfg.skew + back <= cfg.ttl || cfg.ttl == U64_MAX
  }

  lemma AcceptedInWindow(crypto: Crypto, cfg: Config, calls: seq<Call>, i: nat)
    requires i < |calls| && Accepted(crypto, cfg, calls, i)
    ensures InWindow(cfg, calls[i])
  {
  }

  lemma NotAccepted(crypto: Crypto, cfg: Config, calls: seq<Call>, i: nat)
    requires i < |calls|
    requires NonceKey(calls[i].envelope) in Prune(SeenAfter(crypto, cfg, calls[..i]), calls[i].now, cfg.ttl)
    ensures !Accepted(crypto, cfg, calls, i)
  {
  }

  /** With a long enough TTL one message is accepted at most once. */
  lemma AtMostOnce(crypto: Crypto, cfg: Config, calls: seq<Call>, back: nat, i: nat, j: nat)
    requires ClockBack(calls, back) && LongEnough(cfg, back)
    requires i < j < |calls| && SameMessage(calls[i].envelope, calls[j].envelope)
    ensures !(Accepted(crypto, cfg, calls, i) && Accepted(crypto, cfg, calls, j))
  {
    if Accepted(crypto, cfg, calls, i) && InWindow(cfg, calls[j]) {
      AcceptedInWindow(crypto, cfg, calls, i);
      WindowGap(cfg, calls[i], calls[j]);
      StaysCached(crypto, cfg, calls, i, j);
      NotAccepted(crypto, cfg, calls, j);
    } else if Accepted(crypto, cfg, calls, j) {
      AcceptedInWindow(crypto, cfg, calls, j);
    }
  }

  /** No run within the clock bound accepts one message twice. */
  ghost predicate ReplaySafe(crypto: Crypto, cfg: Config, back: nat) {
    forall calls: seq<Call>, i, j ::
      ClockBack(calls, back) && 0 <= i < j < |calls| && SameMessage(calls[i].envelope, calls[j].envelope)
      ==> !(Accepted(crypto, cfg, calls, i) && Accepted(crypto, cfg, calls, j))
  }

  function Plain(crypto: Crypto, cfg: Config, timestamp: u64, nonce: string): SignedEnvelope {
    SignEnvelope(crypto, cfg.expectedSid, cfg.sidToken, "a", timestamp, nonce, UdpAnnouncement, [])
  }

  lemma PlainVerifies(crypto: Crypto, cfg: Config, timestamp: u64, nonce: string)
    ensures VerifyEnvelope(crypto, Plain(crypto, cfg, timestamp, nonce), cfg.sidToken, cfg.expectedSid) == Ok(())
  {
    SignedVerifies(crypto, cfg.expectedSid, cfg.sidToken, "a", timestamp, nonce, UdpAnnouncement, []);
  }

  lemma FreshAccepted(crypto: Crypto, cfg: Config, seen: map<string, u64>, c: Call)
    requires VerifyEnvelope(crypto, c.envelope, cfg.sidToken, cfg.expectedSid).Ok? && InWindow(cfg, c)
    requires NonceKey(c.envelope) !in seen
    ensures VerifyStep(crypto, cfg, seen, c) == (Prune(seen, c.now, cfg.ttl)[NonceKey(c.envelope) := c.now], Ok(()))
  {
    hide VerifyEnvelope, NonceKey, InWindow;
  }

  /** A later call with another key drops an entry past its TTL. */
  lemma Expires(crypto: Crypto, cfg: Config, k: string, at: u64, c: Call)
    requires VerifyEnvelope(crypto, c.envelope, cfg.sidToken, cfg.expectedSid).Ok? && InWindow(cfg, c)
    requires NonceKey(c.envelope) != k && SatSub(c.now, at) > cfg.ttl
    ensures k !in VerifyStep(crypto, cfg, map[k := at], c).0
  {
    hide VerifyEnvelope, NonceKey, InWindow;
  }

  predicate Passes(crypto: Crypto, cfg: Config, c: Call) {
    VerifyEnvelope(crypto, c.envelope, cfg.sidToken, cfg.expectedSid).Ok? && InWindow(cfg, c)
  }

  /** Accept, let another key's call expire the entry, accept again. */
  lemma AcceptTwice(crypto: Crypto, cfg: Config, c: Call, d: Call, c': Call)
    requires Passes(crypto, cfg, c) && Passes(crypto, cfg, d) && Passes(crypto, cfg, c')
    requires NonceKey(c.envelope) == NonceKey(c'.envelope) != NonceKey(d.envelope)
    requires c.now == 0 && d.now > cfg.ttl
    ensures Accepted(crypto, cfg, [c, d, c'], 0) && Accepted(crypto, cfg, [c, d, c'], 2)
  {
    var calls := [c, d, c'];
    assert calls[..0] == [] && calls[..1] == [c] && calls[..2] == [c, d];
    hide VerifyEnvelope, NonceKey, InWindow, VerifyStep, Prune;
    PruneEmpty(cfg.ttl);
    FreshAccepted(crypto, cfg, map[], c);
    Expires(crypto, cfg, NonceKey(c.envelope), 0, d);
    SeenStep(crypto, cfg, calls, 0);
    SeenStep(crypto, cfg, calls, 1);
    FreshAccepted(crypto, cfg, SeenAfter(crypto, cfg, calls[..2]), c');
  }

  /** Below the threshold: accept, let the entry expire, step the clock back, accept again. */
  lemma DoubleAcceptance(crypto: Crypto, cfg: Config, back: nat) returns (calls: seq<Call>)
    requires !LongEnough(cfg, back)
    ensures ClockBack(calls, back) && |calls| == 3 && SameMessage(calls[0].envelope, calls[2].envelope)
    ensures Accepted(crypto, cfg, calls, 0) && Accepted(crypto, cfg, calls, 2)
  {
    var late := cfg.ttl + 1;
    var again := if late < back then 0 else late - back;
    var e, f := Plain(crypto, cfg, cfg.skew, "1"), Plain(crypto, cfg, late, "2");
    PlainVerifies(crypto, cfg, cfg.skew, "1");
    PlainVerifies(crypto, cfg, late, "2");
    assert NonceKey(e) != NonceKey(f) by {
      assert NonceKey(e)[2] == '1' && NonceKey(f)[2] == '2';
    }
    hide VerifyEnvelope, NonceKey, Accepted, CanonicalPayload;
    AcceptTwice(crypto, cfg, Call(e, 0), Call(f, late), Call(e, again));
    calls := [Call(e, 0), Call(f, late), Call(e, again)];
  }

  lemma PruneEmpty(ttl: u64)
    ensures Prune(map[], 0, ttl) == map[]
  {
  }

  /**
   The exact replay threshold, for every skew, TTL and backward clock step: safe exactly when the
   TTL covers twice the skew plus the step, or is so large that nothing ever expires.
   */
  lemma ReplayThreshold(crypto: Crypto, cfg: Config, back: nat)
    ensures ReplaySafe(crypto, cfg, back) <==> LongEnough(cfg, back)
  {
    if LongEnough(cfg, back) {
      forall calls: seq<Call>, i, j | ClockBack(calls, back) && 0 <= i < j < |calls|
          && SameMessage(calls[i].envelope, calls[j].envelope)
        ensures !(Accepted(crypto, cfg, calls, i) && Accepted(crypto, cfg, calls, j))
      {
        AtMostOnce(crypto, cfg, calls, back, i, j);
      }
    } else {
      var calls := DoubleAcceptance(crypto, cfg, back);
      assert !ReplaySafe(crypto, cfg, back) by {
        hide Accepted, ClockBack;
        assert 0 <= 0 < 2 < |calls|;
      }
    }
  }

  /** The daemon's own constants, 60 and 120, sit exactly on the threshold. */
  lemma RuntimeConstantsSafe(crypto: Crypto, sidToken: string, sid: string, back: nat)
    ensures ReplaySafe(crypto, Config(sidToken, sid, 60, 120), back) <==> back == 0
  {
    ReplayThreshold(crypto, Config(sidToken, sid, 60, 120), back);
  }

  // ---------- pruning refines never forgetting ----------

  datatype Acceptance = Acceptance(key: string, at: u64)

  predicate RecentlyAccepted(log: seq<Acceptance>, key: string, now: u64, ttl: u64) {
    exists i :: 0 <= i < |log| && log[i].key == key && SatSub(now, log[i].at) <= ttl
  }

  /** A verifier that keeps every acceptance and rejects a key accepted within the last TTL. */
  function IdealStep(crypto: Crypto, cfg: Config, log: seq<Acceptance>, c: Call)
    : (seq<Acceptance>, Result<(), AuthError>)
  {
    match VerifyEnvelope(crypto, c.envelope, cfg.sidToken, cfg.expectedSid)
    case Err(error) => (log, Err(error))
    case Ok(_) =>
      if !InWindow(cfg, c) then (log, Err(TimestampOutsideWindow))
      else if RecentlyAccepted(log, NonceKey(c.envelope), c.now, cfg.ttl) then (log, Err(ReplayNonce))
      else (log + [Acceptance(NonceKey(c.envelope), c.now)], Ok(()))
  }

  function LogAfter(crypto: Crypto, cfg: Config, calls: seq<Call>): seq<Acceptance> {
    if calls == [] then []
    else IdealStep(crypto, cfg, LogAfter(crypto, cfg, calls[..|calls| - 1]), calls[|calls| - 1]).0
  }

  function IdealResultAt(crypto: Crypto, cfg: Config, calls: seq<Call>, i: nat): Result<(), AuthError>
    requires i < |calls|
  {
    IdealStep(crypto, cfg, LogAfter(crypto, cfg, calls[..i]), calls[i]).1
  }

  /** The cache holds only logged acceptances, and every one that is not stale at time `t`. */
  ghost predicate Refines(seen: map<string, u64>, log: seq<Acceptance>, t: u64, ttl: u64) {
    && (forall k :: k in seen ==> Acceptance(k, seen[k]) in log)
    && (forall a :: a in log ==> a.at <= t && ((a.key in seen && seen[a.key] == a.at) || t - a.at > ttl))
  }

  lemma RefinesStep(crypto: Crypto, cfg: Config, seen: map<string, u64>, log: seq<Acceptance>, t: u64, c: Call)
    requires Refines(seen, log, t, cfg.ttl) && t <= c.now
    ensures IdealStep(crypto, cfg, log, c).1 == VerifyStep(crypto, cfg, seen, c).1
    ensures Refines(VerifyStep(crypto, cfg, seen, c).0, IdealStep(crypto, cfg, log, c).0, c.now, cfg.ttl)
  {
    hide VerifyEnvelope, InWindow, NonceKey;
    var key := NonceKey(c.envelope);
    var kept := Prune(seen, c.now, cfg.ttl);
    assert key in kept <==> RecentlyAccepted(log, key, c.now, cfg.ttl) by {
      if key in kept {
        assert Acceptance(key, seen[key]) in log;
      }
      if RecentlyAccepted(log, key, c.now, cfg.ttl) {
        var i :| 0 <= i < |log| && log[i].key == key && SatSub(c.now, log[i].at) <= cfg.ttl;
        assert log[i] in log;
      }
    }
  }

  lemma {:induction false} RunRefines(crypto: Crypto, cfg: Config, calls: seq<Call>)
    requires ClockBack(calls, 0)
    ensures Refines(SeenAfter(crypto, cfg, calls), LogAfter(crypto, cfg, calls),
                    if calls == [] then 0 else calls[|calls| - 1].now, cfg.ttl)
  {
    if calls != [] {
      var init := calls[..|calls| - 1];
      RunRefines(crypto, cfg, init);
      hide VerifyStep, IdealStep, Refines;
      RefinesStep(crypto, cfg, SeenAfter(crypto, cfg, init), LogAfter(crypto, cfg, init),
                  if init == [] then 0 else init[|init| - 1].now, calls[|calls| - 1]);
    }
  }

  /** On non-decreasing clocks the pruned cache answers every call as the full log would. */
  lemma PrunedEqualsIdeal(crypto: Crypto, cfg: Config, calls: seq<Call>, i: nat)
    requires ClockBack(calls, 0) && i < |calls|
    ensures ResultAt(crypto, cfg, calls, i) == IdealResultAt(crypto, cfg, calls, i)
  {
    var init := calls[..i];
    RunRefines(crypto, cfg, init);
    hide VerifyStep, IdealStep, Refines, SeenAfter, LogAfter;
    RefinesStep(crypto, cfg, SeenAfter(crypto, cfg, init), LogAfter(crypto, cfg, init),
                if init == [] then 0 else init[|init| - 1].now, calls[i]);
  }

  /** A call that gets past signature and window leaves no entry older than the TTL. */
  lemma CacheBounded(crypto: Crypto, cfg: Config, calls: seq<Call>)
    requires calls != [] && ClockBack(calls, 0)
    requires var c := calls[|calls| - 1];
             VerifyEnvelope(crypto, c.envelope, cfg.sidToken, cfg.expectedSid).Ok? && InWindow(cfg, c)
    ensures var seen, now := SeenAfter(crypto, cfg, calls), calls[|calls| - 1].now;
            forall k :: k in seen ==> seen[k] <= now && now - seen[k] <= cfg.ttl
  {
    RunRefines(crypto, cfg, calls);
    hide VerifyEnvelope, InWindow, NonceKey;
  }
}
