/** Laws of every run of the discovery engine. */
module DiscoveryLaws {
  import opened Prelude
  import opened Text
  import opened Utf8
  import opened Payload
  import opened Auth
  import opened Replay
  import opened ReplayLaws
  import opened SshKeys
  import opened Wire
  import opened Discovery

  // ---------- a run of the engine contains a run of its verifier ----------

  /** The answer to the announcement at position `i`. */
  function OutcomeAt(crypto: Crypto, cfg: Config, ops: seq<Op>, i: nat): Result<DiscoveryEvent, DiscoveryError>
    requires i < |ops| && ops[i].Announce?
  {
    AnnouncementStep(crypto, cfg, StateAfter(crypto, cfg, ops[..i]), ops[i].call).1
  }

  lemma {:induction false} BootstrapKeepsSeen(s: State, values: seq<string>)
    ensures BootstrapAll(s, values).seen == s.seen
  {
    if values != [] {
      BootstrapKeepsSeen(s, values[..|values| - 1]);
      hide ParseBootstrapPeer;
    }
  }

  lemma InstallKeepsSeen(s: State, cfg: Config, body: Bytes)
    ensures Install(s, cfg, body).0.seen == s.seen
  {
    hide ParseAnnouncement, Trim;
  }

  lemma {:induction false} SeenOfRun(crypto: Crypto, cfg: Config, ops: seq<Op>)
    ensures StateAfter(crypto, cfg, ops).seen == SeenAfter(crypto, cfg, VerifierCalls(ops))
  {
    if ops != [] {
      var init, last := ops[..|ops| - 1], ops[|ops| - 1];
      SeenOfRun(crypto, cfg, init);
      hide VerifyStep, Install, BootstrapAll;
      match last
      case Bootstrap(values) =>
        BootstrapKeepsSeen(StateAfter(crypto, cfg, init), values);
        AppendNil(VerifierCalls(init));
      case Take =>
        AppendNil(VerifierCalls(init));
      case Announce(c) =>
        if c.envelope.context.UdpAnnouncement? {
          var before := StateAfter(crypto, cfg, init);
          InstallKeepsSeen(before.(seen := VerifyStep(crypto, cfg, before.seen, c).0), cfg, c.envelope.body);
          assert (VerifierCalls(init) + [c])[..|VerifierCalls(init)|] == VerifierCalls(init);
        } else {
          AppendNil(VerifierCalls(init));
        }
    }
  }

  /** The verifier calls before position `i` are a prefix of all of them. */
  lemma {:induction false} VerifiedPrefix(ops: seq<Op>, i: nat)
    requires i <= |ops|
    ensures VerifierCalls(ops[..i]) <= VerifierCalls(ops)
    ensures i < |ops| && ops[i].Announce? && ops[i].call.envelope.context.UdpAnnouncement?
            ==> |VerifierCalls(ops[..i])| < |VerifierCalls(ops)|
                && VerifierCalls(ops)[|VerifierCalls(ops[..i])|] == ops[i].call
    decreases |ops|
  {
    if i == |ops| {
      assert ops[..i] == ops;
    } else {
      var init := ops[..|ops| - 1];
      assert init[..i] == ops[..i];
      if i < |init| {
        assert init[i] == ops[i];
      }
      VerifiedPrefix(init, i);
    }
  }

  /** An announcement with any effect or error was accepted by the verifier. */
  lemma NotIgnoredAccepted(crypto: Crypto, cfg: Config, ops: seq<Op>, i: nat)
    requires i < |ops| && ops[i].Announce? && OutcomeAt(crypto, cfg, ops, i) != Ok(Ignored)
    ensures ops[i].call.envelope.context.UdpAnnouncement?
    ensures var calls, n := VerifierCalls(ops), |VerifierCalls(ops[..i])|;
            n < |calls| && calls[n] == ops[i].call && Accepted(crypto, cfg, calls, n)
  {
    hide VerifyStep, Install, SeenAfter, StateAfter, VerifierCalls;
    SeenOfRun(crypto, cfg, ops[..i]);
    VerifiedPrefix(ops, i);
    var calls, n := VerifierCalls(ops), |VerifierCalls(ops[..i])|;
    assert calls[..n] == VerifierCalls(ops[..i]);
  }

  /** Each signed announcement has at most one outcome other than `Ignored`, over every run. */
  lemma AnnouncementOnce(crypto: Crypto, cfg: Config, ops: seq<Op>, back: nat, i: nat, j: nat)
    requires ClockBack(VerifierCalls(ops), back) && LongEnough(cfg, back)
    requires i < j < |ops| && ops[i].Announce? && ops[j].Announce?
    requires SameMessage(ops[i].call.envelope, ops[j].call.envelope)
    ensures OutcomeAt(crypto, cfg, ops, i) == Ok(Ignored) || OutcomeAt(crypto, cfg, ops, j) == Ok(Ignored)
  {
    hide OutcomeAt, VerifierCalls, Accepted, SameMessage, ClockBack, LongEnough;
    if OutcomeAt(crypto, cfg, ops, i) != Ok(Ignored) {
      NotIgnoredAccepted(crypto, cfg, ops, i);
      if OutcomeAt(crypto, cfg, ops, j) != Ok(Ignored) {
        NotIgnoredAccepted(crypto, cfg, ops, j);
        EarlierFirst(ops, i, j);
        AtMostOnce(crypto, cfg, VerifierCalls(ops), back, |VerifierCalls(ops[..i])|, |VerifierCalls(ops[..j])|);
      }
    }
  }

  lemma EarlierFirst(ops: seq<Op>, i: nat, j: nat)
    requires i < j <= |ops| && ops[i].Announce? && ops[i].call.envelope.context.UdpAnnouncement?
    ensures |VerifierCalls(ops[..i])| < |VerifierCalls(ops[..j])|
  {
    assert ops[..j][..i] == ops[..i] && ops[..j][i] == ops[i];
    VerifiedPrefix(ops[..j], i);
  }

  // ---------- the peer map is a fold over what was accepted ----------

  /** Install records in order, later ones over earlier ones. */
  function Fold(records: seq<PeerRecord>): map<string, PeerRecord> {
    if records == [] then map[]
    else
      var last := records[|records| - 1];
      Fold(records[..|records| - 1])[last.participantId := last]
  }

  lemma FoldSnoc(records: seq<PeerRecord>, r: PeerRecord)
    ensures Fold(records + [r]) == Fold(records)[r.participantId := r]
  {
    assert (records + [r])[..|records|] == records;
  }

  /** The records a list of bootstrap values stands for. */
  function BootstrapRecords(values: seq<string>): seq<PeerRecord> {
    if values == [] then []
    else
      BootstrapRecords(values[..|values| - 1])
      + (match ParseBootstrapPeer(values[|values| - 1])
         case None => []
         case Some(p) => [PeerRecord(p.participantId, p.address, p.port, "")])
  }

  /** The record an announcement body carries for a group, if it is well formed. */
  function AnnouncedRecord(sid: string, body: Bytes): Option<PeerRecord> {
    match ParseAnnouncement(body)
    case Err(_) => None
    case Ok(a) =>
      if a.sid == sid && Trim(a.participantId) != "" then
          Some(PeerRecord(a.participantId, a.address, a.port, a.publicKey))
      else None
  }

  /** What a never-forgetting engine would install at position `i`. */
  function Installed(crypto: Crypto, cfg: Config, ops: seq<Op>, i: nat): seq<PeerRecord>
    requires i < |ops|
  {
    match ops[i]
    case Bootstrap(values) => BootstrapRecords(values)
    case Take => []
    case Announce(c) =>
      if c.envelope.context.UdpAnnouncement?
          && IdealStep(crypto, cfg, LogAfter(crypto, cfg, VerifierCalls(ops[..i])), c).1.Ok?
      then (match AnnouncedRecord(cfg.expectedSid, c.envelope.body) case None => [] case Some(r) => [r])
      else []
  }

  /** All installed records of the first `n` operations, in arrival order. */
  function InstalledBefore(crypto: Crypto, cfg: Config, ops: seq<Op>, n: nat): seq<PeerRecord>
    requires n <= |ops|
  {
    if n == 0 then [] else InstalledBefore(crypto, cfg, ops, n - 1) + Installed(crypto, cfg, ops, n - 1)
  }

  lemma {:induction false} BootstrapFolds(s: State, values: seq<string>, records: seq<PeerRecord>)
    requires s.peers == Fold(records)
    ensures BootstrapAll(s, values).peers == Fold(records + BootstrapRecords(values))
  {
    if values == [] {
      AppendNil(records);
    } else {
      var init := values[..|values| - 1];
      BootstrapFolds(s, init, records);
      hide ParseBootstrapPeer, Fold;
      match ParseBootstrapPeer(values[|values| - 1])
      case None =>
        AppendNil(BootstrapRecords(init));
      case Some(p) =>
        var r := PeerRecord(p.participantId, p.address, p.port, "");
        Assoc(records, BootstrapRecords(init), [r]);
        FoldSnoc(records + BootstrapRecords(init), r);
    }
  }

  lemma InstallFolds(s: State, cfg: Config, body: Bytes, records: seq<PeerRecord>)
    requires s.peers == Fold(records)
    ensures var added := match AnnouncedRecord(cfg.expectedSid, body) case None => [] case Some(r) => [r];
            Install(s, cfg, body).0.peers == Fold(records + added)
  {
    hide ParseAnnouncement, Trim, Fold;
    match AnnouncedRecord(cfg.expectedSid, body)
    case None =>
      AppendNil(records);
    case Some(r) =>
      FoldSnoc(records, r);
  }

  lemma AnnouncementFolds(crypto: Crypto, cfg: Config, ops: seq<Op>, i: nat, records: seq<PeerRecord>)
    requires i < |ops| && ops[i].Announce? && ClockBack(VerifierCalls(ops), 0)
    requires StateAfter(crypto, cfg, ops[..i]).peers == Fold(records)
    ensures AnnouncementStep(crypto, cfg, StateAfter(crypto, cfg, ops[..i]), ops[i].call).0.peers
         == Fold(records + Installed(crypto, cfg, ops, i))
  {
    hide StateAfter, Fold, VerifyStep, IdealStep, Install, VerifierCalls, LogAfter, AnnouncedRecord, ClockBack;
    var s, c := StateAfter(crypto, cfg, ops[..i]), ops[i].call;
    AppendNil(records);
    if c.envelope.context.UdpAnnouncement? {
      SameVerdict(crypto, cfg, ops, i);
      InstallFolds(s.(seen := VerifyStep(crypto, cfg, s.seen, c).0), cfg, c.envelope.body, records);
    }
  }

  lemma FoldsStep(crypto: Crypto, cfg: Config, ops: seq<Op>, i: nat, records: seq<PeerRecord>)
    requires i < |ops| && ClockBack(VerifierCalls(ops), 0)
    requires StateAfter(crypto, cfg, ops[..i]).peers == Fold(records)
    ensures Step(crypto, cfg, StateAfter(crypto, cfg, ops[..i]), ops[i]).peers
            == Fold(records + Installed(crypto, cfg, ops, i))
  {
    hide StateAfter, Fold, AnnouncementStep, BootstrapAll, BootstrapRecords, VerifierCalls, IdealStep, LogAfter,
         AnnouncedRecord, ClockBack;
    match ops[i]
    case Bootstrap(values) =>
      BootstrapFolds(StateAfter(crypto, cfg, ops[..i]), values, records);
    case Take =>
      AppendNil(records);
    case Announce(_) =>
      AnnouncementFolds(crypto, cfg, ops, i, records);
  }

  /**
   The peer map of every run on a non-decreasing clock: bootstrap records and accepted
   announcements installed in arrival order, where acceptance is judged against the full log.
   */
  lemma {:induction false} PeersFold(crypto: Crypto, cfg: Config, ops: seq<Op>, n: nat)
    requires n <= |ops| && ClockBack(VerifierCalls(ops), 0)
    ensures StateAfter(crypto, cfg, ops[..n]).peers == Fold(InstalledBefore(crypto, cfg, ops, n))
  {
    hide *;
    InstalledUnfold(crypto, cfg, ops, n);
    if n > 0 {
      PeersFold(crypto, cfg, ops, n - 1);
      PrefixSnoc(ops, n);
      StateSnoc(crypto, cfg, ops[..n - 1], ops[n - 1]);
      FoldsStep(crypto, cfg, ops, n - 1, InstalledBefore(crypto, cfg, ops, n - 1));
    }
  }

  lemma PrefixSnoc<T>(a: seq<T>, n: nat)
    requires 0 < n <= |a|
    ensures a[..n] == a[..n - 1] + [a[n - 1]]
  {
  }

  lemma InstalledUnfold(crypto: Crypto, cfg: Config, ops: seq<Op>, n: nat)
    requires n <= |ops|
    ensures n == 0 ==> StateAfter(crypto, cfg, ops[..n]).peers == Fold(InstalledBefore(crypto, cfg, ops, n))
    ensures n > 0 ==>
              InstalledBefore(crypto, cfg, ops, n)
                  == InstalledBefore(crypto, cfg, ops, n - 1) + Installed(crypto, cfg, ops, n - 1)
  {
    hide Installed, Step;
  }

  /** The engine's verifier and the full log agree on every announcement. */
  lemma SameVerdict(crypto: Crypto, cfg: Config, ops: seq<Op>, i: nat)
    requires i < |ops| && ops[i].Announce? && ops[i].call.envelope.context.UdpAnnouncement?
             && ClockBack(VerifierCalls(ops), 0)
    ensures VerifyStep(crypto, cfg, StateAfter(crypto, cfg, ops[..i]).seen, ops[i].call).1
         == IdealStep(crypto, cfg, LogAfter(crypto, cfg, VerifierCalls(ops[..i])), ops[i].call).1
  {
    hide StateAfter, VerifyStep, IdealStep, VerifierCalls, LogAfter, SeenAfter, ClockBack;
    SeenOfRun(crypto, cfg, ops[..i]);
    VerifiedPrefix(ops, i);
    var calls, n := VerifierCalls(ops), |VerifierCalls(ops[..i])|;
    assert calls[..n] == VerifierCalls(ops[..i]);
    PrunedEqualsIdeal(crypto, cfg, calls, n);
  }

  // ---------- the sync trigger ----------

  /** Operation `i` is news: a peer added or updated, or a bootstrap id not known before. */
  predicate Raises(crypto: Crypto, cfg: Config, ops: seq<Op>, i: nat)
    requires i < |ops|
  {
    match ops[i]
    case Bootstrap(_) => StateAfter(crypto, cfg, ops[..i + 1]).peers.Keys
        != StateAfter(crypto, cfg, ops[..i]).peers.Keys
    case Announce(_) => OutcomeAt(crypto, cfg, ops, i).Ok? && OutcomeAt(crypto, cfg, ops, i).value != Ignored
    case Take => false
  }

  /** News since the last take. */
  predicate NewsSinceTake(crypto: Crypto, cfg: Config, ops: seq<Op>) {
    exists k :: 0 <= k < |ops| && Raises(crypto, cfg, ops, k) && forall m :: k < m < |ops| ==> !ops[m].Take?
  }

  lemma {:induction false} BootstrapRaises(s: State, values: seq<string>)
    ensures var t := BootstrapAll(s, values);
            s.peers.Keys <= t.peers.Keys && (t.pending <==> s.pending || t.peers.Keys != s.peers.Keys)
  {
    if values != [] {
      BootstrapRaises(s, values[..|values| - 1]);
      hide ParseBootstrapPeer;
      var t := BootstrapAll(s, values[..|values| - 1]);
      match ParseBootstrapPeer(values[|values| - 1])
      case None =>
      case Some(p) =>
        assert p.participantId !in t.peers ==> p.participantId !in s.peers;
    }
  }

  lemma RaisesInPrefix(crypto: Crypto, cfg: Config, ops: seq<Op>, n: nat, k: nat)
    requires k < n <= |ops|
    ensures Raises(crypto, cfg, ops[..n], k) <==> Raises(crypto, cfg, ops, k)
  {
    assert ops[..n][k] == ops[k] && ops[..n][..k] == ops[..k] && ops[..n][..k + 1] == ops[..k + 1];
    hide StateAfter, AnnouncementStep;
  }

  lemma AnnouncementRaises(crypto: Crypto, cfg: Config, s: State, c: Call)
    ensures var (t, outcome) := AnnouncementStep(crypto, cfg, s, c);
            t.pending <==> s.pending || (outcome.Ok? && outcome.value != Ignored)
  {
    hide VerifyStep, ParseAnnouncement, Trim;
  }

  lemma StepPending(crypto: Crypto, cfg: Config, ops: seq<Op>, op: Op)
    ensures var s, t := StateAfter(crypto, cfg, ops), StateAfter(crypto, cfg, ops + [op]);
            t.pending <==> !op.Take? && (s.pending || Raises(crypto, cfg, ops + [op], |ops|))
  {
    StateSnoc(crypto, cfg, ops, op);
    var all := ops + [op];
    assert all[..|ops|] == ops && all[..|ops| + 1] == all && all[|ops|] == op;
    hide StateAfter, AnnouncementStep, BootstrapAll;
    match op
    case Bootstrap(values) => BootstrapRaises(StateAfter(crypto, cfg, ops), values);
    case Announce(c) => AnnouncementRaises(crypto, cfg, StateAfter(crypto, cfg, ops), c);
    case Take =>
  }

  /** In every reachable state the trigger is pending exactly when there was news since the last take. */
  lemma {:induction false} PendingIff(crypto: Crypto, cfg: Config, ops: seq<Op>)
    ensures StateAfter(crypto, cfg, ops).pending <==> NewsSinceTake(crypto, cfg, ops)
  {
    if ops != [] {
      var n := |ops| - 1;
      var init := ops[..n];
      hide *;
      SnocSplit(ops);
      PendingIff(crypto, cfg, init);
      StepPending(crypto, cfg, init, ops[n]);
      NewsKept(crypto, cfg, ops);
      if NewsSinceTake(crypto, cfg, ops) {
        NewsLost(crypto, cfg, ops);
      }
    }
  }

  lemma TakeIsNoNews(crypto: Crypto, cfg: Config, ops: seq<Op>, n: nat)
    requires n < |ops|
    ensures Raises(crypto, cfg, ops, n) ==> !ops[n].Take?
  {
    hide StateAfter, OutcomeAt;
  }

  /** News in a run came with its last operation, or was there before and not taken. */
  lemma NewsLost(crypto: Crypto, cfg: Config, ops: seq<Op>)
    requires ops != [] && NewsSinceTake(crypto, cfg, ops)
    ensures var n := |ops| - 1;
            !ops[n].Take? && (NewsSinceTake(crypto, cfg, ops[..n]) || Raises(crypto, cfg, ops, n))
  {
    hide Raises;
    var n := |ops| - 1;
    var k :| 0 <= k < |ops| && Raises(crypto, cfg, ops, k) && forall m :: k < m < |ops| ==> !ops[m].Take?;
    TakeIsNoNews(crypto, cfg, ops, k);
    if k < n {
      RaisesInPrefix(crypto, cfg, ops, n, k);
      assert forall m :: k < m < n ==> ops[..n][m] == ops[m];
    }
  }

  /** News stays until the trigger is taken. */
  lemma NewsKept(crypto: Crypto, cfg: Config, ops: seq<Op>)
    requires ops != []
    ensures var n := |ops| - 1;
            !ops[n].Take? && (NewsSinceTake(crypto, cfg, ops[..n]) || Raises(crypto, cfg, ops, n)) ==>
                NewsSinceTake(crypto, cfg, ops)
  {
    hide Raises;
    var n := |ops| - 1;
    if !ops[n].Take? && NewsSinceTake(crypto, cfg, ops[..n]) {
      var k :| 0 <= k < n && Raises(crypto, cfg, ops[..n], k) && forall m :: k < m < n ==> !ops[..n][m].Take?;
      RaisesInPrefix(crypto, cfg, ops, n, k);
      assert forall m :: k < m < n ==> ops[..n][m] == ops[m];
      assert forall m :: k < m < |ops| ==> !ops[m].Take?;
    }
  }

  /** A take reports news exactly when there was some since the previous take. */
  lemma TakeIff(crypto: Crypto, cfg: Config, ops: seq<Op>, i: nat)
    requires i < |ops| && ops[i].Take?
    ensures StateAfter(crypto, cfg, ops[..i]).pending
       <==> exists k :: 0 <= k < i && Raises(crypto, cfg, ops, k) && forall m :: k < m < i ==> !ops[m].Take?
  {
    hide Raises, StateAfter;
    PendingIff(crypto, cfg, ops[..i]);
    forall k | 0 <= k < i
      ensures Raises(crypto, cfg, ops[..i], k) <==> Raises(crypto, cfg, ops, k)
    {
      RaisesInPrefix(crypto, cfg, ops, i, k);
    }
    assert forall m :: 0 <= m < i ==> ops[..i][m] == ops[m];
  }

  // ---------- the two documented forms of a bootstrap peer ----------

  lemma HostPortSplit(host: string, port: u16)
    requires Trimmed(host)
    ensures var text := host + ":" + Dec(port);
            Trimmed(text) && RSplitOnce(text, ':') == Some((host, Dec(port)))
                && ParseUint(Trim(Dec(port)), U16_MAX) == Some(port)
  {
    var text, d := host + ":" + Dec(port), Dec(port);
    assert IsDigit(d[|d| - 1]) && text[|text| - 1] == d[|d| - 1];
    assert text[0] == if host == "" then ':' else host[0];
    assert ':' !in d;
    hide Dec, RSplitOnce, Trim;
    RSplitOnceAt(host, ':', d);
    DecSafe(port);
    ParseDec(port, U16_MAX);
  }

  lemma AtSplit(participantId: string, hostPort: string)
    requires Trimmed(participantId) && Trimmed(hostPort) && hostPort != "" && '@' !in participantId
    ensures var text := participantId + "@" + hostPort;
            Trimmed(text) && text != "" && SplitOnce(text, '@') == Some((participantId, hostPort))
  {
    var text := participantId + "@" + hostPort;
    assert text[|text| - 1] == hostPort[|hostPort| - 1];
    assert text[0] == if participantId == "" then '@' else participantId[0];
    SplitOnceAt(participantId, '@', hostPort);
    hide SplitOnce;
  }

  /**
   `id@host:port` names the peer, also for hosts with colons; `host:port` stands for its own id.
   The engine accepts both exactly when the host is not empty.
   */
  lemma BootstrapForms(participantId: string, host: string, port: u16)
    requires Trimmed(participantId) && '@' !in participantId && Trimmed(host) && '@' !in host
    ensures ParseEndpoint(participantId + "@" + (host + ":" + Dec(port)))
            == Some(PeerEndpoint(participantId, host, port))
    ensures ParseEndpoint(host + ":" + Dec(port)) == Some(PeerEndpoint(host + ":" + Dec(port), host, port))
    ensures ParseBootstrapPeer(participantId + "@" + (host + ":" + Dec(port))).Some? <==> host != ""
  {
    hide SplitOnce, RSplitOnce, Trim, ParseUint, Dec, Trimmed;
    HostPortSplit(host, port);
    AtSplit(participantId, host + ":" + Dec(port));
    NoAt(host, port);
  }

  lemma NoAt(host: string, port: u16)
    requires '@' !in host
    ensures '@' !in host + ":" + Dec(port) && host + ":" + Dec(port) != ""
  {
    assert '@' !in Dec(port);
    hide Dec;
  }

  // ---------- what every record looks like ----------

  predicate RecordOk(id: string, r: PeerRecord) {
    r.participantId == id && r.address != "" && Trimmed(r.address) && (r.publicKey == "" || IsNormalized(r.publicKey))
  }

  predicate PeersOk(peers: map<string, PeerRecord>) {
    forall id :: id in peers ==> RecordOk(id, peers[id])
  }

  lemma BootstrapRecordOk(value: string)
    requires ParseBootstrapPeer(value).Some?
    ensures var p := ParseBootstrapPeer(value).value;
            RecordOk(p.participantId, PeerRecord(p.participantId, p.address, p.port, ""))
  {
    hide Trim, SplitOnce, RSplitOnce, ParseUint, Trimmed;
  }

  lemma AnnouncedOk(body: Bytes)
    requires ParseAnnouncement(body).Ok?
    ensures var a := ParseAnnouncement(body).value;
            RecordOk(a.participantId, PeerRecord(a.participantId, a.address, a.port, a.publicKey))
  {
    hide RecordOk, AnnouncementOf, ParsePayload, WireSafe;
    ParsedPayloadSafe(body);
    AnnouncementOfOk(ParsePayload(body).value);
  }

  lemma AnnouncementOfOk(m: map<string, string>)
    requires AnnouncementOf(m).Ok? && forall k :: k in m ==> WireSafe(m[k])
    ensures var a := AnnouncementOf(m).value;
            RecordOk(a.participantId, PeerRecord(a.participantId, a.address, a.port, a.publicKey))
  {
    hide Trimmed, ParseUint, Normalize;
    assert WireSafe(m["address"]);
    NormalizeCanonical(m["public_key"]);
  }

  lemma {:induction false} BootstrapPeersOk(s: State, values: seq<string>)
    requires PeersOk(s.peers)
    ensures PeersOk(BootstrapAll(s, values).peers)
  {
    hide PeersOk;
    if values != [] {
      BootstrapPeersOk(s, values[..|values| - 1]);
      BootstrapOneOk(BootstrapAll(s, values[..|values| - 1]), values[|values| - 1]);
    }
  }

  lemma BootstrapOneOk(s: State, value: string)
    requires PeersOk(s.peers)
    ensures PeersOk(BootstrapOne(s, value).peers)
  {
    hide RecordOk, ParseBootstrapPeer;
    if ParseBootstrapPeer(value).Some? {
      BootstrapRecordOk(value);
    }
  }

  lemma InstallOk(s: State, cfg: Config, body: Bytes)
    requires PeersOk(s.peers)
    ensures PeersOk(Install(s, cfg, body).0.peers)
  {
    hide RecordOk, ParseAnnouncement, Trim;
    if ParseAnnouncement(body).Ok? {
      AnnouncedOk(body);
    }
  }

  /**
   In every reachable state each record sits under its own id, with a trimmed address and a
   normalised or empty key.
   */
  lemma {:induction false} RecordsWellFormed(crypto: Crypto, cfg: Config, ops: seq<Op>)
    ensures PeersOk(StateAfter(crypto, cfg, ops).peers)
  {
    if ops != [] {
      var init := ops[..|ops| - 1];
      RecordsWellFormed(crypto, cfg, init);
      hide PeersOk, VerifyStep, Install, BootstrapAll;
      var s := StateAfter(crypto, cfg, init);
      match ops[|ops| - 1]
      case Bootstrap(values) => BootstrapPeersOk(s, values);
      case Take =>
      case Announce(c) => InstallOk(s.(seen := VerifyStep(crypto, cfg, s.seen, c).0), cfg, c.envelope.body);
    }
  }

  // ---------- a fresh announcement installs its sender ----------

  /** The fields an announcement can carry as they are. */
  predicate SafeAnnouncement(sid: string, participantId: string, address: string) {
    WireSafe(sid) && WireSafe(participantId) && WireSafe(address) && sid != "" && address != ""
  }

  predicate SafeSender(sid: string, participantId: string, address: string) {
    SafeAnnouncement(sid, participantId, address) && participantId != ""
  }

  lemma AnnouncementEntriesSafe(sid: string, participantId: string, address: string, port: u16, key: string)
    requires WireSafe(sid) && WireSafe(participantId) && WireSafe(address) && WireSafe(key)
    ensures SafeEntries(AnnouncementEntries(sid, participantId, address, port, key))
  {
    hide WireSafe, Dec, SafeKey;
    PayloadKeysSafe();
    DecSafe(port);
    EntrySafe("sid", sid);
    EntrySafe("participant_id", participantId);
    EntrySafe("address", address);
    EntrySafe("port", Dec(port));
    EntrySafe("public_key", key);
    hide SafeEntry;
  }

  lemma AnnouncementRead(
    m: map<string, string>, sid: string, participantId: string, address: string, port: u16, key: string)
    requires Get(m, "sid") == Some(sid) && Get(m, "participant_id") == Some(participantId)
             && Get(m, "address") == Some(address)
    requires Get(m, "port").Some? && ParseUint(Get(m, "port").value, U16_MAX) == Some(port)
             && Get(m, "public_key") == Some(key)
    requires IsNormalized(key) && sid != "" && address != ""
    ensures AnnouncementOf(m) == Ok(Announcement(sid, participantId, address, port, key))
  {
    hide ParseUint, Normalize;
  }

  lemma AnnouncementEntriesRead(sid: string, participantId: string, address: string, port: u16, key: string)
    ensures var m := EntriesMap(AnnouncementEntries(sid, participantId, address, port, key));
            Get(m, "sid") == Some(sid) && Get(m, "participant_id") == Some(participantId)
            && Get(m, "address") == Some(address) && Get(m, "port") == Some(Dec(port))
            && Get(m, "public_key") == Some(key)
  {
    hide EntriesMap, Get, Dec;
    PayloadKeyLengths();
    var es := AnnouncementEntries(sid, participantId, address, port, key);
    assert es[0].key == "sid" && es[1].key == "participant_id" && es[2].key == "address";
    assert es[3].key == "port" && es[4].key == "public_key";
    Lookup(es, 0);
    Lookup(es, 1);
    Lookup(es, 2);
    Lookup(es, 3);
    Lookup(es, 4);
  }

  /** A written announcement is read as the announcement its map stands for. */
  lemma AnnouncementParsed(entries: seq<Entry>)
    requires SafeEntries(entries)
    ensures ParseAnnouncement(Encode(PayloadText(entries))) == AnnouncementOf(EntriesMap(entries))
  {
    hide SafeEntries, PayloadText, Encode, EntriesMap, ParsePayload, AnnouncementOf;
    ParseOfSerialize(entries);
  }

  /**
   An announcement is read back as it was written exactly when its fields are wire-safe and SID and
   address not empty.
   */
  lemma AnnouncementBody(sid: string, participantId: string, address: string, port: u16, key: string)
    requires IsNormalized(key)
    ensures ParseAnnouncement(Encode(PayloadText(AnnouncementEntries(sid, participantId, address, port, key))))
         == Ok(Announcement(sid, participantId, address, port, key))
       <==> SafeAnnouncement(sid, participantId, address)
  {
    hide *;
    var es := AnnouncementEntries(sid, participantId, address, port, key);
    var body := Encode(PayloadText(es));
    if SafeAnnouncement(sid, participantId, address) {
      SafeFields(sid, participantId, address);
      NormalizedShape(key);
      AnnouncementEntriesSafe(sid, participantId, address, port, key);
      AnnouncementParsed(es);
      AnnouncementEntriesRead(sid, participantId, address, port, key);
      ParseDec(port, U16_MAX);
      AnnouncementRead(EntriesMap(es), sid, participantId, address, port, key);
    }
    if ParseAnnouncement(body) == Ok(Announcement(sid, participantId, address, port, key)) {
      ParsedAnnouncementSafe(body);
    }
  }

  lemma SafeFields(sid: string, participantId: string, address: string)
    requires SafeAnnouncement(sid, participantId, address)
    ensures WireSafe(sid) && WireSafe(participantId) && WireSafe(address) && sid != "" && address != ""
  {
  }

  lemma ParsedAnnouncementSafe(body: Bytes)
    requires ParseAnnouncement(body).Ok?
    ensures var a := ParseAnnouncement(body).value; SafeAnnouncement(a.sid, a.participantId, a.address)
  {
    hide ParsePayload, AnnouncementOf, SafeAnnouncement, WireSafe;
    ParsedPayloadSafe(body);
    AnnouncementOfSafe(ParsePayload(body).value);
  }

  lemma AnnouncementOfSafe(m: map<string, string>)
    requires AnnouncementOf(m).Ok? && forall k :: k in m ==> WireSafe(m[k])
    ensures var a := AnnouncementOf(m).value; SafeAnnouncement(a.sid, a.participantId, a.address)
  {
    hide WireSafe, ParseUint, Normalize;
  }

  // ---------- an address with a newline in it ----------

  /** An address whose second line is a participant id. */
  function TwoLineAddress(host: string, participantId: string): string {
    host + "\n" + ("participant_id" + "=" + participantId)
  }

  /** The same lines, taken one by one. */
  function TwoIdEntries(sid: string, first: string, host: string, second: string, port: u16, key: string): seq<Entry> {
    [Entry("sid", sid), Entry("participant_id", first), Entry("address", host), Entry("participant_id", second),
     Entry("port", Dec(port)), Entry("public_key", key)]
  }

  lemma EntryText(a: seq<Entry>, key: string, value: string)
    ensures PayloadText(a + [Entry(key, value)]) == PayloadText(a) + (key + "=" + value + "\n")
  {
    PayloadTextSnoc(a, Entry(key, value));
  }

  lemma SplitEntry(a: seq<Entry>, host: string, second: string)
    ensures PayloadText(a + [Entry("address", TwoLineAddress(host, second))])
         == PayloadText(a + [Entry("address", host)] + [Entry("participant_id", second)])
  {
    hide PayloadText;
    EntryText(a, "address", TwoLineAddress(host, second));
    EntryText(a, "address", host);
    EntryText(a + [Entry("address", host)], "participant_id", second);
    var l, r := "address" + "=" + host + "\n", "participant_id" + "=" + second + "\n";
    assert "address" + "=" + TwoLineAddress(host, second) + "\n" == l + r;
    Assoc(PayloadText(a), l, r);
  }

  lemma TwoIdText(sid: string, first: string, host: string, second: string, port: u16, key: string)
    ensures PayloadText(AnnouncementEntries(sid, first, TwoLineAddress(host, second), port, key))
         == PayloadText(TwoIdEntries(sid, first, host, second, port, key))
  {
    hide PayloadText, TwoLineAddress, Dec;
    var a := [Entry("sid", sid), Entry("participant_id", first)];
    var b := a + [Entry("address", TwoLineAddress(host, second))];
    var c := a + [Entry("address", host)] + [Entry("participant_id", second)];
    SplitEntry(a, host, second);
    EntryText(b, "port", Dec(port));
    EntryText(c, "port", Dec(port));
    EntryText(b + [Entry("port", Dec(port))], "public_key", key);
    EntryText(c + [Entry("port", Dec(port))], "public_key", key);
    assert b + [Entry("port", Dec(port))] + [Entry("public_key", key)]
        == AnnouncementEntries(sid, first, TwoLineAddress(host, second), port, key);
    assert c + [Entry("port", Dec(port))] + [Entry("public_key", key)]
        == TwoIdEntries(sid, first, host, second, port, key);
  }

  lemma TwoIdRead(sid: string, first: string, host: string, second: string, port: u16, key: string)
    ensures var m := EntriesMap(TwoIdEntries(sid, first, host, second, port, key));
            Get(m, "sid") == Some(sid) && Get(m, "participant_id") == Some(second)
            && Get(m, "address") == Some(host) && Get(m, "port") == Some(Dec(port)) && Get(m, "public_key") == Some(key)
  {
    hide EntriesMap, Get, Dec;
    PayloadKeyLengths();
    var es := TwoIdEntries(sid, first, host, second, port, key);
    assert es[0].key == "sid" && es[2].key == "address" && es[3].key == "participant_id";
    assert es[4].key == "port" && es[5].key == "public_key";
    Lookup(es, 0);
    Lookup(es, 2);
    Lookup(es, 3);
    Lookup(es, 4);
    Lookup(es, 5);
  }

  lemma TwoIdSafe(sid: string, first: string, host: string, second: string, port: u16, key: string)
    requires WireSafe(sid) && WireSafe(first) && WireSafe(host) && WireSafe(second) && WireSafe(key)
    ensures SafeEntries(TwoIdEntries(sid, first, host, second, port, key))
  {
    hide WireSafe, Dec, SafeKey;
    PayloadKeysSafe();
    DecSafe(port);
    EntrySafe("sid", sid);
    EntrySafe("participant_id", first);
    EntrySafe("address", host);
    EntrySafe("participant_id", second);
    EntrySafe("port", Dec(port));
    EntrySafe("public_key", key);
    hide SafeEntry;
  }

  /**
   An announcement whose address holds a newline and a second participant id is read as one of that
   second id, although every other field is as it should be.
   */
  lemma SecondIdWins(sid: string, first: string, host: string, second: string, port: u16, key: string)
    requires SafeAnnouncement(sid, first, host) && WireSafe(second) && IsNormalized(key)
    ensures ParseAnnouncement(Encode(PayloadText(AnnouncementEntries(sid, first, TwoLineAddress(host, second), port,
            key))))
         == Ok(Announcement(sid, second, host, port, key))
  {
    hide *;
    SafeFields(sid, first, host);
    NormalizedShape(key);
    var es := TwoIdEntries(sid, first, host, second, port, key);
    TwoIdText(sid, first, host, second, port, key);
    TwoIdSafe(sid, first, host, second, port, key);
    AnnouncementParsed(es);
    TwoIdRead(sid, first, host, second, port, key);
    ParseDec(port, U16_MAX);
    AnnouncementRead(EntriesMap(es), sid, second, host, port, key);
  }

  /** An announcement built for the group, as it comes out of the wire format; the address does not matter. */
  lemma AnnouncementArrives(
    crypto: Crypto, sid: string, sidToken: string, participantId: string, address: string, port: u16, publicKey: string,
    timestampSecs: u64, nonce: string)
    requires WireSafe(sid) && WireSafe(participantId) && WireSafe(nonce) && Normalize(publicKey).Ok?
    ensures var built := BuildStartupAnnouncement(crypto, sid, sidToken, participantId, address, port, publicKey,
            timestampSecs, nonce);
            built.Ok? && ParseEnvelope(Serialize(built.value)) == Some(built.value)
  {
    hide WireSafe, Normalize, PayloadText, Encode, ParseEnvelope, Serialize, SignEnvelope, EnvelopeSafe;
    var key := Normalize(publicKey).value;
    var body := Encode(PayloadText(AnnouncementEntries(sid, participantId, address, port, key)));
    SignedSafe(crypto, sid, sidToken, participantId, timestampSecs, nonce, UdpAnnouncement, body);
    RoundTripIff(SignEnvelope(crypto, sid, sidToken, participantId, timestampSecs, nonce, UdpAnnouncement, body));
  }

  /**
   A fresh, in-window announcement of the group installs exactly its sender's record, from any
   state, and is reported as new, changed, or already known.
   */
  lemma FreshAnnouncementInstalls(
    crypto: Crypto, cfg: Config, s: State, participantId: string, address: string, port: u16, publicKey: string,
    timestampSecs: u64, nonce: string, now: u64)
    requires SafeSender(cfg.expectedSid, participantId, address) && WireSafe(nonce) && Normalize(publicKey).Ok?
    requires SatSub(now, cfg.skew) <= timestampSecs <= SatAdd(now, cfg.skew)
    requires participantId + ":" + nonce !in Prune(s.seen, now, cfg.ttl)
    ensures var built := BuildStartupAnnouncement(crypto, cfg.expectedSid, cfg.sidToken, participantId, address, port,
            publicKey, timestampSecs, nonce);
            built.Ok? && ParseEnvelope(Serialize(built.value)) == Some(built.value)
            && var record := PeerRecord(participantId, address, port, Normalize(publicKey).value);
               var (t, outcome) := AnnouncementStep(crypto, cfg, s, Call(built.value, now));
               t.peers == s.peers[participantId := record]
               && outcome == Ok(if participantId !in s.peers then PeerAdded(participantId)
                                else if s.peers[participantId] == record then Ignored
                                else PeerUpdated(participantId))
  {
    hide *;
    SenderNotBlank(cfg.expectedSid, participantId, address);
    SafeFields(cfg.expectedSid, participantId, address);
    AnnouncementArrives(crypto, cfg.expectedSid, cfg.sidToken, participantId, address, port, publicKey, timestampSecs,
        nonce);
    NormalizeCanonical(publicKey);
    var key := Normalize(publicKey).value;
    var entries := AnnouncementEntries(cfg.expectedSid, participantId, address, port, key);
    AnnouncementBody(cfg.expectedSid, participantId, address, port, key);
    FreshVerdict(crypto, cfg, s.seen, participantId, timestampSecs, nonce, Encode(PayloadText(entries)), now);
    FreshStep(crypto, cfg, s, participantId, address, port, publicKey, timestampSecs, nonce, now);
  }

  lemma SenderNotBlank(sid: string, participantId: string, address: string)
    requires SafeSender(sid, participantId, address)
    ensures SafeAnnouncement(sid, participantId, address) && Trim(participantId) == participantId && participantId != ""
  {
    hide Trim, Trimmed;
  }

  lemma FreshVerdict(
    crypto: Crypto, cfg: Config, seen: map<string, u64>, senderId: string, timestampSecs: u64, nonce: string,
    body: Bytes, now: u64)
    requires SatSub(now, cfg.skew) <= timestampSecs <= SatAdd(now, cfg.skew)
    requires senderId + ":" + nonce !in Prune(seen, now, cfg.ttl)
    ensures var e := SignEnvelope(crypto, cfg.expectedSid, cfg.sidToken, senderId, timestampSecs, nonce,
            UdpAnnouncement, body);
            VerifyStep(crypto, cfg, seen, Call(e, now)).1 == Ok(())
  {
    SignedVerifies(crypto, cfg.expectedSid, cfg.sidToken, senderId, timestampSecs, nonce, UdpAnnouncement, body);
    hide VerifyEnvelope, Prune, CanonicalPayload, Mac, SatSub, SatAdd;
  }

  /** What one announcement does once it is authentic, fresh and well formed. */
  lemma FreshStep(
    crypto: Crypto, cfg: Config, s: State, participantId: string, address: string, port: u16, publicKey: string,
    timestampSecs: u64, nonce: string, now: u64)
    requires Normalize(publicKey).Ok? && Trim(participantId) == participantId && participantId != ""
    requires var key := Normalize(publicKey).value;
             var body := Encode(PayloadText(AnnouncementEntries(cfg.expectedSid, participantId, address, port, key)));
             ParseAnnouncement(body) == Ok(Announcement(cfg.expectedSid, participantId, address, port, key))
             && VerifyStep(crypto, cfg, s.seen,
             Call(SignEnvelope(crypto, cfg.expectedSid, cfg.sidToken, participantId, timestampSecs, nonce,
             UdpAnnouncement, body), now)).1 == Ok(())
    ensures var built := BuildStartupAnnouncement(crypto, cfg.expectedSid, cfg.sidToken, participantId, address, port,
            publicKey, timestampSecs, nonce);
            var record := PeerRecord(participantId, address, port, Normalize(publicKey).value);
            built.Ok?
            && var (t, outcome) := AnnouncementStep(crypto, cfg, s, Call(built.value, now));
               t.peers == s.peers[participantId := record]
               && outcome == Ok(if participantId !in s.peers then PeerAdded(participantId)
                                else if s.peers[participantId] == record then Ignored
                                else PeerUpdated(participantId))
  {
    hide ParseAnnouncement, VerifyStep, Normalize, Encode, PayloadText, AnnouncementEntries, Trim, CanonicalPayload,
         Mac;
  }
}
