/** Group isolation of discovery: where the peer records of a node come from, over every run. */
module GroupDiscovery {
  import opened Prelude
  import opened Text
  import opened Utf8
  import opened Payload
  import opened Auth
  import opened Replay
  import opened SshKeys
  import opened Wire
  import opened Transport
  import opened Discovery
  import opened DiscoveryLaws
  import opened Group

  /** What node `i`'s discovery engine goes through in a run. */
  function DiscoveryOps(run: seq<Event>, i: nat): seq<Op> {
    if run == [] then []
    else
      var before := DiscoveryOps(run[..|run| - 1], i);
      match run[|run| - 1]
      case Configure(node, values) => if node == i then before + [Bootstrap(values)] else before
      case Hear(node, text, now) =>
        (match ParseEnvelope(text)
         case None => before
         case Some(e) => if node == i then before + [Op.Announce(Call(e, now))] else before)
      case _ => before
  }

  /** The peer records of node `i` after a run. */
  function Peers(crypto: Crypto, cfg: Config, run: seq<Event>, i: nat): map<string, PeerRecord> {
    StateAfter(crypto, cfg, DiscoveryOps(run, i)).peers
  }

  // ---------- where a record comes from ----------

  lemma {:induction false} BootstrapSource(s: State, values: seq<string>, id: string)
    requires id in BootstrapAll(s, values).peers
    ensures var record := BootstrapAll(s, values).peers[id];
            (id in s.peers && s.peers[id] == record) || record in BootstrapRecords(values)
  {
    if values != [] {
      hide ParseBootstrapPeer;
      var n := |values| - 1;
      if id in BootstrapAll(s, values[..n]).peers {
        BootstrapSource(s, values[..n], id);
      }
    }
  }

  lemma AnnouncementSource(crypto: Crypto, cfg: Config, s: State, c: Call, id: string)
    requires id in AnnouncementStep(crypto, cfg, s, c).0.peers
    ensures var record := AnnouncementStep(crypto, cfg, s, c).0.peers[id];
            (id in s.peers && s.peers[id] == record)
            || (c.envelope.context.UdpAnnouncement?
            && VerifyEnvelope(crypto, c.envelope, cfg.sidToken, cfg.expectedSid).Ok?
                && AnnouncedRecord(cfg.expectedSid, c.envelope.body) == Some(record) && record.participantId == id)
  {
    hide ParseAnnouncement, Trim, Mac, Canonical, InWindow, Prune;
  }

  /** The record was configured at event `k`. */
  predicate ConfiguredAt(run: seq<Event>, i: nat, k: nat, record: PeerRecord)
    requires k < |run|
  {
    run[k].Configure? && run[k].node == i && record in BootstrapRecords(run[k].values)
  }

  /** The record was heard at event `k` in an announcement that verified. */
  predicate HeardAt(crypto: Crypto, run: seq<Event>, i: nat, svc: Service, k: nat, record: PeerRecord)
    requires k < |run|
  {
    run[k].Hear? && run[k].node == i && Accepts(crypto, svc, run[k].text)
    && var e := ParseEnvelope(run[k].text).value;
       e.context.UdpAnnouncement? && AnnouncedRecord(svc.sid, e.body) == Some(record)
  }

  lemma StepSource(crypto: Crypto, cfg: Config, run: seq<Event>, i: nat, svc: Service, id: string)
    requires run != [] && cfg.sidToken == svc.sidToken && cfg.expectedSid == svc.sid && id in Peers(crypto, cfg, run, i)
    ensures var n := |run| - 1;
            var before, record := Peers(crypto, cfg, run[..n], i), Peers(crypto, cfg, run, i)[id];
            (id in before && before[id] == record) || ConfiguredAt(run, i, n, record)
                || HeardAt(crypto, run, i, svc, n, record)
  {
    hide ParseEnvelope, StateAfter, BootstrapAll, AnnouncementStep, VerifyEnvelope, AnnouncedRecord, BootstrapRecords;
    var n := |run| - 1;
    var ops := DiscoveryOps(run[..n], i);
    var s := StateAfter(crypto, cfg, ops);
    if run[n].Configure? && run[n].node == i {
      StateSnoc(crypto, cfg, ops, Bootstrap(run[n].values));
      BootstrapSource(s, run[n].values, id);
    } else if run[n].Hear? && run[n].node == i && ParseEnvelope(run[n].text).Some? {
      var c := Call(ParseEnvelope(run[n].text).value, run[n].now);
      StateSnoc(crypto, cfg, ops, Op.Announce(c));
      AnnouncementSource(crypto, cfg, s, c, id);
    }
  }

  /** Every record of a node was configured, or heard in an announcement that verified. */
  lemma {:induction false} RecordSource(crypto: Crypto, cfg: Config, run: seq<Event>, i: nat, svc: Service, id: string)
    returns (k: nat)
    requires cfg.sidToken == svc.sidToken && cfg.expectedSid == svc.sid && id in Peers(crypto, cfg, run, i)
    ensures k < |run|
    ensures var record := Peers(crypto, cfg, run, i)[id];
            ConfiguredAt(run, i, k, record) || HeardAt(crypto, run, i, svc, k, record)
  {
    hide Peers, ConfiguredAt, HeardAt;
    NoPeersAtFirst(crypto, cfg, i);
    assert run != [];
    var n := |run| - 1;
    StepSource(crypto, cfg, run, i, svc, id);
    var record := Peers(crypto, cfg, run, i)[id];
    if ConfiguredAt(run, i, n, record) || HeardAt(crypto, run, i, svc, n, record) {
      k := n;
    } else {
      k := RecordSource(crypto, cfg, run[..n], i, svc, id);
      SourceInPrefix(crypto, run, i, svc, n, k, record);
    }
  }

  lemma NoPeersAtFirst(crypto: Crypto, cfg: Config, i: nat)
    ensures Peers(crypto, cfg, [], i) == map[]
  {
  }

  lemma SourceInPrefix(crypto: Crypto, run: seq<Event>, i: nat, svc: Service, n: nat, k: nat, record: PeerRecord)
    requires k < n <= |run|
    ensures ConfiguredAt(run[..n], i, k, record) <==> ConfiguredAt(run, i, k, record)
    ensures HeardAt(crypto, run[..n], i, svc, k, record) <==> HeardAt(crypto, run, i, svc, k, record)
  {
    assert run[..n][k] == run[k];
    hide BootstrapRecords, Accepts, ParseEnvelope, AnnouncedRecord;
  }

  // ---------- isolation ----------

  /** The record is what an announcement carried that a node of the group made. */
  predicate RecordFromGroup(
    crypto: Crypto, nodes: seq<Service>, run: seq<Event>, k: nat, svc: Service, record: PeerRecord)
    requires k < |run|
  {
    run[k].Hear? && Accepts(crypto, svc, run[k].text)
    && var e := ParseEnvelope(run[k].text).value;
       AnnouncedRecord(svc.sid, e.body) == Some(record)
       && exists m :: 0 <= m < k && AnnouncedAt(crypto, nodes, run, m, svc, e)
  }

  /**
   Discovery isolation: after every run, on any clocks, every record of a node whose token has not
   leaked was configured there, or announced by a node with its SID and token. Every node that made
   the announcement has the record's id exactly when the announcement's sender has it.
   */
  lemma DiscoveryIsolation(
    crypto: Crypto, cfg: Config, nodes: seq<Service>, leaked: set<string>, run: seq<Event>, i: nat, id: string)
    returns (k: nat)
    requires i < |nodes| && cfg.sidToken == nodes[i].sidToken && cfg.expectedSid == nodes[i].sid
    requires Trustworthy(crypto, nodes, leaked, run) && nodes[i].sidToken !in leaked && id in Peers(crypto, cfg, run, i)
    ensures k < |run| && Peers(crypto, cfg, run, i)[id].participantId == id
    ensures ConfiguredAt(run, i, k, Peers(crypto, cfg, run, i)[id])
         || RecordFromGroup(crypto, nodes, run, k, nodes[i], Peers(crypto, cfg, run, i)[id])
    ensures !ConfiguredAt(run, i, k, Peers(crypto, cfg, run, i)[id]) ==>
              run[k].Hear? && Accepts(crypto, nodes[i], run[k].text)
              && var e := ParseEnvelope(run[k].text).value;
                 (forall m :: 0 <= m < k && AnnouncedAt(crypto, nodes, run, m, nodes[i], e) ==>
                     nodes[run[m].node].participantId == id)
                 <==> e.senderId == id
  {
    hide *;
    PeersKeyed(crypto, cfg, run, i, id);
    k := RecordSource(crypto, cfg, run, i, nodes[i], id);
    var record := Peers(crypto, cfg, run, i)[id];
    if !ConfiguredAt(run, i, k, record) {
      HeardIs(crypto, nodes, leaked, run, i, k, record);
      CoveredRead(crypto, nodes, leaked, run, k, run[k].text);
      var m := AnnouncedByGroup(crypto, nodes, run, k, nodes[i], run[k].text);
      AnnouncerNamedIff(crypto, nodes, run, k, nodes[i], run[k].text);
      FromGroupIs(crypto, nodes, run, k, m, nodes[i], record);
    }
  }

  lemma PeersKeyed(crypto: Crypto, cfg: Config, run: seq<Event>, i: nat, id: string)
    requires id in Peers(crypto, cfg, run, i)
    ensures Peers(crypto, cfg, run, i)[id].participantId == id
  {
    hide StateAfter, DiscoveryOps, IsNormalized, Trimmed;
    RecordsWellFormed(crypto, cfg, DiscoveryOps(run, i));
  }

  lemma HeardIs(
    crypto: Crypto, nodes: seq<Service>, leaked: set<string>, run: seq<Event>, i: nat, k: nat, record: PeerRecord)
    requires k < |run| && i < |nodes| && nodes[i].sidToken !in leaked && HeardAt(crypto, run, i, nodes[i], k, record)
    ensures run[k].Hear? && run[k].node == i && Accepts(crypto, nodes[i], run[k].text)
    ensures Trusting(nodes, leaked, run[k]) && Reads(run[k], run[k].text) && ParseEnvelope(run[k].text).Some?
    ensures var e := ParseEnvelope(run[k].text).value;
            e.context.UdpAnnouncement? && AnnouncedRecord(nodes[i].sid, e.body) == Some(record)
            && ParseAnnouncement(e.body).Ok? && ParseAnnouncement(e.body).value.participantId == record.participantId
  {
    hide ParseEnvelope, VerifyEnvelope, ParseAnnouncement, Trim;
  }

  lemma FromGroupIs(
    crypto: Crypto, nodes: seq<Service>, run: seq<Event>, k: nat, m: nat, svc: Service, record: PeerRecord)
    requires m < k < |run| && run[k].Hear? && Accepts(crypto, svc, run[k].text)
    requires AnnouncedRecord(svc.sid, ParseEnvelope(run[k].text).value.body) == Some(record)
    requires AnnouncedAt(crypto, nodes, run, m, svc, ParseEnvelope(run[k].text).value)
    ensures RecordFromGroup(crypto, nodes, run, k, svc, record)
  {
    hide ParseEnvelope, VerifyEnvelope, AnnouncedRecord, AnnouncedAt;
  }

  // ---------- the name of a record can be wrong ----------

  /** Node 1 announces an address that holds a newline and a second participant id; node 0 hears it. */
  function TwoIdRun(
    crypto: Crypto, announcer: Service, host: string, second: string, port: u16, key: string,
    t: u64, nonce: string, now: u64): seq<Event>
    requires Normalize(key).Ok?
  {
    var address := TwoLineAddress(host, second);
    var built := BuildStartupAnnouncement(
      crypto, announcer.sid, announcer.sidToken, announcer.participantId, address, port, key, t, nonce).value;
    [Event.Announce(1, address, port, key, t, nonce), Hear(0, Serialize(built), now)]
  }

  /**
   In an honest run of two nodes the announcement is installed under the second id, although it need
   not be the id of any node.
   */
  lemma MisnamedRecord(
    crypto: Crypto, cfg: Config, hearer: Service, announcer: Service, host: string, second: string, port: u16,
    key: string, t: u64, nonce: string, now: u64)
    requires SameGroup(announcer, hearer) && cfg.sidToken == hearer.sidToken && cfg.expectedSid == hearer.sid
    requires SafeAnnouncement(announcer.sid, announcer.participantId, host) && WireSafe(second) && second != ""
    requires WireSafe(nonce) && Normalize(key).Ok? && SatSub(now, cfg.skew) <= t <= SatAdd(now, cfg.skew)
    ensures var run := TwoIdRun(crypto, announcer, host, second, port, key, t, nonce, now);
            Trustworthy(crypto, [hearer, announcer], {}, run)
            && Peers(crypto, cfg, run, 0) == map[second := PeerRecord(second, host, port, Normalize(key).value)]
  {
    hide *;
    var nodes, address := [hearer, announcer], TwoLineAddress(host, second);
    var run := TwoIdRun(crypto, announcer, host, second, port, key, t, nonce, now);
    SafeFields(announcer.sid, announcer.participantId, host);
    GroupFields(announcer, hearer);
    NormalizeCanonical(key);
    AnnouncementArrives(
      crypto, announcer.sid, announcer.sidToken, announcer.participantId, address, port, key, t, nonce);
    var e := BuildStartupAnnouncement(
      crypto, announcer.sid, announcer.sidToken, announcer.participantId, address, port, key, t, nonce).value;
    TwoIdCovered(crypto, hearer, announcer, host, second, port, key, t, nonce, now, e);
    SecondIdWins(announcer.sid, announcer.participantId, host, second, port, Normalize(key).value);
    BuiltIs(crypto, announcer, address, port, key, t, nonce, e);
    NothingSeen(announcer.participantId + ":" + nonce, now, cfg.ttl);
    FreshVerdict(crypto, cfg, map[], announcer.participantId, t, nonce, e.body, now);
    HeardOps(crypto, announcer, host, second, port, key, t, nonce, now, e);
    OneInstalled(crypto, cfg, run, Call(e, now), Announcement(announcer.sid, second, host, port, Normalize(key).value));
  }

  lemma NothingSeen(k: string, now: u64, ttl: u64)
    ensures k !in Prune(map[], now, ttl)
  {
  }

  lemma BuiltIs(
    crypto: Crypto, svc: Service, address: string, port: u16, key: string, t: u64, nonce: string, e: SignedEnvelope)
    requires BuildStartupAnnouncement(crypto, svc.sid, svc.sidToken, svc.participantId, address, port, key, t, nonce)
             == Ok(e)
    ensures Normalize(key).Ok?
    ensures e.body == Encode(PayloadText(AnnouncementEntries(svc.sid, svc.participantId, address, port,
            Normalize(key).value)))
    ensures e == SignEnvelope(crypto, svc.sid, svc.sidToken, svc.participantId, t, nonce, UdpAnnouncement, e.body)
    ensures e.context.UdpAnnouncement?
  {
    hide Normalize, Encode, PayloadText, AnnouncementEntries, CanonicalPayload, Mac;
  }

  lemma TwoIdCovered(
    crypto: Crypto, hearer: Service, announcer: Service, host: string, second: string, port: u16, key: string,
    t: u64, nonce: string, now: u64, e: SignedEnvelope)
    requires SameGroup(announcer, hearer) && Normalize(key).Ok? && ParseEnvelope(Serialize(e)) == Some(e)
    requires BuildStartupAnnouncement(
               crypto, announcer.sid, announcer.sidToken, announcer.participantId, TwoLineAddress(host, second), port,
                   key, t, nonce)
             == Ok(e)
    ensures Trustworthy(crypto, [hearer, announcer], {},
            TwoIdRun(crypto, announcer, host, second, port, key, t, nonce, now))
  {
    hide BuildStartupAnnouncement, ParseEnvelope, Serialize, Normalize, Covered, TwoLineAddress;
    var nodes := [hearer, announcer];
    var run := TwoIdRun(crypto, announcer, host, second, port, key, t, nonce, now);
    assert Signs(crypto, nodes, run[0]) == Some(e);
    CoveredBy(crypto, nodes, run, 1, 0, hearer, Serialize(e), e);
  }

  lemma HeardOps(
    crypto: Crypto, announcer: Service, host: string, second: string, port: u16, key: string,
    t: u64, nonce: string, now: u64, e: SignedEnvelope)
    requires Normalize(key).Ok? && ParseEnvelope(Serialize(e)) == Some(e)
    requires BuildStartupAnnouncement(
               crypto, announcer.sid, announcer.sidToken, announcer.participantId, TwoLineAddress(host, second), port,
                   key, t, nonce)
             == Ok(e)
    ensures DiscoveryOps(TwoIdRun(crypto, announcer, host, second, port, key, t, nonce, now), 0)
            == [Op.Announce(Call(e, now))]
  {
    hide BuildStartupAnnouncement, ParseEnvelope, Serialize, Normalize, TwoLineAddress;
    var run := TwoIdRun(crypto, announcer, host, second, port, key, t, nonce, now);
    assert run[..1] == [run[0]] && run[..1][..0] == [];
    assert DiscoveryOps(run[..1], 0) == [];
  }

  lemma OneInstalled(crypto: Crypto, cfg: Config, run: seq<Event>, c: Call, a: Announcement)
    requires DiscoveryOps(run, 0) == [Op.Announce(c)] && c.envelope.context.UdpAnnouncement?
    requires VerifyStep(crypto, cfg, map[], c).1 == Ok(()) && ParseAnnouncement(c.envelope.body) == Ok(a)
    requires a.sid == cfg.expectedSid && WireSafe(a.participantId) && a.participantId != ""
    ensures Peers(crypto, cfg, run, 0)
            == map[a.participantId := PeerRecord(a.participantId, a.address, a.port, a.publicKey)]
  {
    hide VerifyStep, ParseAnnouncement, Trim, DiscoveryOps;
    assert Trim(a.participantId) == a.participantId;
    StateSnoc(crypto, cfg, [], Op.Announce(c));
    assert [] + [Op.Announce(c)] == [Op.Announce(c)];
  }
}
