/** Peer discovery: bootstrap peers, signed announcements, and the sync trigger. */
module Discovery {
  import opened Prelude
  import opened Text
  import opened Utf8
  import opened Payload
  import opened Auth
  import opened Replay
  import opened SshKeys
  import opened Wire

  datatype PeerEndpoint = PeerEndpoint(participantId: string, address: string, port: u16)

  datatype PeerRecord = PeerRecord(participantId: string, address: string, port: u16, publicKey: string)

  datatype Announcement =
    Announcement(sid: string, participantId: string, address: string, port: u16, publicKey: string)

  datatype DiscoveryEvent = Ignored | PeerAdded(participantId: string) | PeerUpdated(participantId: string)

  datatype DiscoveryError = InvalidAnnouncementPayload | InvalidPublicKey

  // ---------- parsing ----------

  /** `id@host:port`, or `host:port` standing for its own id; the runtime's form, which allows an empty host. */
  function ParseEndpoint(value: string): Option<PeerEndpoint> {
    var trimmed := Trim(value);
    if trimmed == "" then None
    else
      var (participantId, hostPort) :=
        match SplitOnce(trimmed, '@')
        case Some((participant, rest)) => (Trim(participant), Trim(rest))
        case None => (trimmed, trimmed);
      var (address, portText) :- RSplitOnce(hostPort, ':');
      var port :- ParseUint(Trim(portText), U16_MAX);
      Some(PeerEndpoint(participantId, Trim(address), port))
  }

  /** The discovery engine's form, which also refuses an empty host. */
  function ParseBootstrapPeer(value: string): Option<PeerEndpoint> {
    var endpoint :- ParseEndpoint(value);
    if endpoint.address == "" then None else Some(endpoint)
  }

  function Field(m: map<string, string>, key: string): Result<string, DiscoveryError> {
    if key in m then Ok(m[key]) else Err(InvalidAnnouncementPayload)
  }

  function AnnouncementOf(m: map<string, string>): Result<Announcement, DiscoveryError> {
    var sid :- Field(m, "sid");
    var participantId :- Field(m, "participant_id");
    var address :- Field(m, "address");
    var portText :- Field(m, "port");
    match ParseUint(portText, U16_MAX)
    case None => Err(InvalidAnnouncementPayload)
    case Some(port) =>
      var keyText :- Field(m, "public_key");
      match Normalize(keyText)
      case Err(_) => Err(InvalidPublicKey)
      case Ok(publicKey) =>
        if sid == "" || address == "" then Err(InvalidAnnouncementPayload)
        else Ok(Announcement(sid, participantId, address, port, publicKey))
  }

  function ParseAnnouncement(body: Bytes): Result<Announcement, DiscoveryError> {
    match ParsePayload(body)
    case None => Err(InvalidAnnouncementPayload)
    case Some(m) => AnnouncementOf(m)
  }

  function AnnouncementEntries(
    sid: string, participantId: string, address: string, port: u16, publicKey: string)
    : seq<Entry>
  {
    [Entry("sid", sid), Entry("participant_id", participantId), Entry("address", address), Entry("port", Dec(port)),
     Entry("public_key", publicKey)]
  }

  function BuildStartupAnnouncement(
    crypto: Crypto, sid: string, sidToken: string, participantId: string, address: string, port: u16, publicKey: string,
    timestampSecs: u64, nonce: string): Result<SignedEnvelope, DiscoveryError>
  {
    match Normalize(publicKey)
    case Err(_) => Err(InvalidPublicKey)
    case Ok(key) =>
      var body := Encode(PayloadText(AnnouncementEntries(sid, participantId, address, port, key)));
      Ok(SignEnvelope(crypto, sid, sidToken, participantId, timestampSecs, nonce, UdpAnnouncement, body))
  }

  // ---------- steps ----------

  /** The engine's changing state; `seen` is its verifier's nonce cache. */
  datatype State = State(seen: map<string, u64>, peers: map<string, PeerRecord>, pending: bool)

  datatype Op = Bootstrap(values: seq<string>) | Announce(call: Call) | Take

  /** One bootstrap value: installed even over a discovered record; only a new id raises the trigger. */
  function BootstrapOne(s: State, value: string): State {
    match ParseBootstrapPeer(value)
    case None => s
    case Some(p) =>
      State(s.seen, s.peers[p.participantId := PeerRecord(p.participantId, p.address, p.port, "")],
            s.pending || p.participantId !in s.peers)
  }

  function BootstrapAll(s: State, values: seq<string>): State {
    if values == [] then s
    else BootstrapOne(BootstrapAll(s, values[..|values| - 1]), values[|values| - 1])
  }

  lemma BootstrapNone(s: State)
    ensures BootstrapAll(s, []) == s
  {
  }

  lemma BootstrapNext(s: State, values: seq<string>, i: nat)
    requires i < |values|
    ensures BootstrapAll(s, values[..i + 1]) == BootstrapOne(BootstrapAll(s, values[..i]), values[i])
  {
    assert values[..i + 1][..i] == values[..i];
    hide BootstrapOne;
  }

  /** Install an authenticated announcement. */
  function Install(s: State, cfg: Config, body: Bytes): (State, Result<DiscoveryEvent, DiscoveryError>) {
    match ParseAnnouncement(body)
    case Err(error) => (s, Err(error))
    case Ok(a) =>
      if a.sid != cfg.expectedSid then (s, Ok(Ignored))
      else if Trim(a.participantId) == "" then (s, Err(InvalidAnnouncementPayload))
      else
        var record := PeerRecord(a.participantId, a.address, a.port, a.publicKey);
        if a.participantId in s.peers && s.peers[a.participantId] == record then (s, Ok(Ignored))
        else
          (State(s.seen, s.peers[a.participantId := record], true),
           Ok(if a.participantId in s.peers then PeerUpdated(a.participantId) else PeerAdded(a.participantId)))
  }

  function AnnouncementStep(crypto: Crypto, cfg: Config, s: State, c: Call)
    : (State, Result<DiscoveryEvent, DiscoveryError>)
  {
    if !c.envelope.context.UdpAnnouncement? then (s, Ok(Ignored))
    else
      var (seen, verdict) := VerifyStep(crypto, cfg, s.seen, c);
      if verdict.Err? then (s.(seen := seen), Ok(Ignored))
      else Install(s.(seen := seen), cfg, c.envelope.body)
  }

  function Step(crypto: Crypto, cfg: Config, s: State, op: Op): State {
    match op
    case Bootstrap(values) => BootstrapAll(s, values)
    case Announce(c) => AnnouncementStep(crypto, cfg, s, c).0
    case Take => s.(pending := false)
  }

  function StateAfter(crypto: Crypto, cfg: Config, ops: seq<Op>): State {
    if ops == [] then State(map[], map[], false)
    else Step(crypto, cfg, StateAfter(crypto, cfg, ops[..|ops| - 1]), ops[|ops| - 1])
  }

  /** The calls of a run that reach the verifier. */
  function VerifierCalls(ops: seq<Op>): seq<Call> {
    if ops == [] then []
    else
      var last := ops[|ops| - 1];
      VerifierCalls(ops[..|ops| - 1])
      + (if last.Announce? && last.call.envelope.context.UdpAnnouncement? then [last.call] else [])
  }

  lemma StateSnoc(crypto: Crypto, cfg: Config, ops: seq<Op>, op: Op)
    ensures StateAfter(crypto, cfg, ops + [op]) == Step(crypto, cfg, StateAfter(crypto, cfg, ops), op)
    ensures VerifierCalls(ops + [op])
            == VerifierCalls(ops)
            + (if op.Announce? && op.call.envelope.context.UdpAnnouncement? then [op.call] else [])
  {
    assert (ops + [op])[..|ops|] == ops;
  }

  // ---------- the engine ----------

  class DiscoveryEngine {
    const crypto: Crypto
    const sid: string
    const sidToken: string
    const verifier: EnvelopeVerifier
    var peers: map<string, PeerRecord>
    var syncTriggerPending: bool
    ghost var history: seq<Op>

    ghost function Cfg(): Config
      reads this
    {
      verifier.Cfg()
    }

    /** The fields are the state the history leads to. */
    ghost predicate Valid()
      reads this, verifier
    {
      && verifier.Valid() && verifier.crypto == crypto
      && verifier.sidToken == sidToken && verifier.expectedSid == sid
      && verifier.history == VerifierCalls(history)
      && State(verifier.seenNonces, peers, syncTriggerPending) == StateAfter(crypto, Cfg(), history)
    }

    constructor (crypto: Crypto, sid: string, sidToken: string, timestampSkewSecs: u64, nonceTtlSecs: u64)
      ensures Valid() && fresh(verifier) && history == []
      ensures this.crypto == crypto && Cfg() == Config(sidToken, sid, timestampSkewSecs, nonceTtlSecs)
    {
      this.crypto := crypto;
      this.sid := sid;
      this.sidToken := sidToken;
      verifier := new EnvelopeVerifier(crypto, sidToken, sid, timestampSkewSecs, nonceTtlSecs);
      peers := map[];
      syncTriggerPending := false;
      history := [];
    }

    method AddBootstrapPeers(bootstrapPeers: seq<string>)
      requires Valid()
      modifies this
      ensures Valid() && history == old(history) + [Bootstrap(bootstrapPeers)]
    {
      hide ParseBootstrapPeer, VerifyStep, SeenAfter, StateAfter, VerifierCalls, BootstrapAll;
      ghost var s0 := State(verifier.seenNonces, peers, syncTriggerPending);
      StateSnoc(crypto, Cfg(), history, Bootstrap(bootstrapPeers));
      BootstrapNone(s0);
      for i := 0 to |bootstrapPeers|
        invariant State(verifier.seenNonces, peers, syncTriggerPending) == BootstrapAll(s0, bootstrapPeers[..i])
        invariant history == old(history)
      {
        BootstrapNext(s0, bootstrapPeers, i);
        var parsed := ParseBootstrapPeer(bootstrapPeers[i]);
        if parsed.None? {
          continue;
        }
        var p := parsed.value;
        if p.participantId !in peers {
          syncTriggerPending := true;
        }
        peers := peers[p.participantId := PeerRecord(p.participantId, p.address, p.port, "")];
      }
      assert bootstrapPeers[..|bootstrapPeers|] == bootstrapPeers;
      history := history + [Bootstrap(bootstrapPeers)];
      AppendNil(verifier.history);
    }

    method ProcessAnnouncement(
      envelope: SignedEnvelope, nowSecs: u64)
      returns (r: Result<DiscoveryEvent, DiscoveryError>)
      requires Valid()
      modifies this, verifier
      ensures Valid() && history == old(history) + [Announce(Call(envelope, nowSecs))]
      ensures r == AnnouncementStep(crypto, Cfg(), StateAfter(crypto, Cfg(), old(history)), Call(envelope, nowSecs)).1
    {
      hide Install, VerifyStep, SeenAfter, ResultAt, VerifierCalls;
      ghost var c := Call(envelope, nowSecs);
      ghost var s0 := StateAfter(crypto, Cfg(), history);
      StateSnoc(crypto, Cfg(), history, Announce(c));
      history := history + [Announce(c)];
      if !envelope.context.UdpAnnouncement? {
        AppendNil(verifier.history);
        return Ok(Ignored);
      }
      VerifierStep(verifier, c);
      var verdict := verifier.Verify(envelope, nowSecs);
      if verdict.Err? {
        return Ok(Ignored);
      }
      r := RecordAnnouncement(envelope.body);
    }

    /** The part of processing that follows authentication. */
    method RecordAnnouncement(body: Bytes) returns (r: Result<DiscoveryEvent, DiscoveryError>)
      requires verifier.expectedSid == sid
      modifies this`peers, this`syncTriggerPending
      ensures (State(verifier.seenNonces, peers, syncTriggerPending), r)
           == Install(State(verifier.seenNonces, old(peers), old(syncTriggerPending)), Cfg(), body)
    {
      hide ParseAnnouncement, Trim;
      var announcement :- ParseAnnouncement(body);
      if announcement.sid != sid {
        return Ok(Ignored);
      }
      if Trim(announcement.participantId) == "" {
        return Err(InvalidAnnouncementPayload);
      }
      var participantId := announcement.participantId;
      var newRecord := PeerRecord(participantId, announcement.address, announcement.port, announcement.publicKey);
      var event;
      if participantId !in peers {
        event := PeerAdded(participantId);
      } else if peers[participantId] == newRecord {
        event := Ignored;
      } else {
        event := PeerUpdated(participantId);
      }
      if event != Ignored {
        peers := peers[participantId := newRecord];
        syncTriggerPending := true;
      }
      return Ok(event);
    }

    method TakeSyncTrigger() returns (taken: bool)
      requires Valid()
      modifies this
      ensures Valid() && history == old(history) + [Take]
      ensures taken == StateAfter(crypto, Cfg(), old(history)).pending
    {
      StateSnoc(crypto, Cfg(), history, Take);
      AppendNil(verifier.history);
      history := history + [Take];
      if syncTriggerPending {
        syncTriggerPending := false;
        taken := true;
      } else {
        taken := false;
      }
    }
  }

  /** One call of the verifier, in terms of its history. */
  lemma VerifierStep(v: EnvelopeVerifier, c: Call)
    requires v.Valid()
    ensures SeenAfter(v.crypto, v.Cfg(), v.history + [c]) == VerifyStep(v.crypto, v.Cfg(), v.seenNonces, c).0
    ensures ResultAt(v.crypto, v.Cfg(), v.history + [c], |v.history|)
            == VerifyStep(v.crypto, v.Cfg(), v.seenNonces, c).1
  {
    assert (v.history + [c])[..|v.history|] == v.history;
  }

  // ---------- peers and announcements, written out ----------

  /** `id@host:port`: the id ends at the first `@`, the port starts after the last `:`, white space around each goes. */
  lemma EndpointWithId(id: string, host: string, port: string)
    requires '@' !in id && ':' !in port
    ensures ParseEndpoint(id + "@" + (host + ":" + port))
         == match ParseUint(Trim(port), 65535)
            case None => None
            case Some(n) => Some(PeerEndpoint(Trim(id), Trim(host), n))
  {
    SeparatorsAreText();
    hide Trim, TrimStart, TrimEnd, IsWs, ParseUint;
    var rest := host + ":" + port;
    TrimAround(id, '@', rest);
    StartKeeps(id, '@');
    SplitOnceAt(TrimStart(id), '@', TrimEnd(rest));
    TrimTwice(id);
    TrimTwice(rest);
    TrimAround(host, ':', port);
    EndKeeps(port, ':');
    RSplitOnceAt(TrimStart(host), ':', TrimEnd(port));
    TrimTwice(host);
    TrimTwice(port);
  }

  /** `host:port` without a `@`: the whole text is the id. */
  lemma EndpointBare(host: string, port: string)
    requires '@' !in host + ":" + port && ':' !in port
    ensures ParseEndpoint(host + ":" + port)
         == match ParseUint(Trim(port), 65535)
            case None => None
            case Some(n) => Some(PeerEndpoint(Trim(host + ":" + port), Trim(host), n))
  {
    SeparatorsAreText();
    hide Trim, TrimStart, TrimEnd, IsWs, ParseUint, SplitOnce;
    TrimAround(host, ':', port);
    EndKeeps(port, ':');
    RSplitOnceAt(TrimStart(host), ':', TrimEnd(port));
    TrimTwice(host);
    TrimTwice(port);
    assert forall c :: c in Trim(host + ":" + port) ==> c in host + ":" + port;
  }

  /** Nothing else stands for a peer: there is no `:`, or none after the first `@`. */
  lemma EndpointNeedsPort(value: string)
    requires ':' !in value || exists id, rest :: value == id + "@" + rest && '@' !in id && ':' !in rest
    ensures ParseEndpoint(value) == None
  {
    SeparatorsAreText();
    hide TrimStart, TrimEnd, IsWs, ParseUint, SplitOnce, RSplitOnce, Trim;
    if ':' !in value {
      NoColonLeft(value);
    } else {
      var id, rest :| value == id + "@" + rest && '@' !in id && ':' !in rest;
      TrimAround(id, '@', rest);
      StartKeeps(id, '@');
      EndKeeps(rest, ':');
      SplitOnceAt(TrimStart(id), '@', TrimEnd(rest));
    }
  }

  lemma NoColonLeft(value: string)
    requires ':' !in value
    ensures ParseEndpoint(value) == None
  {
    hide TrimStart, TrimEnd, IsWs, ParseUint, SplitOnce, RSplitOnce, Trim;
    var t := Trim(value);
    match SplitOnce(t, '@')
    case None =>
    case Some((a, b)) => assert forall c :: c in b ==> c in t;
  }

  lemma SeparatorsAreText()
    ensures !IsWs('@') && !IsWs(':')
  {
  }

  lemma StartKeeps(s: string, c: char)
    requires c !in s
    ensures c !in TrimStart(s)
  {
    hide IsWs;
    var r := TrimStart(s);
    assert forall i :: 0 <= i < |r| ==> r[i] == s[|s| - |r| + i];
  }

  lemma EndKeeps(s: string, c: char)
    requires c !in s
    ensures c !in TrimEnd(s)
  {
    hide IsWs;
    var r := TrimEnd(s);
    assert forall i :: 0 <= i < |r| ==> r[i] == s[i];
  }

  /** The engine takes what the runtime takes, except an empty host. */
  lemma BootstrapIs(value: string)
    ensures ParseBootstrapPeer(value).Some? <==> ParseEndpoint(value).Some? && ParseEndpoint(value).value.address != ""
    ensures ParseBootstrapPeer(value).Some? ==> ParseBootstrapPeer(value) == ParseEndpoint(value)
  {
    hide ParseEndpoint;
  }

  /** An announcement body is read exactly when it holds the five fields, a port, a key, a SID and an address. */
  lemma AnnouncementIs(body: Bytes)
    ensures var m := ParsePayload(body);
            ParseAnnouncement(body)
            == (if m.None? || "sid" !in m.value || "participant_id" !in m.value || "address" !in m.value
               || "port" !in m.value
                   || ParseUint(m.value["port"], 65535).None? || "public_key" !in m.value
                then Err(InvalidAnnouncementPayload)
                else if Normalize(m.value["public_key"]).Err? then Err(InvalidPublicKey)
                else if m.value["sid"] == "" || m.value["address"] == "" then Err(InvalidAnnouncementPayload)
                else Ok(Announcement(m.value["sid"], m.value["participant_id"], m.value["address"],
                                     ParseUint(m.value["port"], 65535).value, Normalize(m.value["public_key"]).value)))
  {
    hide ParsePayload, Normalize, ParseUint;
  }

  /** A built announcement: signed in the sender's name, in the announcement context, with its five lines. */
  lemma BuiltAnnouncementIs(
    crypto: Crypto, sid: string, sidToken: string, participantId: string, address: string, port: u16, publicKey: string,
    t: u64, nonce: string)
    ensures var built := BuildStartupAnnouncement(crypto, sid, sidToken, participantId, address, port, publicKey, t,
            nonce);
            (built.Ok? <==> Normalize(publicKey).Ok?)
            && (built.Err? ==> built.error == InvalidPublicKey)
            && (built.Ok? ==>
                  var e := built.value;
                  e.sid == sid && e.senderId == participantId && e.timestampSecs == t && e.nonce == nonce
                  && e.context == UdpAnnouncement && VerifyEnvelope(crypto, e, sidToken, sid) == Ok(())
                  && e.body == Encode("sid=" + sid + "\n" + ("participant_id=" + participantId + "\n"
                               + ("address=" + address + "\n" + ("port=" + Dec(port) + "\n"
                               + ("public_key=" + Normalize(publicKey).value + "\n"))))))
  {
    hide Normalize, Encode, PayloadText, VerifyEnvelope, CanonicalPayload, Mac, Dec;
    if Normalize(publicKey).Ok? {
      var key := Normalize(publicKey).value;
      var body := PayloadText(AnnouncementEntries(sid, participantId, address, port, key));
      FiveLines(sid, participantId, address, Dec(port), key);
      SignedVerifies(crypto, sid, sidToken, participantId, t, nonce, UdpAnnouncement, Encode(body));
    }
  }

  lemma FiveLines(sid: string, participantId: string, address: string, port: string, key: string)
    ensures PayloadText([Entry("sid", sid), Entry("participant_id", participantId), Entry("address", address),
                         Entry("port", port), Entry("public_key", key)])
         == "sid=" + sid + "\n" + ("participant_id=" + participantId + "\n"
            + ("address=" + address + "\n" + ("port=" + port + "\n" + ("public_key=" + key + "\n"))))
  {
    hide PayloadText;
    var d1 := [Entry("public_key", key)];
    var d2 := [Entry("port", port)] + d1;
    var d3 := [Entry("address", address)] + d2;
    var d4 := [Entry("participant_id", participantId)] + d3;
    assert [Entry("sid", sid)] + d4
        == [Entry("sid", sid), Entry("participant_id", participantId), Entry("address", address), Entry("port", port),
            Entry("public_key", key)];
    EntryFirst("sid", "sid=", sid, d4);
    EntryFirst("participant_id", "participant_id=", participantId, d3);
    EntryFirst("address", "address=", address, d2);
    EntryFirst("port", "port=", port, d1);
    EntryFirst("public_key", "public_key=", key, []);
    AppendNil(d1);
    EmptyText();
    AppendNil("public_key=" + key + "\n");
  }

  /** The outcome of an announcement, case by case. */
  lemma OutcomeIs(crypto: Crypto, cfg: Config, s: State, c: Call)
    ensures var outcome := AnnouncementStep(crypto, cfg, s, c).1;
            var read := ParseAnnouncement(c.envelope.body);
            outcome
            == (if !c.envelope.context.UdpAnnouncement? || VerifyStep(crypto, cfg, s.seen, c).1.Err? then Ok(Ignored)
                else if read.Err? then Err(read.error)
                else if read.value.sid != cfg.expectedSid then Ok(Ignored)
                else if AllWs(read.value.participantId) then Err(InvalidAnnouncementPayload)
                else
                  var a := read.value;
                  if a.participantId !in s.peers then Ok(PeerAdded(a.participantId))
                  else if s.peers[a.participantId] == PeerRecord(a.participantId, a.address, a.port, a.publicKey) then
                      Ok(Ignored)
                  else Ok(PeerUpdated(a.participantId)))
  {
    hide VerifyStep, ParseAnnouncement, Trim, AllWs;
    if ParseAnnouncement(c.envelope.body).Ok? {
      BlankIff(ParseAnnouncement(c.envelope.body).value.participantId);
    }
  }
}
