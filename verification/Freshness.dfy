/**
 What the HTTP handlers do about old messages. Announcements pass the time window and the nonce
 cache; requests and responses pass the signature only. The laws say exactly when that makes a
 difference.
 */
module Freshness {
  import opened Prelude
  import opened Text
  import opened Utf8
  import opened Payload
  import opened Auth
  import opened Replay
  import opened ReplayLaws
  import opened SshKeys
  import opened Wire
  import opened Transport
  import opened Exchange
  import opened Discovery
  import opened SyncCycle
  import opened Group

  // ---------- one message ----------

  /** A verifier for the service's own SID and token. */
  predicate Matches(cfg: Config, svc: Service) {
    cfg.sidToken == svc.sidToken && cfg.expectedSid == svc.sid
  }

  /** Refused for nothing but its age or its nonce, or not refused at all. */
  predicate AgeAside(r: Result<(), AuthError>) {
    r.Ok? || r == Err(TimestampOutsideWindow) || r == Err(ReplayNonce)
  }

  /** In the window, and its nonce not remembered. */
  predicate Fresh(cfg: Config, seen: map<string, u64>, c: Call) {
    InWindow(cfg, c) && NonceKey(c.envelope) !in Prune(seen, c.now, cfg.ttl)
  }

  /** The handlers' check is the verifier's with window and nonce cache left out; the two differ on stale messages. */
  lemma VerifiedIff(crypto: Crypto, svc: Service, cfg: Config, seen: map<string, u64>, c: Call)
    requires Matches(cfg, svc)
    ensures Verified(crypto, svc, c.envelope).Ok? <==> AgeAside(VerifyStep(crypto, cfg, seen, c).1)
    ensures VerifyStep(crypto, cfg, seen, c).1.Ok? <==> Verified(crypto, svc, c.envelope).Ok? && Fresh(cfg, seen, c)
  {
    hide Mac, Canonical, Prune, InWindow;
  }

  /**
   A key request is answered exactly when the verifier accepts it or refuses it for its age or nonce
   alone, whatever the verifier has seen; so the two agree on an answered request exactly when it is fresh.
   */
  lemma KeyRequestIff(crypto: Crypto, svc: Service, cfg: Config, calls: seq<Call>, c: Call, t: u64, n: string)
    requires Matches(cfg, svc) && IsRequest(c.envelope.context, "POST", PATH_GET_PUBLIC_KEY)
    ensures var answered := HandleGetPublicKeyRequest(crypto, svc, c.envelope, t, n).Ok?;
            var verdict := VerifyStep(crypto, cfg, SeenAfter(crypto, cfg, calls), c).1;
            (answered <==> AgeAside(verdict))
            && (answered ==> (verdict.Ok? <==> Fresh(cfg, SeenAfter(crypto, cfg, calls), c)))
  {
    VerifiedIff(crypto, svc, cfg, SeenAfter(crypto, cfg, calls), c);
    hide IsRequest, KeyResponse, VerifyStep, Fresh, SeenAfter, Verified;
  }

  /** The same for publications: what is left beside the verdict is the body. */
  lemma PublicationIff(crypto: Crypto, svc: Service, cfg: Config, calls: seq<Call>, c: Call, t: u64, n: string)
    requires Matches(cfg, svc) && IsRequest(c.envelope.context, "POST", PATH_PUBLISH_PARTICIPANT)
    ensures var acknowledged := HandlePublishRequest(crypto, svc, c.envelope, t, n).Ok?;
            var verdict := VerifyStep(crypto, cfg, SeenAfter(crypto, cfg, calls), c).1;
            (acknowledged <==> AgeAside(verdict) && PublicationOk(c.envelope.body))
            && (acknowledged ==> (verdict.Ok? <==> Fresh(cfg, SeenAfter(crypto, cfg, calls), c)))
  {
    VerifiedIff(crypto, svc, cfg, SeenAfter(crypto, cfg, calls), c);
    hide IsRequest, PublishResponse, VerifyStep, Fresh, SeenAfter, Verified, RequirePayload, PublishPayloadOf,
         Normalize;
  }

  /** A readable publication of a valid key. */
  predicate PublicationOk(body: Bytes) {
    var m := RequirePayload(body);
    m.Ok? && PublishPayloadOf(m.value).Ok? && Normalize(PublishPayloadOf(m.value).value.publicKey).Ok?
  }

  /** A readable reply with a valid key. */
  predicate ReplyOk(body: Bytes) {
    var m := RequirePayload(body);
    m.Ok? && KeyPayloadOf(m.value).Ok?
  }

  /** And for the replies a client reads. */
  lemma ReplyIff(crypto: Crypto, svc: Service, cfg: Config, calls: seq<Call>, c: Call)
    requires Matches(cfg, svc) && IsResponse(c.envelope.context, 200, PATH_GET_PUBLIC_KEY)
    ensures var read := VerifyAndParsePublicKeyResponse(crypto, svc, c.envelope).Ok?;
            var verdict := VerifyStep(crypto, cfg, SeenAfter(crypto, cfg, calls), c).1;
            (read <==> AgeAside(verdict) && ReplyOk(c.envelope.body))
            && (read ==> (verdict.Ok? <==> Fresh(cfg, SeenAfter(crypto, cfg, calls), c)))
  {
    VerifiedIff(crypto, svc, cfg, SeenAfter(crypto, cfg, calls), c);
    hide IsResponse, VerifyStep, Fresh, SeenAfter, Verified, RequirePayload, KeyPayloadOf;
  }

  // ---------- runs of requests ----------

  /** The server answers request number `i`. */
  predicate Answered(crypto: Crypto, svc: Service, calls: seq<Call>, i: nat)
    requires i < |calls|
  {
    Verified(crypto, svc, calls[i].envelope).Ok?
    && IsRequest(calls[i].envelope.context, "POST", PATH_GET_PUBLIC_KEY)
  }

  lemma AnsweredIs(crypto: Crypto, svc: Service, calls: seq<Call>, i: nat, t: u64, n: string)
    requires i < |calls|
    ensures HandleGetPublicKeyRequest(crypto, svc, calls[i].envelope, t, n).Ok? <==> Answered(crypto, svc, calls, i)
  {
    hide Verified, IsRequest, KeyResponse;
  }

  predicate AllKeyRequests(calls: seq<Call>) {
    forall i :: 0 <= i < |calls| ==> IsRequest(calls[i].envelope.context, "POST", PATH_GET_PUBLIC_KEY)
  }

  /** As documented: nothing is answered that a verifier with window and full log would refuse. */
  predicate AsDocumented(crypto: Crypto, svc: Service, cfg: Config, calls: seq<Call>) {
    forall i :: 0 <= i < |calls| && Answered(crypto, svc, calls, i) ==> IdealResultAt(crypto, cfg, calls, i).Ok?
  }

  /** Request `i` is in its window, and no request answered within the last TTL had its sender and nonce. */
  predicate Timely(crypto: Crypto, svc: Service, cfg: Config, calls: seq<Call>, i: nat)
    requires i < |calls|
  {
    InWindow(cfg, calls[i])
    && forall j :: 0 <= j < i && Answered(crypto, svc, calls, j)
                   && NonceKey(calls[j].envelope) == NonceKey(calls[i].envelope)
                   ==> SatSub(calls[i].now, calls[j].now) > cfg.ttl
  }

  /** Entry of the log for call `j`. */
  function EntryOf(c: Call): Acceptance {
    Acceptance(NonceKey(c.envelope), c.now)
  }

  lemma LogStep(crypto: Crypto, cfg: Config, calls: seq<Call>, i: nat)
    requires i < |calls|
    ensures LogAfter(crypto, cfg, calls[..i + 1])
         == LogAfter(crypto, cfg, calls[..i])
            + (if IdealResultAt(crypto, cfg, calls, i).Ok? then [EntryOf(calls[i])] else [])
  {
    assert calls[..i + 1][..i] == calls[..i];
    hide VerifyEnvelope, InWindow, RecentlyAccepted;
  }

  /** The log holds exactly the accepted calls. */
  lemma {:induction false} LogIs(crypto: Crypto, cfg: Config, calls: seq<Call>, i: nat, a: Acceptance)
    requires i <= |calls|
    ensures a in LogAfter(crypto, cfg, calls[..i])
       <==> exists j :: 0 <= j < i && IdealResultAt(crypto, cfg, calls, j).Ok? && EntryOf(calls[j]) == a
    decreases i
  {
    hide *;
    if i == 0 {
      LogStart(crypto, cfg, calls);
    } else {
      LogIs(crypto, cfg, calls, i - 1, a);
      LogStep(crypto, cfg, calls, i - 1);
    }
  }

  lemma LogStart(crypto: Crypto, cfg: Config, calls: seq<Call>)
    ensures LogAfter(crypto, cfg, calls[..0]) == []
  {
    hide IdealStep;
  }

  /** The verdict on one call, in terms of the calls accepted before. */
  lemma IdealIff(crypto: Crypto, svc: Service, cfg: Config, calls: seq<Call>, i: nat)
    requires i < |calls| && Matches(cfg, svc)
    ensures IdealResultAt(crypto, cfg, calls, i).Ok?
       <==> Verified(crypto, svc, calls[i].envelope).Ok? && InWindow(cfg, calls[i])
            && forall j :: 0 <= j < i && IdealResultAt(crypto, cfg, calls, j).Ok?
                           && NonceKey(calls[j].envelope) == NonceKey(calls[i].envelope)
                           ==> SatSub(calls[i].now, calls[j].now) > cfg.ttl
  {
    hide LogAfter, InWindow, NonceKey, SatSub, Mac, Canonical;
    var log, key, now := LogAfter(crypto, cfg, calls[..i]), NonceKey(calls[i].envelope), calls[i].now;
    IdealVerdict(crypto, svc, cfg, log, calls[i]);
    hide IdealStep, Verified, VerifyEnvelope;
    if m :| 0 <= m < |log| && log[m].key == key && SatSub(now, log[m].at) <= cfg.ttl {
      assert log[m] in log;
      LogIs(crypto, cfg, calls, i, log[m]);
    }
    forall j | 0 <= j < i && IdealResultAt(crypto, cfg, calls, j).Ok? && NonceKey(calls[j].envelope) == key
        && SatSub(now, calls[j].now) <= cfg.ttl
      ensures RecentlyAccepted(log, key, now, cfg.ttl)
    {
      LogIs(crypto, cfg, calls, i, EntryOf(calls[j]));
      var m :| 0 <= m < |log| && log[m] == EntryOf(calls[j]);
    }
  }

  lemma IdealVerdict(crypto: Crypto, svc: Service, cfg: Config, log: seq<Acceptance>, c: Call)
    requires Matches(cfg, svc)
    ensures IdealStep(crypto, cfg, log, c).1.Ok?
       <==> Verified(crypto, svc, c.envelope).Ok? && InWindow(cfg, c)
            && !RecentlyAccepted(log, NonceKey(c.envelope), c.now, cfg.ttl)
  {
    hide Mac, Canonical, InWindow, RecentlyAccepted;
  }

  lemma {:induction false} TimelyAccepted(crypto: Crypto, svc: Service, cfg: Config, calls: seq<Call>, i: nat)
    requires Matches(cfg, svc) && AllKeyRequests(calls) && i < |calls| && Answered(crypto, svc, calls, i)
    requires forall j :: 0 <= j <= i && Answered(crypto, svc, calls, j) ==> Timely(crypto, svc, cfg, calls, j)
    ensures IdealResultAt(crypto, cfg, calls, i).Ok?
  {
    hide IdealResultAt, IsRequest, Verified, InWindow, NonceKey, SatSub;
    IdealIff(crypto, svc, cfg, calls, i);
    forall j | 0 <= j < i && IdealResultAt(crypto, cfg, calls, j).Ok?
      ensures Answered(crypto, svc, calls, j)
    {
      IdealIff(crypto, svc, cfg, calls, j);
    }
  }

  /**
   The documented promise over whole runs of key requests, on any clock: the server answers nothing
   stale or replayed exactly when every request it answers came in its window and no two answered
   requests within one TTL share sender and nonce.
   */
  lemma AsDocumentedIff(crypto: Crypto, svc: Service, cfg: Config, calls: seq<Call>)
    requires Matches(cfg, svc) && AllKeyRequests(calls)
    ensures AsDocumented(crypto, svc, cfg, calls)
       <==> forall i :: 0 <= i < |calls| && Answered(crypto, svc, calls, i) ==> Timely(crypto, svc, cfg, calls, i)
  {
    hide IdealResultAt, IsRequest, Verified, InWindow, NonceKey, SatSub;
    if AsDocumented(crypto, svc, cfg, calls) {
      forall i | 0 <= i < |calls| && Answered(crypto, svc, calls, i)
        ensures Timely(crypto, svc, cfg, calls, i)
      {
        IdealIff(crypto, svc, cfg, calls, i);
      }
    }
    if forall i :: 0 <= i < |calls| && Answered(crypto, svc, calls, i) ==> Timely(crypto, svc, cfg, calls, i) {
      forall i | 0 <= i < |calls| && Answered(crypto, svc, calls, i)
        ensures IdealResultAt(crypto, cfg, calls, i).Ok?
      {
        TimelyAccepted(crypto, svc, cfg, calls, i);
      }
    }
  }

  // ---------- runs of requests of both kinds ----------

  /** The handlers answer or acknowledge the call, whichever request it is. */
  predicate Handled(crypto: Crypto, svc: Service, c: Call) {
    Verified(crypto, svc, c.envelope).Ok?
    && (IsRequest(c.envelope.context, "POST", PATH_GET_PUBLIC_KEY)
        || (IsRequest(c.envelope.context, "POST", PATH_PUBLISH_PARTICIPANT) && PublicationOk(c.envelope.body)))
  }

  lemma HandledIs(crypto: Crypto, svc: Service, c: Call, t: u64, n: string)
    ensures Handled(crypto, svc, c)
       <==> HandleGetPublicKeyRequest(crypto, svc, c.envelope, t, n).Ok?
            || HandlePublishRequest(crypto, svc, c.envelope, t, n).Ok?
  {
    hide Verified, IsRequest, KeyResponse, PublishResponse, RequirePayload, PublishPayloadOf, Normalize;
  }

  /** The calls of a run that are handled. */
  function HandledCalls(crypto: Crypto, svc: Service, calls: seq<Call>): seq<Call> {
    if calls == [] then []
    else
      var n := |calls| - 1;
      HandledCalls(crypto, svc, calls[..n]) + (if Handled(crypto, svc, calls[n]) then [calls[n]] else [])
  }

  /** A verifier that sees what is handled, and remembers all of it, refuses none. */
  predicate NoneRefused(crypto: Crypto, cfg: Config, calls: seq<Call>) {
    forall i :: 0 <= i < |calls| ==> IdealResultAt(crypto, cfg, calls, i).Ok?
  }

  /** Call `j` counts against call `i`: same sender and nonce, within one TTL. */
  predicate Repeats(cfg: Config, c: Call, d: Call) {
    NonceKey(c.envelope) == NonceKey(d.envelope) && SatSub(d.now, c.now) <= cfg.ttl
  }

  predicate NothingRepeats(cfg: Config, calls: seq<Call>, c: Call) {
    forall d :: d in calls ==> !Repeats(cfg, d, c)
  }

  predicate NothingHandledRepeats(crypto: Crypto, svc: Service, cfg: Config, calls: seq<Call>, c: Call) {
    forall d :: d in calls && Handled(crypto, svc, d) ==> !Repeats(cfg, d, c)
  }

  /** Handled call `i` came in its window, and no handled call before it counts against it. */
  predicate TimelyAt(crypto: Crypto, svc: Service, cfg: Config, calls: seq<Call>, i: nat)
    requires i < |calls|
  {
    InWindow(cfg, calls[i]) && forall j :: 0 <= j < i && Handled(crypto, svc, calls[j]) ==>
        !Repeats(cfg, calls[j], calls[i])
  }

  predicate AllTimely(crypto: Crypto, svc: Service, cfg: Config, calls: seq<Call>) {
    forall i :: 0 <= i < |calls| && Handled(crypto, svc, calls[i]) ==> TimelyAt(crypto, svc, cfg, calls, i)
  }

  lemma {:induction false} HandledMember(crypto: Crypto, svc: Service, calls: seq<Call>, c: Call)
    ensures c in HandledCalls(crypto, svc, calls) <==> c in calls && Handled(crypto, svc, c)
  {
    if calls != [] {
      hide Handled;
      HandledMember(crypto, svc, calls[..|calls| - 1], c);
      SnocSplit(calls);
    }
  }

  lemma IdealPrefix(crypto: Crypto, cfg: Config, calls: seq<Call>, c: Call, i: nat)
    requires i < |calls|
    ensures IdealResultAt(crypto, cfg, calls + [c], i) == IdealResultAt(crypto, cfg, calls, i)
  {
    assert (calls + [c])[..i] == calls[..i];
    hide LogAfter, IdealStep;
  }

  /**
   One more call that verifies is accepted exactly when it is in its window and nothing accepted
   counts against it.
   */
  lemma IdealSnoc(crypto: Crypto, svc: Service, cfg: Config, calls: seq<Call>, c: Call)
    requires Matches(cfg, svc) && NoneRefused(crypto, cfg, calls) && Verified(crypto, svc, c.envelope).Ok?
    ensures IdealResultAt(crypto, cfg, calls + [c], |calls|).Ok?
       <==> InWindow(cfg, c) && NothingRepeats(cfg, calls, c)
  {
    hide IdealResultAt, Verified, InWindow, NonceKey, SatSub;
    var all := calls + [c];
    IdealIff(crypto, svc, cfg, all, |calls|);
    forall j | 0 <= j < |calls|
      ensures IdealResultAt(crypto, cfg, all, j).Ok? && all[j] in calls
    {
      IdealPrefix(crypto, cfg, calls, c, j);
    }
    if forall j :: 0 <= j < |calls| ==> !Repeats(cfg, all[j], c) {
      forall d | d in calls
        ensures !Repeats(cfg, d, c)
      {
        var j :| 0 <= j < |calls| && calls[j] == d;
        assert all[j] == d;
      }
    }
  }

  lemma NoneRefusedSnoc(crypto: Crypto, svc: Service, cfg: Config, calls: seq<Call>, c: Call)
    requires Matches(cfg, svc) && Verified(crypto, svc, c.envelope).Ok?
    ensures NoneRefused(crypto, cfg, calls + [c])
       <==> NoneRefused(crypto, cfg, calls) && InWindow(cfg, c) && NothingRepeats(cfg, calls, c)
  {
    hide IdealResultAt, Verified, InWindow, Repeats;
    var all := calls + [c];
    forall j | 0 <= j < |calls|
      ensures IdealResultAt(crypto, cfg, all, j) == IdealResultAt(crypto, cfg, calls, j)
    {
      IdealPrefix(crypto, cfg, calls, c, j);
    }
    if NoneRefused(crypto, cfg, calls) {
      IdealSnoc(crypto, svc, cfg, calls, c);
    }
  }

  lemma TimelySnoc(crypto: Crypto, svc: Service, cfg: Config, calls: seq<Call>, c: Call)
    ensures AllTimely(crypto, svc, cfg, calls + [c])
       <==> AllTimely(crypto, svc, cfg, calls)
            && (Handled(crypto, svc, c) ==>
                  InWindow(cfg, c) && NothingHandledRepeats(crypto, svc, cfg, calls, c))
  {
    hide Handled, InWindow, Repeats;
    var all, n := calls + [c], |calls|;
    assert all[n] == c && forall j :: 0 <= j < n ==> all[j] == calls[j];
    forall i | 0 <= i < n
      ensures TimelyAt(crypto, svc, cfg, all, i) <==> TimelyAt(crypto, svc, cfg, calls, i)
    {
    }
    assert TimelyAt(crypto, svc, cfg, all, n)
      <==> InWindow(cfg, c) && NothingHandledRepeats(crypto, svc, cfg, calls, c);
  }

  /**
   The documented promise over whole runs of any requests, on any clock: a verifier of what is handled
   refuses none of it exactly when every handled request came in its window and no two of them within
   one TTL share sender and nonce.
   */
  lemma {:induction false} HandledAsDocumentedIff(crypto: Crypto, svc: Service, cfg: Config, calls: seq<Call>)
    requires Matches(cfg, svc)
    ensures NoneRefused(crypto, cfg, HandledCalls(crypto, svc, calls)) <==> AllTimely(crypto, svc, cfg, calls)
  {
    hide Handled, NoneRefused, AllTimely, InWindow, NothingRepeats, NothingHandledRepeats;
    if calls == [] {
      NothingHandled(crypto, svc, cfg);
    } else {
      var init, c := calls[..|calls| - 1], calls[|calls| - 1];
      HandledAsDocumentedIff(crypto, svc, cfg, init);
      SnocSplit(calls);
      TimelySnoc(crypto, svc, cfg, init, c);
      if Handled(crypto, svc, c) {
        HandledVerified(crypto, svc, c);
        NoneRefusedSnoc(crypto, svc, cfg, HandledCalls(crypto, svc, init), c);
        SameRepeats(crypto, svc, cfg, init, c);
      } else {
        AppendNil(HandledCalls(crypto, svc, init));
      }
    }
  }

  lemma SameRepeats(crypto: Crypto, svc: Service, cfg: Config, calls: seq<Call>, c: Call)
    ensures NothingRepeats(cfg, HandledCalls(crypto, svc, calls), c)
            <==> NothingHandledRepeats(crypto, svc, cfg, calls, c)
  {
    hide Handled, Repeats, HandledCalls;
    forall d
      ensures d in HandledCalls(crypto, svc, calls) <==> d in calls && Handled(crypto, svc, d)
    {
      HandledMember(crypto, svc, calls, d);
    }
  }

  lemma NothingHandled(crypto: Crypto, svc: Service, cfg: Config)
    ensures NoneRefused(crypto, cfg, []) && AllTimely(crypto, svc, cfg, [])
  {
  }

  lemma HandledVerified(crypto: Crypto, svc: Service, c: Call)
    requires Handled(crypto, svc, c)
    ensures Verified(crypto, svc, c.envelope).Ok?
  {
    hide Verified, IsRequest, PublicationOk;
  }

  /**
   With the daemon's constants 60 and 120, one request signed at second 0 is answered at second 0,
   again at second 0, and at second 1000; a verifier takes the first, calls the second a replay and
   the third stale.
   */
  lemma ReplayedRequest(crypto: Crypto, svc: Service, t: u64, n: string)
    ensures var cfg := Config(svc.sidToken, svc.sid, 60, 120);
            var e := BuildGetPublicKeyRequest(crypto, svc, "node-b", 0, "n-1");
            HandleGetPublicKeyRequest(crypto, svc, e, t, n) == Ok(KeyResponse(crypto, svc, t, n))
            && ResultAt(crypto, cfg, [Call(e, 0), Call(e, 0), Call(e, 1000)], 0) == Ok(())
            && ResultAt(crypto, cfg, [Call(e, 0), Call(e, 0), Call(e, 1000)], 1) == Err(ReplayNonce)
            && ResultAt(crypto, cfg, [Call(e, 0), Call(e, 0), Call(e, 1000)], 2) == Err(TimestampOutsideWindow)
  {
    var cfg := Config(svc.sidToken, svc.sid, 60, 120);
    var e := BuildGetPublicKeyRequest(crypto, svc, "node-b", 0, "n-1");
    RequestAnswered(crypto, svc, svc, "node-b", 0, "n-1", t, n);
    SignedVerifies(crypto, svc.sid, svc.sidToken, "node-b", 0, "n-1",
                   HttpRequest("POST", PATH_GET_PUBLIC_KEY), Encode(PayloadText([Entry("request", "public_key")])));
    hide Encode, PayloadText, VerifyEnvelope, HandleGetPublicKeyRequest, KeyResponse, ResultAt, CanonicalPayload, Mac;
    ReplayVerdicts(crypto, cfg, e);
  }

  lemma ReplayVerdicts(crypto: Crypto, cfg: Config, e: SignedEnvelope)
    requires cfg.skew == 60 && cfg.ttl == 120 && e.timestampSecs == 0
    requires VerifyEnvelope(crypto, e, cfg.sidToken, cfg.expectedSid) == Ok(())
    ensures var calls := [Call(e, 0), Call(e, 0), Call(e, 1000)];
            ResultAt(crypto, cfg, calls, 0) == Ok(()) && ResultAt(crypto, cfg, calls, 1) == Err(ReplayNonce)
            && ResultAt(crypto, cfg, calls, 2) == Err(TimestampOutsideWindow)
  {
    hide VerifyEnvelope;
    var calls := [Call(e, 0), Call(e, 0), Call(e, 1000)];
    assert calls[..0] == [] && calls[..1] == [calls[0]] && calls[..2] == [calls[0], calls[1]];
    SeenStep(crypto, cfg, calls, 0);
    PruneEmpty(120);
    assert SeenAfter(crypto, cfg, calls[..1]) == map[NonceKey(e) := 0];
  }

  // ---------- replies read again ----------

  /** A cycle in which node `i` asks one peer and reads `text`. */
  function SyncOne(i: nat, peer: PeerRecord, text: string): Event {
    Sync(i, [], map[peer.participantId := peer], map[PeerEndpoint(peer.participantId, peer.address, peer.port) := text])
  }

  /** After any run, reading any accepted reply sets the peer's key to the one it carries, whenever it was signed. */
  lemma ReplyInstalls(crypto: Crypto, nodes: seq<Service>, run: seq<Event>, i: nat, peer: PeerRecord, text: string)
    requires i < |nodes| && peer.participantId != nodes[i].participantId
    ensures var before := Managed(crypto, nodes, run, i);
            var read := ReadReply(crypto, nodes[i], text);
            Managed(crypto, nodes, run + [SyncOne(i, peer, text)], i)
            == if read.Some? then before[peer.participantId := read.value.publicKey] else before
  {
    hide ReadReply;
    var all := run + [SyncOne(i, peer, text)];
    assert all[..|all| - 1] == run && all[|all| - 1] == SyncOne(i, peer, text);
    hide Managed;
    ManagedLast(crypto, nodes, all, i);
    var endpoint := PeerEndpoint(peer.participantId, peer.address, peer.port);
    assert Endpoints([], map[peer.participantId := peer]) == map[peer.participantId := endpoint];
    assert RepliesOf(crypto, nodes[i], map[endpoint := text])(endpoint).Some?
        <==> ReadReply(crypto, nodes[i], text).Some?;
  }

  lemma ManagedLast(crypto: Crypto, nodes: seq<Service>, run: seq<Event>, i: nat)
    requires run != [] && i < |nodes| && run[|run| - 1].Sync? && run[|run| - 1].node == i
    ensures var ev := run[|run| - 1];
            Managed(crypto, nodes, run, i)
            == SyncResult(nodes[i].participantId, Endpoints(ev.bootstrap, ev.peers),
               RepliesOf(crypto, nodes[i], ev.texts),
                          Managed(crypto, nodes, run[..|run| - 1], i))
  {
    hide SyncResult, Endpoints, RepliesOf;
  }

  /**
   A reply read before and read again takes the key back to what it was: the map afterwards is the
   map before the newer reply, and differs from the one after it exactly when the keys differ.
   */
  lemma RecordedReplyIff(
    crypto: Crypto, nodes: seq<Service>, run: seq<Event>, i: nat, peer: PeerRecord, older: string, newer: string)
    requires i < |nodes| && peer.participantId != nodes[i].participantId
    requires ReadReply(crypto, nodes[i], older).Some? && ReadReply(crypto, nodes[i], newer).Some?
    ensures var first := run + [SyncOne(i, peer, older)];
            var second := first + [SyncOne(i, peer, newer)];
            var third := second + [SyncOne(i, peer, older)];
            Managed(crypto, nodes, third, i) == Managed(crypto, nodes, first, i)
            && (Managed(crypto, nodes, third, i) == Managed(crypto, nodes, second, i)
                <==> ReadReply(crypto, nodes[i], older).value.publicKey
                     == ReadReply(crypto, nodes[i], newer).value.publicKey)
  {
    hide ReadReply, Managed, SyncOne;
    var first := run + [SyncOne(i, peer, older)];
    var second := first + [SyncOne(i, peer, newer)];
    ReplyInstalls(crypto, nodes, run, i, peer, older);
    ReplyInstalls(crypto, nodes, first, i, peer, newer);
    ReplyInstalls(crypto, nodes, second, i, peer, older);
    var base, id := Managed(crypto, nodes, run, i), peer.participantId;
    var a, b := ReadReply(crypto, nodes[i], older).value.publicKey, ReadReply(crypto, nodes[i], newer).value.publicKey;
    assert base[id := a][id := b][id := a] == base[id := a];
    assert base[id := a][id] == a && base[id := a][id := b][id] == b;
  }

  /** Two servers answer, the client reads the second answer and then the first. */
  function RollBackRun(
    crypto: Crypto, nodes: seq<Service>, request: string, peer: PeerRecord, t: u64, nanos: nat)
    : seq<Event>
    requires |nodes| == 3
  {
    [Serve(1, PATH_GET_PUBLIC_KEY, request, t, NextNonce(nanos)),
     Serve(2, PATH_GET_PUBLIC_KEY, request, t, NextNonce(nanos)),
     SyncOne(0, peer, Serialize(KeyResponse(crypto, nodes[2], t, NextNonce(nanos)))),
     SyncOne(0, peer, Serialize(KeyResponse(crypto, nodes[1], t, NextNonce(nanos))))]
  }

  /**
   A host before and after it changed its key: every hypothesis of group isolation holds, and a
   client that reads the old answer after the new one is left with the old key.
   */
  lemma RollBack(crypto: Crypto, client: Service, before: Service, after: Service, peer: PeerRecord, t: u64, nanos: nat)
    returns (run: seq<Event>)
    requires SameGroup(before, client) && SameGroup(after, client) && KeysNormalized([client, before, after])
    requires WireSafe(client.sid) && WireSafe(before.participantId) && WireSafe(after.participantId)
    requires WireSafe(peer.participantId) && peer.participantId != client.participantId
    requires crypto.sha256(Encode(PayloadText(KeyEntries(before))))
             != crypto.sha256(Encode(PayloadText(KeyEntries(after))))
    ensures Trustworthy(crypto, [client, before, after], {}, run)
    ensures |run| == 4 && Managed(crypto, [client, before, after], run[..3], 0)
            == map[peer.participantId := after.publicKey]
    ensures Managed(crypto, [client, before, after], run, 0) == map[peer.participantId := before.publicKey]
  {
    hide *;
    var nodes := [client, before, after];
    var text := Serialize(BuildGetPublicKeyRequest(crypto, client, peer.participantId, t, NextNonce(nanos)));
    run := RollBackRun(crypto, nodes, text, peer, t, nanos);
    GroupFields(before, client);
    GroupFields(after, client);
    NodeKeys(nodes, 1);
    NodeKeys(nodes, 2);
    HonestReply(crypto, client, before, t, nanos);
    HonestReply(crypto, client, after, t, nanos);
    RollBackServes(crypto, client, before, after, peer, t, nanos);
    RollBackTrustworthy(crypto, nodes, run, text, peer, t, nanos);
    RollBackManaged(crypto, nodes, run, text, peer, t, nanos);
  }

  /** Both servers sign their answers. */
  lemma RollBackServes(
    crypto: Crypto, client: Service, before: Service, after: Service, peer: PeerRecord, t: u64, nanos: nat)
    requires SameGroup(before, client) && SameGroup(after, client) && WireSafe(client.sid)
             && WireSafe(peer.participantId)
    ensures var text := Serialize(BuildGetPublicKeyRequest(crypto, client, peer.participantId, t, NextNonce(nanos)));
            var nodes := [client, before, after];
            var run := RollBackRun(crypto, nodes, text, peer, t, nanos);
            Signs(crypto, nodes, run[0]) == Some(KeyResponse(crypto, before, t, NextNonce(nanos)))
            && Signs(crypto, nodes, run[1]) == Some(KeyResponse(crypto, after, t, NextNonce(nanos)))
  {
    hide WireSafe, NextNonce, KeyResponse, Serialize, ParseEnvelope, EnvelopeSafe, BuildGetPublicKeyRequest,
         HandleGetPublicKeyRequest;
    var request := BuildGetPublicKeyRequest(crypto, client, peer.participantId, t, NextNonce(nanos));
    RequestSafe(crypto, client, peer.participantId, t, nanos);
    RoundTripIff(request);
    RequestAnswered(crypto, client, before, peer.participantId, t, NextNonce(nanos), t, NextNonce(nanos));
    RequestAnswered(crypto, client, after, peer.participantId, t, NextNonce(nanos), t, NextNonce(nanos));
  }

  predicate BothServe(crypto: Crypto, nodes: seq<Service>, run: seq<Event>, t: u64, nanos: nat) {
    |nodes| == 3 && |run| == 4 && run[0].node == 1 && run[1].node == 2 && run[2].Sync? && run[3].Sync?
    && Signs(crypto, nodes, run[0]) == Some(KeyResponse(crypto, nodes[1], t, NextNonce(nanos)))
    && Signs(crypto, nodes, run[1]) == Some(KeyResponse(crypto, nodes[2], t, NextNonce(nanos)))
  }

  lemma NoCollisionHere(crypto: Crypto, nodes: seq<Service>, run: seq<Event>, k: nat, body: Bytes, t: u64, nanos: nat)
    requires BothServe(crypto, nodes, run, t, nanos) && k <= 4
    requires crypto.sha256(Encode(PayloadText(KeyEntries(nodes[1]))))
             != crypto.sha256(Encode(PayloadText(KeyEntries(nodes[2]))))
    requires body == Encode(PayloadText(KeyEntries(nodes[1]))) || body == Encode(PayloadText(KeyEntries(nodes[2])))
    ensures NoCollision(crypto, nodes, run, k, body)
  {
    hide Signs, Encode, PayloadText, KeyEntries, KeyResponse, NextNonce;
    KeyResponseFields(crypto, nodes[1], t, NextNonce(nanos));
    KeyResponseFields(crypto, nodes[2], t, NextNonce(nanos));
    SyncSignsNothing(crypto, nodes, run[2]);
    SyncSignsNothing(crypto, nodes, run[3]);
  }

  lemma SyncSignsNothing(crypto: Crypto, nodes: seq<Service>, ev: Event)
    requires ev.Sync?
    ensures Signs(crypto, nodes, ev).None?
  {
  }

  lemma RollBackTrustworthy(
    crypto: Crypto, nodes: seq<Service>, run: seq<Event>, text: string, peer: PeerRecord, t: u64, nanos: nat)
    requires |nodes| == 3 && run == RollBackRun(crypto, nodes, text, peer, t, nanos)
    requires Signs(crypto, nodes, run[0]) == Some(KeyResponse(crypto, nodes[1], t, NextNonce(nanos)))
    requires Signs(crypto, nodes, run[1]) == Some(KeyResponse(crypto, nodes[2], t, NextNonce(nanos)))
    requires SameGroup(nodes[1], nodes[0]) && SameGroup(nodes[2], nodes[0])
    requires crypto.sha256(Encode(PayloadText(KeyEntries(nodes[1]))))
             != crypto.sha256(Encode(PayloadText(KeyEntries(nodes[2]))))
    requires forall j | j == 1 || j == 2 ::
               var e := KeyResponse(crypto, nodes[j], t, NextNonce(nanos));
               ParseEnvelope(Serialize(e)) == Some(e)
    ensures Trustworthy(crypto, nodes, {}, run)
  {
    hide Signs, Encode, PayloadText, KeyEntries, KeyResponse, NextNonce, ParseEnvelope, Serialize, Covered, SameGroup,
         NoCollision;
    assert BothServe(crypto, nodes, run, t, nanos);
    var earlier, later := KeyResponse(crypto, nodes[1], t, NextNonce(nanos)),
        KeyResponse(crypto, nodes[2], t, NextNonce(nanos));
    KeyResponseFields(crypto, nodes[1], t, NextNonce(nanos));
    KeyResponseFields(crypto, nodes[2], t, NextNonce(nanos));
    NoCollisionHere(crypto, nodes, run, 2, later.body, t, nanos);
    NoCollisionHere(crypto, nodes, run, 3, earlier.body, t, nanos);
    CoveredBy(crypto, nodes, run, 2, 1, nodes[0], Serialize(later), later);
    CoveredBy(crypto, nodes, run, 3, 0, nodes[0], Serialize(earlier), earlier);
  }

  lemma RollBackManaged(
    crypto: Crypto, nodes: seq<Service>, run: seq<Event>, text: string, peer: PeerRecord, t: u64, nanos: nat)
    requires |nodes| == 3 && run == RollBackRun(crypto, nodes, text, peer, t, nanos)
             && peer.participantId != nodes[0].participantId
    requires forall j | j == 1 || j == 2 ::
               var read := ReadReply(crypto, nodes[0], Serialize(KeyResponse(crypto, nodes[j], t, NextNonce(nanos))));
               read.Some? && read.value.publicKey == nodes[j].publicKey
    ensures |run| == 4 && Managed(crypto, nodes, run[..3], 0) == map[peer.participantId := nodes[2].publicKey]
    ensures Managed(crypto, nodes, run, 0) == map[peer.participantId := nodes[1].publicKey]
  {
    hide *;
    var earlier := Serialize(KeyResponse(crypto, nodes[1], t, NextNonce(nanos)));
    var later := Serialize(KeyResponse(crypto, nodes[2], t, NextNonce(nanos)));
    RollBackParts(crypto, nodes, run, text, peer, t, nanos);
    ServesManage(crypto, nodes, run[..2]);
    ReplyInstalls(crypto, nodes, run[..2], 0, peer, later);
    ReplyInstalls(crypto, nodes, run[..3], 0, peer, earlier);
    Overwritten(peer.participantId, nodes[2].publicKey, nodes[1].publicKey);
  }

  lemma Overwritten(id: string, a: string, b: string)
    ensures map[][id := a] == map[id := a] && map[id := a][id := b] == map[id := b]
  {
  }

  lemma RollBackParts(
    crypto: Crypto, nodes: seq<Service>, run: seq<Event>, text: string, peer: PeerRecord, t: u64, nanos: nat)
    requires |nodes| == 3 && run == RollBackRun(crypto, nodes, text, peer, t, nanos)
    ensures |run| == 4 && forall m :: 0 <= m < 2 ==> run[..2][m].Serve?
    ensures run[..3] == run[..2] + [SyncOne(0, peer, Serialize(KeyResponse(crypto, nodes[2], t, NextNonce(nanos))))]
    ensures run == run[..3] + [SyncOne(0, peer, Serialize(KeyResponse(crypto, nodes[1], t, NextNonce(nanos))))]
  {
    hide KeyResponse, NextNonce, Serialize, SyncOne;
  }

  lemma {:induction false} ServesManage(crypto: Crypto, nodes: seq<Service>, run: seq<Event>)
    requires 0 < |nodes| && forall m :: 0 <= m < |run| ==> run[m].Serve?
    ensures Managed(crypto, nodes, run, 0) == map[]
  {
    if run != [] {
      ServesManage(crypto, nodes, run[..|run| - 1]);
    }
  }
}
