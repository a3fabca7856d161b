/**
 Group isolation over every run. Any number of nodes with arbitrary SIDs, tokens and ids sign
 messages and read whatever texts the network hands them: dropped, repeated, reordered,
 re-addressed or made up. The only things taken for granted are stated as hypotheses on the run:
 a text that verifies under a token nobody outside holds was signed with that token before
 (unforgeability of HMAC), and hashes of bodies that occur do not collide.
 */
module Group {
  import opened Prelude
  import opened Text
  import opened Utf8
  import opened Hex
  import opened Payload
  import opened Auth
  import opened SshKeys
  import opened Wire
  import opened Transport
  import opened Exchange
  import opened Discovery
  import opened DiscoveryLaws
  import opened SyncCycle

  /** One action of node `node`; texts and addresses come from the network or from configuration. */
  datatype Event =
    | AskKey(node: nat, senderId: string, timestampSecs: u64, nonce: string)
    | AskPublish(node: nat, senderId: string, timestampSecs: u64, nonce: string, payload: ParticipantPublishPayload)
    | Announce(node: nat, address: string, port: u16, publicKey: string, timestampSecs: u64, nonce: string)
    | Serve(node: nat, path: string, text: string, timestampSecs: u64, nonce: string)
    | Sync(node: nat, bootstrap: seq<string>, peers: map<string, PeerRecord>, texts: map<PeerEndpoint, string>)
    | Configure(node: nat, values: seq<string>)
    | Hear(node: nat, text: string, now: u64)

  /** The envelope an action signs, with the token of its node. */
  function Signs(crypto: Crypto, nodes: seq<Service>, ev: Event): Option<SignedEnvelope> {
    if ev.node >= |nodes| then None
    else
      var svc := nodes[ev.node];
      match ev
      case AskKey(_, senderId, t, nonce) => Some(BuildGetPublicKeyRequest(crypto, svc, senderId, t, nonce))
      case AskPublish(_, senderId, t, nonce, payload) =>
          Some(BuildPublishRequest(crypto, svc, senderId, t, nonce, payload))
      case Announce(_, address, port, publicKey, t, nonce) =>
        (match BuildStartupAnnouncement(crypto, svc.sid, svc.sidToken, svc.participantId, address, port, publicKey, t,
            nonce)
         case Err(_) => None
         case Ok(e) => Some(e))
      case Serve(_, path, text, t, nonce) =>
        (match ParseEnvelope(text)
         case None => None
         case Some(request) => Response(crypto, svc, path, request, t, nonce))
      case _ => None
  }

  /** The envelope a server signs for a request, if it signs any. */
  function Response(
    crypto: Crypto, svc: Service, path: string, request: SignedEnvelope, t: u64, nonce: string)
    : Option<SignedEnvelope>
  {
    match Route(crypto, svc, path, request, t, nonce)
    case Some(Ok(e)) => Some(e)
    case _ => None
  }

  /** What a node's requests come to in a sync cycle: the key in each peer's reply text, if it is accepted. */
  function RepliesOf(crypto: Crypto, svc: Service, texts: map<PeerEndpoint, string>): Replies {
    (endpoint: PeerEndpoint) =>
      if endpoint in texts then
        match ReadReply(crypto, svc, texts[endpoint])
        case None => None
        case Some(payload) => Some(payload.publicKey)
      else None
  }

  /** The managed keys of node `i` after a run. */
  function Managed(crypto: Crypto, nodes: seq<Service>, run: seq<Event>, i: nat): map<string, string>
    requires i < |nodes|
  {
    if run == [] then map[]
    else
      var before := Managed(crypto, nodes, run[..|run| - 1], i);
      match run[|run| - 1]
      case Sync(n, bootstrap, peers, texts) =>
        if n == i then SyncResult(nodes[i].participantId, Endpoints(bootstrap, peers),
            RepliesOf(crypto, nodes[i], texts), before)
        else before
      case _ => before
  }

  // ---------- the hypotheses on a run ----------

  /** Event `m` of the run computed this MAC. */
  predicate Maced(crypto: Crypto, nodes: seq<Service>, run: seq<Event>, m: nat, key: Bytes, message: Bytes)
    requires m < |run|
  {
    var signed := Signs(crypto, nodes, run[m]);
    run[m].node < |nodes| && signed.Some?
    && Encode(nodes[run[m].node].sidToken) == key && Encode(Canonical(crypto, signed.value)) == message
  }

  /** Unforgeability: before event `k` somebody computed the MAC that an accepted envelope carries. */
  predicate WasMaced(crypto: Crypto, nodes: seq<Service>, run: seq<Event>, k: nat, svc: Service, e: SignedEnvelope)
    requires k <= |run|
  {
    exists m :: 0 <= m < k && Maced(crypto, nodes, run, m, Encode(svc.sidToken), Encode(Canonical(crypto, e)))
  }

  /** No hash collision between a body signed before event `k` and another one. */
  predicate NoCollision(crypto: Crypto, nodes: seq<Service>, run: seq<Event>, k: nat, body: Bytes)
    requires k <= |run|
  {
    forall m :: 0 <= m < k && Signs(crypto, nodes, run[m]).Some?
                && crypto.sha256(Signs(crypto, nodes, run[m]).value.body) == crypto.sha256(body)
            ==> Signs(crypto, nodes, run[m]).value.body == body
  }

  /** The event is at a node whose token has not leaked. */
  predicate Trusting(nodes: seq<Service>, leaked: set<string>, ev: Event) {
    ev.node < |nodes| && nodes[ev.node].sidToken !in leaked
  }

  /** The event has its node read this text: as a reply, or as an announcement. */
  predicate Reads(ev: Event, text: string) {
    (ev.Sync? && text in ev.texts.Values) || (ev.Hear? && text == ev.text)
  }

  /** Every text a node reads under a token that has not leaked is covered by the two hypotheses. */
  ghost predicate Trustworthy(crypto: Crypto, nodes: seq<Service>, leaked: set<string>, run: seq<Event>) {
    forall k, text | 0 <= k < |run| && Trusting(nodes, leaked, run[k]) && Reads(run[k], text)
      :: Covered(crypto, nodes, run, k, nodes[run[k].node], text)
  }

  /** The signature of the message is the HMAC of its canonical string under the node's token. */
  predicate Carries(crypto: Crypto, svc: Service, e: SignedEnvelope) {
    HexDecode(e.signatureHex) == Some(crypto.hmac(Encode(svc.sidToken), Encode(Canonical(crypto, e))))
  }

  /**
   If the text carries a MAC under the node's token, somebody computed it, and its body's hash
   stands for no other body.
   */
  predicate Covered(crypto: Crypto, nodes: seq<Service>, run: seq<Event>, k: nat, svc: Service, text: string)
    requires k <= |run|
  {
    var e := ParseEnvelope(text);
    e.Some? && Carries(crypto, svc, e.value)
    ==> WasMaced(crypto, nodes, run, k, svc, e.value) && NoCollision(crypto, nodes, run, k, e.value.body)
  }

  // ---------- whatever is accepted comes from the group ----------

  predicate SameGroup(a: Service, b: Service) {
    a.sid == b.sid && a.sidToken == b.sidToken
  }

  predicate KeysNormalized(nodes: seq<Service>) {
    forall j :: 0 <= j < |nodes| ==> IsNormalized(nodes[j].publicKey)
  }

  /** The node takes the text for a message of its group. */
  predicate Accepts(crypto: Crypto, svc: Service, text: string) {
    var e := ParseEnvelope(text);
    e.Some? && VerifyEnvelope(crypto, e.value, svc.sidToken, svc.sid).Ok?
  }

  lemma AcceptsMeans(crypto: Crypto, svc: Service, text: string)
    requires Accepts(crypto, svc, text)
    ensures ParseEnvelope(text).Some? && ParseEnvelope(text).value.sid == svc.sid
  {
    hide ParseEnvelope, Canonical, Mac;
  }

  /** Event `m` is a node of the group signing what `e` says, in the role `e` claims. */
  predicate Origin(crypto: Crypto, nodes: seq<Service>, run: seq<Event>, m: nat, svc: Service, e: SignedEnvelope)
    requires m < |run|
  {
    var signed := Signs(crypto, nodes, run[m]);
    run[m].node < |nodes| && SameGroup(nodes[run[m].node], svc) && signed.Some?
    && signed.value.senderId == e.senderId && signed.value.timestampSecs == e.timestampSecs
    && signed.value.nonce == e.nonce && signed.value.body == e.body
    && CanonicalContext(signed.value.context) == CanonicalContext(e.context)
  }

  /** Signing keeps what is signed. */
  lemma SignKeeps()
    ensures forall crypto, sid, token, sender, t, n, c, b ::
              var e := SignEnvelope(crypto, sid, token, sender, t, n, c, b);
              e.sid == sid && e.senderId == sender && e.context == c && e.body == b
  {
  }

  /** What each action signs. */
  lemma SignedShape(crypto: Crypto, nodes: seq<Service>, ev: Event)
    requires ev.node < |nodes| && Signs(crypto, nodes, ev).Some?
    ensures var e, svc := Signs(crypto, nodes, ev).value, nodes[ev.node];
            e.sid == svc.sid && (ev.AskKey? || ev.AskPublish? || ev.Announce? || ev.Serve?)
            && (ev.AskKey? ==> e.context == HttpRequest("POST", PATH_GET_PUBLIC_KEY))
            && (ev.AskPublish? ==> e.context == HttpRequest("POST", PATH_PUBLISH_PARTICIPANT)
                                   && e.body == Encode(PayloadText(PublishEntries(ev.payload))))
            && (ev.Announce? ==> e.context == UdpAnnouncement && e.senderId == svc.participantId
                                 && Normalize(ev.publicKey).Ok?
                                 && e.body == Encode(PayloadText(AnnouncementEntries(
                                      svc.sid, svc.participantId, ev.address, ev.port, Normalize(ev.publicKey).value))))
            && (ev.Serve? ==> e == KeyResponse(crypto, svc, ev.timestampSecs, ev.nonce)
                              || (e.context.HttpResponse? && e.context.statusCode == 202))
  {
    hide SignEnvelope, ParseEnvelope, Encode, PayloadText, Verified, Normalize, PublishPayloadOf, ParsePayload,
         KeyEntries, PublishEntries, AnnouncementEntries;
    SignKeeps();
  }

  lemma MacedBy(crypto: Crypto, nodes: seq<Service>, run: seq<Event>, m: nat, svc: Service, e: SignedEnvelope)
    requires m < |run| && Maced(crypto, nodes, run, m, Encode(svc.sidToken), Encode(Canonical(crypto, e)))
    ensures run[m].node < |nodes| && Signs(crypto, nodes, run[m]).Some?
    ensures nodes[run[m].node].sidToken == svc.sidToken
    ensures Canonical(crypto, Signs(crypto, nodes, run[m]).value) == Canonical(crypto, e)
  {
    hide Encode, Canonical, Signs;
    EncodeInjective(nodes[run[m].node].sidToken, svc.sidToken);
    EncodeInjective(Canonical(crypto, Signs(crypto, nodes, run[m]).value), Canonical(crypto, e));
  }

  lemma BodyAgrees(crypto: Crypto, nodes: seq<Service>, run: seq<Event>, k: nat, m: nat, body: Bytes)
    requires m < k <= |run| && NoCollision(crypto, nodes, run, k, body) && Signs(crypto, nodes, run[m]).Some?
    requires crypto.sha256(Signs(crypto, nodes, run[m]).value.body) == crypto.sha256(body)
    ensures Signs(crypto, nodes, run[m]).value.body == body
  {
    hide Signs;
  }

  lemma VerifiedSid(crypto: Crypto, e: SignedEnvelope, svc: Service)
    requires VerifyEnvelope(crypto, e, svc.sidToken, svc.sid).Ok?
    ensures e.sid == svc.sid
  {
  }

  /** Any message a node accepts was signed, as it stands and in its role, by a node of the same group. */
  lemma AcceptedFromGroup(
    crypto: Crypto, nodes: seq<Service>, run: seq<Event>, k: nat, svc: Service, text: string)
    returns (m: nat)
    requires k <= |run| && Covered(crypto, nodes, run, k, svc, text) && Accepts(crypto, svc, text)
    ensures m < k && Origin(crypto, nodes, run, m, svc, ParseEnvelope(text).value)
  {
    hide ParseEnvelope, Maced, Signs, Canonical, CanonicalContext, VerifyEnvelope, Encode, NoCollision, HexDecode;
    var e := ParseEnvelope(text).value;
    VerifyIff(crypto, e, svc.sidToken, svc.sid);
    m :| 0 <= m < k && Maced(crypto, nodes, run, m, Encode(svc.sidToken), Encode(Canonical(crypto, e)));
    MacedBy(crypto, nodes, run, m, svc, e);
    ParsedLineFree(text);
    VerifiedSid(crypto, e, svc);
    CanonicalInjective(crypto, e, Signs(crypto, nodes, run[m]).value);
    SignedShape(crypto, nodes, run[m]);
    BodyAgrees(crypto, nodes, run, k, m, e.body);
  }

  // ---------- roles ----------

  /** Only an answer to a key request has the context of one. */
  lemma OnlyAnswersLookLikeAnswers(crypto: Crypto, nodes: seq<Service>, ev: Event, c: MessageContext)
    requires ev.node < |nodes| && Signs(crypto, nodes, ev).Some?
    requires IsResponse(c, 200, PATH_GET_PUBLIC_KEY)
    requires CanonicalContext(c) == CanonicalContext(Signs(crypto, nodes, ev).value.context)
    ensures ev.Serve? && Signs(crypto, nodes, ev).value
            == KeyResponse(crypto, nodes[ev.node], ev.timestampSecs, ev.nonce)
  {
    hide Signs, KeyResponse, CanonicalContext, Normalize, Encode, PayloadText;
    SignedShape(crypto, nodes, ev);
    var d := Signs(crypto, nodes, ev).value.context;
    ContextKinds(c, d);
    ContextInjective(c, d);
  }

  lemma PostIsPlain(verb: string)
    requires EqIgnoreCase(verb, "POST")
    ensures PlainMethod(HttpRequest(verb, "")) && ToUpper(verb) == "POST" == ToUpper("POST")
  {
    assert |verb| == |ToLower(verb)| == 4;
    assert forall i :: 0 <= i < 4 ==>
        LowerChar(verb[i]) == ToLower(verb)[i] && LowerChar("POST"[i]) == ToLower("POST")[i];
    forall i | 0 <= i < 4
      ensures UpperChar(verb[i]) == "POST"[i] && verb[i] != ':' && verb[i] as int < 0x80
    {
      assert LowerChar(verb[i]) == LowerChar("POST"[i]);
    }
    assert forall i :: 0 <= i < 4 ==>
        ToUpper(verb)[i] == UpperChar(verb[i]) && ToUpper("POST")[i] == UpperChar("POST"[i]);
  }

  lemma PathsDiffer()
    ensures PATH_GET_PUBLIC_KEY != PATH_PUBLISH_PARTICIPANT
  {
    assert |PATH_GET_PUBLIC_KEY| != |PATH_PUBLISH_PARTICIPANT|;
  }

  /** Only requests look like requests, each for its own path. */
  lemma OnlyAsksLookLikeRequests(crypto: Crypto, nodes: seq<Service>, ev: Event, c: MessageContext, path: string)
    requires ev.node < |nodes| && Signs(crypto, nodes, ev).Some? && IsRequest(c, "POST", path)
    requires CanonicalContext(c) == CanonicalContext(Signs(crypto, nodes, ev).value.context)
    ensures path == PATH_GET_PUBLIC_KEY ==> ev.AskKey?
    ensures path == PATH_PUBLISH_PARTICIPANT ==> ev.AskPublish?
  {
    hide Signs, KeyResponse, CanonicalContext, ToUpper, ToLower, Normalize, Encode, PayloadText;
    var d := Signs(crypto, nodes, ev).value.context;
    SignedShape(crypto, nodes, ev);
    KeyResponseFields(crypto, nodes[ev.node], if ev.Serve? then ev.timestampSecs else 0, if ev.Serve? then ev.nonce
        else "");
    PathsDiffer();
    PostIsPlain(c.verb);
    PostIsPlain("POST");
    ContextKinds(c, d);
    ContextInjective(c, d);
  }

  /** Only announcements look like announcements. */
  lemma OnlyAnnouncementsLookLikeAnnouncements(crypto: Crypto, nodes: seq<Service>, ev: Event)
    requires ev.node < |nodes| && Signs(crypto, nodes, ev).Some?
    requires CanonicalContext(UdpAnnouncement) == CanonicalContext(Signs(crypto, nodes, ev).value.context)
    ensures ev.Announce?
  {
    hide Signs, KeyResponse, CanonicalContext, Normalize, Encode, PayloadText;
    SignedShape(crypto, nodes, ev);
    KeyResponseFields(crypto, nodes[ev.node], if ev.Serve? then ev.timestampSecs else 0, if ev.Serve? then ev.nonce
        else "");
    ContextKinds(UdpAnnouncement, Signs(crypto, nodes, ev).value.context);
  }

  lemma KeyResponseFields(crypto: Crypto, svc: Service, t: u64, nonce: string)
    ensures var e := KeyResponse(crypto, svc, t, nonce);
            e.sid == svc.sid && e.senderId == svc.participantId && e.body == Encode(PayloadText(KeyEntries(svc)))
            && e.context == HttpResponse(200, PATH_GET_PUBLIC_KEY)
  {
    hide Encode, PayloadText, KeyEntries;
  }

  /**
   A server hands out its key only on a request that a node of its own group signed as a key
   request, however the request text reached it.
   */
  lemma AnsweredOnlyToGroup(crypto: Crypto, nodes: seq<Service>, run: seq<Event>, k: nat)
    requires k < |run| && run[k].Serve? && run[k].node < |nodes|
    requires run[k].path == PATH_GET_PUBLIC_KEY && Signs(crypto, nodes, run[k]).Some?
    requires Covered(crypto, nodes, run, k, nodes[run[k].node], run[k].text)
    ensures exists m :: 0 <= m < k && run[m].AskKey?
                        && Origin(crypto, nodes, run, m, nodes[run[k].node], ParseEnvelope(run[k].text).value)
  {
    hide ParseEnvelope, CanonicalContext, KeyResponse, VerifyEnvelope, IsRequest, Covered, Encode, PayloadText;
    var svc, text := nodes[run[k].node], run[k].text;
    var e := ParseEnvelope(text).value;
    assert Accepts(crypto, svc, text) && IsRequest(e.context, "POST", PATH_GET_PUBLIC_KEY);
    hide Signs;
    var m := AcceptedFromGroup(crypto, nodes, run, k, svc, text);
    OnlyAsksLookLikeRequests(crypto, nodes, run[m], e.context, PATH_GET_PUBLIC_KEY);
  }

  predicate ReadsAs(body: Bytes, payload: ParticipantPublishPayload) {
    var m := RequirePayload(body);
    m.Ok? && PublishPayloadOf(m.value) == Ok(payload)
  }

  lemma PublishReads(payload: ParticipantPublishPayload)
    ensures ReadsAs(Encode(PayloadText(PublishEntries(payload))), payload) <==> SafePublish(payload)
  {
    hide Encode, PayloadText, PublishEntries, RequirePayload, PublishPayloadOf, SafePublish;
    PublishBody(payload);
  }

  /**
   An accepted publication was published by a node of the group; it reads as what that node published
   exactly when the fields were wire-safe.
   */
  lemma PublishedByGroup(crypto: Crypto, nodes: seq<Service>, run: seq<Event>, k: nat, svc: Service, text: string)
    requires k <= |run| && Covered(crypto, nodes, run, k, svc, text) && Accepts(crypto, svc, text)
    requires IsRequest(ParseEnvelope(text).value.context, "POST", PATH_PUBLISH_PARTICIPANT)
    ensures var e := ParseEnvelope(text).value;
            exists m :: 0 <= m < k && run[m].AskPublish? && Origin(crypto, nodes, run, m, svc, e)
                        && (ReadsAs(e.body, run[m].payload) <==> SafePublish(run[m].payload))
  {
    hide *;
    AcceptsMeans(crypto, svc, text);
    var e := ParseEnvelope(text).value;
    var m := AcceptedFromGroup(crypto, nodes, run, k, svc, text);
    OriginIs(crypto, nodes, run, m, svc, e);
    OnlyAsksLookLikeRequests(crypto, nodes, run[m], e.context, PATH_PUBLISH_PARTICIPANT);
    SignedShape(crypto, nodes, run[m]);
    PublishReads(run[m].payload);
  }

  lemma OriginIs(crypto: Crypto, nodes: seq<Service>, run: seq<Event>, m: nat, svc: Service, e: SignedEnvelope)
    requires m < |run| && Origin(crypto, nodes, run, m, svc, e)
    ensures run[m].node < |nodes| && nodes[run[m].node].sid == svc.sid && nodes[run[m].node].sidToken == svc.sidToken
    ensures Signs(crypto, nodes, run[m]).Some?
    ensures var d := Signs(crypto, nodes, run[m]).value;
            d.senderId == e.senderId && d.body == e.body && CanonicalContext(d.context) == CanonicalContext(e.context)
  {
    hide Signs, CanonicalContext;
  }

  /** Event `m` announces what the announcement carries, in the name of its node as signed. */
  predicate AnnouncedAt(crypto: Crypto, nodes: seq<Service>, run: seq<Event>, m: nat, svc: Service, e: SignedEnvelope)
    requires m < |run|
  {
    run[m].Announce? && Origin(crypto, nodes, run, m, svc, e)
  }

  /** Whoever announced it, signed in its own name, and the body is the one it wrote. */
  lemma AnnouncerOf(crypto: Crypto, nodes: seq<Service>, run: seq<Event>, m: nat, svc: Service, e: SignedEnvelope)
    requires m < |run| && AnnouncedAt(crypto, nodes, run, m, svc, e)
    ensures run[m].node < |nodes| && SameGroup(nodes[run[m].node], svc)
    ensures nodes[run[m].node].participantId == e.senderId && Normalize(run[m].publicKey).Ok?
    ensures e.body == Encode(PayloadText(AnnouncementEntries(
                        svc.sid, e.senderId, run[m].address, run[m].port, Normalize(run[m].publicKey).value)))
  {
    hide Signs, CanonicalContext, Normalize, Encode, PayloadText, AnnouncementEntries, KeyResponse, PublishEntries;
    SignedShape(crypto, nodes, run[m]);
  }

  /**
   An accepted announcement was made by a node of the group, signed in that node's name. It reads as
   what the node announced exactly when the fields were wire-safe, SID and address not empty.
   */
  lemma AnnouncedByGroup(crypto: Crypto, nodes: seq<Service>, run: seq<Event>, k: nat, svc: Service, text: string)
    returns (m: nat)
    requires k <= |run| && Covered(crypto, nodes, run, k, svc, text) && Accepts(crypto, svc, text)
    requires ParseEnvelope(text).value.context.UdpAnnouncement?
    ensures ParseEnvelope(text).Some? && m < k && AnnouncedAt(crypto, nodes, run, m, svc, ParseEnvelope(text).value)
    ensures run[m].Announce? && Normalize(run[m].publicKey).Ok?
    ensures var e := ParseEnvelope(text).value;
            ParseAnnouncement(e.body)
            == Ok(Announcement(svc.sid, e.senderId, run[m].address, run[m].port, Normalize(run[m].publicKey).value))
            <==> SafeAnnouncement(svc.sid, e.senderId, run[m].address)
  {
    hide *;
    AcceptsMeans(crypto, svc, text);
    var e := ParseEnvelope(text).value;
    m := AcceptedFromGroup(crypto, nodes, run, k, svc, text);
    OriginIs(crypto, nodes, run, m, svc, e);
    OnlyAnnouncementsLookLikeAnnouncements(crypto, nodes, run[m]);
    AnnouncedIs(crypto, nodes, run, m, svc, e);
    AnnouncerOf(crypto, nodes, run, m, svc, e);
    NormalizeCanonical(run[m].publicKey);
    AnnouncementBody(svc.sid, e.senderId, run[m].address, run[m].port, Normalize(run[m].publicKey).value);
  }

  lemma AnnouncedIs(crypto: Crypto, nodes: seq<Service>, run: seq<Event>, m: nat, svc: Service, e: SignedEnvelope)
    requires m < |run| && run[m].Announce? && Origin(crypto, nodes, run, m, svc, e)
    ensures AnnouncedAt(crypto, nodes, run, m, svc, e)
  {
    hide Origin;
  }

  /**
   Whose announcement it is: every node that announced it has the id the receiver reads exactly when
   that id is the sender's. The receiver could compare the two; the program does not.
   */
  lemma AnnouncerNamedIff(crypto: Crypto, nodes: seq<Service>, run: seq<Event>, k: nat, svc: Service, text: string)
    requires k <= |run| && Covered(crypto, nodes, run, k, svc, text) && Accepts(crypto, svc, text)
    requires ParseEnvelope(text).value.context.UdpAnnouncement? && ParseAnnouncement(ParseEnvelope(text).value.body).Ok?
    ensures var e := ParseEnvelope(text).value;
            var id := ParseAnnouncement(e.body).value.participantId;
            (forall m :: 0 <= m < k && AnnouncedAt(crypto, nodes, run, m, svc, e) ==>
                nodes[run[m].node].participantId == id)
            <==> id == e.senderId
  {
    hide Covered, Accepts, AnnouncedAt, ParseEnvelope, ParseAnnouncement, Normalize, SafeAnnouncement, Encode,
         PayloadText, AnnouncementEntries;
    AcceptsMeans(crypto, svc, text);
    var e := ParseEnvelope(text).value;
    var signer := AnnouncedByGroup(crypto, nodes, run, k, svc, text);
    AnnouncerOf(crypto, nodes, run, signer, svc, e);
    forall m | 0 <= m < k && AnnouncedAt(crypto, nodes, run, m, svc, e)
      ensures run[m].node < |nodes| && nodes[run[m].node].participantId == e.senderId
    {
      AnnouncerOf(crypto, nodes, run, m, svc, e);
    }
  }

  // ---------- replies, and the node behind them ----------

  /** What a node answers key requests with. */
  function PayloadOf(svc: Service): PublicKeyPayload {
    PublicKeyPayload(svc.sid, svc.participantId, svc.publicKey)
  }

  lemma ReplyMeans(crypto: Crypto, svc: Service, text: string)
    requires ReadReply(crypto, svc, text).Some?
    ensures Accepts(crypto, svc, text)
    ensures var e := ParseEnvelope(text).value;
            IsResponse(e.context, 200, PATH_GET_PUBLIC_KEY) && RequirePayload(e.body).Ok?
            && KeyPayloadOf(RequirePayload(e.body).value) == Ok(ReadReply(crypto, svc, text).value)
  {
    hide ParseEnvelope, RequirePayload, KeyPayloadOf, Mac, Canonical, IsResponse;
  }

  /** Whoever signed an accepted reply did so serving its own SID, id and key: the reply says who it is. */
  lemma SignerOfReply(crypto: Crypto, nodes: seq<Service>, run: seq<Event>, m: nat, svc: Service, text: string)
    requires KeysNormalized(nodes) && m < |run| && ReadReply(crypto, svc, text).Some?
    requires Accepts(crypto, svc, text) && Origin(crypto, nodes, run, m, svc, ParseEnvelope(text).value)
    ensures run[m].Serve? && ReadReply(crypto, svc, text).value == PayloadOf(nodes[run[m].node])
  {
    hide ParseEnvelope, Signs, Mac, Canonical, CanonicalContext, ReadReply, Encode, KeyPayloadOf, RequirePayload,
         IsNormalized, PayloadText, KeyEntries, KeyResponse;
    var e := ParseEnvelope(text).value;
    ReplyMeans(crypto, svc, text);
    ParsedSafe(text);
    VerifiedSid(crypto, e, svc);
    var ev := run[m];
    OnlyAnswersLookLikeAnswers(crypto, nodes, ev, e.context);
    KeyResponseFields(crypto, nodes[ev.node], ev.timestampSecs, ev.nonce);
    KeyBody(nodes[ev.node]);
  }

  /** An accepted reply was signed by a node of the group and carries exactly that node's SID, id and key. */
  lemma ReplyFromGroup(
    crypto: Crypto, nodes: seq<Service>, run: seq<Event>, k: nat, svc: Service, text: string)
    returns (m: nat)
    requires KeysNormalized(nodes) && k <= |run| && Covered(crypto, nodes, run, k, svc, text)
    requires ReadReply(crypto, svc, text).Some?
    ensures ParseEnvelope(text).Some? && m < k && run[m].Serve?
            && Origin(crypto, nodes, run, m, svc, ParseEnvelope(text).value)
    ensures run[m].node < |nodes| && SameGroup(nodes[run[m].node], svc)
    ensures ReadReply(crypto, svc, text).value == PayloadOf(nodes[run[m].node])
  {
    hide ParseEnvelope, ReadReply, Origin, Covered, KeysNormalized, Accepts, RequirePayload, KeyPayloadOf, IsResponse;
    ReplyMeans(crypto, svc, text);
    AcceptsMeans(crypto, svc, text);
    m := AcceptedFromGroup(crypto, nodes, run, k, svc, text);
    SignerOfReply(crypto, nodes, run, m, svc, text);
    OriginNode(crypto, nodes, run, m, svc, ParseEnvelope(text).value);
  }

  lemma OriginNode(crypto: Crypto, nodes: seq<Service>, run: seq<Event>, m: nat, svc: Service, e: SignedEnvelope)
    requires m < |run| && Origin(crypto, nodes, run, m, svc, e)
    ensures run[m].node < |nodes| && SameGroup(nodes[run[m].node], svc)
  {
    hide Signs, CanonicalContext;
  }

  /** The node that signed a reply has a given id exactly when the reply names that id. */
  lemma SignerNamedIff(
    crypto: Crypto, nodes: seq<Service>, run: seq<Event>, k: nat, svc: Service, text: string, id: string)
    requires KeysNormalized(nodes) && k <= |run| && Covered(crypto, nodes, run, k, svc, text)
    requires ReadReply(crypto, svc, text).Some?
    ensures ParseEnvelope(text).Some?
    ensures (forall m :: 0 <= m < k && Origin(crypto, nodes, run, m, svc, ParseEnvelope(text).value)
                         ==> nodes[run[m].node].participantId == id)
       <==> ReadReply(crypto, svc, text).value.participantId == id
  {
    hide ParseEnvelope, ReadReply, Origin, Covered, KeysNormalized, Accepts, RequirePayload, KeyPayloadOf, IsResponse;
    ReplyMeans(crypto, svc, text);
    AcceptsMeans(crypto, svc, text);
    var signer := ReplyFromGroup(crypto, nodes, run, k, svc, text);
    forall m | 0 <= m < k && Origin(crypto, nodes, run, m, svc, ParseEnvelope(text).value)
      ensures run[m].node < |nodes|
              && nodes[run[m].node].participantId == ReadReply(crypto, svc, text).value.participantId
    {
      OriginNode(crypto, nodes, run, m, svc, ParseEnvelope(text).value);
      SignerOfReply(crypto, nodes, run, m, svc, text);
    }
  }

  // ---------- the managed map ----------

  /** The event is a cycle of node `i` that accepts a reply from the endpoint known as `id`. */
  predicate Takes(crypto: Crypto, nodes: seq<Service>, ev: Event, i: nat, id: string)
    requires i < |nodes|
  {
    ev.Sync? && ev.node == i && id != nodes[i].participantId
    && id in Endpoints(ev.bootstrap, ev.peers) && Endpoints(ev.bootstrap, ev.peers)[id] in ev.texts
    && ReadReply(crypto, nodes[i], ev.texts[Endpoints(ev.bootstrap, ev.peers)[id]]).Some?
  }

  datatype Reply = Reply(at: nat, text: string)

  /** The last reply accepted for `id`, and the event that accepted it. */
  function LastReply(crypto: Crypto, nodes: seq<Service>, run: seq<Event>, i: nat, id: string): Option<Reply>
    requires i < |nodes|
  {
    if run == [] then None
    else
      var n := |run| - 1;
      if Takes(crypto, nodes, run[n], i, id) then
          Some(Reply(n, run[n].texts[Endpoints(run[n].bootstrap, run[n].peers)[id]]))
      else LastReply(crypto, nodes, run[..n], i, id)
  }

  /** One cycle, seen from one id. */
  lemma CycleAt(crypto: Crypto, nodes: seq<Service>, ev: Event, i: nat, before: map<string, string>, id: string)
    requires i < |nodes| && ev.Sync? && ev.node == i
    ensures var after := SyncResult(nodes[i].participantId, Endpoints(ev.bootstrap, ev.peers),
            RepliesOf(crypto, nodes[i], ev.texts), before);
            if Takes(crypto, nodes, ev, i, id) then
              id in after
              && after[id] == ReadReply(crypto, nodes[i],
              ev.texts[Endpoints(ev.bootstrap, ev.peers)[id]]).value.publicKey
            else (id in after <==> id in before) && (id in before ==> after[id] == before[id])
  {
    hide ReadReply, Endpoints;
  }

  /** The managed map holds exactly the ids with an accepted reply, each with the key of the last one. */
  lemma {:induction false} ManagedIsLastReply(crypto: Crypto, nodes: seq<Service>, run: seq<Event>, i: nat, id: string)
    requires i < |nodes|
    ensures match LastReply(crypto, nodes, run, i, id)
            case None => id !in Managed(crypto, nodes, run, i)
            case Some(r) =>
              r.at < |run| && Takes(crypto, nodes, run[r.at], i, id)
              && r.text == run[r.at].texts[Endpoints(run[r.at].bootstrap, run[r.at].peers)[id]]
              && id in Managed(crypto, nodes, run, i)
              && Managed(crypto, nodes, run, i)[id] == ReadReply(crypto, nodes[i], r.text).value.publicKey
  {
    hide ReadReply, Endpoints, SyncResult, RepliesOf, Takes;
    if run != [] {
      var n := |run| - 1;
      ManagedIsLastReply(crypto, nodes, run[..n], i, id);
      TakesMeans(crypto, nodes, run[n], i, id);
      ManagedStep(crypto, nodes, run, i, id);
    }
  }

  /** One event, seen from one id. */
  lemma ManagedStep(crypto: Crypto, nodes: seq<Service>, run: seq<Event>, i: nat, id: string)
    requires run != [] && i < |nodes|
    ensures var n := |run| - 1;
            var before, after := Managed(crypto, nodes, run[..n], i), Managed(crypto, nodes, run, i);
            if Takes(crypto, nodes, run[n], i, id) then
              id in after
              && after[id] == ReadReply(crypto, nodes[i],
              run[n].texts[Endpoints(run[n].bootstrap, run[n].peers)[id]]).value.publicKey
            else (id in after <==> id in before) && (id in before ==> after[id] == before[id])
  {
    hide ReadReply, Endpoints, SyncResult, RepliesOf, Takes;
    var n := |run| - 1;
    TakesMeans(crypto, nodes, run[n], i, id);
    if run[n].Sync? && run[n].node == i {
      CycleAt(crypto, nodes, run[n], i, Managed(crypto, nodes, run[..n], i), id);
    }
  }

  lemma TakesMeans(crypto: Crypto, nodes: seq<Service>, ev: Event, i: nat, id: string)
    requires i < |nodes|
    ensures Takes(crypto, nodes, ev, i, id) ==>
              ev.Sync? && ev.node == i && id in Endpoints(ev.bootstrap, ev.peers)
              && Endpoints(ev.bootstrap, ev.peers)[id] in ev.texts
              && ReadReply(crypto, nodes[i], ev.texts[Endpoints(ev.bootstrap, ev.peers)[id]]).Some?
  {
    hide ReadReply, Endpoints;
  }

  lemma CoveredRead(crypto: Crypto, nodes: seq<Service>, leaked: set<string>, run: seq<Event>, k: nat, text: string)
    requires Trustworthy(crypto, nodes, leaked, run) && k < |run| && Trusting(nodes, leaked, run[k])
             && Reads(run[k], text)
    ensures Covered(crypto, nodes, run, k, nodes[run[k].node], text)
  {
    hide Covered, Reads, Trusting;
  }

  /** The reply behind a managed key is covered by the hypotheses. */
  lemma LastReplyCovered(crypto: Crypto, nodes: seq<Service>, leaked: set<string>, run: seq<Event>, i: nat, id: string)
    requires Trustworthy(crypto, nodes, leaked, run)
    requires i < |nodes| && nodes[i].sidToken !in leaked && id in Managed(crypto, nodes, run, i)
    ensures LastReply(crypto, nodes, run, i, id).Some?
    ensures var r := LastReply(crypto, nodes, run, i, id).value;
            r.at < |run| && Covered(crypto, nodes, run, r.at, nodes[i], r.text)
                && ReadReply(crypto, nodes[i], r.text).Some?
            && Managed(crypto, nodes, run, i)[id] == ReadReply(crypto, nodes[i], r.text).value.publicKey
  {
    hide Trustworthy, Covered, ReadReply, Endpoints, Managed, LastReply, Takes;
    ManagedIsLastReply(crypto, nodes, run, i, id);
    var r := LastReply(crypto, nodes, run, i, id).value;
    TakesMeans(crypto, nodes, run[r.at], i, id);
    CoveredRead(crypto, nodes, leaked, run, r.at, r.text);
  }

  /** The key is the normalised public key of some node of the same group. */
  predicate FromGroup(nodes: seq<Service>, svc: Service, key: string) {
    exists j :: 0 <= j < |nodes| && SameGroup(nodes[j], svc) && nodes[j].publicKey == key
  }

  /**
   Group isolation: after every run, every key in the managed map of a node whose token has not
   leaked is the normalised public key of some node with the same SID and the same token.
   */
  lemma GroupIsolation(crypto: Crypto, nodes: seq<Service>, leaked: set<string>, run: seq<Event>, i: nat, id: string)
    requires KeysNormalized(nodes) && Trustworthy(crypto, nodes, leaked, run)
    requires i < |nodes| && nodes[i].sidToken !in leaked && id in Managed(crypto, nodes, run, i)
    ensures FromGroup(nodes, nodes[i], Managed(crypto, nodes, run, i)[id])
  {
    hide Trustworthy, Covered, ReadReply, Managed, LastReply, Origin, KeysNormalized, ParseEnvelope;
    LastReplyCovered(crypto, nodes, leaked, run, i, id);
    var r := LastReply(crypto, nodes, run, i, id).value;
    var m := ReplyFromGroup(crypto, nodes, run, r.at, nodes[i], r.text);
  }

  /** The nodes that signed the reply behind the key kept under `id` all have that id. */
  predicate SignedByPeer(crypto: Crypto, nodes: seq<Service>, run: seq<Event>, i: nat, id: string)
    requires i < |nodes| && LastReply(crypto, nodes, run, i, id).Some?
             && LastReply(crypto, nodes, run, i, id).value.at <= |run|
  {
    var r := LastReply(crypto, nodes, run, i, id).value;
    ParseEnvelope(r.text).Some?
    && forall m :: 0 <= m < r.at && Origin(crypto, nodes, run, m, nodes[i], ParseEnvelope(r.text).value)
                   ==> nodes[run[m].node].participantId == id
  }

  /**
   Which peer a managed key belongs to: over every run, the key kept under an id came from the node
   of that id exactly when the accepted reply names the id. The node asking could compare the two;
   the program does not.
   */
  lemma PeerIsolationIff(crypto: Crypto, nodes: seq<Service>, leaked: set<string>, run: seq<Event>, i: nat, id: string)
    requires KeysNormalized(nodes) && Trustworthy(crypto, nodes, leaked, run)
    requires i < |nodes| && nodes[i].sidToken !in leaked && id in Managed(crypto, nodes, run, i)
    ensures LastReply(crypto, nodes, run, i, id).Some? && LastReply(crypto, nodes, run, i, id).value.at < |run|
    ensures var payload := ReadReply(crypto, nodes[i], LastReply(crypto, nodes, run, i, id).value.text);
            payload.Some? && Managed(crypto, nodes, run, i)[id] == payload.value.publicKey
            && (SignedByPeer(crypto, nodes, run, i, id) <==> payload.value.participantId == id)
  {
    hide Trustworthy, Covered, ReadReply, Managed, LastReply, Origin, KeysNormalized, ParseEnvelope, VerifyEnvelope,
         RequirePayload, KeyPayloadOf;
    LastReplyCovered(crypto, nodes, leaked, run, i, id);
    var r := LastReply(crypto, nodes, run, i, id).value;
    ReplyMeans(crypto, nodes[i], r.text);
    SignerNamedIff(crypto, nodes, run, r.at, nodes[i], r.text, id);
  }

  // ---------- the hypotheses leave honest runs alone ----------

  /** Node `j` answers a key request, node `i` reads the answer. */
  function HonestRun(
    crypto: Crypto, nodes: seq<Service>, i: nat, j: nat, request: string, peer: PeerRecord, t: u64, nanos: nat)
    : seq<Event>
    requires j < |nodes|
  {
    var reply := Serialize(KeyResponse(crypto, nodes[j], t, NextNonce(nanos)));
    var endpoint := PeerEndpoint(peer.participantId, peer.address, peer.port);
    [Serve(j, PATH_GET_PUBLIC_KEY, request, t, NextNonce(nanos)),
     Sync(i, [], map[peer.participantId := peer], map[endpoint := reply])]
  }

  lemma HonestReply(crypto: Crypto, client: Service, server: Service, t: u64, nanos: nat)
    requires SameGroup(server, client) && IsNormalized(server.publicKey) && WireSafe(server.sid)
             && WireSafe(server.participantId)
    ensures var e := KeyResponse(crypto, server, t, NextNonce(nanos));
            ParseEnvelope(Serialize(e)) == Some(e)
            && ReadReply(crypto, client, Serialize(e))
            == Some(PublicKeyPayload(server.sid, server.participantId, server.publicKey))
  {
    hide WireSafe, NextNonce, KeyResponse, Serialize, ParseEnvelope, EnvelopeSafe, VerifyAndParsePublicKeyResponse,
         Normalize;
    ResponseSafe(crypto, server, t, nanos);
    RoundTripIff(KeyResponse(crypto, server, t, NextNonce(nanos)));
    AnswerReadIff(crypto, client, server, t, NextNonce(nanos));
  }

  lemma OneReply(crypto: Crypto, svc: Service, peer: PeerRecord, text: string, key: string)
    requires ReadReply(crypto, svc, text).Some? && ReadReply(crypto, svc, text).value.publicKey == key
    requires peer.participantId != svc.participantId
    ensures var endpoint := PeerEndpoint(peer.participantId, peer.address, peer.port);
            SyncResult(svc.participantId, Endpoints([], map[peer.participantId := peer]),
                RepliesOf(crypto, svc, map[endpoint := text]), map[])
            == map[peer.participantId := key]
  {
    hide ReadReply;
    var endpoint := PeerEndpoint(peer.participantId, peer.address, peer.port);
    assert Endpoints([], map[peer.participantId := peer]) == map[peer.participantId := endpoint];
    assert RepliesOf(crypto, svc, map[endpoint := text])(endpoint) == Some(key);
  }

  /** A text that carries what a node of the group signed is covered, short of a collision. */
  lemma CoveredBy(
    crypto: Crypto, nodes: seq<Service>, run: seq<Event>, k: nat, m: nat, svc: Service, text: string,
    signed: SignedEnvelope)
    requires m < k <= |run| && run[m].node < |nodes| && SameGroup(nodes[run[m].node], svc)
    requires Signs(crypto, nodes, run[m]) == Some(signed) && ParseEnvelope(text) == Some(signed)
    requires NoCollision(crypto, nodes, run, k, signed.body)
    ensures Covered(crypto, nodes, run, k, svc, text)
  {
    hide Signs, ParseEnvelope, Canonical, Encode, VerifyEnvelope, NoCollision;
    assert Maced(crypto, nodes, run, m, Encode(svc.sidToken), Encode(Canonical(crypto, signed)));
  }

  /**
   An honest fetch between two nodes of a group satisfies the hypotheses, with no token leaked, and
   installs exactly the server's key under the peer's id.
   */
  lemma HonestRunWorks(
    crypto: Crypto, nodes: seq<Service>, i: nat, j: nat, request: SignedEnvelope, text: string, peer: PeerRecord,
    t: u64, nanos: nat)
    requires i < |nodes| && j < |nodes| && SameGroup(nodes[j], nodes[i]) && IsNormalized(nodes[j].publicKey)
    requires WireSafe(nodes[j].sid) && WireSafe(nodes[j].participantId) && peer.participantId != nodes[i].participantId
    requires ParseEnvelope(text) == Some(request)
    requires HandleGetPublicKeyRequest(crypto, nodes[j], request, t, NextNonce(nanos)).Ok?
    ensures var run := HonestRun(crypto, nodes, i, j, text, peer, t, nanos);
            Trustworthy(crypto, nodes, {}, run)
            && Managed(crypto, nodes, run, i) == map[peer.participantId := nodes[j].publicKey]
  {
    hide WireSafe, NextNonce, KeyResponse, Serialize, ParseEnvelope, Normalize, Covered, ReadReply, Endpoints,
         SyncResult, RepliesOf, Canonical, Encode;
    var run := HonestRun(crypto, nodes, i, j, text, peer, t, nanos);
    var response := KeyResponse(crypto, nodes[j], t, NextNonce(nanos));
    HonestReply(crypto, nodes[i], nodes[j], t, nanos);
    assert Signs(crypto, nodes, run[0]) == Some(response);
    CoveredBy(crypto, nodes, run, 1, 0, nodes[i], Serialize(response), response);
    OneReply(crypto, nodes[i], peer, Serialize(response), nodes[j].publicKey);
    assert run[..1] == [run[0]] && run[..1][..0] == [];
    assert Managed(crypto, nodes, run[..1], i) == map[];
  }

  // ---------- the name of a key can be wrong ----------

  /**
   In an honest run of two nodes, a server reached under an id that is not its own has its key kept
   under that id, although no node has it.
   */
  lemma MisnamedRun(
    crypto: Crypto, client: Service, server: Service, peer: PeerRecord, t: u64, nanos: nat)
    returns (run: seq<Event>)
    requires SameGroup(server, client) && KeysNormalized([client, server])
    requires WireSafe(server.sid) && WireSafe(server.participantId) && WireSafe(peer.participantId)
    requires peer.participantId != client.participantId && peer.participantId != server.participantId
    ensures Trustworthy(crypto, [client, server], {}, run)
    ensures Managed(crypto, [client, server], run, 0) == map[peer.participantId := server.publicKey]
    ensures LastReply(crypto, [client, server], run, 0, peer.participantId).Some?
    ensures LastReply(crypto, [client, server], run, 0, peer.participantId).value.at <= |run|
    ensures !SignedByPeer(crypto, [client, server], run, 0, peer.participantId)
  {
    hide *;
    var nodes, id := [client, server], peer.participantId;
    var request := BuildGetPublicKeyRequest(crypto, client, id, t, NextNonce(nanos));
    var text := Serialize(request);
    run := HonestRun(crypto, nodes, 0, 1, text, peer, t, nanos);
    GroupFields(server, client);
    NodeKeys(nodes, 1);
    RequestSafe(crypto, client, id, t, nanos);
    RoundTripIff(request);
    RequestAnswered(crypto, client, server, id, t, NextNonce(nanos), t, NextNonce(nanos));
    HonestRunWorks(crypto, nodes, 0, 1, request, text, peer, t, nanos);
    PeerIsolationIff(crypto, nodes, {}, run, 0, id);
    HonestReplyNames(crypto, nodes, peer, text, t, nanos);
  }

  lemma GroupFields(a: Service, b: Service)
    requires SameGroup(a, b)
    ensures a.sid == b.sid && a.sidToken == b.sidToken
  {
  }

  lemma NodeKeys(nodes: seq<Service>, j: nat)
    requires KeysNormalized(nodes) && j < |nodes|
    ensures IsNormalized(nodes[j].publicKey)
  {
    hide IsNormalized;
  }

  /** The last accepted reply of the honest run names the server. */
  lemma HonestReplyNames(crypto: Crypto, nodes: seq<Service>, peer: PeerRecord, text: string, t: u64, nanos: nat)
    requires |nodes| == 2 && SameGroup(nodes[1], nodes[0]) && IsNormalized(nodes[1].publicKey)
    requires WireSafe(nodes[1].sid) && WireSafe(nodes[1].participantId) && peer.participantId != nodes[0].participantId
    ensures var last := LastReply(crypto, nodes, HonestRun(crypto, nodes, 0, 1, text, peer, t, nanos), 0,
            peer.participantId);
            last.Some? && ReadReply(crypto, nodes[0], last.value.text).Some?
            && ReadReply(crypto, nodes[0], last.value.text).value.participantId == nodes[1].participantId
  {
    hide ReadReply, KeyResponse, Serialize, NextNonce, IsNormalized, WireSafe;
    var run := HonestRun(crypto, nodes, 0, 1, text, peer, t, nanos);
    HonestReply(crypto, nodes[0], nodes[1], t, nanos);
    var endpoint := PeerEndpoint(peer.participantId, peer.address, peer.port);
    assert Endpoints([], map[peer.participantId := peer]) == map[peer.participantId := endpoint];
    assert Takes(crypto, nodes, run[1], 0, peer.participantId);
  }

  lemma ExampleKey(data: string)
    requires Token(data)
    ensures IsNormalized("ssh-ed25519" + " " + data)
  {
    var tokens := ["ssh-ed25519", data];
    assert AllTokens(tokens);
    assert Join(tokens, " ") == "ssh-ed25519" + " " + data;
    SplitWsJoin(tokens);
    hide SplitWs, Join;
  }

  /** Node "a" asks a host it knows as "c", which is node "b": it keeps the key of "b" as that of "c". */
  lemma MisnamedExample(crypto: Crypto)
    ensures var a := Service("group", "token", "a", "ssh-ed25519" + " " + "AAAA");
            var b := Service("group", "token", "b", "ssh-ed25519" + " " + "BBBB");
            exists run :: Trustworthy(crypto, [a, b], {}, run)
                && Managed(crypto, [a, b], run, 0) == map["c" := b.publicKey]
  {
    hide Trustworthy, Managed, IsNormalized, WireSafe;
    ExampleKey("AAAA");
    ExampleKey("BBBB");
    ExampleNames();
    var a := Service("group", "token", "a", "ssh-ed25519" + " " + "AAAA");
    var b := Service("group", "token", "b", "ssh-ed25519" + " " + "BBBB");
    var run := MisnamedRun(crypto, a, b, PeerRecord("c", "10.0.0.3", 2222, ""), 0, 0);
  }

  lemma ExampleNames()
    ensures WireSafe("group") && WireSafe("a") && WireSafe("b") && WireSafe("c")
  {
  }
}
