/** The key-exchange service: signed requests, their handlers, and what a client reads back. */
module Transport {
  import opened Prelude
  import opened Text
  import opened Utf8
  import opened Auth
  import opened Payload
  import opened SshKeys
  import opened Wire

  const PATH_GET_PUBLIC_KEY: string := "/v1/keys/get"
  const PATH_PUBLISH_PARTICIPANT: string := "/v1/participants/publish"

  datatype PublicKeyPayload = PublicKeyPayload(sid: string, participantId: string, publicKey: string)

  datatype ParticipantPublishPayload =
    ParticipantPublishPayload(participantId: string, address: string, port: u16, publicKey: string)

  datatype TransportError =
    AuthFailure(error: AuthError) | UnexpectedContext | InvalidPayload | MissingPayloadField(field: string)

  datatype Service = Service(sid: string, sidToken: string, participantId: string, publicKey: string)

  /** `HttpKeyExchangeService::new`: the only way to a service, which therefore holds a normalised key. */
  function NewService(sid: string, sidToken: string, participantId: string, publicKey: string)
    : (r: Result<Service, TransportError>)
    ensures r.Ok? ==> IsNormalized(r.value.publicKey)
  {
    match Normalize(publicKey)
    case Err(_) => Err(InvalidPayload)
    case Ok(key) =>
      NormalizeCanonical(publicKey);
      Ok(Service(sid, sidToken, participantId, key))
  }

  function BuildGetPublicKeyRequest(crypto: Crypto, svc: Service, senderId: string, timestampSecs: u64, nonce: string)
    : SignedEnvelope
  {
    SignEnvelope(crypto, svc.sid, svc.sidToken, senderId, timestampSecs, nonce,
                 HttpRequest("POST", PATH_GET_PUBLIC_KEY), Encode(PayloadText([Entry("request", "public_key")])))
  }

  predicate IsRequest(context: MessageContext, verb: string, path: string) {
    context.HttpRequest? && EqIgnoreCase(context.verb, verb) && context.path == path
  }

  predicate IsResponse(context: MessageContext, statusCode: u16, path: string) {
    context.HttpResponse? && context.statusCode == statusCode && context.path == path
  }

  function Verified(crypto: Crypto, svc: Service, e: SignedEnvelope): Result<(), TransportError> {
    match VerifyEnvelope(crypto, e, svc.sidToken, svc.sid)
    case Err(error) => Err(AuthFailure(error))
    case Ok(_) => Ok(())
  }

  function KeyEntries(svc: Service): seq<Entry> {
    [Entry("sid", svc.sid), Entry("participant_id", svc.participantId), Entry("public_key", svc.publicKey)]
  }

  /** The signed answer to a key request. */
  function KeyResponse(crypto: Crypto, svc: Service, timestampSecs: u64, nonce: string): SignedEnvelope {
    SignEnvelope(crypto, svc.sid, svc.sidToken, svc.participantId, timestampSecs, nonce,
                 HttpResponse(200, PATH_GET_PUBLIC_KEY), Encode(PayloadText(KeyEntries(svc))))
  }

  function HandleGetPublicKeyRequest(
    crypto: Crypto, svc: Service, request: SignedEnvelope, timestampSecs: u64, nonce: string)
    : Result<SignedEnvelope, TransportError>
  {
    var _ :- Verified(crypto, svc, request);
    if !IsRequest(request.context, "POST", PATH_GET_PUBLIC_KEY) then Err(UnexpectedContext)
    else Ok(KeyResponse(crypto, svc, timestampSecs, nonce))
  }

  function GetRequired(m: map<string, string>, field: string): Result<string, TransportError> {
    if field in m then Ok(m[field]) else Err(MissingPayloadField(field))
  }

  function RequirePayload(body: Bytes): Result<map<string, string>, TransportError> {
    match ParsePayload(body)
    case None => Err(InvalidPayload)
    case Some(m) => Ok(m)
  }

  function RequireKey(publicKey: string): Result<string, TransportError> {
    match Normalize(publicKey)
    case Err(_) => Err(InvalidPayload)
    case Ok(key) => Ok(key)
  }

  function KeyPayloadOf(m: map<string, string>): Result<PublicKeyPayload, TransportError> {
    var sid :- GetRequired(m, "sid");
    var participantId :- GetRequired(m, "participant_id");
    var text :- GetRequired(m, "public_key");
    var publicKey :- RequireKey(text);
    Ok(PublicKeyPayload(sid, participantId, publicKey))
  }

  function VerifyAndParsePublicKeyResponse(crypto: Crypto, svc: Service, e: SignedEnvelope)
    : Result<PublicKeyPayload, TransportError>
  {
    var _ :- Verified(crypto, svc, e);
    if !IsResponse(e.context, 200, PATH_GET_PUBLIC_KEY) then Err(UnexpectedContext)
    else
      var m :- RequirePayload(e.body);
      KeyPayloadOf(m)
  }

  function PublishEntries(p: ParticipantPublishPayload): seq<Entry> {
    [Entry("participant_id", p.participantId), Entry("address", p.address), Entry("port", Dec(p.port)),
     Entry("public_key", p.publicKey)]
  }

  function BuildPublishRequest(
    crypto: Crypto, svc: Service, senderId: string, timestampSecs: u64, nonce: string, p: ParticipantPublishPayload)
    : SignedEnvelope
  {
    SignEnvelope(crypto, svc.sid, svc.sidToken, senderId, timestampSecs, nonce,
                 HttpRequest("POST", PATH_PUBLISH_PARTICIPANT), Encode(PayloadText(PublishEntries(p))))
  }

  function PublishPayloadOf(m: map<string, string>): Result<ParticipantPublishPayload, TransportError> {
    var participantId :- GetRequired(m, "participant_id");
    var address :- GetRequired(m, "address");
    var portText :- GetRequired(m, "port");
    match ParseUint(portText, U16_MAX)
    case None => Err(InvalidPayload)
    case Some(port) =>
      var publicKey :- GetRequired(m, "public_key");
      Ok(ParticipantPublishPayload(participantId, address, port, publicKey))
  }

  function PublishResponse(crypto: Crypto, svc: Service, participantId: string, timestampSecs: u64, nonce: string)
    : SignedEnvelope
  {
    SignEnvelope(crypto, svc.sid, svc.sidToken, svc.participantId, timestampSecs, nonce,
                 HttpResponse(202, PATH_PUBLISH_PARTICIPANT),
                 Encode(PayloadText([Entry("status", "accepted"), Entry("participant_id", participantId)])))
  }

  function HandlePublishRequest(
    crypto: Crypto, svc: Service, request: SignedEnvelope, timestampSecs: u64, nonce: string)
    : Result<SignedEnvelope, TransportError>
  {
    var _ :- Verified(crypto, svc, request);
    if !IsRequest(request.context, "POST", PATH_PUBLISH_PARTICIPANT) then Err(UnexpectedContext)
    else
      var m :- RequirePayload(request.body);
      var payload :- PublishPayloadOf(m);
      var _ :- RequireKey(payload.publicKey);
      Ok(PublishResponse(crypto, svc, payload.participantId, timestampSecs, nonce))
  }

  // ---------- laws ----------

  /** A written body is read as its entries. */
  lemma RequireWritten(entries: seq<Entry>)
    requires SafeEntries(entries)
    ensures RequirePayload(Encode(PayloadText(entries))) == Ok(EntriesMap(entries))
  {
    hide SafeEntries, PayloadText, Encode, EntriesMap, ParsePayload;
    ParseOfSerialize(entries);
  }

  lemma KeyEntriesSafe(svc: Service)
    requires WireSafe(svc.sid) && WireSafe(svc.participantId) && IsNormalized(svc.publicKey)
    ensures SafeEntries(KeyEntries(svc))
  {
    hide SafeKey, WireSafe, IsNormalized;
    PayloadKeysSafe();
    NormalizedShape(svc.publicKey);
    EntrySafe("sid", svc.sid);
    EntrySafe("participant_id", svc.participantId);
    EntrySafe("public_key", svc.publicKey);
    hide SafeEntry;
  }

  lemma KeyEntriesRead(svc: Service)
    ensures var m := EntriesMap(KeyEntries(svc));
            Get(m, "sid") == Some(svc.sid) && Get(m, "participant_id") == Some(svc.participantId)
            && Get(m, "public_key") == Some(svc.publicKey)
  {
    hide EntriesMap, Get;
    PayloadKeyLengths();
    var es := KeyEntries(svc);
    assert es[0].key == "sid" && es[1].key == "participant_id" && es[2].key == "public_key";
    Lookup(es, 0);
    Lookup(es, 1);
    Lookup(es, 2);
  }

  lemma KeyRead(m: map<string, string>, svc: Service)
    requires Get(m, "sid") == Some(svc.sid) && Get(m, "participant_id") == Some(svc.participantId)
    requires Get(m, "public_key") == Some(svc.publicKey) && IsNormalized(svc.publicKey)
    ensures KeyPayloadOf(m) == Ok(PublicKeyPayload(svc.sid, svc.participantId, svc.publicKey))
  {
    hide Normalize;
  }

  /** What a client reads from a key body is what the responder wrote, when it is wire-safe. */
  lemma KeyBody(svc: Service)
    requires WireSafe(svc.sid) && WireSafe(svc.participantId) && IsNormalized(svc.publicKey)
    ensures RequirePayload(Encode(PayloadText(KeyEntries(svc)))).Ok?
    ensures var m := RequirePayload(Encode(PayloadText(KeyEntries(svc)))).value;
            KeyPayloadOf(m) == Ok(PublicKeyPayload(svc.sid, svc.participantId, svc.publicKey))
  {
    hide *;
    KeyEntriesSafe(svc);
    RequireWritten(KeyEntries(svc));
    KeyEntriesRead(svc);
    KeyRead(EntriesMap(KeyEntries(svc)), svc);
  }

  lemma ResponseVerifies(crypto: Crypto, client: Service, server: Service, t: u64, n: string)
    requires client.sid == server.sid && client.sidToken == server.sidToken
    ensures var e := KeyResponse(crypto, server, t, n);
            Verified(crypto, client, e) == Ok(()) && IsResponse(e.context, 200, PATH_GET_PUBLIC_KEY)
            && e.body == Encode(PayloadText(KeyEntries(server)))
  {
    SignedVerifies(crypto, server.sid, server.sidToken, server.participantId, t, n,
                   HttpResponse(200, PATH_GET_PUBLIC_KEY), Encode(PayloadText(KeyEntries(server))));
    hide VerifyEnvelope, PayloadText, KeyEntries, Encode;
  }

  lemma ReadSafe(m: map<string, string>)
    requires KeyPayloadOf(m).Ok? && forall k :: k in m ==> WireSafe(m[k])
    ensures WireSafe(KeyPayloadOf(m).value.sid) && WireSafe(KeyPayloadOf(m).value.participantId)
  {
    hide WireSafe, Normalize;
  }

  /** A key request between services sharing SID and token is answered. */
  lemma RequestAnswered(
    crypto: Crypto, client: Service, server: Service, senderId: string, t1: u64, n1: string, t2: u64, n2: string)
    requires client.sid == server.sid && client.sidToken == server.sidToken
    ensures HandleGetPublicKeyRequest(crypto, server, BuildGetPublicKeyRequest(crypto, client, senderId, t1, n1), t2,
            n2)
         == Ok(KeyResponse(crypto, server, t2, n2))
  {
    SignedVerifies(crypto, client.sid, client.sidToken, senderId, t1, n1,
                   HttpRequest("POST", PATH_GET_PUBLIC_KEY), Encode(PayloadText([Entry("request", "public_key")])));
    hide VerifyEnvelope, PayloadText, Encode, KeyResponse;
  }

  /**
   The answer reads back as the responder's SID, id and key exactly when the SID and the id are
   wire-safe.
   */
  lemma AnswerReadIff(crypto: Crypto, client: Service, server: Service, t: u64, n: string)
    requires client.sid == server.sid && client.sidToken == server.sidToken && IsNormalized(server.publicKey)
    ensures VerifyAndParsePublicKeyResponse(crypto, client, KeyResponse(crypto, server, t, n))
         == Ok(PublicKeyPayload(server.sid, server.participantId, server.publicKey))
       <==> WireSafe(server.sid) && WireSafe(server.participantId)
  {
    ResponseVerifies(crypto, client, server, t, n);
    hide Verified, PayloadText, KeyEntries, Encode, WireSafe, Normalize, KeyResponse, KeyPayloadOf, IsResponse,
         ParsePayload;
    if WireSafe(server.sid) && WireSafe(server.participantId) {
      KeyBody(server);
    }
    var body := Encode(PayloadText(KeyEntries(server)));
    if RequirePayload(body).Ok? && KeyPayloadOf(RequirePayload(body).value).Ok? {
      ParsedPayloadSafe(body);
      ReadSafe(RequirePayload(body).value);
    }
  }

  predicate SafePublish(p: ParticipantPublishPayload) {
    WireSafe(p.participantId) && WireSafe(p.address) && WireSafe(p.publicKey)
  }

  lemma PublishEntriesSafe(p: ParticipantPublishPayload)
    requires SafePublish(p)
    ensures SafeEntries(PublishEntries(p))
  {
    hide SafeKey, WireSafe, Dec;
    PayloadKeysSafe();
    DecSafe(p.port);
    EntrySafe("participant_id", p.participantId);
    EntrySafe("address", p.address);
    EntrySafe("port", Dec(p.port));
    EntrySafe("public_key", p.publicKey);
    hide SafeEntry;
  }

  lemma PublishEntriesRead(p: ParticipantPublishPayload)
    ensures var m := EntriesMap(PublishEntries(p));
            Get(m, "participant_id") == Some(p.participantId) && Get(m, "address") == Some(p.address)
            && Get(m, "port") == Some(Dec(p.port)) && Get(m, "public_key") == Some(p.publicKey)
  {
    hide EntriesMap, Get, Dec;
    PayloadKeyLengths();
    var es := PublishEntries(p);
    assert es[0].key == "participant_id" && es[1].key == "address" && es[2].key == "port" && es[3].key == "public_key";
    Lookup(es, 0);
    Lookup(es, 1);
    Lookup(es, 2);
    Lookup(es, 3);
  }

  /** A publication is read back as it was written exactly when its fields are wire-safe. */
  lemma PublishBody(p: ParticipantPublishPayload)
    ensures var m := RequirePayload(Encode(PayloadText(PublishEntries(p))));
            m.Ok? && PublishPayloadOf(m.value) == Ok(p) <==> SafePublish(p)
  {
    hide *;
    var body := Encode(PayloadText(PublishEntries(p)));
    if SafePublish(p) {
      PublishEntriesSafe(p);
      RequireWritten(PublishEntries(p));
      PublishEntriesRead(p);
      ParseDec(p.port, U16_MAX);
      PortFits(p);
      PublishRead(EntriesMap(PublishEntries(p)), p);
    }
    if RequirePayload(body).Ok? && PublishPayloadOf(RequirePayload(body).value) == Ok(p) {
      RequireSafe(body);
      PublishReadSafe(RequirePayload(body).value);
    }
  }

  lemma RequireSafe(body: Bytes)
    requires RequirePayload(body).Ok?
    ensures forall k :: k in RequirePayload(body).value ==> WireSafe(RequirePayload(body).value[k])
  {
    hide ParsePayload, WireSafe;
    ParsedPayloadSafe(body);
  }

  lemma PublishReadSafe(m: map<string, string>)
    requires PublishPayloadOf(m).Ok? && forall k :: k in m ==> WireSafe(m[k])
    ensures SafePublish(PublishPayloadOf(m).value)
  {
    hide WireSafe, ParseUint;
  }

  lemma PortFits(p: ParticipantPublishPayload)
    ensures p.port <= U16_MAX
  {
  }

  lemma PublishRead(m: map<string, string>, p: ParticipantPublishPayload)
    requires Get(m, "participant_id") == Some(p.participantId) && Get(m, "address") == Some(p.address)
    requires Get(m, "public_key") == Some(p.publicKey)
    requires Get(m, "port").Some? && ParseUint(Get(m, "port").value, U16_MAX) == Some(p.port)
    ensures PublishPayloadOf(m) == Ok(p)
  {
    hide ParseUint;
  }

  /** A well-formed publication is acknowledged for its own participant exactly when its key is valid. */
  lemma PublishExchange(
    crypto: Crypto, client: Service, server: Service, p: ParticipantPublishPayload,
    senderId: string, t1: u64, n1: string, t2: u64, n2: string)
    requires client.sid == server.sid && client.sidToken == server.sidToken && SafePublish(p)
    ensures HandlePublishRequest(crypto, server, BuildPublishRequest(crypto, client, senderId, t1, n1, p), t2, n2)
         == if Normalize(p.publicKey).Ok? then Ok(PublishResponse(crypto, server, p.participantId, t2, n2))
            else Err(InvalidPayload)
    ensures Verified(crypto, client, PublishResponse(crypto, server, p.participantId, t2, n2)) == Ok(())
  {
    SignedVerifies(crypto, client.sid, client.sidToken, senderId, t1, n1,
                   HttpRequest("POST", PATH_PUBLISH_PARTICIPANT), Encode(PayloadText(PublishEntries(p))));
    SignedVerifies(crypto, server.sid, server.sidToken, server.participantId, t2, n2,
                   HttpResponse(202, PATH_PUBLISH_PARTICIPANT),
                   Encode(PayloadText([Entry("status", "accepted"), Entry("participant_id", p.participantId)])));
    PublishBody(p);
    hide VerifyEnvelope, PayloadText, PublishEntries, Encode, WireSafe, ParsePayload, Normalize;
  }

  // ---------- the service, written out ----------

  lemma RequestIs(crypto: Crypto, svc: Service, senderId: string, timestampSecs: u64, nonce: string)
    ensures var e := BuildGetPublicKeyRequest(crypto, svc, senderId, timestampSecs, nonce);
            e.sid == svc.sid && e.senderId == senderId && e.timestampSecs == timestampSecs && e.nonce == nonce
            && e.context == HttpRequest("POST", "/v1/keys/get") && e.body == Encode("request=public_key\n")
            && VerifyEnvelope(crypto, e, svc.sidToken, svc.sid) == Ok(())
  {
    hide Encode, PayloadText, VerifyEnvelope, CanonicalPayload, Mac;
    var body := PayloadText([Entry("request", "public_key")]);
    EmptyText();
    EntryFirst("request", "request=", "public_key", []);
    AppendNil([Entry("request", "public_key")]);
    assert "request=" + "public_key" + "\n" + "" == "request=public_key\n";
    SignedVerifies(crypto, svc.sid, svc.sidToken, senderId, timestampSecs, nonce, HttpRequest("POST", "/v1/keys/get"),
        Encode(body));
  }

  /** A key request is answered exactly when its MAC is right and it is a POST, in any letter case, to the key path. */
  lemma KeyAnswerIff(crypto: Crypto, svc: Service, e: SignedEnvelope, t: u64, n: string)
    ensures var verdict := VerifyEnvelope(crypto, e, svc.sidToken, svc.sid);
            var asked := e.context.HttpRequest? && ToLower(e.context.verb) == "post"
                && e.context.path == "/v1/keys/get";
            HandleGetPublicKeyRequest(crypto, svc, e, t, n)
            == (if verdict.Err? then Err(AuthFailure(verdict.error))
                else if !asked then Err(UnexpectedContext)
                else Ok(KeyResponse(crypto, svc, t, n)))
  {
    LowerPost();
    hide VerifyEnvelope, KeyResponse, ToLower;
  }

  lemma LowerPost()
    ensures ToLower("POST") == "post"
  {
  }

  /** The answer: the service's own SID, id and key, signed by it as a 200 on the key path. */
  lemma KeyAnswerIs(crypto: Crypto, svc: Service, t: u64, n: string)
    ensures var e := KeyResponse(crypto, svc, t, n);
            e.sid == svc.sid && e.senderId == svc.participantId && e.timestampSecs == t && e.nonce == n
            && e.context == HttpResponse(200, "/v1/keys/get")
            && e.body == Encode("sid=" + svc.sid + "\n" + ("participant_id=" + svc.participantId + "\n"
                                + ("public_key=" + svc.publicKey + "\n")))
            && VerifyEnvelope(crypto, e, svc.sidToken, svc.sid) == Ok(())
  {
    hide Encode, PayloadText, VerifyEnvelope, CanonicalPayload, Mac;
    EmptyText();
    var d1 := [Entry("public_key", svc.publicKey)];
    var d2 := [Entry("participant_id", svc.participantId)] + d1;
    assert KeyEntries(svc) == [Entry("sid", svc.sid)] + d2;
    EntryFirst("sid", "sid=", svc.sid, d2);
    EntryFirst("participant_id", "participant_id=", svc.participantId, d1);
    EntryFirst("public_key", "public_key=", svc.publicKey, []);
    AppendNil(d1);
    AppendNil("public_key=" + svc.publicKey + "\n");
    SignedVerifies(crypto, svc.sid, svc.sidToken, svc.participantId, t, n,
                   HttpResponse(200, "/v1/keys/get"), Encode(PayloadText(KeyEntries(svc))));
  }

  /**
   A reply is read exactly when its MAC is right, it is a 200 on the key path, and its body holds
   the fields and a key.
   */
  lemma ReplyReadIff(crypto: Crypto, svc: Service, e: SignedEnvelope)
    ensures var verdict := VerifyEnvelope(crypto, e, svc.sidToken, svc.sid);
            var m := ParsePayload(e.body);
            VerifyAndParsePublicKeyResponse(crypto, svc, e)
            == (if verdict.Err? then Err(AuthFailure(verdict.error))
                else if e.context != HttpResponse(200, "/v1/keys/get") then Err(UnexpectedContext)
                else if m.None? then Err(InvalidPayload)
                else if "sid" !in m.value then Err(MissingPayloadField("sid"))
                else if "participant_id" !in m.value then Err(MissingPayloadField("participant_id"))
                else if "public_key" !in m.value then Err(MissingPayloadField("public_key"))
                else if Normalize(m.value["public_key"]).Err? then Err(InvalidPayload)
                else Ok(PublicKeyPayload(m.value["sid"], m.value["participant_id"],
                    Normalize(m.value["public_key"]).value)))
  {
    hide VerifyEnvelope, ParsePayload, Normalize;
  }

  /** A key that a client reads is normalised. */
  lemma ReadKeyNormalized(crypto: Crypto, svc: Service, e: SignedEnvelope)
    requires VerifyAndParsePublicKeyResponse(crypto, svc, e).Ok?
    ensures IsNormalized(VerifyAndParsePublicKeyResponse(crypto, svc, e).value.publicKey)
  {
    hide Verified, ParsePayload, Normalize, IsNormalized;
    NormalizeCanonical(ParsePayload(e.body).value["public_key"]);
  }

  /**
   A publication is acknowledged exactly when its MAC is right, its context fits, and its body
   holds four good fields.
   */
  lemma AcknowledgedIff(crypto: Crypto, svc: Service, e: SignedEnvelope, t: u64, n: string)
    ensures var verdict := VerifyEnvelope(crypto, e, svc.sidToken, svc.sid);
            var posted := e.context.HttpRequest? && ToLower(e.context.verb) == "post"
                          && e.context.path == "/v1/participants/publish";
            var m := ParsePayload(e.body);
            HandlePublishRequest(crypto, svc, e, t, n)
            == (if verdict.Err? then Err(AuthFailure(verdict.error))
                else if !posted then Err(UnexpectedContext)
                else if m.None? then Err(InvalidPayload)
                else if "participant_id" !in m.value then Err(MissingPayloadField("participant_id"))
                else if "address" !in m.value then Err(MissingPayloadField("address"))
                else if "port" !in m.value then Err(MissingPayloadField("port"))
                else if ParseUint(m.value["port"], 65535).None? then Err(InvalidPayload)
                else if "public_key" !in m.value then Err(MissingPayloadField("public_key"))
                else if Normalize(m.value["public_key"]).Err? then Err(InvalidPayload)
                else Ok(PublishResponse(crypto, svc, m.value["participant_id"], t, n)))
  {
    LowerPost();
    hide VerifyEnvelope, ParsePayload, Normalize, ParseUint, PublishResponse, ToLower;
  }

  /** The acknowledgement: a 202 on the publication path that says `accepted` and names the participant. */
  lemma AcknowledgementIs(crypto: Crypto, svc: Service, participantId: string, t: u64, n: string)
    ensures var e := PublishResponse(crypto, svc, participantId, t, n);
            e.sid == svc.sid && e.senderId == svc.participantId && e.timestampSecs == t && e.nonce == n
            && e.context == HttpResponse(202, "/v1/participants/publish")
            && e.body == Encode("status=accepted\n" + ("participant_id=" + participantId + "\n"))
            && VerifyEnvelope(crypto, e, svc.sidToken, svc.sid) == Ok(())
  {
    hide Encode, PayloadText, VerifyEnvelope, CanonicalPayload, Mac;
    EmptyText();
    var last := [Entry("participant_id", participantId)];
    var entries := [Entry("status", "accepted"), Entry("participant_id", participantId)];
    assert entries == [Entry("status", "accepted")] + last;
    EntryFirst("status", "status=", "accepted", last);
    assert "status=" + "accepted" + "\n" == "status=accepted\n";
    EntryFirst("participant_id", "participant_id=", participantId, []);
    AppendNil(last);
    AppendNil("participant_id=" + participantId + "\n");
    SignedVerifies(crypto, svc.sid, svc.sidToken, svc.participantId, t, n,
                   HttpResponse(202, "/v1/participants/publish"), Encode(PayloadText(entries)));
  }

  /** What anybody reads from the acknowledgement of a wire-safe id. */
  lemma AcknowledgementRead(crypto: Crypto, svc: Service, participantId: string, t: u64, n: string)
    requires WireSafe(participantId)
    ensures ParsePayload(PublishResponse(crypto, svc, participantId, t, n).body)
         == Some(map["status" := "accepted", "participant_id" := participantId])
  {
    hide Encode, PayloadText, ParsePayload, WireSafe, CanonicalPayload, Mac, SafeKey;
    var entries := [Entry("status", "accepted"), Entry("participant_id", participantId)];
    PayloadKeysSafe();
    WordsSafe();
    assert Word("status") && Word("accepted");
    AcceptedSafe();
    EntrySafe("status", "accepted");
    EntrySafe("participant_id", participantId);
    ParseOfSerialize(entries);
    TwoEntries("status", "accepted", "participant_id", participantId);
  }

  lemma AcceptedSafe()
    ensures WireSafe("accepted") && |"status"| != |"participant_id"|
  {
  }

  lemma TwoEntries(k1: string, v1: string, k2: string, v2: string)
    requires k1 != k2
    ensures EntriesMap([Entry(k1, v1), Entry(k2, v2)]) == map[k1 := v1, k2 := v2]
  {
    var es := [Entry(k1, v1), Entry(k2, v2)];
    assert es[..1] == [Entry(k1, v1)] && es[..1][..0] == [];
    assert EntriesMap([]) == map[] && EntriesMap(es[..1]) == map[k1 := v1];
  }
}
