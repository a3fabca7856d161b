/** The connection handler: what it reads, which status it answers, and a publication end to end. */
module Handler {
  import opened Prelude
  import opened Text
  import opened Utf8
  import opened Http
  import opened Payload
  import opened Auth
  import opened Wire
  import opened SshKeys
  import opened Transport
  import opened Exchange

  // ---------- requests of any client ----------

  /** A head of any lines is read as those lines. */
  lemma HeadRead(lines: seq<string>)
    requires lines != [] && HeaderLines(lines)
    ensures var parts := SplitWs(lines[0]);
            ParseHead(Encode(HeadText(lines)))
            == (if |parts| == 0 then Err(MissingMethod)
                else if |parts| == 1 then Err(MissingPath)
                else Ok(Head(parts[1], ContentLength(lines[1..]))))
  {
    hide Encode, HeadText, SplitWs, DecodeLossy, Lines, ContentLength, HeaderLines;
    DecodeEncode(HeadText(lines));
    LinesOfHead(lines);
    assert (lines + [""])[1..] == lines[1..] + [""];
    LengthSnoc(lines[1..], "");
    BlankLineIgnored(ContentLength(lines[1..]));
  }

  /** What a stream of a head and more bytes comes to, when the head is not in the grey zone. */
  lemma StreamRead(lines: seq<string>, rest: Bytes, chunks: seq<Bytes>, ending: Ending)
    requires lines != [] && HeaderLines(lines) && |Encode(HeadText(lines))| <= 65537
    requires Chunks(chunks, Encode(HeadText(lines)) + rest)
    ensures var parts, n, size := SplitWs(lines[0]), ContentLength(lines[1..]), |Encode(HeadText(lines))|;
            Outcome(chunks, ending)
            == (if |parts| == 0 then Err(MissingMethod)
                else if |parts| == 1 then Err(MissingPath)
                else if size + n > 0xFFFF_FFFF_FFFF_FFFF then Err(Panicked)
                else if n <= |rest| then Ok(Request(parts[1], DecodeLossy(rest[..n])))
                else if ending.Closed? then Err(ShortBody)
                else Err(IoError))
  {
    hide *;
    var head := Encode(HeadText(lines));
    ChunksMean(chunks, head + rest);
    HeadEnd(lines, rest);
    HeadRead(lines);
    Slices(head, rest);
    if ContentLength(lines[1..]) <= |rest| {
      Middle(head, rest, ContentLength(lines[1..]));
    }
    WholeIs(head + rest, |head|, ending);
    SafeOutcome(chunks, ending);
  }

  lemma Middle(a: Bytes, b: Bytes, n: nat)
    requires n <= |b|
    ensures (a + b)[|a|..|a| + n] == b[..n]
  {
  }

  lemma WholeIs(s: Bytes, h: nat, ending: Ending)
    requires HeaderEnd(s) == Some(h) && h <= |s| && h <= 65537
    ensures ChunkSafe(s) && h <= HEADER_LIMIT + CHUNK
    ensures ParseWhole(s, ending)
         == match ParseHead(s[..h])
            case Err(error) => Err(error)
            case Ok(head) =>
              if h + head.length > 0xFFFF_FFFF_FFFF_FFFF then Err(Panicked)
              else if h + head.length <= |s| then Ok(Request(head.path, DecodeLossy(s[h..h + head.length])))
              else Err(if ending.Closed? then ShortBody else IoError)
  {
    hide HeaderEnd, ParseHead, DecodeLossy;
  }

  /** A stream without CR LF CR LF: too large beyond 65536 bytes, else closed or failed as the stream ends. */
  lemma NoHead(chunks: seq<Bytes>, ending: Ending)
    requires ChunksOk(chunks)
    requires forall i: nat :: !OccursAt(Flatten(chunks), [13, 10, 13, 10], i)
    ensures Outcome(chunks, ending)
         == (if |Flatten(chunks)| > 65536 then Err(RequestTooLarge)
             else if ending.Closed? then Err(ConnectionClosed)
             else Err(IoError))
  {
    var s := Flatten(chunks);
    hide Flatten, FindSubslice;
    hide OccursAt;
    assert forall i: nat :: !OccursAt(s, BLANK_LINE, i);
    assert FindSubslice(s, BLANK_LINE).None?;
  }

  // ---------- texts, written out ----------

  lemma FirstLine(path: string)
    ensures "POST" + " " + (path + " " + "HTTP/1.1") == "POST " + path + " HTTP/1.1"
  {
  }

  lemma HeaderIs(name: string, nameColon: string, value: string)
    requires nameColon == name + ": "
    ensures Header(name, value) == nameColon + value
  {
  }

  /** The request the client writes, in full. */
  lemma PostText(address: string, port: u16, path: string, body: string)
    ensures PostBytes(address, port, path, body)
         == Encode(("POST " + path + " HTTP/1.1") + "\r\n" + ("Host: " + (address + ":" + Dec(port))) + "\r\n"
                   + "Content-Type: text/plain" + "\r\n" + ("Content-Length: " + Dec(|Encode(body)|)) + "\r\n"
                   + "Connection: close" + "\r\n\r\n" + body)
  {
    hide Encode, Dec, Header, HeadText;
    FirstLine(path);
    HeaderIs("Host", "Host: ", address + ":" + Dec(port));
    HeaderIs("Content-Type", "Content-Type: ", "text/plain");
    HeaderIs("Content-Length", "Content-Length: ", Dec(|Encode(body)|));
    HeaderIs("Connection", "Connection: ", "close");
    FixedHeaders();
    HeadOfFive("POST " + path + " HTTP/1.1", "Host: " + (address + ":" + Dec(port)), "Content-Type: text/plain",
               "Content-Length: " + Dec(|Encode(body)|), "Connection: close");
  }

  lemma FixedHeaders()
    ensures "Content-Type: " + "text/plain" == "Content-Type: text/plain"
            && "Connection: " + "close" == "Connection: close"
  {
  }

  lemma ReasonIs(statusCode: nat, reason: string)
    requires (statusCode, reason) in {(200, "OK"), (400, "Bad Request"), (401, "Unauthorized"), (404, "Not Found")}
    ensures Reason(statusCode) == reason
  {
  }

  /** The response the server writes, in full, with the reason of each of its four statuses. */
  lemma ResponseText(statusCode: nat, reason: string, body: Bytes)
    requires (statusCode, reason) in {(200, "OK"), (400, "Bad Request"), (401, "Unauthorized"), (404, "Not Found")}
    ensures ResponseBytes(statusCode, body)
         == Encode(("HTTP/1.1 " + Dec(statusCode) + " " + reason) + "\r\n" + "Content-Type: text/plain" + "\r\n"
                   + ("Content-Length: " + Dec(|body|)) + "\r\n" + "Connection: close" + "\r\n\r\n") + body
  {
    ReasonIs(statusCode, reason);
    hide Encode, Dec, Header, HeadText, Reason;
    HeaderIs("Content-Type", "Content-Type: ", "text/plain");
    HeaderIs("Content-Length", "Content-Length: ", Dec(|body|));
    HeaderIs("Connection", "Connection: ", "close");
    FixedHeaders();
    HeadOfFour("HTTP/1.1 " + Dec(statusCode) + " " + reason, "Content-Type: text/plain",
        "Content-Length: " + Dec(|body|),
               "Connection: close");
  }

  lemma HeadOfFive(a: string, b: string, c: string, d: string, e: string)
    ensures HeadText([a, b, c, d, e])
         == a + "\r\n" + b + "\r\n" + c + "\r\n" + d + "\r\n" + e + "\r\n\r\n"
  {
    assert [a, b, c, d, e][1..] == [b, c, d, e] && [b, c, d, e][1..] == [c, d, e] && [c, d, e][1..] == [d, e];
    assert [d, e][1..] == [e] && [e][1..] == [];
    assert HeadText([]) == "\r\n";
    assert HeadText([e]) == e + "\r\n\r\n";
    assert HeadText([d, e]) == d + "\r\n" + (e + "\r\n\r\n");
    assert HeadText([c, d, e]) == c + "\r\n" + (d + "\r\n" + (e + "\r\n\r\n"));
    assert HeadText([b, c, d, e]) == b + "\r\n" + (c + "\r\n" + (d + "\r\n" + (e + "\r\n\r\n")));
  }

  lemma HeadOfFour(a: string, b: string, c: string, d: string)
    ensures HeadText([a, b, c, d]) == a + "\r\n" + b + "\r\n" + c + "\r\n" + d + "\r\n\r\n"
  {
    assert [a, b, c, d][1..] == [b, c, d] && [b, c, d][1..] == [c, d] && [c, d][1..] == [d] && [d][1..] == [];
    assert HeadText([]) == "\r\n";
    assert HeadText([d]) == d + "\r\n\r\n";
    assert HeadText([c, d]) == c + "\r\n" + (d + "\r\n\r\n");
    assert HeadText([b, c, d]) == b + "\r\n" + (c + "\r\n" + (d + "\r\n\r\n"));
  }

  // ---------- statuses ----------

  /** The status code of a response, read from its first line. */
  function StatusOf(response: Bytes): Option<nat> {
    var start :- HeaderEnd(response);
    var lines := Lines(DecodeLossy(if start <= |response| then response[..start] else []));
    if lines == [] || |SplitWs(lines[0])| < 2 then None else ParseUint(SplitWs(lines[0])[1], 65535)
  }

  lemma DecToken(n: nat)
    ensures Token(Dec(n))
  {
    assert forall i :: 0 <= i < |Dec(n)| ==> Dec(n)[i] in Dec(n);
    hide Dec;
  }

  lemma StatusLine(statusCode: nat, reason: string)
    ensures var parts := SplitWs("HTTP/1.1 " + Dec(statusCode) + " " + reason);
            |parts| >= 2 && parts[1] == Dec(statusCode)
  {
    hide *;
    DecToken(statusCode);
    RequestTokens();
    SplitWsSpace(Dec(statusCode), reason);
    SplitWsSpace("HTTP/1.1", Dec(statusCode) + " " + reason);
    assert "HTTP/1.1 " + Dec(statusCode) + " " + reason == "HTTP/1.1" + " " + (Dec(statusCode) + " " + reason);
  }

  /** A client can read the status the server wrote. */
  lemma StatusArrives(statusCode: u16, body: string)
    ensures StatusOf(ResponseBytes(statusCode, Encode(body))) == Some(statusCode)
  {
    var lines := ResponseHead(statusCode, |Encode(body)|);
    assert lines[0] == "HTTP/1.1 " + Dec(statusCode) + " " + Reason(statusCode);
    hide Encode, HeadText, HeaderLines, HeaderEnd, ResponseHead, DecodeLossy, SplitWs, Lines, Dec, Reason;
    ResponseLinesOk(statusCode, |Encode(body)|);
    HeadEnd(lines, Encode(body));
    Slices(Encode(HeadText(lines)), Encode(body));
    DecodeEncode(HeadText(lines));
    LinesOfHead(lines);
    StatusLine(statusCode, Reason(statusCode));
    ParseDec(statusCode, 65535);
  }

  /**
   Which status a readable request gets: 400 when its body is no envelope, 404 on any path but two,
   and otherwise 200 or 401 as the handler of the path says; with the body that goes with it.
   */
  lemma ReplyStatus(crypto: Crypto, svc: Service, path: string, text: string, t: u64, n: string)
    ensures var reply := ServerReply(crypto, svc, Ok(Request(path, text)), t, n);
            var e := ParseEnvelope(text);
            var known := path == "/v1/keys/get" || path == "/v1/participants/publish";
            reply.Some?
            && (StatusOf(reply.value) == Some(400) <==> e.None?)
            && (StatusOf(reply.value) == Some(404) <==> e.Some? && !known)
            && (StatusOf(reply.value) == Some(200) <==> e.Some? && HandlerOk(crypto, svc, path, e.value, t, n))
            && (StatusOf(reply.value) == Some(401)
            <==> e.Some? && known && !HandlerOk(crypto, svc, path, e.value, t, n))
  {
    hide ParseEnvelope, HandleGetPublicKeyRequest, HandlePublishRequest, ResponseBytes, StatusOf, Encode, Serialize;
    PathsAre();
    StatusArrives(400, "invalid envelope");
    StatusArrives(404, "not found");
    StatusArrives(401, "verification failed");
    if ParseEnvelope(text).Some? {
      var response := Route(crypto, svc, path, ParseEnvelope(text).value, t, n);
      if response.Some? && response.value.Ok? {
        StatusArrives(200, Serialize(response.value.value));
      }
    }
  }

  /** The path has a handler, and it accepts the envelope. */
  predicate HandlerOk(crypto: Crypto, svc: Service, path: string, e: SignedEnvelope, t: u64, n: string) {
    (path == "/v1/keys/get" && HandleGetPublicKeyRequest(crypto, svc, e, t, n).Ok?)
    || (path == "/v1/participants/publish" && HandlePublishRequest(crypto, svc, e, t, n).Ok?)
  }

  /** A refusal says so in its body, and an answer is the text of the handler's envelope. */
  lemma ReplyBody(crypto: Crypto, svc: Service, path: string, text: string, t: u64, n: string)
    ensures var reply := ServerReply(crypto, svc, Ok(Request(path, text)), t, n);
            var e := ParseEnvelope(text);
            reply.Some?
            && ResponseBody(reply.value)
               == Some(if e.None? then "invalid envelope"
                       else if path == "/v1/keys/get" then
                           AnswerText(HandleGetPublicKeyRequest(crypto, svc, e.value, t, n))
                       else if path == "/v1/participants/publish" then
                           AnswerText(HandlePublishRequest(crypto, svc, e.value, t, n))
                       else "not found")
  {
    hide ParseEnvelope, HandleGetPublicKeyRequest, HandlePublishRequest, ResponseBytes, ResponseBody, Encode, Serialize;
    PathsAre();
    forall code: nat, body: string
      ensures ResponseBody(ResponseBytes(code, Encode(body))) == Some(body)
    {
      ResponseArrives(code, body);
    }
  }

  lemma PathsAre()
    ensures PATH_GET_PUBLIC_KEY == "/v1/keys/get" && PATH_PUBLISH_PARTICIPANT == "/v1/participants/publish"
    ensures |"/v1/keys/get"| != |"/v1/participants/publish"|
  {
  }

  function AnswerText(response: Result<SignedEnvelope, TransportError>): string {
    match response
    case Ok(e) => Serialize(e)
    case Err(_) => "verification failed"
  }

  /** Nothing is written back when the request could not be read. */
  lemma NoReply(crypto: Crypto, svc: Service, error: ReadError, t: u64, n: string)
    ensures ServerReply(crypto, svc, Err(error), t, n) == None
  {
  }

  // ---------- a publication end to end ----------

  lemma PublishPath()
    ensures Token("/v1/participants/publish") && WireSafe("/v1/participants/publish") && WireSafe("POST")
    ensures '\n' !in "/v1/participants/publish"
  {
  }

  lemma PublicationSafe(
    crypto: Crypto, svc: Service, senderId: string, t: u64, nanos: nat, p: ParticipantPublishPayload)
    requires WireSafe(svc.sid) && WireSafe(senderId)
    ensures EnvelopeSafe(BuildPublishRequest(crypto, svc, senderId, t, NextNonce(nanos), p))
  {
    hide WireSafe, Encode, PayloadText, NextNonce, EnvelopeSafe, SignEnvelope, PublishEntries;
    PublishPath();
    NonceSafe(nanos);
    SignedSafe(crypto, svc.sid, svc.sidToken, senderId, t, NextNonce(nanos),
               HttpRequest("POST", PATH_PUBLISH_PARTICIPANT), Encode(PayloadText(PublishEntries(p))));
  }

  lemma AcknowledgementSafe(crypto: Crypto, svc: Service, participantId: string, t: u64, nanos: nat)
    requires WireSafe(svc.sid) && WireSafe(svc.participantId)
    ensures EnvelopeSafe(PublishResponse(crypto, svc, participantId, t, NextNonce(nanos)))
  {
    hide WireSafe, Encode, PayloadText, NextNonce, EnvelopeSafe, SignEnvelope;
    PublishPath();
    NonceSafe(nanos);
    SignedSafe(crypto, svc.sid, svc.sidToken, svc.participantId, t, NextNonce(nanos),
               HttpResponse(202, PATH_PUBLISH_PARTICIPANT),
               Encode(PayloadText([Entry("status", "accepted"), Entry("participant_id", participantId)])));
  }

  /**
   A full publication: however the network cuts the posted request, the server answers 200 with an
   envelope that verifies at the client, is a 202 on the publication path, and says `accepted` for
   exactly the published participant.
   */
  lemma FullPublication(
    crypto: Crypto, client: Service, server: Service, p: ParticipantPublishPayload, senderId: string, host: string,
    port: u16,
    t1: u64, nanos1: nat, t2: u64, nanos2: nat, chunks: seq<Bytes>, ending: Ending)
    requires client.sid == server.sid && client.sidToken == server.sidToken
    requires SafePublish(p) && Normalize(p.publicKey).Ok? && '\n' !in host
    requires WireSafe(server.sid) && WireSafe(server.participantId) && WireSafe(senderId)
    requires var text := Serialize(BuildPublishRequest(crypto, client, senderId, t1, NextNonce(nanos1), p));
             Fits(host, port, "/v1/participants/publish", text)
             && Chunks(chunks, PostBytes(host, port, "/v1/participants/publish", text))
    ensures var reply := ServerReply(crypto, server, Outcome(chunks, ending), t2, NextNonce(nanos2));
            reply.Some? && StatusOf(reply.value) == Some(200) && ResponseBody(reply.value).Some?
            && var e := ParseEnvelope(ResponseBody(reply.value).value);
               e.Some? && VerifyEnvelope(crypto, e.value, client.sidToken, client.sid) == Ok(())
               && e.value.context == HttpResponse(202, "/v1/participants/publish")
               && ParsePayload(e.value.body) == Some(map["status" := "accepted", "participant_id" := p.participantId])
  {
    hide *;
    var n1, n2 := NextNonce(nanos1), NextNonce(nanos2);
    var request := BuildPublishRequest(crypto, client, senderId, t1, n1, p);
    var response := PublishResponse(crypto, server, p.participantId, t2, n2);
    PublishPath();
    PathsAre();
    PublishedIdSafe(p);
    PostArrives(host, port, "/v1/participants/publish", Serialize(request), chunks, ending);
    PublicationSafe(crypto, client, senderId, t1, nanos1, p);
    RoundTripIff(request);
    PublishExchange(crypto, client, server, p, senderId, t1, n1, t2, n2);
    PublicationHandled(crypto, server, request, t2, n2, response);
    ReplyStatus(crypto, server, "/v1/participants/publish", Serialize(request), t2, n2);
    ReplyBody(crypto, server, "/v1/participants/publish", Serialize(request), t2, n2);
    AcknowledgementSafe(crypto, server, p.participantId, t2, nanos2);
    RoundTripIff(response);
    AcknowledgementIs(crypto, server, p.participantId, t2, n2);
    AcknowledgementRead(crypto, server, p.participantId, t2, n2);
  }

  lemma PublishedIdSafe(p: ParticipantPublishPayload)
    requires SafePublish(p)
    ensures WireSafe(p.participantId)
  {
  }

  lemma PublicationHandled(
    crypto: Crypto, svc: Service, request: SignedEnvelope, t: u64, n: string, response: SignedEnvelope)
    requires HandlePublishRequest(crypto, svc, request, t, n) == Ok(response)
    ensures HandlerOk(crypto, svc, "/v1/participants/publish", request, t, n)
    ensures AnswerText(HandlePublishRequest(crypto, svc, request, t, n)) == Serialize(response)
  {
    hide HandlePublishRequest, HandleGetPublicKeyRequest, Serialize;
  }

  /** Different instants give different nonces. */
  lemma NonceIs(a: nat, b: nat)
    ensures NextNonce(a) == "n-" + Dec(a) && (NextNonce(a) == NextNonce(b) <==> a == b)
  {
    hide Dec;
    if NextNonce(a) == NextNonce(b) {
      PrefixCancel("n-", Dec(a), Dec(b));
      DecInjective(a, b);
    }
  }
}
