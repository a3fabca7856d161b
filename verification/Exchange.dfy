/** One key fetch end to end: HTTP texts, the server's connection handler, and the client's reading of the reply. */
module Exchange {
  import opened Prelude
  import opened Text
  import opened Utf8
  import opened Http
  import opened Payload
  import opened Auth
  import opened Wire
  import opened SshKeys
  import opened Transport

  // ---------- HTTP texts ----------

  function Header(name: string, value: string): string {
    name + ": " + value
  }

  /** Header lines, each ended by CR LF, and the blank line. */
  function HeadText(lines: seq<string>): string {
    if lines == [] then "\r\n" else lines[0] + "\r" + "\n" + HeadText(lines[1..])
  }

  function PostHead(address: string, port: u16, path: string, length: nat): seq<string> {
    ["POST" + " " + (path + " " + "HTTP/1.1"), Header("Host", address + ":" + Dec(port)),
        Header("Content-Type", "text/plain"),
     Header("Content-Length", Dec(length)), Header("Connection", "close")]
  }

  /** The request the client writes. */
  function PostBytes(address: string, port: u16, path: string, body: string): Bytes {
    Encode(HeadText(PostHead(address, port, path, |Encode(body)|)) + body)
  }

  function Reason(statusCode: nat): string {
    if statusCode == 200 then "OK"
    else if statusCode == 400 then "Bad Request"
    else if statusCode == 401 then "Unauthorized"
    else if statusCode == 404 then "Not Found"
    else "Error"
  }

  function ResponseHead(statusCode: nat, length: nat): seq<string> {
    ["HTTP/1.1 " + Dec(statusCode) + " " + Reason(statusCode), Header("Content-Type", "text/plain"),
     Header("Content-Length", Dec(length)), Header("Connection", "close")]
  }

  /** The response the server writes. */
  function ResponseBytes(statusCode: nat, body: Bytes): Bytes {
    Encode(HeadText(ResponseHead(statusCode, |body|))) + body
  }

  /** What the client keeps of a response: everything after the first blank line. */
  function ResponseBody(response: Bytes): Option<string> {
    match HeaderEnd(response)
    case None => None
    case Some(start) => if start <= |response| then Some(DecodeLossy(response[start..])) else None
  }

  // ---------- the two ends ----------

  /** `handle_http_connection`: the bytes written back, or `None` when reading the request failed. */
  function ServerReply(
    crypto: Crypto, svc: Service, request: Result<Request, ReadError>, timestampSecs: u64, nonce: string)
    : Option<Bytes>
  {
    match request
    case Err(_) => None
    case Ok(Request(path, body)) =>
      match ParseEnvelope(body)
      case None => Some(ResponseBytes(400, Encode("invalid envelope")))
      case Some(e) =>
        match Route(crypto, svc, path, e, timestampSecs, nonce)
        case None => Some(ResponseBytes(404, Encode("not found")))
        case Some(response) => Some(Answer(response))
  }

  /** What the handler of a path says, for the two paths that have one. */
  function Route(crypto: Crypto, svc: Service, path: string, e: SignedEnvelope, timestampSecs: u64, nonce: string)
    : Option<Result<SignedEnvelope, TransportError>>
  {
    if path == PATH_GET_PUBLIC_KEY then Some(HandleGetPublicKeyRequest(crypto, svc, e, timestampSecs, nonce))
    else if path == PATH_PUBLISH_PARTICIPANT then Some(HandlePublishRequest(crypto, svc, e, timestampSecs, nonce))
    else None
  }

  function Answer(response: Result<SignedEnvelope, TransportError>): Bytes {
    match response
    case Ok(e) => ResponseBytes(200, Encode(Serialize(e)))
    case Err(_) => ResponseBytes(401, Encode("verification failed"))
  }

  /** What `request_public_key` makes of a reply text. */
  function ReadReply(crypto: Crypto, svc: Service, text: string): Option<PublicKeyPayload> {
    match ParseEnvelope(text)
    case None => None
    case Some(e) =>
      match VerifyAndParsePublicKeyResponse(crypto, svc, e)
      case Err(_) => None
      case Ok(payload) => Some(payload)
  }

  function ReadResponse(crypto: Crypto, svc: Service, response: Bytes): Option<PublicKeyPayload> {
    match ResponseBody(response)
    case None => None
    case Some(text) => ReadReply(crypto, svc, text)
  }

  /** `next_nonce`. */
  function NextNonce(nanos: nat): string {
    "n-" + Dec(nanos)
  }

  // ---------- heads read back ----------

  /** A header line: not empty, no newline. */
  predicate HeaderLine(l: string) {
    l != "" && '\n' !in l
  }

  predicate HeaderLines(lines: seq<string>) {
    forall i :: 0 <= i < |lines| ==> HeaderLine(lines[i])
  }

  lemma {:induction false} LinesOfHead(lines: seq<string>)
    requires HeaderLines(lines)
    ensures Lines(HeadText(lines)) == lines + [""]
  {
    if lines == [] {
      assert "\r\n" == "\r" + "\n" + "";
      LinesCons("\r", "");
      assert Lines("") == [] && StripCr("\r") == "";
    } else {
      var l, rest := lines[0], lines[1..];
      LinesOfHead(rest);
      CrStripped(l);
      assert HeaderLine(l);
      hide Lines, StripCr;
      LinesCons(l + "\r", HeadText(rest));
      HeadTail(lines);
      Assoc([l], rest, [""]);
    }
  }

  lemma CrStripped(l: string)
    ensures StripCr(l + "\r") == l && ('\n' !in l ==> '\n' !in l + "\r")
  {
    assert (l + "\r")[..|l|] == l;
  }

  lemma OccursMeans(h: Bytes, i: nat)
    ensures OccursAt(h, BLANK_LINE, i)
            <==> i + 4 <= |h| && h[i] == 13 && h[i + 1] == 10 && h[i + 2] == 13 && h[i + 3] == 10
  {
    if i + 4 <= |h| {
      assert h[i..i + 4] == [h[i], h[i + 1], h[i + 2], h[i + 3]];
    }
  }

  /** `b` is a line without newlines, CR LF, and then `r`. */
  ghost predicate LineThen(b: Bytes, n: nat, r: Bytes) {
    |b| == n + 2 + |r| && b[n] == 13 && b[n + 1] == 10
    && (forall k :: 0 <= k < n ==> b[k] != 10) && (forall k :: 0 <= k < |r| ==> r[k] == b[n + 2 + k])
  }

  lemma LineThenOf(l: Bytes, r: Bytes)
    requires 10 !in l
    ensures LineThen(l + [13, 10] + r, |l|, r)
  {
    var b := l + [13, 10] + r;
    assert forall k :: 0 <= k < |l| ==> b[k] == l[k];
  }

  /** Where the first blank line is, seen from one header line. */
  lemma FindAfterLine(b: Bytes, n: nat, r: Bytes, i: nat)
    requires LineThen(b, n, r) && |r| >= 2
    requires if r[0] == 13 && r[1] == 10 then i == n else i >= n + 2 && FirstAt(r, BLANK_LINE, i - n - 2)
    ensures FirstAt(b, BLANK_LINE, i)
  {
    hide OccursAt;
    OccursMeans(b, i);
    if i >= n + 2 {
      OccursMeans(r, i - n - 2);
    }
    assert r[0] == b[n + 2] && r[1] == b[n + 3];
    forall j | 0 <= j < i
      ensures !OccursAt(b, BLANK_LINE, j)
    {
      OccursMeans(b, j);
      if j >= n + 2 {
        OccursMeans(r, j - n - 2);
      }
    }
  }

  lemma EncodeCrLf(l: string, rest: string)
    ensures Encode(l + "\r" + "\n" + rest) == Encode(l) + [13, 10] + Encode(rest)
    ensures Encode("\r\n") == [13, 10]
  {
    assert Encode("\r") == [13] && Encode("\n") == [10] by {
      assert "\r"[1..] == "" && "\n"[1..] == "";
    }
    assert "\r\n" == "\r" + "\n";
    EncodeAppend("\r", "\n");
    EncodeAppend(l + "\r" + "\n", rest);
    EncodeAppend(l + "\r", "\n");
    EncodeAppend(l, "\r");
    hide Encode;
    assert Encode(l) + [13] + [10] == Encode(l) + [13, 10];
  }

  /** A header line does not begin with CR LF. */
  lemma LineStart(l: string, rest: Bytes)
    requires HeaderLine(l)
    ensures var r := Encode(l) + [13, 10] + rest; |r| >= 2 && !(r[0] == 13 && r[1] == 10)
  {
    EncodeAscii(l, '\n');
    var e := Encode(l);
    var r := e + [13, 10] + rest;
    assert |e| >= 1;
    assert forall k :: 0 <= k < |e| ==> r[k] == e[k] && e[k] in e;
    assert r[|e|] == 13;
  }

  lemma LastLine(l: string, rest: Bytes)
    requires HeaderLine(l)
    ensures FirstAt(Encode(l) + [13, 10] + ([13, 10] + rest), BLANK_LINE, |Encode(l)|)
  {
    EncodeAscii(l, '\n');
    hide Encode, FirstAt;
    LineThenOf(Encode(l), [13, 10] + rest);
    FindAfterLine(Encode(l) + [13, 10] + ([13, 10] + rest), |Encode(l)|, [13, 10] + rest, |Encode(l)|);
  }

  lemma InnerLine(l: string, t: Bytes, rest: Bytes, i: nat)
    requires HeaderLine(l) && FirstAt(t + rest, BLANK_LINE, i) && |t| >= 2 && !(t[0] == 13 && t[1] == 10)
    ensures FirstAt(Encode(l) + [13, 10] + (t + rest), BLANK_LINE, |Encode(l)| + 2 + i)
  {
    EncodeAscii(l, '\n');
    hide Encode, FirstAt;
    LineThenOf(Encode(l), t + rest);
    FindAfterLine(Encode(l) + [13, 10] + (t + rest), |Encode(l)|, t + rest, |Encode(l)| + 2 + i);
  }

  /** The first blank line of a message is the one that ends its head. */
  lemma {:induction false} HeadFirst(lines: seq<string>, rest: Bytes)
    requires lines != [] && HeaderLines(lines)
    ensures var h := Encode(HeadText(lines)); |h| >= 4 && FirstAt(h + rest, BLANK_LINE, |h| - 4)
  {
    var l, tail := lines[0], lines[1..];
    assert HeaderLine(l);
    EncodeCrLf(l, HeadText(tail));
    var t := Encode(HeadText(tail));
    Assoc(Encode(l) + [13, 10], t, rest);
    if tail == [] {
      assert HeadText(tail) == "\r\n" && HeadText(lines) == l + "\r" + "\n" + HeadText(tail);
      hide Encode, FirstAt, HeadText;
      LastLine(l, rest);
    } else {
      HeadFirst(tail, rest);
      assert HeadText(lines) == l + "\r" + "\n" + HeadText(tail);
      TailStart(tail);
      hide Encode, FirstAt, HeadText;
      InnerLine(l, t, rest, |t| - 4);
    }
  }

  lemma TailStart(lines: seq<string>)
    requires lines != [] && HeaderLines(lines)
    ensures var t := Encode(HeadText(lines)); |t| >= 2 && !(t[0] == 13 && t[1] == 10)
  {
    assert HeaderLine(lines[0]);
    EncodeCrLf(lines[0], HeadText(lines[1..]));
    hide Encode, HeaderLine;
    LineStart(lines[0], Encode(HeadText(lines[1..])));
  }

  lemma HeadEnd(lines: seq<string>, rest: Bytes)
    requires lines != [] && HeaderLines(lines)
    ensures HeaderEnd(Encode(HeadText(lines)) + rest) == Some(|Encode(HeadText(lines))|)
  {
    HeadFirst(lines, rest);
    hide Encode, HeadText;
    FindUnique(Encode(HeadText(lines)) + rest, BLANK_LINE, |Encode(HeadText(lines))| - 4);
  }

  // ---------- the request head read back ----------

  lemma HeaderSplit(name: string, value: string)
    requires ':' !in name
    ensures SplitOnce(Header(name, value), ':') == Some((name, " " + value))
  {
    Assoc(name, ":", " " + value);
    Assoc(name + ":", " ", value);
    assert Header(name, value) == name + ":" + (" " + value) by {
      assert ": " == ":" + " ";
      Assoc(name, ":", " ");
    }
    SplitOnceAt(name, ':', " " + value);
  }

  lemma HeaderIgnored(length: u64, name: string, value: string)
    requires ':' !in name && |name| != |"Content-Length"|
    ensures AbsorbHeader(length, Header(name, value)) == length
  {
    HeaderSplit(name, value);
    assert |ToLower(name)| != |ToLower("Content-Length")|;
    hide Trim, ParseUint, SplitOnce, ToLower;
  }

  lemma LengthTaken(length: u64, n: u64)
    ensures AbsorbHeader(length, Header("Content-Length", Dec(n))) == n
  {
    assert ':' !in "Content-Length";
    HeaderSplit("Content-Length", Dec(n));
    DecSafe(n);
    ParseDec(n, U64_MAX);
    TrimSpace(Dec(n));
    hide Trim, ParseUint, SplitOnce, ToLower, Dec;
  }

  lemma TrimSpace(s: string)
    requires Trimmed(s)
    ensures Trim(" " + s) == s
  {
    assert AllWs(" ") && AllWs("");
    hide Trim, IsWs, AllWs, Trimmed;
    TrimUnique(" ", s, "");
    AppendNil(" " + s);
  }

  lemma LengthSnoc(lines: seq<string>, line: string)
    ensures ContentLength(lines + [line]) == AbsorbHeader(ContentLength(lines), line)
  {
    assert (lines + [line])[..|lines|] == lines;
  }

  lemma NameFacts()
    ensures ':' !in "Host" && ':' !in "Content-Type" && ':' !in "Connection"
    ensures |"Host"| == 4 && |"Content-Type"| == 12 && |"Connection"| == 10 && |"Content-Length"| == 14
  {
  }

  /** The declared length survives among the other headers, whatever the host is. */
  lemma PostLength(host: string, n: nat)
    requires n <= U64_MAX
    ensures ContentLength([Header("Host", host), Header("Content-Type", "text/plain"),
                           Header("Content-Length", Dec(n)), Header("Connection", "close"), ""]) == n
  {
    NameFacts();
    var h, t, c, k := Header("Host", host), Header("Content-Type", "text/plain"), Header("Content-Length", Dec(n)),
        Header("Connection", "close");
    hide Header, AbsorbHeader, Dec;
    HeaderIgnored(0, "Host", host);
    HeaderIgnored(0, "Content-Type", "text/plain");
    LengthTaken(0, n);
    HeaderIgnored(n, "Connection", "close");
    LengthSnoc([], h);
    LengthSnoc([h], t);
    LengthSnoc([h, t], c);
    LengthSnoc([h, t, c], k);
    LengthSnoc([h, t, c, k], "");
    BlankLineIgnored(n);
    assert [] + [h] == [h];
    assert ContentLength([]) == 0;
    hide ContentLength;
    assert [h] + [t] == [h, t] && [h, t] + [c] == [h, t, c] && [h, t, c] + [k] == [h, t, c, k];
    assert [h, t, c, k] + [""] == [h, t, c, k, ""];
  }

  lemma BlankLineIgnored(n: u64)
    ensures AbsorbHeader(n, "") == n
  {
  }

  lemma RequestLine(path: string)
    requires Token(path)
    ensures SplitWs("POST" + " " + (path + " " + "HTTP/1.1")) == ["POST", path, "HTTP/1.1"]
  {
    hide *;
    RequestTokens();
    SplitWsSpace("POST", path + " " + "HTTP/1.1");
    SplitWsSpace(path, "HTTP/1.1");
    SplitWsOne("HTTP/1.1");
    assert ["POST"] + ([path] + ["HTTP/1.1"]) == ["POST", path, "HTTP/1.1"];
  }

  lemma RequestTokens()
    ensures Token("POST") && Token("HTTP/1.1")
  {
  }

  lemma HeadLinesOk(address: string, port: u16, path: string, n: nat)
    requires '\n' !in address && '\n' !in path
    ensures HeaderLines(PostHead(address, port, path, n))
  {
    hide Dec, Header, HeaderLine;
    DecLine(port);
    DecLine(n);
    RequestLineOk(path);
    HeaderOk("Host", address + ":" + Dec(port));
    HeaderOk("Content-Type", "text/plain");
    HeaderOk("Content-Length", Dec(n));
    HeaderOk("Connection", "close");
  }

  lemma RequestLineOk(path: string)
    requires '\n' !in path
    ensures HeaderLine("POST" + " " + (path + " " + "HTTP/1.1"))
  {
  }

  lemma PostHeadLines(address: string, port: u16, path: string, n: nat)
    ensures var read := PostHead(address, port, path, n) + [""];
            read[0] == "POST" + " " + (path + " " + "HTTP/1.1")
            && read[1..] == [Header("Host", address + ":" + Dec(port)), Header("Content-Type", "text/plain"),
                             Header("Content-Length", Dec(n)), Header("Connection", "close"), ""]
  {
    hide Header, Dec;
  }

  lemma ParseHeadIs(head: Bytes, text: string, lines: seq<string>, path: string, n: nat)
    requires DecodeLossy(head) == text && Lines(text) == lines && lines != []
    requires |SplitWs(lines[0])| >= 2 && SplitWs(lines[0])[1] == path && ContentLength(lines[1..]) == n
    ensures ParseHead(head) == Ok(Head(path, n))
  {
    hide DecodeLossy, Lines, SplitWs, ContentLength;
  }

  /** The server reads the client's path and length back from the request head. */
  lemma PostHeadRead(address: string, port: u16, path: string, n: nat)
    requires '\n' !in address && '\n' !in path && Token(path) && n <= U64_MAX
    ensures ParseHead(Encode(HeadText(PostHead(address, port, path, n)))) == Ok(Head(path, n))
  {
    var lines := PostHead(address, port, path, n);
    hide *;
    HeadLinesOk(address, port, path, n);
    DecodeEncode(HeadText(lines));
    LinesOfHead(lines);
    RequestLine(path);
    PostLength(address + ":" + Dec(port), n);
    PostHeadLines(address, port, path, n);
    ParseHeadIs(Encode(HeadText(lines)), HeadText(lines), lines + [""], path, n);
  }

  // ---------- the exchange ----------

  /** The request is within the reader's limits. */
  predicate Fits(address: string, port: u16, path: string, body: string) {
    var head := |Encode(HeadText(PostHead(address, port, path, |Encode(body)|)))|;
    head <= 65537 && head + |Encode(body)| <= 0xFFFF_FFFF_FFFF_FFFF
  }

  lemma PostParts(address: string, port: u16, path: string, body: string)
    ensures PostBytes(address, port, path, body)
         == Encode(HeadText(PostHead(address, port, path, |Encode(body)|))) + Encode(body)
  {
    EncodeAppend(HeadText(PostHead(address, port, path, |Encode(body)|)), body);
  }

  lemma Slices(a: Bytes, b: Bytes)
    ensures (a + b)[..|a|] == a && (a + b)[|a|..] == b && (a + b)[|a|..|a| + |b|] == b
  {
  }

  lemma WholeRead(s: Bytes, h: nat, path: string, body: string, n: nat, ending: Ending)
    requires HeaderEnd(s) == Some(h) && h + n == |s| && h <= HEADER_LIMIT + 1 && |s| <= U64_MAX
    requires ParseHead(s[..h]) == Ok(Head(path, n)) && DecodeLossy(s[h..h + n]) == body
    ensures ParseWhole(s, ending) == Ok(Request(path, body)) && ChunkSafe(s)
    ensures h <= HEADER_LIMIT + CHUNK
  {
    hide HeaderEnd, ParseHead, DecodeLossy;
  }

  lemma FitsMeans(address: string, port: u16, path: string, body: string)
    requires Fits(address, port, path, body)
    ensures var lines := PostHead(address, port, path, |Encode(body)|);
            lines != [] && |Encode(HeadText(lines))| <= HEADER_LIMIT + 1
            && |Encode(HeadText(lines))| + |Encode(body)| <= U64_MAX
  {
    hide Encode, HeadText;
  }

  lemma ChunksMean(chunks: seq<Bytes>, s: Bytes)
    requires Chunks(chunks, s)
    ensures ChunksOk(chunks) && Flatten(chunks) == s
  {
  }

  /** A posted text arrives as it was sent, however the network cuts it. */
  lemma PostArrives(address: string, port: u16, path: string, body: string, chunks: seq<Bytes>, ending: Ending)
    requires '\n' !in address && '\n' !in path && Token(path) && Fits(address, port, path, body)
    requires Chunks(chunks, PostBytes(address, port, path, body))
    ensures Outcome(chunks, ending) == Ok(Request(path, body))
  {
    hide *;
    FitsMeans(address, port, path, body);
    ChunksMean(chunks, PostBytes(address, port, path, body));
    var n := |Encode(body)|;
    var lines := PostHead(address, port, path, n);
    var head, s := Encode(HeadText(lines)), PostBytes(address, port, path, body);
    HeadLinesOk(address, port, path, n);
    PostParts(address, port, path, body);
    HeadEnd(lines, Encode(body));
    PostHeadRead(address, port, path, n);
    DecodeEncode(body);
    Slices(head, Encode(body));
    WholeRead(s, |head|, path, body, n, ending);
    SafeOutcome(chunks, ending);
  }

  /** The size of a request head. */
  function HeadSize(address: string, port: u16, path: string, n: nat): nat {
    |Encode(HeadText(PostHead(address, port, path, n)))|
  }

  lemma OverflowWhole(s: Bytes, h: nat, path: string, n: u64, ending: Ending)
    requires HeaderEnd(s) == Some(h) && h <= |s| && ParseHead(s[..h]) == Ok(Head(path, n))
    requires h + n > U64_MAX && h <= HEADER_LIMIT + 1
    ensures ChunkSafe(s) && ParseWhole(s, ending) == Err(Panicked) && h <= HEADER_LIMIT + CHUNK
  {
    hide HeaderEnd, ParseHead;
  }

  /** A request that declares more than 64 bits have room for panics the reader, for any body and any chunking. */
  lemma OverflowPanics(
    address: string, port: u16, path: string, n: u64, body: Bytes, chunks: seq<Bytes>, ending: Ending)
    requires '\n' !in address && '\n' !in path && Token(path)
    requires HeadSize(address, port, path, n) <= HEADER_LIMIT + 1 && HeadSize(address, port, path, n) + n > U64_MAX
    requires Chunks(chunks, Encode(HeadText(PostHead(address, port, path, n))) + body)
    ensures Outcome(chunks, ending) == Err(Panicked)
  {
    hide *;
    var lines := PostHead(address, port, path, n);
    var head := Encode(HeadText(lines));
    ChunksMean(chunks, head + body);
    HeadLinesOk(address, port, path, n);
    HeadSizeIs(address, port, path, n);
    HeadEnd(lines, body);
    PostHeadRead(address, port, path, n);
    Slices(head, body);
    OverflowWhole(head + body, |head|, path, n, ending);
    SafeOutcome(chunks, ending);
  }

  lemma HeadSizeIs(address: string, port: u16, path: string, n: nat)
    ensures HeadSize(address, port, path, n) == |Encode(HeadText(PostHead(address, port, path, n)))|
    ensures PostHead(address, port, path, n) != []
  {
    hide Encode, HeadText;
  }

  lemma ResponseLinesOk(statusCode: nat, n: nat)
    ensures HeaderLines(ResponseHead(statusCode, n))
  {
    hide Dec, Header, HeaderLine;
    DecLine(statusCode);
    DecLine(n);
    LineAppend("HTTP/1.1 ", Dec(statusCode));
    ReasonLine(statusCode);
    LineAppend("HTTP/1.1 " + Dec(statusCode), " ");
    LineAppend("HTTP/1.1 " + Dec(statusCode) + " ", Reason(statusCode));
    HeaderOk("Content-Type", "text/plain");
    HeaderOk("Content-Length", Dec(n));
    HeaderOk("Connection", "close");
  }

  lemma DecLine(n: nat)
    ensures '\n' !in Dec(n)
  {
    hide Dec;
  }

  lemma ReasonLine(statusCode: nat)
    ensures '\n' !in Reason(statusCode) && HeaderLine("HTTP/1.1 ")
  {
  }

  lemma LineAppend(a: string, b: string)
    requires HeaderLine(a) && '\n' !in b
    ensures HeaderLine(a + b)
  {
  }

  lemma HeaderOk(name: string, value: string)
    requires '\n' !in name && '\n' !in value
    ensures HeaderLine(Header(name, value))
  {
  }

  /** A response body is what follows the first blank line. */
  lemma ResponseArrives(statusCode: nat, body: string)
    ensures ResponseBody(ResponseBytes(statusCode, Encode(body))) == Some(body)
  {
    var lines := ResponseHead(statusCode, |Encode(body)|);
    ResponseLinesOk(statusCode, |Encode(body)|);
    hide Encode, HeadText, HeaderLines, HeaderEnd, ResponseHead, DecodeLossy;
    HeadEnd(lines, Encode(body));
    DecodeEncode(body);
    Slices(Encode(HeadText(lines)), Encode(body));
  }

  lemma PathFacts()
    ensures Token(PATH_GET_PUBLIC_KEY) && WireSafe(PATH_GET_PUBLIC_KEY) && WireSafe("POST")
    ensures '\n' !in PATH_GET_PUBLIC_KEY
  {
  }

  lemma NonceSafe(nanos: nat)
    ensures WireSafe(NextNonce(nanos))
  {
    var s := NextNonce(nanos);
    var d := Dec(nanos);
    assert IsDigit(d[|d| - 1]);
    assert s[0] == 'n' && s[|s| - 1] == d[|d| - 1];
    assert '\n' !in d;
    hide Dec;
  }

  lemma RequestSafe(crypto: Crypto, svc: Service, senderId: string, t: u64, nanos: nat)
    requires WireSafe(svc.sid) && WireSafe(senderId)
    ensures EnvelopeSafe(BuildGetPublicKeyRequest(crypto, svc, senderId, t, NextNonce(nanos)))
  {
    hide WireSafe, Encode, PayloadText, NextNonce, EnvelopeSafe, SignEnvelope;
    PathFacts();
    NonceSafe(nanos);
    SignedSafe(crypto, svc.sid, svc.sidToken, senderId, t, NextNonce(nanos),
               HttpRequest("POST", PATH_GET_PUBLIC_KEY), Encode(PayloadText([Entry("request", "public_key")])));
  }

  lemma ResponseSafe(crypto: Crypto, svc: Service, t: u64, nanos: nat)
    requires WireSafe(svc.sid) && WireSafe(svc.participantId)
    ensures EnvelopeSafe(KeyResponse(crypto, svc, t, NextNonce(nanos)))
  {
    hide WireSafe, Encode, PayloadText, NextNonce, EnvelopeSafe, SignEnvelope, KeyEntries;
    PathFacts();
    NonceSafe(nanos);
    SignedSafe(crypto, svc.sid, svc.sidToken, svc.participantId, t, NextNonce(nanos),
               HttpResponse(200, PATH_GET_PUBLIC_KEY), Encode(PayloadText(KeyEntries(svc))));
  }

  /**
   A full key fetch is lossless: the client's request, cut up by the network in any way, makes
   the server answer with a response from which the client reads exactly the server's SID, id
   and normalised key.
   */
  lemma FullExchange(
    crypto: Crypto, client: Service, server: Service, peerId: string, host: string, port: u16,
    t1: u64, nanos1: nat, t2: u64, nanos2: nat, chunks: seq<Bytes>, ending: Ending)
    requires client.sid == server.sid && client.sidToken == server.sidToken && IsNormalized(server.publicKey)
    requires WireSafe(server.sid) && WireSafe(server.participantId) && WireSafe(peerId) && '\n' !in host
    requires var text := Serialize(BuildGetPublicKeyRequest(crypto, client, peerId, t1, NextNonce(nanos1)));
             Fits(host, port, PATH_GET_PUBLIC_KEY, text)
                 && Chunks(chunks, PostBytes(host, port, PATH_GET_PUBLIC_KEY, text))
    ensures var reply := ServerReply(crypto, server, Outcome(chunks, ending), t2, NextNonce(nanos2));
            reply.Some?
            && ReadResponse(crypto, client, reply.value)
               == Some(PublicKeyPayload(server.sid, server.participantId, server.publicKey))
  {
    hide WireSafe, NextNonce, BuildGetPublicKeyRequest, KeyResponse, HandleGetPublicKeyRequest,
         VerifyAndParsePublicKeyResponse, Outcome, Fits, Chunks, PostBytes, ResponseBytes, ResponseBody,
         Serialize, ParseEnvelope, EnvelopeSafe, Encode, Normalize;
    var n1, n2 := NextNonce(nanos1), NextNonce(nanos2);
    var request, response :=
        BuildGetPublicKeyRequest(crypto, client, peerId, t1, n1), KeyResponse(crypto, server, t2, n2);
    PathFacts();
    PostArrives(host, port, PATH_GET_PUBLIC_KEY, Serialize(request), chunks, ending);
    RequestSafe(crypto, client, peerId, t1, nanos1);
    RoundTripIff(request);
    RequestAnswered(crypto, client, server, peerId, t1, n1, t2, n2);
    ResponseArrives(200, Serialize(response));
    ResponseSafe(crypto, server, t2, nanos2);
    RoundTripIff(response);
    AnswerReadIff(crypto, client, server, t2, n2);
  }
}
