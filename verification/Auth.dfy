/**
 Signed envelopes. HMAC-SHA256 (RFC 2104) and SHA-256 are functions the model knows nothing
 about; they are carried by a `Crypto` value.
 */
module Auth {
  import opened Prelude
  import opened Text
  import opened Utf8
  import opened Hex

  datatype Crypto = Crypto(hmac: (Bytes, Bytes) -> Bytes, sha256: Bytes -> Bytes)

  datatype MessageContext =
    | HttpRequest(verb: string, path: string)
    | HttpResponse(statusCode: u16, path: string)
    | UdpAnnouncement

  datatype SignedEnvelope = SignedEnvelope(
    sid: string,
    senderId: string,
    timestampSecs: u64,
    nonce: string,
    context: MessageContext,
    body: Bytes,
    signatureHex: string)

  datatype AuthError =
    SidMismatch | InvalidSignatureEncoding | InvalidSignature | TimestampOutsideWindow | ReplayNonce

  function CanonicalContext(context: MessageContext): string {
    match context
    case HttpRequest(verb, path) => "http_request:" + (ToUpper(verb) + ":" + path)
    case HttpResponse(statusCode, path) => "http_response:" + (Dec(statusCode) + ":" + path)
    case UdpAnnouncement => "udp_announcement"
  }

  function CanonicalPayload(
    crypto: Crypto, sid: string, senderId: string, timestampSecs: u64, nonce: string,
    context: MessageContext, body: Bytes): string
  {
    var bodyHash := HexEncode(crypto.sha256(body));
    sid + "\n" + (senderId + "\n"
        + (Dec(timestampSecs) + "\n" + (nonce + "\n" + (CanonicalContext(context) + "\n" + bodyHash))))
  }

  /** The string an envelope's signature covers. */
  function Canonical(crypto: Crypto, e: SignedEnvelope): string {
    CanonicalPayload(crypto, e.sid, e.senderId, e.timestampSecs, e.nonce, e.context, e.body)
  }

  function Mac(crypto: Crypto, sidToken: string, payload: string): Bytes {
    crypto.hmac(Encode(sidToken), Encode(payload))
  }

  function SignEnvelope(
    crypto: Crypto, sid: string, sidToken: string, senderId: string, timestampSecs: u64, nonce: string,
    context: MessageContext, body: Bytes): SignedEnvelope
  {
    var canonical := CanonicalPayload(crypto, sid, senderId, timestampSecs, nonce, context, body);
    var signatureHex := HexEncode(Mac(crypto, sidToken, canonical));
    SignedEnvelope(sid, senderId, timestampSecs, nonce, context, body, signatureHex)
  }

  function VerifyEnvelope(crypto: Crypto, e: SignedEnvelope, sidToken: string, expectedSid: string)
    : Result<(), AuthError>
  {
    if e.sid != expectedSid then Err(SidMismatch)
    else
      match HexDecode(e.signatureHex)
      case None => Err(InvalidSignatureEncoding)
      case Some(signature) =>
        if signature == Mac(crypto, sidToken, Canonical(crypto, e)) then Ok(()) else Err(InvalidSignature)
  }

  /** What is signed under a SID and token verifies under them. */
  lemma SignedVerifies(
    crypto: Crypto, sid: string, sidToken: string, senderId: string, timestampSecs: u64, nonce: string,
    context: MessageContext, body: Bytes)
    ensures VerifyEnvelope(crypto, SignEnvelope(crypto, sid, sidToken, senderId, timestampSecs, nonce, context, body),
            sidToken, sid) == Ok(())
  {
    var canonical := CanonicalPayload(crypto, sid, senderId, timestampSecs, nonce, context, body);
    DecodeOfEncode(Mac(crypto, sidToken, canonical));
    hide HexDecode, HexEncode, CanonicalPayload, Mac;
  }

  /**
   What acceptance means: the SID is the expected one and the signature is the HMAC, under the token,
   of the canonical string. Every other message is refused, for the first of three reasons.
   */
  lemma VerifyIff(crypto: Crypto, e: SignedEnvelope, sidToken: string, expectedSid: string)
    ensures var mac := crypto.hmac(Encode(sidToken), Encode(Canonical(crypto, e)));
            var signature := HexDecode(e.signatureHex);
            VerifyEnvelope(crypto, e, sidToken, expectedSid)
            == (if e.sid != expectedSid then Err(SidMismatch)
                else if signature.None? then Err(InvalidSignatureEncoding)
                else if signature.value != mac then Err(InvalidSignature)
                else Ok(()))
  {
    hide HexDecode, Canonical, Encode;
  }

  /** A signed message with another body passes exactly when the two MACs are equal. */
  lemma TamperedIff(
    crypto: Crypto, sid: string, sidToken: string, senderId: string, timestampSecs: u64, nonce: string,
    context: MessageContext, body: Bytes, other: Bytes)
    ensures var e := SignEnvelope(crypto, sid, sidToken, senderId, timestampSecs, nonce, context, body);
            var forged := e.(body := other);
            var macs := crypto.hmac(Encode(sidToken), Encode(Canonical(crypto, e)))
                        == crypto.hmac(Encode(sidToken), Encode(Canonical(crypto, forged)));
            VerifyEnvelope(crypto, forged, sidToken, sid) == if macs then Ok(()) else Err(InvalidSignature)
  {
    var canonical := CanonicalPayload(crypto, sid, senderId, timestampSecs, nonce, context, body);
    DecodeOfEncode(Mac(crypto, sidToken, canonical));
    hide HexDecode, HexEncode, CanonicalPayload, Encode;
  }

  /** The canonical string has six lines; the last two are the context and the hash of the body in hex. */
  lemma CanonicalIs(crypto: Crypto, e: SignedEnvelope)
    ensures var hash := HexEncode(crypto.sha256(e.body));
            var head := e.sid + "\n" + (e.senderId + "\n" + (Dec(e.timestampSecs) + "\n" + (e.nonce + "\n")));
            Canonical(crypto, e)
            == match e.context
               case HttpRequest(verb, path) => head + ("http_request:" + ToUpper(verb) + ":" + path + "\n" + hash)
               case HttpResponse(statusCode, path) =>
                 head + ("http_response:" + Dec(statusCode) + ":" + path + "\n" + hash)
               case UdpAnnouncement => head + ("udp_announcement" + "\n" + hash)
  {
    hide ToUpper, Dec, HexEncode;
    var hash := HexEncode(crypto.sha256(e.body));
    var t := Dec(e.timestampSecs);
    var c := CanonicalContext(e.context);
    assert c + "\n" + hash == match e.context
                              case HttpRequest(verb, path) => "http_request:" + ToUpper(verb) + ":" + path + "\n" + hash
                              case HttpResponse(code, path) => "http_response:" + Dec(code) + ":" + path + "\n" + hash
                              case UdpAnnouncement => "udp_announcement" + "\n" + hash;
    SixParts(e.sid, e.senderId, t, e.nonce, c + "\n" + hash);
    Assoc(c, "\n", hash);
  }

  lemma SixParts(a: string, b: string, c: string, d: string, rest: string)
    ensures a + "\n" + (b + "\n" + (c + "\n" + (d + "\n" + rest)))
            == (a + "\n" + (b + "\n" + (c + "\n" + (d + "\n")))) + rest
  {
    Assoc(d, "\n", rest);
  }

  // ---------- the canonical string determines the message ----------

  predicate ContextLineFree(c: MessageContext) {
    match c
    case HttpRequest(verb, path) => '\n' !in verb && '\n' !in path
    case HttpResponse(_, path) => '\n' !in path
    case UdpAnnouncement => true
  }

  /** No text field contains a newline, as for every envelope read off the wire. */
  predicate LineFree(e: SignedEnvelope) {
    '\n' !in e.sid && '\n' !in e.senderId && '\n' !in e.nonce && ContextLineFree(e.context)
  }

  lemma UpperKeepsNonLetters(s: string, c: char)
    requires !('a' <= c <= 'z') && !('A' <= c <= 'Z')
    ensures c in ToUpper(s) <==> c in s
  {
    assert forall i :: 0 <= i < |s| ==> ToUpper(s)[i] == UpperChar(s[i]);
    if c in s {
      var i :| 0 <= i < |s| && s[i] == c;
      assert ToUpper(s)[i] == c;
    }
  }

  lemma HexClean(b: Bytes, c: char)
    requires Nibble(c).None?
    ensures c !in HexEncode(b)
  {
    DecodeOfEncode(b);
    DecodesIff(HexEncode(b));
  }

  lemma ContextNewlines(c: MessageContext)
    ensures '\n' in CanonicalContext(c) <==> !ContextLineFree(c)
  {
    match c
    case HttpRequest(verb, path) =>
      UpperKeepsNonLetters(verb, '\n');
    case HttpResponse(statusCode, path) =>
      assert AllDigits(Dec(statusCode));
    case UdpAnnouncement =>
  }

  lemma NewlinesCons(a: string, r: string)
    ensures Newlines(a + "\n" + r) == Newlines(a) + 1 + Newlines(r)
  {
    assert Newlines("\n") == 1;
    hide Newlines;
    NewlinesAppend(a + "\n", r);
    NewlinesAppend(a, "\n");
  }

  /** The canonical string has five newlines exactly when the fields have none. */
  lemma CanonicalNewlines(crypto: Crypto, e: SignedEnvelope)
    ensures Newlines(Canonical(crypto, e)) >= 5
    ensures Newlines(Canonical(crypto, e)) == 5 <==> LineFree(e)
  {
    var h, c, d := HexEncode(crypto.sha256(e.body)), CanonicalContext(e.context), Dec(e.timestampSecs);
    HexClean(crypto.sha256(e.body), '\n');
    ContextNewlines(e.context);
    assert '\n' !in d;
    hide Newlines, Dec, HexEncode, CanonicalContext, ContextLineFree;
    NewlinesCons(e.sid, e.senderId + "\n" + (d + "\n" + (e.nonce + "\n" + (c + "\n" + h))));
    NewlinesCons(e.senderId, d + "\n" + (e.nonce + "\n" + (c + "\n" + h)));
    NewlinesCons(d, e.nonce + "\n" + (c + "\n" + h));
    NewlinesCons(e.nonce, c + "\n" + h);
    NewlinesCons(c, h);
    NewlinesAppend(e.sid, "");
    NewlinesAppend(e.senderId, "");
    NewlinesAppend(d, "");
    NewlinesAppend(e.nonce, "");
    NewlinesAppend(c, "");
    NewlinesAppend(h, "");
  }

  lemma HexInjective(a: Bytes, b: Bytes)
    requires HexEncode(a) == HexEncode(b)
    ensures a == b
  {
    DecodeOfEncode(a);
    DecodeOfEncode(b);
  }

  /**
   Equal canonical strings mean equal fields, as soon as one of the two envelopes is free of
   newlines; the other one then is as well.
   */
  lemma CanonicalInjective(crypto: Crypto, a: SignedEnvelope, b: SignedEnvelope)
    requires Canonical(crypto, a) == Canonical(crypto, b) && LineFree(a)
    ensures LineFree(b)
    ensures a.sid == b.sid && a.senderId == b.senderId && a.timestampSecs == b.timestampSecs && a.nonce == b.nonce
    ensures CanonicalContext(a.context) == CanonicalContext(b.context)
    ensures crypto.sha256(a.body) == crypto.sha256(b.body)
  {
    CanonicalNewlines(crypto, a);
    CanonicalNewlines(crypto, b);
    ContextNewlines(a.context);
    ContextNewlines(b.context);
    var h, c, d := HexEncode(crypto.sha256(a.body)), CanonicalContext(a.context), Dec(a.timestampSecs);
    var h', c', d' := HexEncode(crypto.sha256(b.body)), CanonicalContext(b.context), Dec(b.timestampSecs);
    assert '\n' !in d && '\n' !in d';
    hide HexEncode, CanonicalContext, Dec, Newlines, ContextLineFree;
    Peel(a.sid, a.senderId + "\n" + (d + "\n" + (a.nonce + "\n" + (c + "\n" + h))), '\n', b.sid,
        b.senderId + "\n" + (d' + "\n" + (b.nonce + "\n" + (c' + "\n" + h'))));
    Peel(a.senderId, d + "\n" + (a.nonce + "\n" + (c + "\n" + h)), '\n', b.senderId,
        d' + "\n" + (b.nonce + "\n" + (c' + "\n" + h')));
    Peel(d, a.nonce + "\n" + (c + "\n" + h), '\n', d', b.nonce + "\n" + (c' + "\n" + h'));
    Peel(a.nonce, c + "\n" + h, '\n', b.nonce, c' + "\n" + h');
    Peel(c, h, '\n', c', h');
    DecInjective(a.timestampSecs, b.timestampSecs);
    HexInjective(crypto.sha256(a.body), crypto.sha256(b.body));
  }

  /** Contexts equal up to ASCII case of the method. */
  predicate SameContext(c: MessageContext, d: MessageContext) {
    match c
    case HttpRequest(verb, path) => d.HttpRequest? && ToUpper(verb) == ToUpper(d.verb) && path == d.path
    case _ => c == d
  }

  /** A method of ASCII characters, on which the modelled and the Unicode upper case agree. */
  predicate AsciiMethod(c: MessageContext) {
    c.HttpRequest? ==> forall i :: 0 <= i < |c.verb| ==> c.verb[i] as int < 0x80
  }

  predicate PlainMethod(c: MessageContext) {
    AsciiMethod(c) && (c.HttpRequest? ==> ':' !in c.verb)
  }

  /** Request, response and announcement contexts never coincide. */
  lemma ContextKinds(c: MessageContext, d: MessageContext)
    requires CanonicalContext(c) == CanonicalContext(d)
    ensures c.HttpRequest? == d.HttpRequest? && c.HttpResponse? == d.HttpResponse?
  {
    ContextHead(c);
    ContextHead(d);
  }

  lemma ContextHead(c: MessageContext)
    ensures var s := CanonicalContext(c);
            |s| > 7 && (s[0] == 'u' <==> c.UdpAnnouncement?) && (s[0] == 'h' && s[7] == 'q' <==> c.HttpRequest?)
  {
    assert "http_request:"[7] == 'q' && "http_response:"[7] == 's' && "udp_announcement"[0] == 'u';
  }

  /** Canonical contexts agree exactly on contexts that agree up to case, for `:`-free ASCII methods. */
  lemma ContextInjective(c: MessageContext, d: MessageContext)
    requires PlainMethod(c) && PlainMethod(d)
    ensures CanonicalContext(c) == CanonicalContext(d) <==> SameContext(c, d)
  {
    if CanonicalContext(c) == CanonicalContext(d) {
      ContextKinds(c, d);
      match c
      case HttpRequest(m, p) =>
        UpperKeepsNonLetters(m, ':');
        UpperKeepsNonLetters(d.verb, ':');
        PrefixCancel("http_request:", ToUpper(m) + ":" + p, ToUpper(d.verb) + ":" + d.path);
        hide ToUpper;
        Peel(ToUpper(m), p, ':', ToUpper(d.verb), d.path);
      case HttpResponse(s, p) =>
        assert ':' !in Dec(s) && ':' !in Dec(d.statusCode);
        PrefixCancel("http_response:", Dec(s) + ":" + p, Dec(d.statusCode) + ":" + d.path);
        hide Dec;
        Peel(Dec(s), p, ':', Dec(d.statusCode), d.path);
        DecInjective(s, d.statusCode);
      case UdpAnnouncement =>
    }
  }

  lemma PrefixCancel(p: string, a: string, b: string)
    requires p + a == p + b
    ensures a == b
  {
    assert (p + a)[|p|..] == a && (p + b)[|p|..] == b;
  }

  /** The injectivity law for envelopes read off the wire. */
  lemma CanonicalIff(crypto: Crypto, a: SignedEnvelope, b: SignedEnvelope)
    requires LineFree(a) && LineFree(b) && PlainMethod(a.context) && PlainMethod(b.context)
    ensures Canonical(crypto, a) == Canonical(crypto, b)
       <==> a.sid == b.sid && a.senderId == b.senderId && a.timestampSecs == b.timestampSecs && a.nonce == b.nonce
            && SameContext(a.context, b.context) && crypto.sha256(a.body) == crypto.sha256(b.body)
  {
    ContextInjective(a.context, b.context);
    if Canonical(crypto, a) == Canonical(crypto, b) {
      CanonicalInjective(crypto, a, b);
    }
  }

  lemma UpperAppend(a: string, b: string)
    ensures ToUpper(a + b) == ToUpper(a) + ToUpper(b)
  {
  }

  /** Every request whose method holds a `:` shares its canonical context with a different, colon-free one. */
  lemma ColonTwin(c: MessageContext) returns (d: MessageContext)
    requires c.HttpRequest? && ':' in c.verb
    ensures d.HttpRequest? && ':' !in d.verb && (AsciiMethod(c) ==> PlainMethod(d))
    ensures CanonicalContext(c) == CanonicalContext(d) && !SameContext(c, d)
  {
    hide ToUpper, SplitOnce;
    var (a, b) := SplitOnce(c.verb, ':').value;
    d := HttpRequest(a, ToUpper(b) + ":" + c.path);
    assert c.verb == a + ":" + b;
    ColonUpper(a, b);
    ColonShift(ToUpper(a), ToUpper(b), c.path);
    assert |d.path| > |c.path|;
    assert forall i :: 0 <= i < |a| ==> a[i] == c.verb[i];
  }

  lemma ColonUpper(a: string, b: string)
    ensures ToUpper(a + ":" + b) == ToUpper(a) + ":" + ToUpper(b)
  {
    UpperAppend(a + ":", b);
    UpperAppend(a, ":");
    assert ToUpper(":") == ":";
  }

  lemma ColonShift(u: string, v: string, path: string)
    ensures (u + ":" + v) + ":" + path == u + ":" + (v + ":" + path)
  {
  }

  /** Among ASCII methods, a canonical context determines its request exactly when the method has no `:`. */
  lemma ColonIff(c: MessageContext)
    requires AsciiMethod(c)
    ensures PlainMethod(c)
            <==> forall d :: PlainMethod(d) && CanonicalContext(c) == CanonicalContext(d) ==> SameContext(c, d)
  {
    hide CanonicalContext, SameContext;
    if PlainMethod(c) {
      forall d | PlainMethod(d) && CanonicalContext(c) == CanonicalContext(d)
        ensures SameContext(c, d)
      {
        ContextInjective(c, d);
      }
    } else {
      var d := ColonTwin(c);
    }
  }
}
