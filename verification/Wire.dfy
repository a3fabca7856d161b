/** The text form of a signed envelope, as sent in HTTP bodies and UDP datagrams. */
module Wire {
  import opened Prelude
  import opened Text
  import opened Hex
  import opened Payload
  import opened Auth

  function ContextEntries(c: MessageContext): seq<Entry> {
    match c
    case HttpRequest(verb, path) => [Entry("context", "http_request"), Entry("method", verb), Entry("path", path)]
    case HttpResponse(statusCode, path) =>
      [Entry("context", "http_response"), Entry("status_code", Dec(statusCode)), Entry("path", path)]
    case UdpAnnouncement => [Entry("context", "udp_announcement")]
  }

  function HeadEntries(e: SignedEnvelope): seq<Entry> {
    [Entry("sid", e.sid), Entry("sender_id", e.senderId), Entry("timestamp_secs", Dec(e.timestampSecs)),
     Entry("nonce", e.nonce), Entry("signature_hex", e.signatureHex)]
  }

  function EnvelopeEntries(e: SignedEnvelope): seq<Entry> {
    HeadEntries(e) + ContextEntries(e.context) + [Entry("body_hex", HexEncode(e.body))]
  }

  function Serialize(e: SignedEnvelope): string {
    PayloadText(EnvelopeEntries(e))
  }

  method PushField(output: string, ghost before: seq<Entry>, key: string, value: string)
    returns (out: string, ghost after: seq<Entry>)
    requires output == PayloadText(before)
    ensures out == PayloadText(before + [Entry(key, value)])
    ensures after == before + [Entry(key, value)]
  {
    out := output + (key + "=");
    out := out + value;
    out := out + "\n";
    after := before + [Entry(key, value)];
    PayloadTextSnoc(before, Entry(key, value));
    assert out == output + (key + "=" + value + "\n");
  }

  method SerializeEnvelope(e: SignedEnvelope) returns (out: string)
    ensures out == Serialize(e)
  {
    hide PayloadText, Dec, HexEncode;
    EmptyText();
    ghost var done: seq<Entry> := [];
    out := "";
    out, done := PushField(out, done, "sid", e.sid);
    out, done := PushField(out, done, "sender_id", e.senderId);
    out, done := PushField(out, done, "timestamp_secs", Dec(e.timestampSecs));
    out, done := PushField(out, done, "nonce", e.nonce);
    out, done := PushField(out, done, "signature_hex", e.signatureHex);
    assert done == HeadEntries(e);
    match e.context {
      case HttpRequest(verb, path) =>
        out, done := PushField(out, done, "context", "http_request");
        out, done := PushField(out, done, "method", verb);
        out, done := PushField(out, done, "path", path);
      case HttpResponse(statusCode, path) =>
        out, done := PushField(out, done, "context", "http_response");
        out, done := PushField(out, done, "status_code", Dec(statusCode));
        out, done := PushField(out, done, "path", path);
      case UdpAnnouncement =>
        out, done := PushField(out, done, "context", "udp_announcement");
    }
    assert done == HeadEntries(e) + ContextEntries(e.context);
    var bodyHex := EncodeHex(e.body);
    out, done := PushField(out, done, "body_hex", bodyHex);
  }

  lemma EmptyText()
    ensures PayloadText([]) == ""
  {
  }

  // ---------- reading ----------

  function Get(m: map<string, string>, key: string): Option<string> {
    if key in m then Some(m[key]) else None
  }

  function ContextOf(values: map<string, string>): Option<MessageContext> {
    var kind :- Get(values, "context");
    if kind == "http_request" then
      var verb :- Get(values, "method");
      var path :- Get(values, "path");
      Some(HttpRequest(verb, path))
    else if kind == "http_response" then
      var code :- Get(values, "status_code");
      var statusCode :- ParseUint(code, U16_MAX);
      var path :- Get(values, "path");
      Some(HttpResponse(statusCode, path))
    else if kind == "udp_announcement" then Some(UdpAnnouncement)
    else None
  }

  /** The fields read before the context. */
  datatype EnvelopeHead = EnvelopeHead(sid: string, senderId: string, timestampSecs: u64, nonce: string,
      signatureHex: string)

  function HeadOf(values: map<string, string>): Option<EnvelopeHead> {
    var sid :- Get(values, "sid");
    var senderId :- Get(values, "sender_id");
    var timestamp :- Get(values, "timestamp_secs");
    var timestampSecs :- ParseUint(timestamp, U64_MAX);
    var nonce :- Get(values, "nonce");
    var signatureHex :- Get(values, "signature_hex");
    Some(EnvelopeHead(sid, senderId, timestampSecs, nonce, signatureHex))
  }

  function EnvelopeOf(values: map<string, string>): Option<SignedEnvelope> {
    var head :- HeadOf(values);
    var context :- ContextOf(values);
    var bodyHex :- Get(values, "body_hex");
    var body :- HexDecode(bodyHex);
    Some(SignedEnvelope(head.sid, head.senderId, head.timestampSecs, head.nonce, context, body, head.signatureHex))
  }

  /** Lines without `=` are skipped; `None` is the one parse error. */
  function ParseEnvelope(text: string): Option<SignedEnvelope> {
    EnvelopeOf(KvMap(Lines(text)))
  }

  /** Take a value out of the map, as `remove` does. */
  method Take(values: map<string, string>, key: string) returns (value: Option<string>, rest: map<string, string>)
    ensures value == Get(values, key) && rest == values - {key}
  {
    value := Get(values, key);
    rest := values - {key};
  }

  lemma KeyLengths()
    ensures |"sid"| == 3 && |"path"| == 4 && |"nonce"| == 5 && |"method"| == 6 && |"context"| == 7 && |"body_hex"| == 8
    ensures |"sender_id"| == 9 && |"status_code"| == 11 && |"signature_hex"| == 13 && |"timestamp_secs"| == 14
    ensures |"http_request"| == 12 && |"http_response"| == 13 && |"udp_announcement"| == 16
  {
  }

  method ReadContext(values: map<string, string>) returns (r: Option<MessageContext>, rest: map<string, string>)
    ensures r == ContextOf(values)
    ensures r.Some? ==> Get(rest, "body_hex") == Get(values, "body_hex")
  {
    hide ParseUint;
    KeyLengths();
    var kind, verb, path, code: Option<string>;
    kind, rest := Take(values, "context");
    if kind.None? {
      return None, rest;
    }
    if kind.value == "http_request" {
      verb, rest := Take(rest, "method");
      if verb.None? {
        return None, rest;
      }
      path, rest := Take(rest, "path");
      if path.None? {
        return None, rest;
      }
      return Some(HttpRequest(verb.value, path.value)), rest;
    } else if kind.value == "http_response" {
      code, rest := Take(rest, "status_code");
      if code.None? {
        return None, rest;
      }
      var statusCode := ParseUint(code.value, U16_MAX);
      if statusCode.None? {
        return None, rest;
      }
      path, rest := Take(rest, "path");
      if path.None? {
        return None, rest;
      }
      return Some(HttpResponse(statusCode.value, path.value)), rest;
    } else if kind.value == "udp_announcement" {
      return Some(UdpAnnouncement), rest;
    }
    return None, rest;
  }

  method ReadEnvelope(text: string) returns (r: Option<SignedEnvelope>)
    ensures r == ParseEnvelope(text)
  {
    hide Lines, Trim, SplitOnce, ParseUint, HexDecode, ContextOf, KvMap;
    var lines := Lines(text);
    var values: map<string, string> := map[];
    assert KvMap([]) == map[] by {
      EmptyMap();
    }
    for i := 0 to |lines|
      invariant values == KvMap(lines[..i])
    {
      assert lines[..i + 1] == lines[..i] + [lines[i]];
      KvMapSnoc(lines[..i], lines[i]);
      var split := SplitOnce(lines[i], '=');
      if split.Some? {
        values := values[Trim(split.value.0) := Trim(split.value.1)];
      }
    }
    assert lines[..|lines|] == lines;
    r := DrainEnvelope(values);
  }

  lemma EmptyMap()
    ensures KvMap([]) == map[]
  {
  }

  /** Agreement on the keys read after the head. */
  predicate SameTail(m: map<string, string>, n: map<string, string>) {
    Get(m, "context") == Get(n, "context") && Get(m, "method") == Get(n, "method") && Get(m, "path") == Get(n, "path")
    && Get(m, "status_code") == Get(n, "status_code") && Get(m, "body_hex") == Get(n, "body_hex")
  }

  lemma TailKept(m: map<string, string>, key: string)
    requires |key| in {3, 5, 9, 13, 14}
    ensures SameTail(m - {key}, m)
  {
    KeyLengths();
  }

  lemma ContextAfter(values: map<string, string>, rest: map<string, string>)
    requires SameTail(rest, values)
    ensures ContextOf(rest) == ContextOf(values)
  {
    hide ParseUint;
  }

  method DrainHead(values: map<string, string>) returns (r: Option<EnvelopeHead>, rest: map<string, string>)
    ensures r == HeadOf(values)
    ensures r.Some? ==> SameTail(rest, values)
  {
    hide ParseUint, SameTail;
    KeyLengths();
    var sid, senderId, timestamp, nonce, signatureHex: Option<string>;
    sid, rest := Take(values, "sid");
    if sid.None? {
      return None, rest;
    }
    TailKept(values, "sid");
    TailKept(rest, "sender_id");
    senderId, rest := Take(rest, "sender_id");
    if senderId.None? {
      return None, rest;
    }
    TailKept(rest, "timestamp_secs");
    timestamp, rest := Take(rest, "timestamp_secs");
    if timestamp.None? {
      return None, rest;
    }
    var timestampSecs := ParseUint(timestamp.value, U64_MAX);
    if timestampSecs.None? {
      return None, rest;
    }
    TailKept(rest, "nonce");
    nonce, rest := Take(rest, "nonce");
    if nonce.None? {
      return None, rest;
    }
    TailKept(rest, "signature_hex");
    signatureHex, rest := Take(rest, "signature_hex");
    if signatureHex.None? {
      return None, rest;
    }
    TailChain();
    return Some(EnvelopeHead(sid.value, senderId.value, timestampSecs.value, nonce.value, signatureHex.value)), rest;
  }

  lemma TailChain()
    ensures forall a, b, c :: SameTail(a, b) && SameTail(b, c) ==> SameTail(a, c)
  {
  }

  method DrainEnvelope(values: map<string, string>) returns (r: Option<SignedEnvelope>)
    ensures r == EnvelopeOf(values)
  {
    hide HexDecode, ContextOf, HeadOf;
    var head, rest := DrainHead(values);
    if head.None? {
      return None;
    }
    ContextAfter(values, rest);
    var context, bodyHex;
    context, rest := ReadContext(rest);
    if context.None? {
      return None;
    }
    bodyHex, rest := Take(rest, "body_hex");
    if bodyHex.None? {
      return None;
    }
    var body := FromHex(bodyHex.value);
    if body.None? {
      return None;
    }
    var h := head.value;
    return Some(SignedEnvelope(
      h.sid, h.senderId, h.timestampSecs, h.nonce, context.value, body.value, h.signatureHex));
  }

  // ---------- round trip ----------

  predicate ContextSafe(c: MessageContext) {
    match c
    case HttpRequest(verb, path) => WireSafe(verb) && WireSafe(path)
    case HttpResponse(_, path) => WireSafe(path)
    case UdpAnnouncement => true
  }

  /** Every text field is trimmed and free of newlines. */
  predicate EnvelopeSafe(e: SignedEnvelope) {
    WireSafe(e.sid) && WireSafe(e.senderId) && WireSafe(e.nonce) && WireSafe(e.signatureHex) && ContextSafe(e.context)
  }

  lemma {:induction false} Lookup(entries: seq<Entry>, i: nat)
    requires i < |entries| && forall j :: i < j < |entries| ==> entries[j].key != entries[i].key
    ensures Get(EntriesMap(entries), entries[i].key) == Some(entries[i].value)
  {
    var n := |entries| - 1;
    if i < n {
      assert forall j :: 0 <= j < n ==> entries[..n][j] == entries[j];
      Lookup(entries[..n], i);
    }
  }

  predicate Distinct(entries: seq<Entry>) {
    forall i, j :: 0 <= i < j < |entries| ==> entries[i].key != entries[j].key
  }

  lemma EntriesDistinct(e: SignedEnvelope)
    ensures Distinct(EnvelopeEntries(e))
  {
    hide Dec, HexEncode;
    KeyLengths();
  }

  lemma ContextRead(m: map<string, string>, c: MessageContext)
    requires forall i :: 0 <= i < |ContextEntries(c)| ==>
             Get(m, ContextEntries(c)[i].key) == Some(ContextEntries(c)[i].value)
    ensures ContextOf(m) == Some(c)
  {
    KeyLengths();
    var es := ContextEntries(c);
    match c
    case HttpRequest(verb, path) =>
      assert es[0].key == "context" && es[1].key == "method" && es[2].key == "path";
    case HttpResponse(statusCode, path) =>
      assert es[0].key == "context" && es[1].key == "status_code" && es[2].key == "path";
      ParseDec(statusCode, U16_MAX);
      hide Dec, ParseUint;
    case UdpAnnouncement =>
      assert es[0].key == "context";
  }

  /** The entries of an envelope determine it. */
  lemma EntriesRead(e: SignedEnvelope)
    ensures EnvelopeOf(EntriesMap(EnvelopeEntries(e))) == Some(e)
  {
    var es := EnvelopeEntries(e);
    var m := EntriesMap(es);
    ParseDec(e.timestampSecs, U64_MAX);
    DecodeOfEncode(e.body);
    EntriesDistinct(e);
    hide Dec, ParseUint, HexEncode, HexDecode, ContextOf, EntriesMap, ContextEntries;
    forall i | 0 <= i < |es|
      ensures Get(m, es[i].key) == Some(es[i].value)
    {
      Lookup(es, i);
    }
    var cs := ContextEntries(e.context);
    assert forall i :: 0 <= i < |cs| ==> es[5 + i] == cs[i];
    ContextRead(m, e.context);
    assert es[0].key == "sid" && es[1].key == "sender_id" && es[2].key == "timestamp_secs";
    assert es[3].key == "nonce" && es[4].key == "signature_hex" && es[|es| - 1].key == "body_hex";
  }

  lemma DecSafe(n: nat)
    ensures WireSafe(Dec(n))
  {
    var s := Dec(n);
    assert IsDigit(s[0]) && IsDigit(s[|s| - 1]);
    hide Dec;
  }

  lemma HexSafe(b: Bytes)
    ensures WireSafe(HexEncode(b))
  {
    var s := HexEncode(b);
    DecodeOfEncode(b);
    DecodesIff(s);
    HexClean(b, '\n');
    hide HexEncode, HexDecode;
    if s != "" {
      assert Nibble(s[0]).Some? && Nibble(s[|s| - 1]).Some?;
    }
  }

  predicate SafeKey(k: string) {
    WireSafe(k) && '=' !in k
  }

  /** Lower-case letters and underscores. */
  predicate Word(s: string) {
    s != "" && forall i :: 0 <= i < |s| ==> 'a' <= s[i] <= 'z' || s[i] == '_'
  }

  lemma WordSafe(s: string)
    requires Word(s)
    ensures SafeKey(s)
  {
  }

  lemma WordsSafe()
    ensures forall s :: Word(s) ==> SafeKey(s)
  {
    forall s | Word(s)
      ensures SafeKey(s)
    {
      WordSafe(s);
    }
  }

  lemma EntrySafe(key: string, value: string)
    requires SafeKey(key) && WireSafe(value)
    ensures SafeEntry(Entry(key, value))
  {
    hide WireSafe;
  }

  lemma PayloadKeysSafe()
    ensures SafeKey("sid") && SafeKey("port") && SafeKey("address") && SafeKey("public_key")
            && SafeKey("participant_id")
  {
    WordsSafe();
    hide SafeKey;
    assert Word("sid") && Word("port") && Word("address") && Word("public_key") && Word("participant_id");
  }

  lemma PayloadKeyLengths()
    ensures |"sid"| == 3 && |"port"| == 4 && |"address"| == 7 && |"public_key"| == 10 && |"participant_id"| == 14
  {
  }

  lemma HeadKeysSafe()
    ensures SafeKey("sid") && SafeKey("sender_id") && SafeKey("timestamp_secs") && SafeKey("nonce")
    ensures SafeKey("signature_hex") && SafeKey("body_hex")
  {
    WordsSafe();
    hide SafeKey;
    assert Word("sid") && Word("sender_id") && Word("timestamp_secs") && Word("nonce");
    assert Word("signature_hex") && Word("body_hex");
  }

  lemma ContextKeysSafe()
    ensures SafeKey("context") && SafeKey("method") && SafeKey("path") && SafeKey("status_code")
    ensures SafeKey("http_request") && SafeKey("http_response") && SafeKey("udp_announcement")
  {
    WordsSafe();
    hide SafeKey;
    assert Word("context") && Word("method") && Word("path") && Word("status_code");
    assert Word("http_request") && Word("http_response") && Word("udp_announcement");
  }

  lemma HeadSafe(e: SignedEnvelope)
    requires EnvelopeSafe(e)
    ensures SafeEntries(HeadEntries(e)) && SafeEntries([Entry("body_hex", HexEncode(e.body))])
  {
    HeadKeysSafe();
    DecSafe(e.timestampSecs);
    HexSafe(e.body);
    hide Dec, HexEncode, WireSafe, ContextSafe;
  }

  lemma ContextEntriesSafe(c: MessageContext)
    requires ContextSafe(c)
    ensures SafeEntries(ContextEntries(c))
  {
    ContextKeysSafe();
    if c.HttpResponse? {
      DecSafe(c.statusCode);
    }
    hide Dec, WireSafe;
  }

  lemma EntriesSafe(e: SignedEnvelope)
    requires EnvelopeSafe(e)
    ensures SafeEntries(EnvelopeEntries(e))
  {
    HeadSafe(e);
    ContextEntriesSafe(e.context);
    hide HeadEntries, ContextEntries, HexEncode, SafeEntry, WireSafe;
  }

  /** A signed envelope is wire-safe when what was signed is; the signature always is. */
  lemma SignedSafe(
    crypto: Crypto, sid: string, sidToken: string, senderId: string, timestampSecs: u64, nonce: string,
    context: MessageContext, body: Bytes)
    ensures EnvelopeSafe(SignEnvelope(crypto, sid, sidToken, senderId, timestampSecs, nonce, context, body))
       <==> WireSafe(sid) && WireSafe(senderId) && WireSafe(nonce) && ContextSafe(context)
  {
    hide WireSafe, HexEncode, Mac, CanonicalPayload;
    HexSafe(Mac(crypto, sidToken, CanonicalPayload(crypto, sid, senderId, timestampSecs, nonce, context, body)));
  }

  /** Whatever parses is wire-safe. */
  lemma ParsedSafe(text: string)
    requires ParseEnvelope(text).Some?
    ensures EnvelopeSafe(ParseEnvelope(text).value)
  {
    hide Lines, KvMap, ParseUint, HexDecode, WireSafe;
    ReadValuesSafe(Lines(text));
  }

  /**
   The envelope round trip, for every envelope: printing and parsing gives it back exactly when
   its text fields are trimmed and free of newlines.
   */
  lemma RoundTripIff(e: SignedEnvelope)
    ensures ParseEnvelope(Serialize(e)) == Some(e) <==> EnvelopeSafe(e)
  {
    hide Lines, KvMap, EntriesMap, EnvelopeEntries, EnvelopeOf, PayloadText, EnvelopeSafe;
    if EnvelopeSafe(e) {
      EntriesSafe(e);
      PayloadRoundTrip(EnvelopeEntries(e));
      EntriesRead(e);
    }
    if ParseEnvelope(Serialize(e)) == Some(e) {
      ParsedSafe(Serialize(e));
    }
  }

  /** Whatever was parsed from any text survives printing and parsing again. */
  lemma ParsedRoundTrip(text: string)
    requires ParseEnvelope(text).Some?
    ensures ParseEnvelope(Serialize(ParseEnvelope(text).value)) == ParseEnvelope(text)
  {
    ParsedSafe(text);
    RoundTripIff(ParseEnvelope(text).value);
  }

  /** Parsed envelopes meet the condition under which the canonical string is injective. */
  lemma ParsedLineFree(text: string)
    requires ParseEnvelope(text).Some?
    ensures LineFree(ParseEnvelope(text).value)
  {
    ParsedSafe(text);
    hide ParseEnvelope, Trimmed;
  }

  // ---------- written out ----------

  /** A line that is no entry changes nothing, wherever it stands in an envelope. */
  lemma JunkIgnored(a: string, junk: string, b: string)
    requires (a == "" || a[|a| - 1] == '\n') && '\n' !in junk && '=' !in junk
    ensures ParseEnvelope(a + (junk + "\n" + b)) == ParseEnvelope(a + b)
  {
    hide Lines, KvMap, EnvelopeOf, StripCr;
    LinesAppend(a, junk + "\n" + b);
    LinesAppend(a, b);
    LinesCons(junk, b);
    assert '=' !in StripCr(junk);
    JunkAdds(Lines(a), StripCr(junk), Lines(b));
    Assoc(Lines(a), [StripCr(junk)], Lines(b));
  }

  /** The envelope, when it can be read, has the fields the map gives it. */
  lemma HeadIs(m: map<string, string>)
    ensures HeadOf(m).Some? <==>
      "sid" in m && "sender_id" in m && "nonce" in m && "signature_hex" in m
      && "timestamp_secs" in m && ParseUint(m["timestamp_secs"], 0xFFFF_FFFF_FFFF_FFFF).Some?
    ensures HeadOf(m).Some? ==>
      HeadOf(m).value == EnvelopeHead(m["sid"], m["sender_id"],
          ParseUint(m["timestamp_secs"], 0xFFFF_FFFF_FFFF_FFFF).value,
                                      m["nonce"], m["signature_hex"])
  {
    hide ParseUint;
  }

  /** Three kinds of context, each with its own fields, and no other. */
  lemma ContextIs(m: map<string, string>)
    ensures ContextOf(m)
         == if "context" !in m then None
            else if m["context"] == "http_request" && "method" in m
                && "path" in m then Some(HttpRequest(m["method"], m["path"]))
            else if m["context"] == "http_response" && "status_code" in m && "path" in m
                    && ParseUint(m["status_code"], 65535).Some?
              then Some(HttpResponse(ParseUint(m["status_code"], 65535).value, m["path"]))
            else if m["context"] == "udp_announcement" then Some(UdpAnnouncement)
            else None
  {
    hide ParseUint;
    KeyLengths();
  }

  /** A text is an envelope exactly when its entries give a head, a context and a body in hex. */
  lemma EnvelopeIff(text: string)
    ensures var m := KvMap(Lines(text));
            ParseEnvelope(text).Some? <==>
              HeadOf(m).Some? && ContextOf(m).Some? && "body_hex" in m && HexDecode(m["body_hex"]).Some?
    ensures var m := KvMap(Lines(text));
            ParseEnvelope(text).Some? ==>
              var e, head := ParseEnvelope(text).value, HeadOf(m).value;
              e.sid == head.sid && e.senderId == head.senderId && e.timestampSecs == head.timestampSecs
                  && e.nonce == head.nonce
              && e.signatureHex == head.signatureHex && e.context == ContextOf(m).value
              && Some(e.body) == HexDecode(m["body_hex"])
  {
    hide HeadOf, ContextOf, KvMap, Lines, HexDecode;
  }

  /** The text of an envelope, line by line. */
  lemma EnvelopeText(e: SignedEnvelope)
    ensures var head := "sid=" + e.sid + "\n" + ("sender_id=" + e.senderId + "\n"
                        + ("timestamp_secs=" + Dec(e.timestampSecs) + "\n" + ("nonce=" + e.nonce + "\n"
                        + ("signature_hex=" + e.signatureHex + "\n"))));
            var body := "body_hex=" + HexEncode(e.body) + "\n";
            Serialize(e)
            == head + (match e.context
                       case HttpRequest(verb, path) =>
                         "context=http_request\n" + ("method=" + verb + "\n" + ("path=" + path + "\n" + body))
                       case HttpResponse(statusCode, path) =>
                         "context=http_response\n"
                             + ("status_code=" + Dec(statusCode) + "\n" + ("path=" + path + "\n" + body))
                       case UdpAnnouncement => "context=udp_announcement\n" + body)
  {
    hide Dec, HexEncode, PayloadText;
    TextAppend(HeadEntries(e), ContextEntries(e.context) + [Entry("body_hex", HexEncode(e.body))]);
    Assoc(HeadEntries(e), ContextEntries(e.context), [Entry("body_hex", HexEncode(e.body))]);
    HeadText5(e);
    ContextText(e.context, HexEncode(e.body));
  }

  lemma TextAppend(a: seq<Entry>, b: seq<Entry>)
    ensures PayloadText(a + b) == PayloadText(a) + PayloadText(b)
    decreases |b|
  {
    if b == [] {
      AppendNil(a);
      AppendNil(PayloadText(a));
    } else {
      var n := |b| - 1;
      TextAppend(a, b[..n]);
      assert (a + b)[..|a| + n] == a + b[..n] && (a + b)[|a| + n] == b[n];
      Assoc(PayloadText(a), PayloadText(b[..n]), b[n].key + "=" + b[n].value + "\n");
    }
  }

  /** One entry in front of the rest, with the key's text put together. */
  lemma EntryFirst(key: string, keyEq: string, value: string, rest: seq<Entry>)
    requires keyEq == key + "="
    ensures PayloadText([Entry(key, value)] + rest) == keyEq + value + "\n" + PayloadText(rest)
  {
    hide PayloadText;
    PayloadTextCons(Entry(key, value), rest);
  }

  lemma HeadText5(e: SignedEnvelope)
    ensures PayloadText(HeadEntries(e))
         == "sid=" + e.sid + "\n" + ("sender_id=" + e.senderId + "\n"
            + ("timestamp_secs=" + Dec(e.timestampSecs) + "\n" + ("nonce=" + e.nonce + "\n"
            + ("signature_hex=" + e.signatureHex + "\n"))))
  {
    hide Dec, PayloadText;
    EmptyText();
    var d5: seq<Entry> := [];
    var d4 := [Entry("signature_hex", e.signatureHex)];
    var d3 := [Entry("nonce", e.nonce)] + d4;
    var d2 := [Entry("timestamp_secs", Dec(e.timestampSecs))] + d3;
    var d1 := [Entry("sender_id", e.senderId)] + d2;
    assert HeadEntries(e) == [Entry("sid", e.sid)] + d1;
    EntryFirst("sid", "sid=", e.sid, d1);
    EntryFirst("sender_id", "sender_id=", e.senderId, d2);
    EntryFirst("timestamp_secs", "timestamp_secs=", Dec(e.timestampSecs), d3);
    EntryFirst("nonce", "nonce=", e.nonce, d4);
    AppendNil(d4);
    EntryFirst("signature_hex", "signature_hex=", e.signatureHex, d5);
    AppendNil("signature_hex=" + e.signatureHex + "\n");
  }

  lemma BodyText(hex: string)
    ensures PayloadText([Entry("body_hex", hex)]) == "body_hex=" + hex + "\n"
  {
    hide PayloadText;
    EmptyText();
    EntryFirst("body_hex", "body_hex=", hex, []);
    AppendNil([Entry("body_hex", hex)]);
    AppendNil("body_hex=" + hex + "\n");
  }

  /** Three entries before the body's. */
  lemma ThreeFirst(
    kind: string, kindLine: string, key: string, keyEq: string, value: string, path: string, hex: string)
    requires kindLine == "context=" + kind + "\n" && keyEq == key + "="
    ensures PayloadText([Entry("context", kind), Entry(key, value), Entry("path", path), Entry("body_hex", hex)])
         == kindLine + (keyEq + value + "\n" + ("path=" + path + "\n" + ("body_hex=" + hex + "\n")))
  {
    hide PayloadText;
    var d1 := [Entry("body_hex", hex)];
    var d2 := [Entry("path", path)] + d1;
    var d3 := [Entry(key, value)] + d2;
    BodyText(hex);
    EntryFirst("path", "path=", path, d1);
    EntryFirst(key, keyEq, value, d2);
    EntryFirst("context", "context=", kind, d3);
    assert [Entry("context", kind)] + d3
        == [Entry("context", kind), Entry(key, value), Entry("path", path), Entry("body_hex", hex)];
  }

  lemma KindLines()
    ensures "context=http_request\n" == "context=" + "http_request" + "\n"
    ensures "context=http_response\n" == "context=" + "http_response" + "\n"
    ensures "context=udp_announcement\n" == "context=" + "udp_announcement" + "\n"
  {
  }

  lemma ContextText(c: MessageContext, hex: string)
    ensures var body := "body_hex=" + hex + "\n";
            PayloadText(ContextEntries(c) + [Entry("body_hex", hex)])
            == match c
               case HttpRequest(verb, path) =>
                 "context=http_request\n" + ("method=" + verb + "\n" + ("path=" + path + "\n" + body))
               case HttpResponse(statusCode, path) =>
                 "context=http_response\n" + ("status_code=" + Dec(statusCode) + "\n" + ("path=" + path + "\n" + body))
               case UdpAnnouncement => "context=udp_announcement\n" + body
  {
    hide Dec, PayloadText;
    KindLines();
    BodyText(hex);
    match c
    case HttpRequest(verb, path) =>
      ThreeFirst("http_request", "context=http_request\n", "method", "method=", verb, path, hex);
      assert ContextEntries(c) + [Entry("body_hex", hex)]
          == [Entry("context", "http_request"), Entry("method", verb), Entry("path", path), Entry("body_hex", hex)];
    case HttpResponse(code, path) =>
      ThreeFirst("http_response", "context=http_response\n", "status_code", "status_code=", Dec(code), path, hex);
      assert ContextEntries(c) + [Entry("body_hex", hex)]
          == [Entry("context", "http_response"), Entry("status_code", Dec(code)), Entry("path", path),
             Entry("body_hex", hex)];
    case UdpAnnouncement =>
      EntryFirst("context", "context=", "udp_announcement", [Entry("body_hex", hex)]);
  }
}
