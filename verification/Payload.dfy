/** `KEY=VALUE` lines: the body format of every message, and the line format of envelopes. */
module Payload {
  import opened Prelude
  import opened Text
  import opened Utf8

  datatype Entry = Entry(key: string, value: string)

  /** One line per entry. */
  function PayloadText(entries: seq<Entry>): string {
    if entries == [] then ""
    else
      var last := entries[|entries| - 1];
      PayloadText(entries[..|entries| - 1]) + (last.key + "=" + last.value + "\n")
  }

  lemma PayloadTextSnoc(entries: seq<Entry>, e: Entry)
    ensures PayloadText(entries + [e]) == PayloadText(entries) + (e.key + "=" + e.value + "\n")
  {
    assert (entries + [e])[..|entries|] == entries;
  }

  method SerializePayload(entries: seq<Entry>) returns (body: Bytes)
    ensures body == Encode(PayloadText(entries))
  {
    var output := "";
    for i := 0 to |entries|
      invariant output == PayloadText(entries[..i])
    {
      var entry := entries[i];
      PayloadTextSnoc(entries[..i], entry);
      assert entries[..i + 1] == entries[..i] + [entry];
      assert output + entry.key + "=" + entry.value + "\n" == output + (entry.key + "=" + entry.value + "\n");
      output := output + entry.key + "=" + entry.value + "\n";
    }
    assert entries[..|entries|] == entries;
    body := Encode(output);
  }

  // ---------- reading ----------

  /** What one line adds to the map: a later line for the same key wins; a line without `=` adds nothing. */
  function Absorb(m: map<string, string>, line: string): map<string, string> {
    match SplitOnce(line, '=')
    case None => m
    case Some((key, value)) => m[Trim(key) := Trim(value)]
  }

  function KvMap(lines: seq<string>): map<string, string> {
    if lines == [] then map[] else Absorb(KvMap(lines[..|lines| - 1]), lines[|lines| - 1])
  }

  lemma KvMapSnoc(lines: seq<string>, line: string)
    ensures KvMap(lines + [line]) == Absorb(KvMap(lines), line)
  {
    assert (lines + [line])[..|lines|] == lines;
  }

  /** A line that is neither blank nor an entry. */
  predicate BadLine(line: string) {
    Trim(line) != "" && '=' !in line
  }

  predicate AllEntries(lines: seq<string>) {
    forall i :: 0 <= i < |lines| ==> !BadLine(lines[i])
  }

  /** `parse_payload`: UTF-8, then entries and blank lines only. */
  function ParsePayload(body: Bytes): Option<map<string, string>> {
    match Decode(body)
    case None => None
    case Some(text) => if AllEntries(Lines(text)) then Some(KvMap(Lines(text))) else None
  }

  method ParsePayloadBody(body: Bytes) returns (r: Option<map<string, string>>)
    ensures r == ParsePayload(body)
  {
    hide Lines, Trim, Decode, SplitOnce;
    var text :- Decode(body);
    var lines := Lines(text);
    var m: map<string, string> := map[];
    for i := 0 to |lines|
      invariant m == KvMap(lines[..i])
      invariant forall j :: 0 <= j < i ==> !BadLine(lines[j])
    {
      var line := lines[i];
      assert lines[..i + 1] == lines[..i] + [line];
      KvMapSnoc(lines[..i], line);
      if Trim(line) == "" {
        BlankHasNoEquals(line);
        continue;
      }
      var split := SplitOnce(line, '=');
      if split.None? {
        return None;
      }
      m := m[Trim(split.value.0) := Trim(split.value.1)];
    }
    assert lines[..|lines|] == lines;
    return Some(m);
  }

  lemma BlankHasNoEquals(line: string)
    requires Trim(line) == ""
    ensures '=' !in line
  {
    var a, r, b := TrimParts(line);
    TrimUnique(a, r, b);
    AllWsAppend(a + r, b);
    AllWsAppend(a, r);
    assert AllWs(line);
    assert !IsWs('=');
    hide Trim, IsWs;
  }

  // ---------- round trip ----------

  predicate SafeEntry(e: Entry) {
    WireSafe(e.key) && '=' !in e.key && WireSafe(e.value)
  }

  predicate SafeEntries(entries: seq<Entry>) {
    forall i :: 0 <= i < |entries| ==> SafeEntry(entries[i])
  }

  function EntriesMap(entries: seq<Entry>): map<string, string> {
    if entries == [] then map[]
    else
      var last := entries[|entries| - 1];
      EntriesMap(entries[..|entries| - 1])[last.key := last.value]
  }

  lemma ValueKeepsCr(key: string, value: string)
    requires Trimmed(value)
    ensures !EndsCr(key + "=" + value)
  {
    assert IsWs('\r');
    hide IsWs;
    var line := key + "=" + value;
    assert line[|line| - 1] == if value == "" then '=' else value[|value| - 1];
  }

  lemma AbsorbEntry(m: map<string, string>, e: Entry)
    requires SafeEntry(e)
    ensures Absorb(m, e.key + "=" + e.value) == m[e.key := e.value]
  {
    assert Trim(e.key) == e.key && Trim(e.value) == e.value;
    hide Trim, SplitOnce;
    SplitOnceAt(e.key, '=', e.value);
    AbsorbSplit(m, e.key + "=" + e.value, e.key, e.value);
  }

  lemma AbsorbSplit(m: map<string, string>, line: string, key: string, value: string)
    requires SplitOnce(line, '=') == Some((key, value))
    ensures Absorb(m, line) == m[Trim(key) := Trim(value)]
  {
    hide Trim, SplitOnce;
  }

  lemma EntryLine(e: Entry)
    requires SafeEntry(e)
    ensures var line := e.key + "=" + e.value; '\n' !in line && '=' in line && !EndsCr(line)
  {
    ValueKeepsCr(e.key, e.value);
    hide EndsCr, Trimmed;
    var line := e.key + "=" + e.value;
    assert line[|e.key|] == '=';
  }

  lemma PayloadTextEnds(entries: seq<Entry>)
    ensures var t := PayloadText(entries); t == "" || t[|t| - 1] == '\n'
  {
  }

  lemma LinesOfEntry(text: string, line: string)
    requires text == "" || text[|text| - 1] == '\n'
    requires '\n' !in line && !EndsCr(line)
    ensures Lines(text + (line + "\n")) == Lines(text) + [line]
  {
    assert Lines("") == [];
    hide Lines;
    LinesAppend(text, line + "\n");
    AppendNil(line + "\n");
    LinesCons(line, "");
    AppendNil([line]);
  }

  lemma AllEntriesSnoc(lines: seq<string>, line: string)
    requires AllEntries(lines) && '=' in line
    ensures AllEntries(lines + [line])
  {
    hide Trim;
  }

  /** Reading what was written gives the entries, the last one for each key. */
  lemma {:induction false} PayloadRoundTrip(entries: seq<Entry>)
    requires SafeEntries(entries)
    ensures var lines := Lines(PayloadText(entries));
            AllEntries(lines) && KvMap(lines) == EntriesMap(entries)
  {
    if entries != [] {
      var init, last := entries[..|entries| - 1], entries[|entries| - 1];
      PayloadRoundTrip(init);
      hide Lines, Absorb, AllEntries, KvMap, SafeEntry;
      var lines, line := Lines(PayloadText(init)), last.key + "=" + last.value;
      EntryLine(last);
      PayloadTextEnds(init);
      LinesOfEntry(PayloadText(init), line);
      KvMapSnoc(lines, line);
      AbsorbEntry(KvMap(lines), last);
      AllEntriesSnoc(lines, line);
    } else {
      assert Lines("") == [];
    }
  }

  lemma ParseOfSerialize(entries: seq<Entry>)
    requires SafeEntries(entries)
    ensures ParsePayload(Encode(PayloadText(entries))) == Some(EntriesMap(entries))
  {
    DecodeEncode(PayloadText(entries));
    PayloadRoundTrip(entries);
    hide Lines, Decode, Encode, PayloadText, EntriesMap, KvMap;
  }

  /** Whatever is read is trimmed, and free of newlines when the lines are. */
  lemma {:induction false} ReadValuesSafe(lines: seq<string>)
    requires NewlineFree(lines)
    ensures forall k :: k in KvMap(lines) ==> WireSafe(KvMap(lines)[k])
  {
    if lines != [] {
      hide Trim, Trimmed;
      ReadValuesSafe(lines[..|lines| - 1]);
      var line := lines[|lines| - 1];
      match SplitOnce(line, '=')
      case None =>
      case Some((key, value)) =>
        assert forall c :: c in value ==> c in line;
    }
  }

  lemma ParsedPayloadSafe(body: Bytes)
    requires ParsePayload(body).Some?
    ensures forall k :: k in ParsePayload(body).value ==> WireSafe(ParsePayload(body).value[k])
  {
    hide Lines, Decode, KvMap, WireSafe, AllEntries;
    ReadValuesSafe(Lines(Decode(body).value));
  }

  // ---------- written out ----------

  /** White space around the key and around the value does not count; only the first `=` separates. */
  lemma LineIs(
    m: map<string, string>, w1: string, key: string, w2: string, w3: string, value: string, w4: string)
    requires AllWs(w1) && AllWs(w2) && AllWs(w3) && AllWs(w4) && Trimmed(key) && Trimmed(value) && '=' !in key
    ensures Absorb(m, (w1 + key + w2) + "=" + (w3 + value + w4)) == m[key := value]
  {
    BlankNoEquals(w1);
    BlankNoEquals(w2);
    hide Trim, IsWs, AllWs, Trimmed;
    SplitOnceAt(w1 + key + w2, '=', w3 + value + w4);
    TrimUnique(w1, key, w2);
    TrimUnique(w3, value, w4);
    AbsorbSplit(m, (w1 + key + w2) + "=" + (w3 + value + w4), w1 + key + w2, w3 + value + w4);
  }

  lemma BlankNoEquals(w: string)
    requires AllWs(w)
    ensures '=' !in w
  {
    assert !IsWs('=');
    hide IsWs;
  }

  lemma BlankIff(line: string)
    ensures Trim(line) == "" <==> AllWs(line)
  {
    hide IsWs, AllWs, Trim;
    var a, r, b := TrimParts(line);
    TrimUnique(a, r, b);
    if Trim(line) == "" {
      AppendNil(a);
      AllWsAppend(a, b);
    }
    if AllWs(line) {
      NothingIsBlank();
      AppendNil(line);
      TrimUnique(line, "", "");
    }
  }

  /** A body is readable exactly when it is UTF-8 and each of its lines is an entry or white space. */
  lemma PayloadParsesIff(body: Bytes)
    ensures ParsePayload(body).Some? <==>
      Decode(body).Some? && forall line :: line in Lines(Decode(body).value) ==> '=' in line || AllWs(line)
  {
    hide Decode, Lines, Trim, KvMap, AllWs;
    if Decode(body).Some? {
      var lines := Lines(Decode(body).value);
      forall i | 0 <= i < |lines|
        ensures BadLine(lines[i]) <==> !('=' in lines[i] || AllWs(lines[i]))
      {
        BlankIff(lines[i]);
      }
    }
  }

  lemma JunkLine(m: map<string, string>, line: string)
    requires '=' !in line
    ensures Absorb(m, line) == m
  {
  }

  /** Lines without `=` add nothing to what is read, wherever they stand. */
  lemma {:induction false} JunkAdds(a: seq<string>, line: string, b: seq<string>)
    requires '=' !in line
    ensures KvMap(a + [line] + b) == KvMap(a + b)
    decreases |b|
  {
    hide Absorb;
    if b == [] {
      AppendNil(a + [line]);
      AppendNil(a);
      KvMapSnoc(a, line);
      JunkLine(KvMap(a), line);
    } else {
      var n := |b| - 1;
      SnocSplit(b);
      JunkAdds(a, line, b[..n]);
      KvMapSnoc(a + [line] + b[..n], b[n]);
      KvMapSnoc(a + b[..n], b[n]);
      Assoc(a + [line], b[..n], [b[n]]);
      Assoc(a, b[..n], [b[n]]);
    }
  }

  lemma PayloadTextCons(e: Entry, rest: seq<Entry>)
    ensures PayloadText([e] + rest) == e.key + "=" + e.value + "\n" + PayloadText(rest)
    decreases |rest|
  {
    if rest == [] {
      AppendNil([e]);
      assert PayloadText([e][..0]) == "";
      AppendNil(e.key + "=" + e.value + "\n");
    } else {
      var n := |rest| - 1;
      PayloadTextCons(e, rest[..n]);
      assert ([e] + rest)[..n + 1] == [e] + rest[..n] && ([e] + rest)[n + 1] == rest[n];
      Assoc(e.key + "=" + e.value + "\n", PayloadText(rest[..n]), rest[n].key + "=" + rest[n].value + "\n");
    }
  }
}
