/** The editor of the managed block inside `authorized_keys`. */
module AuthorizedKeys {
  import opened Prelude
  import opened Text
  import opened SshKeys

  const MANAGED_BEGIN: string := "# ssh-key-sync begin"
  const MANAGED_END: string := "# ssh-key-sync end"

  datatype AuthorizedKeysError = MissingManagedEnd | InvalidPublicKey

  // ---------- normalise and dedup ----------

  /** The normalised keys without repeats, first occurrences first; the first bad key is an error. */
  function Dedup(keys: seq<string>): Result<seq<string>, AuthorizedKeysError> {
    if keys == [] then Ok([])
    else
      var output :- Dedup(keys[..|keys| - 1]);
      match Normalize(keys[|keys| - 1])
      case Err(_) => Err(InvalidPublicKey)
      case Ok(k) => Ok(if k in output then output else output + [k])
  }

  lemma {:induction false} DedupPrefixError(keys: seq<string>, i: nat)
    requires i <= |keys| && Dedup(keys[..i]) == Err(InvalidPublicKey)
    ensures Dedup(keys) == Err(InvalidPublicKey)
    decreases |keys|
  {
    hide Normalize;
    if i == |keys| {
      assert keys[..i] == keys;
    } else {
      var init := keys[..|keys| - 1];
      assert init[..i] == keys[..i];
      DedupPrefixError(init, i);
    }
  }

  method NormalizeAndDedup(managedKeys: seq<string>) returns (r: Result<seq<string>, AuthorizedKeysError>)
    ensures r == Dedup(managedKeys)
  {
    var seen: set<string> := {};
    var output: seq<string> := [];
    for i := 0 to |managedKeys|
      invariant Dedup(managedKeys[..i]) == Ok(output)
      invariant forall k :: k in seen <==> k in output
    {
      assert managedKeys[..i + 1][..i] == managedKeys[..i];
      var normalized := NormalizePublicKey(managedKeys[i]);
      if normalized.Err? {
        DedupPrefixError(managedKeys, i + 1);
        return Err(InvalidPublicKey);
      }
      if normalized.value !in seen {
        seen := seen + {normalized.value};
        output := output + [normalized.value];
      }
    }
    assert managedKeys[..|managedKeys|] == managedKeys;
    return Ok(output);
  }

  predicate NoRepeats(ks: seq<string>) {
    forall i, j :: 0 <= i < j < |ks| ==> ks[i] != ks[j]
  }

  predicate AllNormalized(ks: seq<string>) {
    forall i :: 0 <= i < |ks| ==> IsNormalized(ks[i])
  }

  /** The first position whose input key normalises to `k`. */
  ghost predicate FirstFrom(keys: seq<string>, k: string, i: nat) {
    i < |keys| && Normalize(keys[i]) == Ok(k) && forall j :: 0 <= j < i ==> Normalize(keys[j]) != Ok(k)
  }

  /** Success means that every key is valid. */
  lemma {:induction false} DedupOkIff(keys: seq<string>)
    ensures Dedup(keys).Ok? <==> forall i :: 0 <= i < |keys| ==> Normalize(keys[i]).Ok?
  {
    hide Normalize;
    if keys != [] {
      var n := |keys| - 1;
      DedupOkIff(keys[..n]);
      assert forall i :: 0 <= i < n ==> keys[..n][i] == keys[i];
    }
  }

  /** The result is duplicate-free and normalised, and holds every input key's normal form. */
  lemma {:induction false} DedupSound(keys: seq<string>)
    requires Dedup(keys).Ok?
    ensures NoRepeats(Dedup(keys).value) && AllNormalized(Dedup(keys).value)
    ensures forall i :: 0 <= i < |keys| ==> Normalize(keys[i]).Ok? && Normalize(keys[i]).value in Dedup(keys).value
  {
    hide Normalize, IsNormalized;
    if keys != [] {
      var n := |keys| - 1;
      var init := keys[..n];
      DedupSound(init);
      NormalizeCanonical(keys[n]);
      var k := Normalize(keys[n]).value;
      var before, after := Dedup(init).value, Dedup(keys).value;
      assert after == if k in before then before else before + [k];
      hide Dedup;
      assert k in after && forall x :: x in before ==> x in after;
      forall i | 0 <= i < |keys|
        ensures Normalize(keys[i]).Ok? && Normalize(keys[i]).value in after
      {
        if i < n {
          assert init[i] == keys[i];
        }
      }
    }
  }

  /** Every kept key sits where its first occurrence puts it. */
  lemma {:induction false} DedupOrder(keys: seq<string>) returns (at: seq<nat>)
    requires Dedup(keys).Ok?
    ensures |at| == |Dedup(keys).value|
    ensures forall m :: 0 <= m < |at| ==> FirstFrom(keys, Dedup(keys).value[m], at[m])
    ensures forall m, n :: 0 <= m < n < |at| ==> at[m] < at[n]
  {
    hide Normalize;
    if keys == [] {
      at := [];
    } else {
      var n := |keys| - 1;
      var init := keys[..n];
      at := DedupOrder(init);
      DedupSound(init);
      assert forall m :: 0 <= m < |at| ==> at[m] < n && FirstFrom(init, Dedup(init).value[m], at[m]);
      assert forall i :: 0 <= i < n ==> init[i] == keys[i];
      var k := Normalize(keys[n]).value;
      if k !in Dedup(init).value {
        assert forall j :: 0 <= j < n ==> Normalize(init[j]).value in Dedup(init).value;
        at := at + [n];
      }
    }
  }

  lemma {:induction false} DedupOfDistinct(ks: seq<string>)
    requires AllNormalized(ks) && NoRepeats(ks)
    ensures Dedup(ks) == Ok(ks)
  {
    hide Normalize;
    if ks != [] {
      var n := |ks| - 1;
      DedupOfDistinct(ks[..n]);
      assert ks == ks[..n] + [ks[n]];
      assert IsNormalized(ks[n]);
    }
  }

  /** Normalising and removing repeats twice is doing it once. */
  lemma DedupIdempotent(keys: seq<string>)
    requires Dedup(keys).Ok?
    ensures Dedup(Dedup(keys).value) == Dedup(keys)
  {
    DedupSound(keys);
    DedupOfDistinct(Dedup(keys).value);
  }

  // ---------- the block ----------

  function Block(keys: seq<string>): seq<string> {
    [MANAGED_BEGIN] + keys + [MANAGED_END]
  }

  /** The first line that is the marker up to surrounding white space, or `|lines|`. */
  function FirstMarker(lines: seq<string>, marker: string): (i: nat)
    ensures i <= |lines|
  {
    if lines == [] then 0
    else if Trim(lines[0]) == marker then 0
    else FirstMarker(lines[1..], marker) + 1
  }

  predicate NoMarker(lines: seq<string>, marker: string) {
    forall j :: 0 <= j < |lines| ==> Trim(lines[j]) != marker
  }

  lemma {:induction false} FirstMarkerIs(lines: seq<string>, marker: string)
    ensures var i := FirstMarker(lines, marker);
            NoMarker(lines[..i], marker) && (i < |lines| ==> Trim(lines[i]) == marker)
  {
    hide Trim;
    if lines != [] && Trim(lines[0]) != marker {
      var i := FirstMarker(lines[1..], marker);
      FirstMarkerIs(lines[1..], marker);
      assert lines[..i + 1] == [lines[0]] + lines[1..][..i];
    }
  }

  lemma FirstMarkerUnique(lines: seq<string>, marker: string, i: nat)
    requires i <= |lines| && NoMarker(lines[..i], marker)
    requires i < |lines| ==> Trim(lines[i]) == marker
    ensures FirstMarker(lines, marker) == i
  {
    hide Trim, FirstMarker;
    FirstMarkerIs(lines, marker);
    var k := FirstMarker(lines, marker);
    assert forall j :: 0 <= j < i ==> lines[..i][j] == lines[j];
    assert forall j :: 0 <= j < k ==> lines[..k][j] == lines[j];
  }

  predicate HasBlock(lines: seq<string>) {
    FirstMarker(lines, MANAGED_BEGIN) < |lines| && FirstMarker(lines, MANAGED_END) < |lines|
  }

  /** The begin marker is there and the end marker is not. */
  predicate Unclosed(lines: seq<string>) {
    FirstMarker(lines, MANAGED_BEGIN) < |lines| && FirstMarker(lines, MANAGED_END) == |lines|
  }

  function Separator(lines: seq<string>): seq<string> {
    if lines != [] && lines[|lines| - 1] != "" then [""] else []
  }

  /** The lines an update keeps before the block. */
  function Prefix(lines: seq<string>): seq<string> {
    if HasBlock(lines) then lines[..FirstMarker(lines, MANAGED_BEGIN)] else lines + Separator(lines)
  }

  /** The lines an update keeps after the block. */
  function Suffix(lines: seq<string>): seq<string> {
    if HasBlock(lines) then lines[FirstMarker(lines, MANAGED_END) + 1..] else []
  }

  function Placed(lines: seq<string>, keys: seq<string>): seq<string> {
    Prefix(lines) + Block(keys) + Suffix(lines)
  }

  /** The edited text: kept prefix, fresh block, kept suffix, joined by newlines. */
  function Upsert(content: string, managedKeys: seq<string>): Result<string, AuthorizedKeysError> {
    var keys :- Dedup(managedKeys);
    if Unclosed(Lines(content)) then Err(MissingManagedEnd)
    else Ok(Join(Placed(Lines(content), keys), "\n"))
  }

  method PushAll(output: seq<string>, lines: seq<string>) returns (outputLines: seq<string>)
    ensures outputLines == output + lines
  {
    outputLines := output;
    for i := 0 to |lines|
      invariant outputLines == output + lines[..i]
    {
      outputLines := outputLines + [lines[i]];
      assert lines[..i + 1] == lines[..i] + [lines[i]];
    }
    assert lines[..|lines|] == lines;
  }

  method AppendManagedBlock(lines: seq<string>, keys: seq<string>) returns (outputLines: seq<string>)
    ensures outputLines == lines + Block(keys)
  {
    outputLines := lines + [MANAGED_BEGIN];
    outputLines := PushAll(outputLines, keys);
    outputLines := outputLines + [MANAGED_END];
    Assoc(lines, [MANAGED_BEGIN], keys);
    Assoc(lines, [MANAGED_BEGIN] + keys, [MANAGED_END]);
  }

  /** `position` of the first line equal to the marker after trimming. */
  method FindMarker(lines: seq<string>, marker: string) returns (i: nat)
    ensures i == FirstMarker(lines, marker)
  {
    hide Trim, FirstMarker;
    i := 0;
    while i < |lines| && Trim(lines[i]) != marker
      invariant i <= |lines| && NoMarker(lines[..i], marker)
    {
      i := i + 1;
    }
    FirstMarkerUnique(lines, marker, i);
  }

  method UpsertManagedBlock(existingContent: string, managedKeys: seq<string>)
    returns (r: Result<string, AuthorizedKeysError>)
    ensures r == Upsert(existingContent, managedKeys)
  {
    hide FirstMarker, Trim, Lines, Join, Block, Dedup;
    var normalizedKeys :- NormalizeAndDedup(managedKeys);
    var lines := Lines(existingContent);
    var begin := FindMarker(lines, MANAGED_BEGIN);
    var end := FindMarker(lines, MANAGED_END);
    if begin < |lines| && end == |lines| {
      return Err(MissingManagedEnd);
    }
    var outputLines: seq<string> := [];
    if begin < |lines| && end < |lines| {
      outputLines := PushAll(outputLines, lines[..begin]);
      AppendNil(lines[..begin]);
      outputLines := AppendManagedBlock(outputLines, normalizedKeys);
      outputLines := PushAll(outputLines, lines[end + 1..]);
    } else {
      outputLines := PushAll(outputLines, lines);
      AppendNil(lines);
      if outputLines != [] && outputLines[|outputLines| - 1] != "" {
        outputLines := outputLines + [""];
      }
      outputLines := AppendManagedBlock(outputLines, normalizedKeys);
      AppendNil(outputLines);
    }
    return Ok(Join(outputLines, "\n"));
  }
}
