/** The exact text an update writes, said of the file's own lines. */
module ManagedBlockText {
  import opened Prelude
  import opened Text
  import opened SshKeys
  import opened AuthorizedKeys
  import opened ManagedBlockLaws

  /** The pieces of a text between its newlines, carriage returns and all. */
  function Pieces(s: string): seq<string>
    decreases |s|
  {
    match SplitOnce(s, '\n')
    case None => [s]
    case Some((first, rest)) => [first] + Pieces(rest)
  }

  lemma {:induction false} PiecesOfJoin(ls: seq<string>)
    requires NewlineFree(ls) && ls != []
    ensures Pieces(Join(ls, "\n")) == ls
  {
    assert '\n' !in ls[0];
    if |ls| == 1 {
      hide Pieces;
      OnePiece(ls[0]);
    } else {
      hide SplitOnce;
      PiecesOfJoin(ls[1..]);
      SplitOnceAt(ls[0], '\n', Join(ls[1..], "\n"));
      HeadTail(ls);
    }
  }

  lemma OnePiece(s: string)
    requires '\n' !in s
    ensures Pieces(s) == [s]
  {
    hide SplitOnce;
  }

  /** What was written, piece by piece. */
  lemma Written(content: string, keys: seq<string>)
    requires Upsert(content, keys).Ok?
    ensures Dedup(keys).Ok?
    ensures Pieces(Upsert(content, keys).value) == Placed(Lines(content), Dedup(keys).value)
  {
    hide *;
    UpsertIs(content, keys);
    RereadPlaced(Lines(content), Dedup(keys).value);
    LinesFree(content);
    PlacedNotEmpty(Lines(content), Dedup(keys).value);
    PiecesOfJoin(Placed(Lines(content), Dedup(keys).value));
  }

  lemma LinesFree(content: string)
    ensures NewlineFree(Lines(content))
  {
  }

  lemma PlacedNotEmpty(lines: seq<string>, keys: seq<string>)
    ensures Placed(lines, keys) != []
  {
    hide Prefix, Suffix;
  }

  lemma MarkersAre()
    ensures MANAGED_BEGIN == "# ssh-key-sync begin" && MANAGED_END == "# ssh-key-sync end"
  {
  }

  lemma NoFirst(lines: seq<string>, marker: string)
    ensures NoMarker(lines, marker) <==> FirstMarker(lines, marker) == |lines|
  {
    hide Trim, FirstMarker;
    FirstMarkerIs(lines, marker);
    assert lines[..|lines|] == lines;
  }

  /**
   A first block: every line of the file stays as it is, a blank line follows if the last one was not
   blank, and then the begin marker, the keys and the end marker.
   */
  lemma FirstInsertion(content: string, keys: seq<string>)
    requires Upsert(content, keys).Ok? && forall line :: line in Lines(content) ==> Trim(line) != "# ssh-key-sync begin"
    ensures var lines, d := Lines(content), Dedup(keys);
            var gap := if lines != [] && lines[|lines| - 1] != "" then [""] else [];
            d.Ok? && Pieces(Upsert(content, keys).value)
                     == lines + gap + ["# ssh-key-sync begin"] + d.value + ["# ssh-key-sync end"]
  {
    hide Trim, Lines, FirstMarker, Dedup, Upsert, Pieces;
    var lines := Lines(content);
    Written(content, keys);
    MarkersAre();
    NoFirst(lines, MANAGED_BEGIN);
    Assoc(lines + Separator(lines), [MANAGED_BEGIN] + Dedup(keys).value, [MANAGED_END]);
    Assoc(lines + Separator(lines), [MANAGED_BEGIN], Dedup(keys).value);
    AppendNil(lines + Separator(lines) + Block(Dedup(keys).value));
  }

  /**
   A later block: every line before the first begin marker and after the first end marker stays as it
   is, and between them stand the markers and the keys. Markers count up to surrounding white space.
   */
  lemma Replacement(content: string, keys: seq<string>, b: nat, e: nat)
    requires Upsert(content, keys).Ok? && b < |Lines(content)| && e < |Lines(content)|
    requires Trim(Lines(content)[b]) == "# ssh-key-sync begin" && Trim(Lines(content)[e]) == "# ssh-key-sync end"
    requires forall i :: 0 <= i < b ==> Trim(Lines(content)[i]) != "# ssh-key-sync begin"
    requires forall i :: 0 <= i < e ==> Trim(Lines(content)[i]) != "# ssh-key-sync end"
    ensures var lines, d := Lines(content), Dedup(keys);
            d.Ok? && Pieces(Upsert(content, keys).value)
                     == lines[..b] + ["# ssh-key-sync begin"] + d.value + ["# ssh-key-sync end"] + lines[e + 1..]
  {
    hide Trim, Lines, FirstMarker, Dedup, Upsert, Pieces;
    var lines := Lines(content);
    Written(content, keys);
    MarkersAre();
    FirstMarkerUnique(lines, MANAGED_BEGIN, b);
    FirstMarkerUnique(lines, MANAGED_END, e);
    Assoc(lines[..b], [MANAGED_BEGIN] + Dedup(keys).value, [MANAGED_END]);
    Assoc(lines[..b], [MANAGED_BEGIN], Dedup(keys).value);
  }

  /** The two ways to fail: a bad key, and a begin marker in a file without an end marker. */
  lemma UpdateFailsIff(content: string, keys: seq<string>)
    ensures var badKey := exists key :: key in keys && Normalize(key).Err?;
            var open_ := (exists line :: line in Lines(content) && Trim(line) == "# ssh-key-sync begin")
                         && (forall line :: line in Lines(content) ==> Trim(line) != "# ssh-key-sync end");
            (Upsert(content, keys) == Err(InvalidPublicKey) <==> badKey)
            && (Upsert(content, keys) == Err(MissingManagedEnd) <==> !badKey && open_)
  {
    hide Trim, Lines, FirstMarker, Dedup, Normalize, Placed, Join;
    DedupOkIff(keys);
    DedupError(keys);
    MarkersAre();
    NoFirst(Lines(content), MANAGED_BEGIN);
    NoFirst(Lines(content), MANAGED_END);
    assert forall key :: key in keys <==> exists i :: 0 <= i < |keys| && keys[i] == key;
  }

  lemma {:induction false} DedupError(keys: seq<string>)
    ensures Dedup(keys).Err? ==> Dedup(keys).error == InvalidPublicKey
  {
    if keys != [] {
      hide Normalize;
      DedupError(keys[..|keys| - 1]);
    }
  }

  /** The whole file when there was none: three lines for one key. */
  lemma NewFile(key: string)
    requires IsNormalized(key)
    ensures Upsert("", [key]) == Ok("# ssh-key-sync begin\n" + key + "\n# ssh-key-sync end")
  {
    hide *;
    DedupOne(key);
    EmptyFile(key);
    ThreeLines(MANAGED_BEGIN, key, MANAGED_END);
    MarkersJoined();
    UpsertPlaced("", [key], [key]);
  }

  lemma DedupOne(key: string)
    requires IsNormalized(key)
    ensures Dedup([key]) == Ok([key])
  {
    hide Dedup, Normalize;
    DedupOfDistinct([key]);
  }

  lemma EmptyFile(key: string)
    ensures !Unclosed(Lines("")) && Placed(Lines(""), [key]) == [MANAGED_BEGIN, key, MANAGED_END]
  {
    assert Lines("") == [];
  }

  lemma MarkersJoined()
    ensures MANAGED_BEGIN + "\n" == "# ssh-key-sync begin\n" && "\n" + MANAGED_END == "\n# ssh-key-sync end"
  {
  }

  lemma UpsertPlaced(content: string, keys: seq<string>, d: seq<string>)
    requires Dedup(keys) == Ok(d) && !Unclosed(Lines(content))
    ensures Upsert(content, keys) == Ok(Join(Placed(Lines(content), d), "\n"))
  {
    hide Lines, Placed, Unclosed, Dedup, Join;
  }

  lemma ThreeLines(a: string, b: string, c: string)
    ensures Join([a, b, c], "\n") == a + "\n" + b + ("\n" + c)
  {
    assert [a, b, c][1..] == [b, c] && [b, c][1..] == [c];
    assert Join([b, c], "\n") == b + "\n" + c;
    Assoc(b, "\n", c);
    Assoc(a + "\n", b, "\n" + c);
  }
}
