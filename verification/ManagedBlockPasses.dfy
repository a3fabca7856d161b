/** Repeated updates of one file: when they settle, after how many passes, and what they keep. */
module ManagedBlockPasses {
  import opened Prelude
  import opened Text
  import opened SshKeys
  import opened AuthorizedKeys
  import opened ManagedBlockLaws

  /** `n` updates in a row with the same keys. */
  function Passes(content: string, keys: seq<string>, n: nat): Result<string, AuthorizedKeysError>
    decreases n
  {
    if n == 0 then Ok(content)
    else
      var next :- Upsert(content, keys);
      Passes(next, keys, n - 1)
  }

  /** After `n` updates one more changes nothing. */
  predicate FixedAfter(content: string, keys: seq<string>, n: nat) {
    Passes(content, keys, n).Ok? && Passes(content, keys, n + 1) == Passes(content, keys, n)
  }

  lemma FixedLater(content: string, keys: seq<string>, n: nat)
    requires Upsert(content, keys).Ok?
    ensures FixedAfter(content, keys, n + 1) <==> FixedAfter(Upsert(content, keys).value, keys, n)
  {
    hide Upsert;
  }

  lemma FixedNow(content: string, keys: seq<string>)
    ensures FixedAfter(content, keys, 0) <==> Upsert(content, keys) == Ok(content)
  {
    hide Upsert;
    if Upsert(content, keys).Ok? {
      assert Passes(content, keys, 1) == Passes(Upsert(content, keys).value, keys, 0);
    }
  }

  // ---------- stray end marker: every pass grows the file ----------

  lemma UnorderedLength(lines: seq<string>, k: seq<string>)
    requires !Ordered(lines) && !Unclosed(lines)
    ensures |Placed(lines, k)| >= |lines| + 2
  {
    hide FirstMarker, Separator, Trim;
    MarkersDiffer();
    FirstMarkerIs(lines, MANAGED_BEGIN);
    FirstMarkerIs(lines, MANAGED_END);
    assert |Block(k)| == |k| + 2;
    assert HasBlock(lines) ==> |Prefix(lines)| + |Suffix(lines)| >= |lines|;
    assert |Placed(lines, k)| == |Prefix(lines)| + |Block(k)| + |Suffix(lines)|;
  }

  lemma Grows(content: string, keys: seq<string>)
    requires Upsert(content, keys).Ok? && !Ordered(Lines(content))
    ensures var next := Upsert(content, keys).value;
            next != content && Upsert(next, keys).Ok? && !Ordered(Lines(next))
  {
    hide *;
    SecondUpdate(content, keys, keys);
    UpsertIs(content, keys);
    var lines, k := Lines(content), Dedup(keys).value;
    RereadPlaced(lines, k);
    UnorderedLength(lines, k);
    LinesNewlines(content);
    JoinNewlines(Placed(lines, k));
  }

  lemma {:induction false} NeverFixed(content: string, keys: seq<string>, n: nat)
    requires Upsert(content, keys).Ok? && !Ordered(Lines(content))
    ensures !FixedAfter(content, keys, n)
    decreases n
  {
    hide *;
    Grows(content, keys);
    FixedNow(content, keys);
    if n > 0 {
      FixedLater(content, keys, n - 1);
      NeverFixed(Upsert(content, keys).value, keys, n - 1);
    }
  }

  // ---------- ordered markers: the text shrinks to a fixed point ----------

  /** Kept lines around a block, none of them a marker. */
  predicate Frame(p: seq<string>, t: seq<string>) {
    NewlineFree(p) && NewlineFree(t) && NoMarker(p, MANAGED_BEGIN) && NoMarker(p, MANAGED_END)
  }

  function Framed(p: seq<string>, k: seq<string>, t: seq<string>): string {
    Join(p + Block(k) + t, "\n")
  }

  /** One more update of a framed block. */
  lemma NextFrame(p: seq<string>, t: seq<string>, keys: seq<string>)
    requires Frame(p, t) && Dedup(keys).Ok?
    ensures Frame(StripAll(p), Reread(t))
    ensures Upsert(Framed(p, Dedup(keys).value, t), keys) == Ok(Framed(StripAll(p), Dedup(keys).value, Reread(t)))
  {
    var k := Dedup(keys).value;
    DedupSound(keys);
    BlockShape(k);
    StripAllSame(Block(k));
    RereadSettled(Block(k));
    StripNewlineFree(p);
    StripNewlineFree(t);
    MarkerStrip(p, MANAGED_BEGIN);
    MarkerStrip(p, MANAGED_END);
    NewlineFreeAppend(p, Block(k));
    NewlineFreeAppend(p + Block(k), t);
    hide Lines, Join, Dedup, StripAll, Reread, NoMarker, NewlineFree, AllNormalized, NoRepeats, FirstMarker, Block,
         Settled, CrFree;
    LinesOfJoin(p + Block(k) + t);
    RereadBlock(p, Block(k), t);
    AgainOrdered(StripAll(p), k, Reread(t));
  }

  lemma {:induction false} FrameSettles(p: seq<string>, t: seq<string>, keys: seq<string>) returns (n: nat)
    requires Frame(p, t) && Dedup(keys).Ok?
    ensures FixedAfter(Framed(p, Dedup(keys).value, t), keys, n)
    decreases Weight(p) + Weight(t)
  {
    hide Frame, Framed, Dedup, StripAll, Reread, Weight, Upsert, FixedAfter, Passes;
    var k := Dedup(keys).value;
    NextFrame(p, t, keys);
    StripWeight(p);
    RereadWeight(t);
    if StripAll(p) == p && Reread(t) == t {
      FixedNow(Framed(p, k, t), keys);
      n := 0;
    } else {
      n := FrameSettles(StripAll(p), Reread(t), keys);
      FixedLater(Framed(p, k, t), keys, n);
      n := n + 1;
    }
  }

  lemma FirstPass(content: string, keys: seq<string>)
    requires Upsert(content, keys).Ok? && Ordered(Lines(content))
    ensures Dedup(keys).Ok? && Frame(Prefix(Lines(content)), Suffix(Lines(content)))
    ensures Upsert(content, keys).value == Framed(Prefix(Lines(content)), Dedup(keys).value, Suffix(Lines(content)))
  {
    UpsertIs(content, keys);
    PrefixShape(Lines(content));
    hide Prefix, Suffix, Dedup, Lines, Block, NoMarker, NewlineFree, AllNormalized, Ordered, Unclosed;
  }

  /** Repeated updates reach a fixed point exactly when the markers are ordered. */
  lemma StabilizesIff(content: string, keys: seq<string>)
    requires Upsert(content, keys).Ok?
    ensures (exists n: nat :: FixedAfter(content, keys, n)) <==> Ordered(Lines(content))
  {
    hide *;
    if Ordered(Lines(content)) {
      FirstPass(content, keys);
      var n := FrameSettles(Prefix(Lines(content)), Suffix(Lines(content)), keys);
      FixedLater(content, keys, n);
    } else {
      forall n: nat
        ensures !FixedAfter(content, keys, n)
      {
        NeverFixed(content, keys, n);
      }
    }
  }

  // ---------- counting passes: trailing blank lines go one at a time ----------

  function Blanks(k: nat): (r: seq<string>)
    ensures |r| == k
  {
    seq(k, _ => "")
  }

  /** How many of `k` blank lines `n` passes leave. */
  function Left(k: nat, n: nat): nat {
    if k < n then 0 else k - n
  }

  lemma {:induction false} RereadBlanks(k: nat)
    ensures Reread(Blanks(k)) == Blanks(Left(k, 1))
  {
    if k > 1 {
      RereadBlanks(k - 1);
      assert Blanks(k)[1..] == Blanks(k - 1);
      assert Blanks(k - 1) == [""] + Blanks(k - 2);
    }
  }

  lemma RereadTail(t: seq<string>, k: nat)
    requires CrFree(t) && Settled(t)
    ensures Reread(t + Blanks(k)) == t + Blanks(Left(k, 1))
  {
    hide Reread, StripAll, CrFree, Settled;
    RereadBlanks(k);
    if k == 0 {
      AppendNil(t);
      RereadSettled(t);
    } else {
      RereadAppend(t, Blanks(k));
      StripAllSame(t);
    }
  }

  lemma {:induction false} BlankPasses(p: seq<string>, t: seq<string>, k: nat, keys: seq<string>, n: nat)
    requires Frame(p, t + Blanks(k)) && Dedup(keys).Ok? && CrFree(p) && CrFree(t) && Settled(t)
    ensures Passes(Framed(p, Dedup(keys).value, t + Blanks(k)), keys, n)
         == Ok(Framed(p, Dedup(keys).value, t + Blanks(Left(k, n))))
    decreases n
  {
    hide Frame, Framed, Dedup, StripAll, Reread, Blanks, Upsert, CrFree, Settled;
    if n > 0 {
      NextFrame(p, t + Blanks(k), keys);
      StripAllSame(p);
      RereadTail(t, k);
      BlankPasses(p, t, Left(k, 1), keys, n - 1);
    }
  }

  lemma FramedDiffer(p: seq<string>, b: seq<string>, t: seq<string>, j: nat)
    requires NewlineFree(p + b + (t + Blanks(j))) && NewlineFree(p + b + (t + Blanks(j + 1))) && b != []
    ensures Join(p + b + (t + Blanks(j)), "\n") != Join(p + b + (t + Blanks(j + 1)), "\n")
  {
    hide NewlineFree, Join;
    DifferentTexts(p + b + (t + Blanks(j)), p + b + (t + Blanks(j + 1)));
  }

  lemma FrameNewlineFree(p: seq<string>, k: seq<string>, t: seq<string>, j: nat)
    requires NewlineFree(p) && NewlineFree(t) && AllNormalized(k)
    ensures NewlineFree(p + Block(k) + (t + Blanks(j)))
  {
    BlockShape(k);
    assert NewlineFree(Blanks(j));
    hide NewlineFree, Block;
    NewlineFreeAppend(t, Blanks(j));
    NewlineFreeAppend(p, Block(k));
    NewlineFreeAppend(p + Block(k), t + Blanks(j));
  }

  lemma TailDiffer(p: seq<string>, d: seq<string>, t: seq<string>, j: nat)
    requires NewlineFree(p) && NewlineFree(t) && AllNormalized(d)
    ensures Framed(p, d, t + Blanks(j)) != Framed(p, d, t + Blanks(j + 1))
  {
    FrameNewlineFree(p, d, t, j);
    FrameNewlineFree(p, d, t, j + 1);
    assert Block(d) != [];
    FramedDiffer(p, Block(d), t, j);
  }

  /** A well-ordered block that rereads as itself, followed by `k` blank lines. */
  predicate BlankTailed(lines: seq<string>, t: seq<string>, k: nat) {
    Ordered(lines) && CrFree(Prefix(lines)) && Suffix(lines) == t + Blanks(k) && CrFree(t) && Settled(t)
  }

  lemma BlankTailText(content: string, keys: seq<string>, t: seq<string>, k: nat, n: nat)
    requires Upsert(content, keys).Ok? && BlankTailed(Lines(content), t, k)
    ensures Dedup(keys).Ok?
    ensures Passes(content, keys, n + 1)
            == Ok(Framed(Prefix(Lines(content)), Dedup(keys).value, t + Blanks(Left(k, n))))
  {
    FirstPass(content, keys);
    hide Lines, Dedup, Prefix, Suffix, Ordered, CrFree, Settled, Upsert, Framed, Frame, Blanks;
    BlankPasses(Prefix(Lines(content)), t, k, keys, n);
  }

  /**
   Every pass after the first removes exactly one trailing blank line and nothing else, so the
   file is fixed after `k + 1` passes and not before.
   */
  lemma BlankTail(content: string, keys: seq<string>, t: seq<string>, k: nat, n: nat)
    requires Upsert(content, keys).Ok? && BlankTailed(Lines(content), t, k) && n >= 1
    ensures Passes(content, keys, n)
         == Ok(Framed(Prefix(Lines(content)), Dedup(keys).value, t + Blanks(Left(k, n - 1))))
    ensures FixedAfter(content, keys, n) <==> n > k
  {
    hide *;
    BlankTailText(content, keys, t, k, n - 1);
    BlankTailText(content, keys, t, k, n);
    FixedMeans(content, keys, n);
    LeftNext(k, n);
    if n <= k {
      TailPieces(content, keys, t, k);
      TailDiffer(Prefix(Lines(content)), Dedup(keys).value, t, k - n);
    }
  }

  lemma TailPieces(content: string, keys: seq<string>, t: seq<string>, k: nat)
    requires Upsert(content, keys).Ok? && BlankTailed(Lines(content), t, k)
    ensures NewlineFree(Prefix(Lines(content))) && NewlineFree(t) && AllNormalized(Dedup(keys).value)
  {
    UpsertIs(content, keys);
    FirstPass(content, keys);
    hide Lines, Dedup, Prefix, Suffix, CrFree, Settled, Upsert, Framed, Blanks, NewlineFree;
    NewlineFreeAppend(t, Blanks(k));
  }

  lemma LeftNext(k: nat, n: nat)
    requires n >= 1
    ensures n <= k ==> Left(k, n - 1) == k - n + 1 && Left(k, n) == k - n
    ensures n > k ==> Left(k, n - 1) == Left(k, n) == 0
  {
  }

  lemma FixedMeans(content: string, keys: seq<string>, n: nat)
    ensures FixedAfter(content, keys, n)
            <==> Passes(content, keys, n).Ok? && Passes(content, keys, n + 1) == Passes(content, keys, n)
  {
  }

  // ---------- what an update keeps ----------

  /** The lines before the first begin marker and after the first end marker; all of them when there is no block. */
  function Outside(lines: seq<string>): seq<string> {
    if HasBlock(lines) then lines[..FirstMarker(lines, MANAGED_BEGIN)] + lines[FirstMarker(lines, MANAGED_END) + 1..]
    else lines
  }

  /** The lines an update keeps: those outside, and a blank line before a first block that would follow text. */
  function Kept(lines: seq<string>): seq<string> {
    if HasBlock(lines) || lines == [] || lines[|lines| - 1] == "" then Outside(lines) else lines + [""]
  }

  lemma KeptIs(lines: seq<string>)
    ensures Prefix(lines) + Suffix(lines) == Kept(lines)
  {
    hide FirstMarker;
    AppendNil(lines);
    AppendNil(lines + [""]);
  }

  /** The lines between the markers. */
  function ManagedKeys(lines: seq<string>): seq<string>
    requires HasBlock(lines) && Ordered(lines)
  {
    lines[FirstMarker(lines, MANAGED_BEGIN) + 1..FirstMarker(lines, MANAGED_END)]
  }

  /** The non-blank lines, trimmed, in order. */
  function Visible(lines: seq<string>): seq<string> {
    if lines == [] then []
    else (if Trim(lines[0]) == "" then [] else [Trim(lines[0])]) + Visible(lines[1..])
  }

  lemma {:induction false} VisibleAppend(a: seq<string>, b: seq<string>)
    ensures Visible(a + b) == Visible(a) + Visible(b)
  {
    hide Trim;
    if a == [] {
      AppendNil(b);
      AppendNil(Visible(b));
    } else {
      assert (a + b)[1..] == a[1..] + b;
      VisibleAppend(a[1..], b);
      Assoc(if Trim(a[0]) == "" then [] else [Trim(a[0])], Visible(a[1..]), Visible(b));
    }
  }

  lemma {:induction false} VisibleStrip(ls: seq<string>)
    ensures Visible(StripAll(ls)) == Visible(ls)
  {
    hide Trim, StripCr, Visible, StripAll;
    if ls == [] {
      StripParts(ls);
    } else {
      StripParts(ls);
      TrimStripCr(ls[0]);
      VisibleStrip(ls[1..]);
      HeadTail(ls);
      VisibleCons(ls[0], ls[1..]);
      VisibleCons(StripCr(ls[0]), StripAll(ls[1..]));
    }
  }

  lemma StripParts(ls: seq<string>)
    ensures ls == [] ==> StripAll(ls) == ls
    ensures ls != [] ==> StripAll(ls) == [StripCr(ls[0])] + StripAll(ls[1..])
  {
    hide StripCr;
  }

  lemma VisibleCons(l: string, ls: seq<string>)
    ensures Visible([l] + ls) == (if Trim(l) == "" then [] else [Trim(l)]) + Visible(ls)
  {
    hide Trim;
    assert ([l] + ls)[1..] == ls;
  }

  lemma {:induction false} VisibleReread(ls: seq<string>)
    ensures Visible(Reread(ls)) == Visible(ls)
  {
    hide Trim, StripCr;
    if |ls| == 1 {
      BlankIsInvisible();
      HeadTail(ls);
    } else if |ls| > 1 {
      TrimStripCr(ls[0]);
      assert Reread(ls)[1..] == Reread(ls[1..]);
      VisibleReread(ls[1..]);
    }
  }

  lemma BlankIsInvisible()
    ensures Visible([""]) == [] && Visible([]) == []
  {
    assert Trimmed("");
  }

  /** Kept lines are visible as before, whether or not the file had a block. */
  lemma VisibleKept(lines: seq<string>)
    ensures Visible(Prefix(lines) + Suffix(lines)) == Visible(Outside(lines))
  {
    hide Visible, FirstMarker;
    if !HasBlock(lines) {
      AppendNil(lines + Separator(lines));
      VisibleAppend(lines, Separator(lines));
      BlankIsInvisible();
      AppendNil(Visible(lines));
    }
  }

  /**
   After an update of a file with ordered markers the block holds exactly the normalised keys. The
   outside lines are the kept lines to the letter exactly when the file is stable.
   */
  lemma UpdatePreserves(content: string, keys: seq<string>)
    requires Upsert(content, keys).Ok? && Ordered(Lines(content))
    ensures var lines, after := Lines(content), Lines(Upsert(content, keys).value);
            HasBlock(after) && Ordered(after)
            && ManagedKeys(after) == Dedup(keys).value
            && Visible(Outside(after)) == Visible(Outside(lines))
            && (Outside(after) == Kept(lines) <==> Stable(lines))
  {
    hide *;
    UpsertIs(content, keys);
    var lines, k := Lines(content), Dedup(keys).value;
    var p, t := Prefix(lines), Suffix(lines);
    SecondUpdate(content, keys, keys);
    FirstPass(content, keys);
    NextFrame(p, t, keys);
    BlockAt(StripAll(p), k, Reread(t));
    VisibleKeptLines(lines);
    KeptIff(lines);
    KeptIs(lines);
  }

  /** Kept lines stay visible through one rereading. */
  lemma VisibleKeptLines(lines: seq<string>)
    ensures Visible(StripAll(Prefix(lines)) + Reread(Suffix(lines))) == Visible(Outside(lines))
  {
    hide *;
    var p, t := Prefix(lines), Suffix(lines);
    VisibleAppend(StripAll(p), Reread(t));
    VisibleStrip(p);
    VisibleReread(t);
    VisibleAppend(p, t);
    VisibleKept(lines);
  }

  /** Kept lines reread as themselves exactly in a stable file. */
  lemma KeptIff(lines: seq<string>)
    requires Ordered(lines)
    ensures StripAll(Prefix(lines)) + Reread(Suffix(lines)) == Prefix(lines) + Suffix(lines) <==> Stable(lines)
  {
    var p, t := Prefix(lines), Suffix(lines);
    hide StripAll, Reread, Prefix, Suffix, CrFree, Settled, Weight, Ordered;
    StripAllSame(p);
    RereadSettled(t);
    WeightAppend(p, t);
    WeightAppend(StripAll(p), Reread(t));
    StripWeight(p);
    RereadWeight(t);
  }

  lemma VisibleMarkers(keys: seq<string>)
    ensures |Visible(Block(keys))| >= 2
  {
    var b, k, e := [MANAGED_BEGIN], keys, [MANAGED_END];
    assert Block(keys) == b + k + e;
    VisibleAppend(b + k, e);
    VisibleAppend(b, k);
    MarkersVisible();
  }

  lemma MarkersVisible()
    ensures |Visible([MANAGED_BEGIN])| == 1 && |Visible([MANAGED_END])| == 1
  {
    hide Trim, Visible;
    TrimmedMarkers();
    VisibleOne(MANAGED_BEGIN);
    VisibleOne(MANAGED_END);
  }

  lemma VisibleOne(l: string)
    requires Trim(l) != ""
    ensures |Visible([l])| == 1
  {
    hide Trim;
    assert [l][1..] == [] && Visible([]) == [];
  }

  /** The lines outside a block with a stray end marker before it: the old block shows up among them. */
  lemma UnorderedOutside(p: seq<string>, k: seq<string>, t: seq<string>)
    requires AllNormalized(k) && NoMarker(p, MANAGED_BEGIN) && !NoMarker(p, MANAGED_END)
    ensures |Visible(Outside(p + Block(k) + t))| >= |Visible(p)| + 2 + |Visible(t)|
  {
    hide Trim, Visible, Block, NoMarker, IsNormalized, FirstMarker;
    var m := p + Block(k) + t;
    AgainUnordered(p, k, t);
    Assoc(p, Block(k), t);
    MarkerWithin(p, Block(k) + t, MANAGED_END);
    var e := FirstMarker(m, MANAGED_END);
    assert m[e + 1..] == p[e + 1..] + Block(k) + t;
    VisibleAppend(p, Suffix(m));
    VisibleAppend(p[e + 1..] + Block(k), t);
    VisibleAppend(p[e + 1..], Block(k));
    VisibleMarkers(k);
  }

  /**
   For every file that can be updated: the visible lines outside the block are kept exactly when the
   markers are ordered. Behind a stray end marker the old block is kept as if it were the user's.
   */
  lemma OutsideKeptIff(content: string, keys: seq<string>)
    requires Upsert(content, keys).Ok?
    ensures Visible(Outside(Lines(Upsert(content, keys).value))) == Visible(Outside(Lines(content)))
            <==> Ordered(Lines(content))
  {
    hide *;
    if Ordered(Lines(content)) {
      UpdatePreserves(content, keys);
    } else {
      UpsertIs(content, keys);
      var lines, k := Lines(content), Dedup(keys).value;
      SecondUpdate(content, keys, keys);
      UnorderedAfter(lines);
      UnorderedOutside(StripAll(Prefix(lines)), k, Reread(Suffix(lines)));
      VisibleKeptLines(lines);
      VisibleAppend(StripAll(Prefix(lines)), Reread(Suffix(lines)));
    }
  }

  lemma UnorderedAfter(lines: seq<string>)
    requires !Ordered(lines) && !Unclosed(lines)
    ensures NoMarker(StripAll(Prefix(lines)), MANAGED_BEGIN) && !NoMarker(StripAll(Prefix(lines)), MANAGED_END)
  {
    hide *;
    PrefixShape(lines);
    MarkerStrip(Prefix(lines), MANAGED_BEGIN);
    MarkerStrip(Prefix(lines), MANAGED_END);
  }

  lemma BlockAt(p: seq<string>, k: seq<string>, t: seq<string>)
    requires Frame(p, t) && AllNormalized(k)
    ensures var m := p + Block(k) + t; HasBlock(m) && Ordered(m) && ManagedKeys(m) == k && Outside(m) == p + t
  {
    hide Trim, FirstMarker, NoMarker, IsNormalized, Prefix, Suffix, Block, NewlineFree;
    AgainOrdered(p, k, t);
    MarkersAt(p, k, t);
    BlockSlices(p, k, t);
  }

  lemma BlockSlices(p: seq<string>, k: seq<string>, t: seq<string>)
    ensures var m := p + Block(k) + t;
            |m| == |p| + |k| + 2 + |t| && m[..|p|] == p && m[|p| + 1..|p| + |k| + 1] == k && m[|p| + |k| + 2..] == t
  {
  }

  // ---------- files on which the documented behaviour fails ----------

  /** A closed empty block and a blank line. */
  const BLANK_AFTER: string := MANAGED_BEGIN + "\n" + (MANAGED_END + "\n" + ("" + "\n" + ""))

  /** A closed empty block behind a stray end marker. */
  const STRAY_END: string := MANAGED_END + "\n" + (MANAGED_BEGIN + "\n" + (MANAGED_END + "\n" + ""))

  lemma ExampleLines()
    ensures Lines(BLANK_AFTER) == [MANAGED_BEGIN, MANAGED_END, ""]
    ensures Lines(STRAY_END) == [MANAGED_END, MANAGED_BEGIN, MANAGED_END]
  {
    MarkerLines();
    hide Lines, StripCr;
    TwoLines(MANAGED_BEGIN, MANAGED_END, "" + "\n" + "");
    LinesCons("", "");
    TwoLines(MANAGED_END, MANAGED_BEGIN, MANAGED_END + "\n" + "");
    LinesCons(MANAGED_END, "");
  }

  lemma TwoLines(a: string, b: string, rest: string)
    requires StripCr(a) == a && StripCr(b) == b && '\n' !in a && '\n' !in b
    ensures Lines(a + "\n" + (b + "\n" + rest)) == [a, b] + Lines(rest)
  {
    hide Lines, StripCr;
    LinesCons(b, rest);
    LinesCons(a, b + "\n" + rest);
  }

  lemma MarkerLines()
    ensures StripCr(MANAGED_BEGIN) == MANAGED_BEGIN && StripCr(MANAGED_END) == MANAGED_END && StripCr("") == ""
    ensures '\n' !in MANAGED_BEGIN && '\n' !in MANAGED_END && Lines("") == []
  {
  }

  lemma TrimmedMarkers()
    ensures Trim(MANAGED_BEGIN) == MANAGED_BEGIN && Trim(MANAGED_END) == MANAGED_END && MANAGED_BEGIN != MANAGED_END
  {
    hide Trim;
    BlockShape([]);
    MarkersDiffer();
  }

  /** On the first file the markers are ordered, but the blank line does not reread as itself. */
  lemma BlankAfterUnstable()
    ensures Dedup([]) == Ok([]) && Ordered(Lines(BLANK_AFTER)) && !Unclosed(Lines(BLANK_AFTER))
            && !Stable(Lines(BLANK_AFTER))
  {
    hide Lines, Trim, FirstMarker;
    ExampleLines();
    TrimmedMarkers();
    var lines := Lines(BLANK_AFTER);
    FirstMarkerUnique(lines, MANAGED_BEGIN, 0);
    FirstMarkerUnique(lines, MANAGED_END, 1);
    assert Suffix(lines) == [""];
  }

  /** On the second file the markers are not ordered. */
  lemma StrayEndUnordered()
    ensures !Ordered(Lines(STRAY_END)) && !Unclosed(Lines(STRAY_END)) && Dedup([]) == Ok([])
  {
    hide Lines, Trim, FirstMarker;
    ExampleLines();
    TrimmedMarkers();
    var lines := Lines(STRAY_END);
    FirstMarkerUnique(lines, MANAGED_BEGIN, 1);
    FirstMarkerUnique(lines, MANAGED_END, 0);
  }

  lemma UpsertOk(content: string, keys: seq<string>)
    requires Dedup(keys).Ok? && !Unclosed(Lines(content))
    ensures Upsert(content, keys).Ok?
  {
    hide Dedup, Unclosed, Lines, Placed;
  }

  /**
   A blank last line: an update does not keep the lines outside the block to the letter, and
   applying the same keys twice is not applying them once.
   */
  lemma NotIdempotentExample()
    ensures Upsert(BLANK_AFTER, []).Ok? && Upsert(Upsert(BLANK_AFTER, []).value, []) != Upsert(BLANK_AFTER, [])
    ensures var lines, after := Lines(BLANK_AFTER), Lines(Upsert(BLANK_AFTER, []).value);
            Outside(after) != Kept(lines)
  {
    hide *;
    BlankAfterUnstable();
    UpsertOk(BLANK_AFTER, []);
    OverwriteIff(BLANK_AFTER, [], []);
    UpdatePreserves(BLANK_AFTER, []);
  }

  /** A stray end marker: an update adds to the visible lines outside the block. */
  lemma NotPreservedExample()
    ensures Upsert(STRAY_END, []).Ok?
    ensures Visible(Outside(Lines(Upsert(STRAY_END, []).value))) != Visible(Outside(Lines(STRAY_END)))
  {
    hide *;
    StrayEndUnordered();
    UpsertOk(STRAY_END, []);
    OutsideKeptIff(STRAY_END, []);
  }
}
