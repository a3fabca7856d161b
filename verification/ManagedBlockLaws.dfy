/**
 Text-level laws of the managed-block editor. An update reads lines, which drops `\r` before
 each newline and one final blank line, and writes lines joined by newlines; the laws say
 exactly for which files that is harmless.
 */
module ManagedBlockLaws {
  import opened Prelude
  import opened Text
  import opened SshKeys
  import opened AuthorizedKeys

  // ---------- reading back what was joined ----------

  predicate CrFree(ls: seq<string>) {
    forall i :: 0 <= i < |ls| ==> !EndsCr(ls[i])
  }

  function StripAll(ls: seq<string>): (r: seq<string>)
    ensures |r| == |ls|
  {
    seq(|ls|, i requires 0 <= i < |ls| => StripCr(ls[i]))
  }

  /** The lines one reads after writing `ls` joined by newlines. */
  function Reread(ls: seq<string>): seq<string> {
    if |ls| == 0 then []
    else if |ls| == 1 then if ls[0] == "" then [] else ls
    else [StripCr(ls[0])] + Reread(ls[1..])
  }

  lemma {:induction false} LinesOfJoin(ls: seq<string>)
    requires NewlineFree(ls)
    ensures Lines(Join(ls, "\n")) == Reread(ls)
  {
    if |ls| == 1 {
      HeadTail(ls);
    } else if |ls| > 1 {
      LinesOfJoin(ls[1..]);
      hide Lines;
      LinesCons(ls[0], Join(ls[1..], "\n"));
    }
  }

  lemma {:induction false} RereadAppend(a: seq<string>, b: seq<string>)
    requires b != []
    ensures Reread(a + b) == StripAll(a) + Reread(b)
  {
    hide StripCr;
    if a == [] {
      AppendNil(b);
      AppendNil(Reread(b));
    } else {
      RereadAppend(a[1..], b);
      assert (a + b)[1..] == a[1..] + b;
      assert StripAll(a) == [StripCr(a[0])] + StripAll(a[1..]);
      Assoc([StripCr(a[0])], StripAll(a[1..]), Reread(b));
    }
  }

  lemma StripAllSame(ls: seq<string>)
    ensures StripAll(ls) == ls <==> CrFree(ls)
  {
    hide StripCr, EndsCr;
    assert forall i :: 0 <= i < |ls| ==> StripAll(ls)[i] == StripCr(ls[i]);
  }

  lemma CrFreeCons(l: string, ls: seq<string>)
    ensures CrFree([l] + ls) <==> !EndsCr(l) && CrFree(ls)
  {
    hide EndsCr;
    var m := [l] + ls;
    assert m[0] == l && forall i :: 0 <= i < |ls| ==> ls[i] == m[i + 1];
    assert forall i :: 1 <= i < |m| ==> m[i] == ls[i - 1];
  }

  /** A tail that rereads as itself. */
  predicate Settled(ls: seq<string>) {
    ls == [] || (ls[|ls| - 1] != "" && CrFree(ls[..|ls| - 1]))
  }

  lemma {:induction false} RereadSettled(ls: seq<string>)
    ensures Reread(ls) == ls <==> Settled(ls)
  {
    hide StripCr, EndsCr;
    if |ls| > 1 {
      var t := ls[1..];
      RereadSettled(t);
      HeadTail(ls);
      assert Reread(ls) == [StripCr(ls[0])] + Reread(t);
      hide Reread;
      assert Reread(ls)[0] == StripCr(ls[0]) && Reread(ls)[1..] == Reread(t);
      CrFreeCons(ls[0], t[..|t| - 1]);
      assert ls[..|ls| - 1] == [ls[0]] + t[..|t| - 1];
    }
  }

  /** The length of the joined text, plus one. */
  ghost function Weight(ls: seq<string>): nat {
    if ls == [] then 0 else |ls[0]| + 1 + Weight(ls[1..])
  }

  lemma {:induction false} WeightAppend(a: seq<string>, b: seq<string>)
    ensures Weight(a + b) == Weight(a) + Weight(b)
  {
    if a == [] {
      AppendNil(b);
    } else {
      assert (a + b)[1..] == a[1..] + b;
      WeightAppend(a[1..], b);
    }
  }

  lemma {:induction false} JoinWeight(ls: seq<string>)
    requires ls != []
    ensures |Join(ls, "\n")| + 1 == Weight(ls)
  {
    if |ls| > 1 {
      JoinWeight(ls[1..]);
    }
  }

  lemma {:induction false} StripWeight(ls: seq<string>)
    ensures Weight(StripAll(ls)) <= Weight(ls)
    ensures Weight(StripAll(ls)) == Weight(ls) <==> StripAll(ls) == ls
  {
    if ls != [] {
      hide StripCr;
      StripWeight(ls[1..]);
      HeadTail(ls);
      assert StripAll(ls) == [StripCr(ls[0])] + StripAll(ls[1..]);
    }
  }

  lemma {:induction false} RereadWeight(ls: seq<string>)
    ensures Weight(Reread(ls)) <= Weight(ls) && |ls| - 1 <= |Reread(ls)| <= |ls|
    ensures Weight(Reread(ls)) == Weight(ls) <==> Reread(ls) == ls
  {
    if |ls| > 1 {
      hide StripCr;
      RereadWeight(ls[1..]);
      HeadTail(ls);
      assert Reread(ls)[0] == StripCr(ls[0]) && Reread(ls)[1..] == Reread(ls[1..]);
    }
  }

  lemma {:induction false} JoinNewlines(ls: seq<string>)
    requires NewlineFree(ls) && ls != []
    ensures Newlines(Join(ls, "\n")) == |ls| - 1
  {
    assert Newlines(ls[0]) == 0;
    if |ls| > 1 {
      JoinNewlines(ls[1..]);
    }
  }

  lemma NewlinesOf(l: string, rest: string)
    requires '\n' !in l
    ensures Newlines(l) == 0 && Newlines(l + "\n" + rest) == 1 + Newlines(rest)
  {
  }

  lemma LinesSplit(s: string) returns (l: string, rest: string)
    requires s != ""
    ensures '\n' !in s ==> Lines(s) == [s]
    ensures '\n' in s ==> s == l + "\n" + rest && '\n' !in l && Lines(s) == [StripCr(l)] + Lines(rest)
  {
    hide StripCr;
    var i := IndexOf(s, '\n');
    if i < |s| {
      l, rest := s[..i], s[i + 1..];
    } else {
      l, rest := "", "";
    }
  }

  lemma {:induction false} LinesNewlines(s: string)
    ensures Newlines(s) <= |Lines(s)|
    decreases |s|
  {
    if s != "" {
      var l, rest := LinesSplit(s);
      if '\n' in s {
        NewlinesOf(l, rest);
        hide *;
        LinesNewlines(rest);
      }
    }
  }

  // ---------- markers ----------

  lemma MarkerAppend(a: seq<string>, b: seq<string>, marker: string)
    ensures NoMarker(a + b, marker) <==> NoMarker(a, marker) && NoMarker(b, marker)
  {
    hide Trim;
    assert forall i :: 0 <= i < |a| ==> (a + b)[i] == a[i];
    assert forall i :: 0 <= i < |b| ==> b[i] == (a + b)[i + |a|];
  }

  lemma MarkerStrip(ls: seq<string>, marker: string)
    ensures NoMarker(StripAll(ls), marker) <==> NoMarker(ls, marker)
  {
    hide Trim, StripCr;
    forall i | 0 <= i < |ls|
      ensures Trim(StripAll(ls)[i]) == Trim(ls[i])
    {
      TrimStripCr(ls[i]);
    }
  }

  /** Markers are trimmed lines; a normalised key is neither of them. */
  lemma BlockShape(keys: seq<string>)
    requires AllNormalized(keys)
    ensures CrFree(Block(keys)) && NewlineFree(Block(keys)) && Settled(Block(keys))
    ensures NoMarker(keys, MANAGED_BEGIN) && NoMarker(keys, MANAGED_END)
    ensures Trim(MANAGED_BEGIN) == MANAGED_BEGIN && Trim(MANAGED_END) == MANAGED_END
  {
    assert MANAGED_BEGIN[0] == '#' && MANAGED_END[0] == '#';
    assert Trimmed(MANAGED_BEGIN) && Trimmed(MANAGED_END);
    assert !EndsCr(MANAGED_BEGIN) && !EndsCr(MANAGED_END);
    assert '\n' !in MANAGED_BEGIN && '\n' !in MANAGED_END;
    hide Trim, IsNormalized, EndsCr;
    forall i | 0 <= i < |keys|
      ensures !EndsCr(keys[i]) && '\n' !in keys[i] && Trim(keys[i]) == keys[i] && keys[i] != "" && keys[i][0] != '#'
    {
      NormalizedShape(keys[i]);
    }
    var b := Block(keys);
    assert forall i :: 0 <= i < |b| ==>
        b[i] == if i == 0 then MANAGED_BEGIN else if i <= |keys| then keys[i - 1] else MANAGED_END;
  }

  /** Where the markers are once a block stands after a prefix without them. */
  lemma MarkersAt(p: seq<string>, keys: seq<string>, t: seq<string>)
    requires AllNormalized(keys)
    ensures NoMarker(p, MANAGED_BEGIN) ==> FirstMarker(p + Block(keys) + t, MANAGED_BEGIN) == |p|
    ensures NoMarker(p, MANAGED_END) ==> FirstMarker(p + Block(keys) + t, MANAGED_END) == |p| + |keys| + 1
  {
    BlockShape(keys);
    hide Trim, FirstMarker, NoMarker;
    var m := p + Block(keys) + t;
    var e := |p| + |keys| + 1;
    assert m[..|p|] == p && m[|p|] == MANAGED_BEGIN;
    assert m[..e] == p + ([MANAGED_BEGIN] + keys) && m[e] == MANAGED_END;
    if NoMarker(p, MANAGED_BEGIN) {
      FirstMarkerUnique(m, MANAGED_BEGIN, |p|);
    }
    if NoMarker(p, MANAGED_END) {
      OneMarker();
      MarkerAppend([MANAGED_BEGIN], keys, MANAGED_END);
      MarkerAppend(p, [MANAGED_BEGIN] + keys, MANAGED_END);
      FirstMarkerUnique(m, MANAGED_END, e);
    }
  }

  lemma OneMarker()
    ensures NoMarker([MANAGED_BEGIN], MANAGED_END) && NoMarker([""], MANAGED_BEGIN) && NoMarker([""], MANAGED_END)
  {
    assert Trimmed(MANAGED_BEGIN) && Trimmed("");
    assert |MANAGED_BEGIN| != |MANAGED_END|;
  }

  // ---------- which files an update treats well ----------

  /** No end marker, or the first begin marker comes before the first end marker. */
  predicate Ordered(lines: seq<string>) {
    FirstMarker(lines, MANAGED_END) == |lines| || FirstMarker(lines, MANAGED_BEGIN) < FirstMarker(lines, MANAGED_END)
  }

  /** The files an update can be repeated on: ordered markers, and kept lines that reread as themselves. */
  predicate Stable(lines: seq<string>) {
    Ordered(lines) && CrFree(Prefix(lines)) && Settled(Suffix(lines))
  }

  lemma NewlineFreeAppend(a: seq<string>, b: seq<string>)
    ensures NewlineFree(a + b) <==> NewlineFree(a) && NewlineFree(b)
  {
    assert forall i :: 0 <= i < |a| ==> (a + b)[i] == a[i];
    assert forall i :: 0 <= i < |b| ==> b[i] == (a + b)[i + |a|];
  }

  lemma PrefixShape(lines: seq<string>)
    requires !Unclosed(lines)
    ensures NoMarker(Prefix(lines), MANAGED_BEGIN)
    ensures Ordered(lines) <==> NoMarker(Prefix(lines), MANAGED_END)
    ensures NewlineFree(lines) ==> NewlineFree(Prefix(lines)) && NewlineFree(Suffix(lines))
  {
    OneMarker();
    MarkersDiffer();
    hide Trim, FirstMarker;
    FirstMarkerIs(lines, MANAGED_BEGIN);
    FirstMarkerIs(lines, MANAGED_END);
    var b, e := FirstMarker(lines, MANAGED_BEGIN), FirstMarker(lines, MANAGED_END);
    if HasBlock(lines) {
      assert e < b ==> lines[..b][e] == lines[e];
      assert b < e ==> lines[..b] == lines[..e][..b];
    } else {
      assert lines[..b] == lines && (e == |lines| ==> lines[..e] == lines);
      MarkerAppend(lines, Separator(lines), MANAGED_BEGIN);
      MarkerAppend(lines, Separator(lines), MANAGED_END);
      NewlineFreeAppend(lines, Separator(lines));
    }
  }

  lemma MarkersDiffer()
    ensures MANAGED_BEGIN != MANAGED_END
  {
    assert |MANAGED_BEGIN| != |MANAGED_END|;
  }

  /** A second update finds the block of the first and keeps what surrounds it. */
  lemma AgainOrdered(p: seq<string>, keys: seq<string>, t: seq<string>)
    requires AllNormalized(keys) && NoMarker(p, MANAGED_BEGIN) && NoMarker(p, MANAGED_END)
    ensures var m := p + Block(keys) + t;
            HasBlock(m) && Ordered(m) && Prefix(m) == p && Suffix(m) == t
  {
    hide Trim, FirstMarker, NoMarker, IsNormalized;
    MarkersAt(p, keys, t);
    var m := p + Block(keys) + t;
    assert m[..|p|] == p;
    assert m[|p| + |keys| + 2..] == t;
  }

  lemma MarkerWithin(p: seq<string>, rest: seq<string>, marker: string)
    requires !NoMarker(p, marker)
    ensures FirstMarker(p + rest, marker) < |p|
  {
    hide Trim, FirstMarker;
    var i :| 0 <= i < |p| && Trim(p[i]) == marker;
    var m := p + rest;
    FirstMarkerIs(m, marker);
    var e := FirstMarker(m, marker);
    assert m[i] == p[i];
    assert forall j :: 0 <= j < e ==> m[..e][j] == m[j];
  }

  /** With a stray end marker first, a second update keeps the old block as well. */
  lemma AgainUnordered(p: seq<string>, keys: seq<string>, t: seq<string>)
    requires AllNormalized(keys) && NoMarker(p, MANAGED_BEGIN) && !NoMarker(p, MANAGED_END)
    ensures var m := p + Block(keys) + t;
            HasBlock(m) && !Ordered(m) && Prefix(m) == p && |Suffix(m)| >= |keys| + 2 + |t|
  {
    hide Trim, FirstMarker, IsNormalized, NoMarker;
    MarkersAt(p, keys, t);
    Assoc(p, Block(keys), t);
    MarkerWithin(p, Block(keys) + t, MANAGED_END);
    assert (p + Block(keys) + t)[..|p|] == p;
  }

  lemma StripNewlineFree(ls: seq<string>)
    requires NewlineFree(ls)
    ensures NewlineFree(StripAll(ls)) && NewlineFree(Reread(ls))
  {
    hide StripCr;
    LinesOfJoin(ls);
  }

  /** What an update writes, read back as lines. */
  lemma RereadPlaced(lines: seq<string>, keys: seq<string>)
    requires NewlineFree(lines) && !Unclosed(lines) && AllNormalized(keys)
    ensures NewlineFree(Placed(lines, keys))
    ensures Lines(Join(Placed(lines, keys), "\n")) == StripAll(Prefix(lines)) + Block(keys) + Reread(Suffix(lines))
  {
    var p, t, b := Prefix(lines), Suffix(lines), Block(keys);
    BlockShape(keys);
    PrefixShape(lines);
    StripAllSame(b);
    RereadSettled(b);
    hide *;
    NewlineFreeAppend(p, b);
    NewlineFreeAppend(p + b, t);
    assert Placed(lines, keys) == p + b + t by {
      PlacedIs(lines, keys);
    }
    LinesOfJoin(p + b + t);
    RereadBlock(p, b, t);
  }

  lemma PlacedIs(lines: seq<string>, keys: seq<string>)
    ensures Placed(lines, keys) == Prefix(lines) + Block(keys) + Suffix(lines)
  {
  }

  lemma RereadBlock(p: seq<string>, b: seq<string>, t: seq<string>)
    requires b != [] && StripAll(b) == b && Reread(b) == b
    ensures Reread(p + b + t) == StripAll(p) + b + Reread(t)
  {
    hide StripAll, StripCr;
    Assoc(p, b, t);
    RereadAppend(p, b + t);
    if t == [] {
      AppendNil(b);
      AppendNil(StripAll(p) + b);
    } else {
      RereadAppend(b, t);
      Assoc(StripAll(p), b, Reread(t));
    }
  }

  // ---------- the overwrite law ----------

  lemma UpsertIs(content: string, managedKeys: seq<string>)
    requires Upsert(content, managedKeys).Ok?
    ensures Dedup(managedKeys).Ok? && !Unclosed(Lines(content)) && AllNormalized(Dedup(managedKeys).value)
    ensures Upsert(content, managedKeys).value == Join(Placed(Lines(content), Dedup(managedKeys).value), "\n")
  {
    hide Lines, Dedup, IsNormalized, Join, Placed;
    DedupSound(managedKeys);
  }

  /** A second update, as lines. */
  lemma SecondUpdate(content: string, keys1: seq<string>, keys2: seq<string>)
    requires Upsert(content, keys1).Ok? && Upsert(content, keys2).Ok?
    ensures var lines := Lines(content);
            var k1, k2 := Dedup(keys1).value, Dedup(keys2).value;
            var m := StripAll(Prefix(lines)) + Block(k1) + Reread(Suffix(lines));
            Lines(Upsert(content, keys1).value) == m && HasBlock(m) && (Ordered(m) <==> Ordered(lines))
            && Prefix(m) == StripAll(Prefix(lines))
            && (Ordered(lines) ==> Suffix(m) == Reread(Suffix(lines)))
            && (!Ordered(lines) ==> |Suffix(m)| > |Suffix(lines)|)
            && Upsert(Upsert(content, keys1).value, keys2) == Ok(Join(Placed(m, k2), "\n"))
  {
    UpsertIs(content, keys1);
    UpsertIs(content, keys2);
    var lines := Lines(content);
    var p, t, k1 := Prefix(lines), Suffix(lines), Dedup(keys1).value;
    RereadPlaced(lines, k1);
    PrefixShape(lines);
    MarkerStrip(p, MANAGED_BEGIN);
    MarkerStrip(p, MANAGED_END);
    RereadWeight(t);
    hide Lines, Join, Dedup, StripAll, Reread, FirstMarker, NoMarker, IsNormalized, Placed, Prefix, Suffix;
    if Ordered(lines) {
      AgainOrdered(StripAll(p), k1, Reread(t));
    } else {
      AgainUnordered(StripAll(p), k1, Reread(t));
    }
  }

  lemma DifferentTexts(a: seq<string>, b: seq<string>)
    requires a != [] && b != [] && NewlineFree(a) && NewlineFree(b)
    requires Weight(a) != Weight(b) || |a| != |b|
    ensures Join(a, "\n") != Join(b, "\n")
  {
    JoinWeight(a);
    JoinWeight(b);
    JoinNewlines(a);
    JoinNewlines(b);
  }

  lemma PlacedWeight(p: seq<string>, b: seq<string>, t: seq<string>)
    ensures Weight(p + b + t) == Weight(p) + Weight(b) + Weight(t)
  {
    WeightAppend(p + b, t);
    WeightAppend(p, b);
  }

  /**
   Overwrite law: installing `keys1` and then `keys2` is installing `keys2`, exactly for the
   stable files. With `keys1 == keys2` this is idempotence.
   */
  lemma OverwriteIff(content: string, keys1: seq<string>, keys2: seq<string>)
    requires Upsert(content, keys1).Ok? && Upsert(content, keys2).Ok?
    ensures Upsert(Upsert(content, keys1).value, keys2) == Upsert(content, keys2) <==> Stable(Lines(content))
  {
    SecondUpdate(content, keys1, keys2);
    UpsertIs(content, keys1);
    UpsertIs(content, keys2);
    var lines := Lines(content);
    var p, t, k1, k2 := Prefix(lines), Suffix(lines), Dedup(keys1).value, Dedup(keys2).value;
    var m := StripAll(p) + Block(k1) + Reread(t);
    RereadPlaced(lines, k2);
    RereadPlaced(Lines(Upsert(content, keys1).value), k2);
    StripAllSame(p);
    RereadSettled(t);
    StripWeight(p);
    RereadWeight(t);
    assert |Block(k2)| == |k2| + 2;
    assert Placed(m, k2) == Prefix(m) + Block(k2) + Suffix(m);
    assert Placed(lines, k2) == p + Block(k2) + t;
    PlacedWeight(p, Block(k2), t);
    PlacedWeight(StripAll(p), Block(k2), Reread(t));
    hide Lines, Join, Dedup, StripAll, Reread, FirstMarker, IsNormalized, Placed, Prefix, Suffix, Block, Weight,
         Ordered, HasBlock, Unclosed;
    if !Stable(lines) {
      DifferentTexts(Placed(m, k2), Placed(lines, k2));
    }
  }
}
