/** How many updates it takes until a file with ordered markers no longer changes. */
module ManagedBlockCounts {
  import opened Text
  import opened AuthorizedKeys
  import opened ManagedBlockLaws
  import opened ManagedBlockPasses

  function Max(a: nat, b: nat): nat {
    if a < b then b else a
  }

  function Less(n: nat): nat {
    if n == 0 then 0 else n - 1
  }

  /** The carriage returns at the end of a line; one goes each time the line is read before a newline. */
  function TrailingCrs(l: string): (n: nat)
    ensures n <= |l| && (n == 0 <==> !EndsCr(l))
  {
    if EndsCr(l) then 1 + TrailingCrs(l[..|l| - 1]) else 0
  }

  function MostCrs(ls: seq<string>): nat {
    if ls == [] then 0 else Max(TrailingCrs(ls[0]), MostCrs(ls[1..]))
  }

  /**
   How many of the last lines vanish. The last line goes if it is blank, and with it the newline
   that had the line before it stripped: after `k` passes a line of at most `k` carriage returns is blank.
   */
  function Vanishing(t: seq<string>, k: nat): (n: nat)
    ensures n <= |t|
  {
    if t == [] then 0
    else
      var l := t[|t| - 1];
      if TrailingCrs(l) == |l| <= k then 1 + Vanishing(t[..|t| - 1], k + 1) else 0
  }

  /** The lines that keep a newline after them to the end. */
  function Inner(t: seq<string>): seq<string> {
    var n := Vanishing(t, 0);
    if n == |t| then [] else t[..|t| - n - 1]
  }

  function TailCount(t: seq<string>): nat {
    Max(Vanishing(t, 0), MostCrs(Inner(t)))
  }

  /** The passes that kept lines `p` before a block and `t` after it need to settle. */
  function PassCount(p: seq<string>, t: seq<string>): nat {
    Max(MostCrs(p), TailCount(t))
  }

  // ---------- one pass takes one off the count ----------

  lemma StripCount(l: string)
    ensures TrailingCrs(StripCr(l)) == Less(TrailingCrs(l))
    ensures |StripCr(l)| == if EndsCr(l) then |l| - 1 else |l|
  {
  }

  lemma {:induction false} StripMost(ls: seq<string>)
    ensures MostCrs(StripAll(ls)) == Less(MostCrs(ls))
    ensures CrFree(ls) <==> MostCrs(ls) == 0
  {
    if ls != [] {
      hide TrailingCrs, StripCr, EndsCr;
      StripMost(ls[1..]);
      HeadTail(ls);
      StripCount(ls[0]);
      CrFreeCons(ls[0], ls[1..]);
      assert StripAll(ls)[0] == StripCr(ls[0]) && StripAll(ls)[1..] == StripAll(ls[1..]);
      CrsIff(ls[0]);
    }
  }

  lemma CrsIff(l: string)
    ensures TrailingCrs(l) == 0 <==> !EndsCr(l)
  {
  }

  lemma StripInit(u: seq<string>, n: nat)
    requires n <= |u|
    ensures StripAll(u)[..n] == StripAll(u[..n])
  {
  }

  lemma {:induction false} StripVanishing(u: seq<string>, k: nat)
    ensures Vanishing(StripAll(u), k) == Vanishing(u, k + 1)
    decreases |u|
  {
    if u != [] {
      hide TrailingCrs, StripCr;
      var n := |u| - 1;
      StripVanishing(u[..n], k + 1);
      StripInit(u, n);
      StripCount(u[n]);
      CrsIff(u[n]);
      assert StripAll(u)[n] == StripCr(u[n]);
    }
  }

  lemma RereadLast(t: seq<string>)
    requires t != []
    ensures var u, l := t[..|t| - 1], t[|t| - 1];
            Reread(t) == if l == "" then StripAll(u) else StripAll(u) + [l]
  {
    hide StripAll;
    var u, l := t[..|t| - 1], t[|t| - 1];
    SnocSplit(t);
    RereadAppend(u, [l]);
    AppendNil(StripAll(u));
  }

  lemma TailBlank(u: seq<string>)
    ensures var t := u + [""];
            Vanishing(t, 0) == 1 + Vanishing(u, 1)
                && Inner(t) == (if Vanishing(u, 1) == |u| then [] else u[..|u| - Vanishing(u, 1) - 1])
  {
    hide Vanishing, TrailingCrs;
    VanishingLast(u + [""]);
    assert (u + [""])[..|u|] == u;
  }

  lemma InnerStrip(u: seq<string>)
    ensures Vanishing(StripAll(u), 0) == Vanishing(u, 1)
    ensures Inner(StripAll(u)) == StripAll(if Vanishing(u, 1) == |u| then [] else u[..|u| - Vanishing(u, 1) - 1])
  {
    hide Vanishing, StripAll;
    StripVanishing(u, 0);
    StripLength(u);
    StripLength([]);
    if Vanishing(u, 1) != |u| {
      StripInit(u, |u| - Vanishing(u, 1) - 1);
    }
  }

  lemma TailKept(u: seq<string>, l: string)
    requires l != ""
    ensures Vanishing(u + [l], 0) == 0 && Inner(u + [l]) == u
  {
    hide Vanishing;
    VanishingLast(u + [l]);
    assert (u + [l])[..|u|] == u;
  }

  lemma TailStep(t: seq<string>)
    ensures TailCount(Reread(t)) == Less(TailCount(t))
    ensures Settled(t) <==> TailCount(t) == 0
  {
    hide Reread, StripAll, CrFree, MostCrs, Vanishing, Inner;
    if t == [] {
      TailEmpty();
    } else {
      var u, l := t[..|t| - 1], t[|t| - 1];
      SnocSplit(t);
      RereadLast(t);
      if l == "" {
        TailBlank(u);
        InnerStrip(u);
        StripMost(Inner(t));
      } else {
        TailKept(u, l);
        TailKept(StripAll(u), l);
        StripMost(u);
      }
    }
  }

  lemma TailEmpty()
    ensures Reread([]) == [] && TailCount([]) == 0
  {
  }

  lemma StripLength(u: seq<string>)
    ensures |StripAll(u)| == |u| && (u == [] ==> StripAll(u) == [])
  {
  }

  lemma VanishingLast(t: seq<string>)
    requires t != []
    ensures t[|t| - 1] == "" ==> Vanishing(t, 0) == 1 + Vanishing(t[..|t| - 1], 1)
    ensures t[|t| - 1] != "" ==> Vanishing(t, 0) == 0
  {
  }

  lemma CountStep(p: seq<string>, t: seq<string>)
    ensures PassCount(StripAll(p), Reread(t)) == Less(PassCount(p, t))
    ensures CrFree(p) && Settled(t) <==> PassCount(p, t) == 0
  {
    hide MostCrs, TailCount, StripAll, Reread;
    StripMost(p);
    TailStep(t);
  }

  // ---------- the exact number of passes ----------

  /** A framed block is a fixed point exactly when nothing is left to count. */
  lemma FrameFixedNow(p: seq<string>, t: seq<string>, keys: seq<string>)
    requires Frame(p, t) && Dedup(keys).Ok?
    ensures FixedAfter(Framed(p, Dedup(keys).value, t), keys, 0) <==> PassCount(p, t) == 0
  {
    hide *;
    var k := Dedup(keys).value;
    NextFrame(p, t, keys);
    FixedNow(Framed(p, k, t), keys);
    CountStep(p, t);
    StripAllSame(p);
    RereadSettled(t);
    if !(CrFree(p) && Settled(t)) {
      SameText(p, t, StripAll(p), Reread(t), keys);
      StripWeight(p);
      RereadWeight(t);
    }
  }

  /** Framed blocks of different weight are different texts. */
  lemma SameText(p: seq<string>, t: seq<string>, p': seq<string>, t': seq<string>, keys: seq<string>)
    requires Frame(p, t) && Frame(p', t') && Dedup(keys).Ok?
    ensures Weight(p) + Weight(t) != Weight(p') + Weight(t')
        ==> Framed(p, Dedup(keys).value, t) != Framed(p', Dedup(keys).value, t')
  {
    hide Weight, Dedup, NoMarker, Block, NewlineFree, AllNormalized, NoRepeats, Join;
    var k := Dedup(keys).value;
    DedupSound(keys);
    BlockShape(k);
    BlockLength(k);
    FrameLines(p, t, k);
    FrameLines(p', t', k);
    PlacedWeight(p, Block(k), t);
    PlacedWeight(p', Block(k), t');
    if Weight(p) + Weight(t) != Weight(p') + Weight(t') {
      DifferentTexts(p + Block(k) + t, p' + Block(k) + t');
    }
  }

  lemma BlockLength(k: seq<string>)
    ensures |Block(k)| == |k| + 2
  {
  }

  lemma FrameLines(p: seq<string>, t: seq<string>, k: seq<string>)
    requires NewlineFree(p) && NewlineFree(t) && NewlineFree(Block(k))
    ensures NewlineFree(p + Block(k) + t)
  {
    hide NewlineFree, Block;
    NewlineFreeAppend(p, Block(k));
    NewlineFreeAppend(p + Block(k), t);
  }

  lemma {:induction false} FrameFixedIff(p: seq<string>, t: seq<string>, keys: seq<string>, n: nat)
    requires Frame(p, t) && Dedup(keys).Ok?
    ensures FixedAfter(Framed(p, Dedup(keys).value, t), keys, n) <==> n >= PassCount(p, t)
    decreases n
  {
    hide *;
    if n == 0 {
      FrameFixedNow(p, t, keys);
    } else {
      NextFrame(p, t, keys);
      FixedLater(Framed(p, Dedup(keys).value, t), keys, n - 1);
      FrameFixedIff(StripAll(p), Reread(t), keys, n - 1);
      CountStep(p, t);
      LessIs(PassCount(p, t));
    }
  }

  lemma LessIs(n: nat)
    ensures Less(n) == if n == 0 then 0 else n - 1
  {
  }

  /**
   For every file with ordered markers: `n` updates reach a fixed point exactly when `n` exceeds the
   count, taken from the kept lines alone: the most carriage returns at the end of a line that keeps
   its newline, and the lines at the end of the file that vanish.
   */
  lemma PassCountIff(content: string, keys: seq<string>, n: nat)
    requires Upsert(content, keys).Ok? && Ordered(Lines(content)) && n >= 1
    ensures FixedAfter(content, keys, n) <==> n > PassCount(Prefix(Lines(content)), Suffix(Lines(content)))
  {
    hide *;
    FirstPass(content, keys);
    FixedLater(content, keys, n - 1);
    FrameFixedIff(Prefix(Lines(content)), Suffix(Lines(content)), keys, n - 1);
  }
}
