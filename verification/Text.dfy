/**
 The string operations the program takes from its standard library: `lines`, `trim`,
 `split_once`, `rsplit_once`, `split_whitespace`, `join`, and unsigned decimals.
 A string is a sequence of Unicode scalar values.
 */
module Text {
  import opened Prelude

  lemma Assoc<T>(a: seq<T>, b: seq<T>, c: seq<T>)
    ensures (a + b) + c == a + (b + c)
  {
  }

  lemma AppendNil<T>(a: seq<T>)
    ensures a + [] == a && [] + a == a
  {
  }

  lemma SnocSplit<T>(a: seq<T>)
    requires a != []
    ensures a == a[..|a| - 1] + [a[|a| - 1]]
  {
  }

  lemma HeadTail<T>(a: seq<T>)
    requires a != []
    ensures a == [a[0]] + a[1..]
  {
  }

  /** The Unicode White_Space property. */
  predicate IsWs(c: char) {
    var n := c as int;
    9 <= n <= 13 || n == 0x20 || n == 0x85 || n == 0xA0 || n == 0x1680 || 0x2000 <= n <= 0x200A
    || n == 0x2028 || n == 0x2029 || n == 0x202F || n == 0x205F || n == 0x3000
  }

  /** The first position of `c` in `s`, or `|s|` when there is none. */
  function IndexOf(s: string, c: char): (i: nat)
    ensures i <= |s| && c !in s[..i]
    ensures i < |s| ==> s[i] == c
    ensures c in s <==> i < |s|
  {
    if s == "" then 0 else if s[0] == c then 0 else
      var i := IndexOf(s[1..], c);
      assert s[..i + 1] == [s[0]] + s[1..][..i];
      i + 1
  }

  lemma IndexOfUnique(s: string, c: char, i: nat)
    requires i <= |s| && c !in s[..i]
    requires i == |s| || s[i] == c
    ensures IndexOf(s, c) == i
  {
    var j := IndexOf(s, c);
    assert forall k :: 0 <= k < i ==> s[..i][k] == s[k];
    assert forall k :: 0 <= k < j ==> s[..j][k] == s[k];
  }

  // ---------- split_once and rsplit_once ----------

  function SplitOnce(s: string, c: char): (r: Option<(string, string)>)
    ensures r.None? <==> c !in s
    ensures r.Some? ==> s == r.value.0 + [c] + r.value.1 && c !in r.value.0
  {
    var i := IndexOf(s, c);
    if i == |s| then None else Some((s[..i], s[i + 1..]))
  }

  lemma SplitOnceAt(a: string, c: char, b: string)
    requires c !in a
    ensures SplitOnce(a + [c] + b, c) == Some((a, b))
  {
    var s := a + [c] + b;
    assert s[..|a|] == a && s[|a|] == c && s[|a| + 1..] == b;
    IndexOfUnique(s, c, |a|);
  }

  function RSplitOnce(s: string, c: char): (r: Option<(string, string)>)
    ensures r.None? <==> c !in s
    ensures r.Some? ==> s == r.value.0 + [c] + r.value.1 && c !in r.value.1
  {
    if s == "" then None
    else
      var n := |s| - 1;
      if s[n] == c then Some((s[..n], ""))
      else
        assert s == s[..n] + [s[n]];
        match RSplitOnce(s[..n], c)
        case None => None
        case Some((a, b)) => Some((a, b + [s[n]]))
  }

  lemma LastSplit(s: string, c: char, a: string, b: string, x: string, y: string)
    requires s == a + [c] + b && s == x + [c] + y && c !in b && c !in y
    ensures a == x && b == y
  {
    assert s[|a|] == c && s[|x|] == c;
    assert forall k :: |x| < k < |s| ==> s[k] == y[k - |x| - 1];
    assert forall k :: |a| < k < |s| ==> s[k] == b[k - |a| - 1];
    assert |a| == |x|;
    assert a == s[..|a|] && x == s[..|x|];
    assert b == s[|a| + 1..] && y == s[|x| + 1..];
  }

  lemma RSplitOnceAt(a: string, c: char, b: string)
    requires c !in b
    ensures RSplitOnce(a + [c] + b, c) == Some((a, b))
  {
    var s := a + [c] + b;
    var (x, y) := RSplitOnce(s, c).value;
    LastSplit(s, c, a, b, x, y);
  }

  // ---------- trim ----------

  predicate Trimmed(s: string) {
    s == "" || (!IsWs(s[0]) && !IsWs(s[|s| - 1]))
  }

  predicate AllWs(s: string) {
    forall i :: 0 <= i < |s| ==> IsWs(s[i])
  }

  predicate NoWs(s: string) {
    forall i :: 0 <= i < |s| ==> !IsWs(s[i])
  }

  lemma AllWsAppend(a: string, b: string)
    ensures AllWs(a + b) <==> AllWs(a) && AllWs(b)
  {
    hide IsWs;
    assert forall i :: 0 <= i < |a| ==> (a + b)[i] == a[i];
    assert forall i :: 0 <= i < |b| ==> b[i] == (a + b)[i + |a|];
  }

  function TrimStart(s: string): (r: string)
    ensures r == "" || !IsWs(r[0])
    ensures |r| <= |s| && r == s[|s| - |r|..] && AllWs(s[..|s| - |r|])
  {
    if s != "" && IsWs(s[0]) then
      var r := TrimStart(s[1..]);
      assert s[..|s| - |r|] == [s[0]] + s[1..][..|s| - 1 - |r|];
      r
    else s
  }

  function TrimEnd(s: string): (r: string)
    ensures r == "" || !IsWs(r[|r| - 1])
    ensures |r| <= |s| && r == s[..|r|] && AllWs(s[|r|..])
  {
    if s != "" && IsWs(s[|s| - 1]) then
      var r := TrimEnd(s[..|s| - 1]);
      assert s[|r|..] == s[..|s| - 1][|r|..] + [s[|s| - 1]];
      r
    else s
  }

  function Trim(s: string): (r: string)
    ensures Trimmed(r)
    ensures Trimmed(s) ==> r == s
    ensures forall c :: c in r ==> c in s
  {
    var t := TrimStart(s);
    var r := TrimEnd(t);
    assert r != "" ==> r[0] == t[0];
    r
  }

  lemma TrimStartUnique(w: string, t: string)
    requires AllWs(w) && (t == "" || !IsWs(t[0]))
    ensures TrimStart(w + t) == t
  {
    hide IsWs;
    var s := w + t;
    var r := TrimStart(s);
    assert t != "" ==> s[|w|] == t[0];
    assert r != "" ==> s[|s| - |r|] == r[0];
    assert forall k :: 0 <= k < |w| ==> s[k] == w[k];
    assert forall k :: 0 <= k < |s| - |r| ==> s[k] == s[..|s| - |r|][k];
    assert s[|w|..] == t;
  }

  lemma TrimEndUnique(t: string, w: string)
    requires AllWs(w) && (t == "" || !IsWs(t[|t| - 1]))
    ensures TrimEnd(t + w) == t
  {
    hide IsWs;
    var s := t + w;
    var r := TrimEnd(s);
    assert t != "" ==> s[|t| - 1] == t[|t| - 1];
    assert r != "" ==> s[|r| - 1] == r[|r| - 1];
    assert forall k :: |t| <= k < |s| ==> s[k] == w[k - |t|];
    assert forall k :: |r| <= k < |s| ==> s[k] == s[|r|..][k - |r|];
    assert s[..|t|] == t;
  }

  /** `Trim` strips exactly the white space around a trimmed core. */
  lemma TrimUnique(w1: string, t: string, w2: string)
    requires AllWs(w1) && AllWs(w2) && Trimmed(t)
    ensures Trim(w1 + t + w2) == t
  {
    hide IsWs;
    if t == "" {
      assert AllWs(w1 + t + w2) by { assert w1 + t + w2 == w1 + w2; }
      TrimStartUnique(w1 + t + w2, "");
      assert w1 + t + w2 + "" == w1 + t + w2;
    } else {
      assert w1 + t + w2 == w1 + (t + w2);
      TrimStartUnique(w1, t + w2);
      TrimEndUnique(t, w2);
    }
  }

  lemma StartParts(s: string) returns (w: string)
    ensures AllWs(w) && s == w + TrimStart(s)
  {
    hide IsWs, AllWs;
    w := s[..|s| - |TrimStart(s)|];
  }

  lemma EndParts(s: string) returns (w: string)
    ensures AllWs(w) && s == TrimEnd(s) + w
  {
    hide IsWs, AllWs;
    w := s[|TrimEnd(s)|..];
  }

  lemma TrimIs(s: string)
    ensures Trim(s) == TrimEnd(TrimStart(s)) && Trimmed(Trim(s))
  {
    hide IsWs, TrimStart, TrimEnd, Trimmed;
  }

  lemma TrimParts(s: string) returns (a: string, r: string, b: string)
    ensures s == a + r + b && AllWs(a) && AllWs(b) && Trimmed(r)
  {
    hide *;
    TrimIs(s);
    a := StartParts(s);
    b := EndParts(TrimStart(s));
    r := Trim(s);
    Assoc(a, r, b);
  }

  /** Trimming sees through white space added at the end. */
  lemma TrimTrailing(s: string, c: char)
    requires IsWs(c)
    ensures Trim(s + [c]) == Trim(s)
  {
    assert AllWs([c]);
    hide *;
    var a, r, b := TrimParts(s);
    TrimUnique(a, r, b);
    AllWsAppend(b, [c]);
    Assoc(a + r, b, [c]);
    TrimUnique(a, r, b + [c]);
  }

  // ---------- lines ----------

  predicate EndsCr(s: string) {
    s != "" && s[|s| - 1] == '\r'
  }

  function StripCr(s: string): (r: string)
    ensures |r| <= |s| && (|r| == |s| <==> r == s) && (r == s <==> !EndsCr(s))
    ensures forall c :: c in r ==> c in s
  {
    if EndsCr(s) then s[..|s| - 1] else s
  }

  lemma TrimStripCr(s: string)
    ensures Trim(StripCr(s)) == Trim(s)
  {
    assert IsWs('\r');
    hide IsWs;
    if EndsCr(s) {
      assert s == StripCr(s) + ['\r'];
      TrimTrailing(StripCr(s), '\r');
    }
  }

  /** Split at newlines, drop one `\r` before each newline, no final empty line. */
  function Lines(s: string): (r: seq<string>)
    ensures NewlineFree(r)
    decreases |s|
  {
    if s == "" then []
    else
      var i := IndexOf(s, '\n');
      if i == |s| then [s] else [StripCr(s[..i])] + Lines(s[i + 1..])
  }

  lemma LinesCons(l: string, rest: string)
    requires '\n' !in l
    ensures Lines(l + "\n" + rest) == [StripCr(l)] + Lines(rest)
  {
    var s := l + "\n" + rest;
    assert s[..|l|] == l && s[|l|] == '\n' && s[|l| + 1..] == rest;
    IndexOfUnique(s, '\n', |l|);
  }

  lemma LinesParts(a: string) returns (l: string, r: string)
    requires a != "" && a[|a| - 1] == '\n'
    ensures a == l + "\n" + r && '\n' !in l && (r == "" || r[|r| - 1] == '\n')
  {
    var i := IndexOf(a, '\n');
    l, r := a[..i], a[i + 1..];
  }

  lemma {:induction false} LinesAppend(a: string, b: string)
    requires a == "" || a[|a| - 1] == '\n'
    ensures Lines(a + b) == Lines(a) + Lines(b)
    decreases |a|
  {
    if a == "" {
      assert a + b == b;
    } else {
      hide *;
      var l, r := LinesParts(a);
      LinesCons(l, r);
      Assoc(l + "\n", r, b);
      LinesCons(l, r + b);
      LinesAppend(r, b);
      Assoc([StripCr(l)], Lines(r), Lines(b));
    }
  }

  // ---------- join ----------

  function Join(parts: seq<string>, sep: string): string {
    if |parts| == 0 then ""
    else if |parts| == 1 then parts[0]
    else parts[0] + sep + Join(parts[1..], sep)
  }

  // ---------- split_whitespace ----------

  predicate Token(s: string) {
    s != "" && NoWs(s)
  }

  predicate AllTokens(ts: seq<string>) {
    forall i :: 0 <= i < |ts| ==> Token(ts[i])
  }

  predicate NewlineFree(ls: seq<string>) {
    forall i :: 0 <= i < |ls| ==> '\n' !in ls[i]
  }

  function TokenLen(s: string): (n: nat)
    ensures n <= |s| && NoWs(s[..n])
    ensures n < |s| ==> IsWs(s[n])
  {
    if s == "" || IsWs(s[0]) then 0 else
      var n := TokenLen(s[1..]);
      assert s[..n + 1] == [s[0]] + s[1..][..n];
      n + 1
  }

  lemma TokenLenUnique(t: string, rest: string)
    requires NoWs(t) && (rest == "" || IsWs(rest[0]))
    ensures TokenLen(t + rest) == |t|
  {
    hide IsWs;
    var s := t + rest;
    var n := TokenLen(s);
    assert rest != "" ==> s[|t|] == rest[0];
    assert forall k :: 0 <= k < |t| ==> s[k] == t[k];
    assert forall k :: 0 <= k < n ==> s[k] == s[..n][k];
  }

  lemma FirstToken(t: string)
    requires t != "" && !IsWs(t[0])
    ensures TokenLen(t) > 0 && Token(t[..TokenLen(t)])
  {
    hide IsWs;
  }

  lemma TokensCons(t: string, ts: seq<string>)
    requires Token(t) && AllTokens(ts)
    ensures AllTokens([t] + ts)
  {
    hide Token;
  }

  function SplitWs(s: string): (r: seq<string>)
    ensures AllTokens(r)
    decreases |s|
  {
    hide IsWs, NoWs, AllWs, AllTokens, Token;
    NoTokens();
    var t := TrimStart(s);
    if t == "" then []
    else
      FirstToken(t);
      var n := TokenLen(t);
      TokensCons(t[..n], SplitWs(t[n..]));
      [t[..n]] + SplitWs(t[n..])
  }

  lemma NoTokens()
    ensures AllTokens([])
  {
  }

  lemma SplitWsCons(w: string, t: string, rest: string)
    requires AllWs(w) && Token(t) && (rest == "" || IsWs(rest[0]))
    ensures SplitWs(w + t + rest) == [t] + SplitWs(rest)
  {
    hide IsWs;
    assert w + t + rest == w + (t + rest);
    TrimStartUnique(w, t + rest);
    TokenLenUnique(t, rest);
    assert (t + rest)[..|t|] == t && (t + rest)[|t|..] == rest;
  }

  lemma SplitWsBlank(w: string)
    requires AllWs(w)
    ensures SplitWs(w) == [] && Trim(w) == ""
  {
    hide IsWs;
    assert w + "" == w;
    TrimStartUnique(w, "");
  }
  /** Any text is blank, or starts with white space, a token, and a rest the token does not reach. */
  lemma SplitWsParts(s: string) returns (a: string, t: string, rest: string)
    requires !AllWs(s)
    ensures s == a + t + rest && AllWs(a) && Token(t) && (rest == "" || IsWs(rest[0]))
    ensures SplitWs(s) == [t] + SplitWs(rest)
  {
    hide IsWs, SplitWs, TrimStart, TokenLen;
    var u := TrimStart(s);
    var n := TokenLen(u);
    a, t, rest := s[..|s| - |u|], u[..n], u[n..];
    assert s == a + u && u == t + rest;
    Assoc(a, t, rest);
    SplitWsCons(a, t, rest);
  }

  lemma {:induction false} SplitWsTrailing(s: string, w: string)
    requires AllWs(w)
    ensures SplitWs(s + w) == SplitWs(s)
    decreases |s|
  {
    hide IsWs, SplitWs;
    AllWsAppend(s, w);
    if AllWs(s) {
      SplitWsBlank(s);
      SplitWsBlank(s + w);
    } else {
      var a, t, rest := SplitWsParts(s);
      Assoc(a + t, rest, w);
      assert rest + w == "" || IsWs((rest + w)[0]);
      SplitWsCons(a, t, rest + w);
      SplitWsTrailing(rest, w);
    }
  }

  lemma TrimStartLeading(w: string, s: string)
    requires AllWs(w)
    ensures TrimStart(w + s) == TrimStart(s)
  {
    hide *;
    var t := TrimStart(s);
    var a := s[..|s| - |t|];
    AllWsAppend(w, a);
    assert s == a + t;
    Assoc(w, a, t);
    TrimStartUnique(w + a, t);
  }

  lemma SplitWsLeading(w: string, s: string)
    requires AllWs(w)
    ensures SplitWs(w + s) == SplitWs(s)
  {
    hide IsWs, TrimStart, TokenLen, AllWs, NoWs, Token;
    TrimStartLeading(w, s);
  }

  lemma SplitWsTrim(s: string)
    ensures SplitWs(Trim(s)) == SplitWs(s)
    ensures Trim(s) == "" <==> SplitWs(s) == []
  {
    hide IsWs, SplitWs, Trim;
    var a, r, b := TrimParts(s);
    TrimUnique(a, r, b);
    SplitWsTrailing(a + r, b);
    SplitWsLeading(a, r);
    SplitWsBlank("");
    if r != "" {
      var x, t, rest := SplitWsParts(r);
    }
  }

  lemma SplitWsSpace(t: string, rest: string)
    requires Token(t)
    ensures SplitWs(t + " " + rest) == [t] + SplitWs(rest)
  {
    assert AllWs(" ") && AllWs("");
    hide *;
    SplitWsCons("", t, " " + rest);
    Assoc(t, " ", rest);
    assert "" + t == t;
    SplitWsLeading(" ", rest);
  }

  lemma TrimmedSpace(t: string, rest: string)
    requires Token(t) && Trimmed(rest) && rest != ""
    ensures Trimmed(t + " " + rest)
  {
    hide IsWs;
    var s := t + " " + rest;
    assert s[0] == t[0] && s[|s| - 1] == rest[|rest| - 1];
  }

  lemma SplitWsOne(t: string)
    requires Token(t)
    ensures SplitWs(t) == [t] && Trimmed(t)
  {
    hide IsWs;
    SplitWsCons("", t, "");
    assert "" + t + "" == t;
  }

  /** Splitting inverts joining tokens with one space. */
  lemma {:induction false} SplitWsJoin(ts: seq<string>)
    requires AllTokens(ts)
    ensures SplitWs(Join(ts, " ")) == ts
    ensures Trimmed(Join(ts, " ")) && (ts != [] ==> Join(ts, " ") != "")
  {
    if |ts| == 1 {
      SplitWsOne(ts[0]);
      HeadTail(ts);
    } else if |ts| > 1 {
      SplitWsJoin(ts[1..]);
      hide IsWs, SplitWs, NoWs, Trimmed;
      HeadTail(ts);
      SplitWsSpace(ts[0], Join(ts[1..], " "));
      TrimmedSpace(ts[0], Join(ts[1..], " "));
    }
  }

  // ---------- counting newlines ----------

  ghost function Newlines(s: string): nat {
    multiset(s)['\n']
  }

  lemma NewlinesAppend(a: string, b: string)
    ensures Newlines(a + b) == Newlines(a) + Newlines(b)
    ensures Newlines(a) == 0 <==> '\n' !in a
  {
  }

  /** The text before the first separator is determined by the whole. */
  lemma Peel(a: string, r: string, c: char, b: string, s: string)
    requires a + [c] + r == b + [c] + s && c !in a && c !in b
    ensures a == b && r == s
  {
    SplitOnceAt(a, c, r);
    SplitOnceAt(b, c, s);
  }

  // ---------- unsigned decimals ----------

  predicate IsDigit(c: char) {
    '0' <= c <= '9'
  }

  predicate AllDigits(s: string) {
    forall c :: c in s ==> IsDigit(c)
  }

  function DigitChar(d: nat): (c: char)
    requires d < 10
    ensures IsDigit(c) && c as int == d + '0' as int
  {
    ('0' as int + d) as char
  }

  /** `to_string` of an unsigned integer. */
  function Dec(n: nat): (s: string)
    ensures s != "" && AllDigits(s)
  {
    if n < 10 then [DigitChar(n)] else Dec(n / 10) + [DigitChar(n % 10)]
  }

  function DecValue(s: string): nat
    requires AllDigits(s)
  {
    if s == "" then 0
    else
      assert IsDigit(s[|s| - 1]);
      10 * DecValue(s[..|s| - 1]) + (s[|s| - 1] as int - '0' as int)
  }

  /** `parse` of an unsigned integer of at most `max`: an optional `+`, then digits, no overflow. */
  function ParseUint(s: string, max: int): (r: Option<nat>)
    ensures r.Some? ==> r.value <= max
  {
    var digits := if s != "" && s[0] == '+' then s[1..] else s;
    if digits == "" || !AllDigits(digits) then None
    else
      var v := DecValue(digits);
      if v <= max then Some(v) else None
  }

  lemma {:induction false} DecValueOfDec(n: nat)
    ensures DecValue(Dec(n)) == n
  {
    if n < 10 {
      assert Dec(n)[..0] == "";
    } else {
      DecValueOfDec(n / 10);
      assert Dec(n)[..|Dec(n)| - 1] == Dec(n / 10);
    }
  }

  lemma ParseDec(n: nat, max: int)
    ensures ParseUint(Dec(n), max) == if n <= max then Some(n) else None
  {
    DecValueOfDec(n);
    assert IsDigit(Dec(n)[0]);
  }

  lemma DecInjective(m: nat, n: nat)
    requires Dec(m) == Dec(n)
    ensures m == n
  {
    DecValueOfDec(m);
    DecValueOfDec(n);
  }

  // ---------- ASCII case ----------

  function UpperChar(c: char): char {
    if 'a' <= c <= 'z' then (c as int - 32) as char else c
  }

  function LowerChar(c: char): char {
    if 'A' <= c <= 'Z' then (c as int + 32) as char else c
  }

  function ToUpper(s: string): (r: string)
    ensures |r| == |s|
  {
    seq(|s|, i requires 0 <= i < |s| => UpperChar(s[i]))
  }

  function ToLower(s: string): (r: string)
    ensures |r| == |s|
  {
    seq(|s|, i requires 0 <= i < |s| => LowerChar(s[i]))
  }

  predicate EqIgnoreCase(a: string, b: string) {
    ToLower(a) == ToLower(b)
  }

  /** A field that survives one `KEY=VALUE` line: trimmed and free of newlines. */
  predicate WireSafe(s: string) {
    Trimmed(s) && '\n' !in s
  }

  // ---------- written out ----------

  /** White space is exactly these 25 characters. */
  lemma WhiteSpaceIs(c: char)
    ensures IsWs(c) <==>
      c in {'\t', '\n', '\U{B}', '\U{C}', '\r', ' ', '\U{85}', '\U{A0}', '\U{1680}', '\U{2000}', '\U{2001}', '\U{2002}',
            '\U{2003}', '\U{2004}', '\U{2005}', '\U{2006}', '\U{2007}', '\U{2008}', '\U{2009}', '\U{200A}', '\U{2028}',
            '\U{2029}', '\U{202F}', '\U{205F}', '\U{3000}'}
  {
  }

  /** `lines`: one `\r` goes before a newline and nowhere else; no empty line after the last newline. */
  lemma LinesAre(l: string, rest: string)
    requires '\n' !in l
    ensures Lines("") == [] && (l != "" ==> Lines(l) == [l])
    ensures Lines(l + "\r" + "\n" + rest) == [l] + Lines(rest)
    ensures (l == "" || l[|l| - 1] != '\r') ==> Lines(l + "\n" + rest) == [l] + Lines(rest)
  {
    LinesCons(l + "\r", rest);
    LinesCons(l, rest);
    assert (l + "\r")[..|l|] == l;
  }

  /** Decimals have no sign and no leading zeros. */
  lemma DecimalsAre(n: nat)
    ensures n < 10 ==> Dec(n) == ["0123456789"[n]]
    ensures n >= 10 ==> Dec(n) == Dec(n / 10) + ["0123456789"[n % 10]]
  {
    DigitIs(n % 10);
  }

  lemma DigitIs(d: nat)
    requires d < 10
    ensures DigitChar(d) == "0123456789"[d]
  {
  }

  /** Reading takes one leading `+` and leading zeros as well; a bare sign or nothing is not a number. */
  lemma NumbersRead(n: nat, max: int)
    ensures ParseUint("+" + Dec(n), max) == ParseUint("0" + Dec(n), max) == if n <= max then Some(n) else None
    ensures ParseUint("", max).None? && ParseUint("+", max).None?
  {
    hide Dec;
    DecValueOfDec(n);
    assert ("+" + Dec(n))[1..] == Dec(n);
    LeadingZero(Dec(n));
  }

  lemma {:induction false} LeadingZero(s: string)
    requires AllDigits(s)
    ensures AllDigits("0" + s) && DecValue("0" + s) == DecValue(s)
  {
    if s != "" {
      var n := |s| - 1;
      LeadingZero(s[..n]);
      assert ("0" + s)[..n + 1] == "0" + s[..n] && ("0" + s)[n + 1] == s[n];
    } else {
      assert "0" + s == "0" && "0"[..0] == "";
    }
  }

  /** Any other character makes a number unreadable. */
  lemma NotANumber(s: string, max: int, i: nat)
    requires i < |s| && !('0' <= s[i] <= '9') && (i > 0 || s[i] != '+')
    ensures ParseUint(s, max).None?
  {
    hide DecValue;
    if s[0] == '+' {
      assert s[1..][i - 1] == s[i] && s[1..][i - 1] in s[1..];
    } else {
      assert s[i] in s;
    }
  }

  /** Trimming a text around a character that is not white space trims the two ends. */
  lemma TrimAround(a: string, c: char, b: string)
    requires !IsWs(c)
    ensures Trim(a + [c] + b) == TrimStart(a) + [c] + TrimEnd(b)
  {
    hide IsWs, TrimStart, TrimEnd;
    var ra, rb := TrimStart(a), TrimEnd(b);
    var wa, wb := a[..|a| - |ra|], b[|rb|..];
    var m := ra + [c] + rb;
    assert a == wa + ra && b == rb + wb;
    assert a + [c] + b == wa + m + wb;
    assert m[0] == if ra == "" then c else ra[0];
    assert m[|m| - 1] == if rb == "" then c else rb[|rb| - 1];
    TrimUnique(wa, m, wb);
  }

  lemma TrimInside(w: string, s: string, v: string)
    requires AllWs(w) && AllWs(v)
    ensures Trim(w + s + v) == Trim(s)
  {
    hide IsWs, Trim, AllWs;
    var a, r, b := TrimParts(s);
    AllWsAppend(w, a);
    AllWsAppend(b, v);
    assert w + s + v == (w + a) + r + (b + v);
    TrimUnique(w + a, r, b + v);
    TrimUnique(a, r, b);
  }

  /** Trimming one end first changes nothing. */
  lemma TrimTwice(s: string)
    ensures Trim(TrimStart(s)) == Trim(s) && Trim(TrimEnd(s)) == Trim(s)
  {
    hide *;
    NothingIsBlank();
    var w := StartParts(s);
    var v := EndParts(s);
    TrimInside(w, TrimStart(s), "");
    AppendNil(s);
    TrimInside("", TrimEnd(s), v);
    AppendNil(TrimEnd(s));
  }

  lemma NothingIsBlank()
    ensures AllWs("")
  {
  }
}
