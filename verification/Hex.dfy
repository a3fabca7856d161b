/**
 Base-16 (RFC 4648, section 8). The program has two decoders: the one behind signatures walks
 the characters of a string, the one behind message bodies walks its UTF-8 bytes; both test
 only that the number of *bytes* is even. `HexDecode` is the meaning both are proved against.
 */
module Hex {
  import opened Prelude
  import opened Text
  import opened Utf8

  const DIGITS: string := "0123456789abcdef"

  type nibble = n: int | 0 <= n < 16

  function Nibble(c: char): Option<nibble> {
    if '0' <= c <= '9' then Some(c as int - '0' as int)
    else if 'a' <= c <= 'f' then Some(c as int - 'a' as int + 10)
    else if 'A' <= c <= 'F' then Some(c as int - 'A' as int + 10)
    else None
  }

  function NibbleOfByte(b: byte): Option<nibble> {
    if 0x30 <= b <= 0x39 then Some(b as int - 0x30)
    else if 0x61 <= b <= 0x66 then Some(b as int - 0x61 + 10)
    else if 0x41 <= b <= 0x46 then Some(b as int - 0x41 + 10)
    else None
  }

  function ByteOf(high: nibble, low: nibble): byte {
    16 * (high as int) + (low as int)
  }

  function HexPair(b: byte): (s: string)
    ensures |s| == 2
  {
    [DIGITS[b / 16], DIGITS[b % 16]]
  }

  function HexEncode(b: Bytes): (s: string)
    ensures |s| == 2 * |b|
  {
    if b == [] then "" else HexPair(b[0]) + HexEncode(b[1..])
  }

  function HexDecode(s: string): Option<Bytes> {
    if s == "" then Some([])
    else if |s| == 1 then None
    else
      var high :- Nibble(s[0]);
      var low :- Nibble(s[1]);
      var rest :- HexDecode(s[2..]);
      Some([ByteOf(high, low)] + rest)
  }

  lemma NibbleOfDigit(n: nibble)
    ensures Nibble(DIGITS[n]) == Some(n)
  {
    assert DIGITS == "0123456789" + "abcdef";
    if n < 10 {
      assert DIGITS[n] == "0123456789"[n];
    } else {
      assert DIGITS[n] == "abcdef"[n - 10];
    }
  }

  lemma NibblesOfPair(b: byte)
    ensures Nibble(HexPair(b)[0]) == Some(b / 16) && Nibble(HexPair(b)[1]) == Some(b % 16)
    ensures ByteOf(b / 16, b % 16) == b
  {
    NibbleOfDigit(b / 16);
    NibbleOfDigit(b % 16);
  }

  lemma DigitOfNibble(c: char)
    requires Nibble(c).Some?
    ensures DIGITS[Nibble(c).value] == LowerChar(c)
  {
    var n := Nibble(c).value;
    assert DIGITS == "0123456789" + "abcdef";
    if n < 10 {
      assert DIGITS[n] == "0123456789"[n];
    } else {
      assert DIGITS[n] == "abcdef"[n - 10];
    }
  }

  lemma PairOfNibbles(c: char, d: char)
    requires Nibble(c).Some? && Nibble(d).Some?
    ensures HexPair(ByteOf(Nibble(c).value, Nibble(d).value)) == [LowerChar(c), LowerChar(d)]
  {
    DigitOfNibble(c);
    DigitOfNibble(d);
    hide Nibble, LowerChar;
    var h, l := Nibble(c).value, Nibble(d).value;
    assert ByteOf(h, l) / 16 == h && ByteOf(h, l) % 16 == l;
  }

  /** Decoding inverts encoding. */
  lemma {:induction false} DecodeOfEncode(b: Bytes)
    ensures HexDecode(HexEncode(b)) == Some(b)
  {
    if b != [] {
      hide Nibble, HexPair, ByteOf;
      var s := HexEncode(b);
      NibblesOfPair(b[0]);
      assert s[0] == HexPair(b[0])[0] && s[1] == HexPair(b[0])[1];
      assert s[2..] == HexEncode(b[1..]);
      DecodeOfEncode(b[1..]);
      HeadTail(b);
    }
  }

  lemma ToLowerPair(s: string)
    requires |s| >= 2
    ensures ToLower(s) == [LowerChar(s[0]), LowerChar(s[1])] + ToLower(s[2..])
  {
  }

  /** Encoding what was decoded gives the text back in lower case. */
  lemma {:induction false} EncodeOfDecode(s: string)
    requires HexDecode(s).Some?
    ensures HexEncode(HexDecode(s).value) == ToLower(s)
  {
    if s != "" {
      PairOfNibbles(s[0], s[1]);
      hide Nibble, HexPair, ByteOf, LowerChar, ToLower;
      EncodeOfDecode(s[2..]);
      ToLowerPair(s);
      assert HexDecode(s).value[1..] == HexDecode(s[2..]).value;
    }
  }

  /** A string decodes exactly when it is an even number of hex digits; it is then ASCII. */
  lemma {:induction false} DecodesIff(s: string)
    ensures HexDecode(s).Some? <==> |s| % 2 == 0 && forall i :: 0 <= i < |s| ==> Nibble(s[i]).Some?
    ensures HexDecode(s).Some? ==> |Encode(s)| == |s| && 2 * |HexDecode(s).value| == |s|
  {
    if |s| >= 2 {
      hide Nibble, ByteOf, EncodeChar;
      var tail := s[2..];
      DecodesIff(tail);
      assert forall i :: 2 <= i < |s| ==> s[i] == tail[i - 2];
      assert forall i :: 0 <= i < |tail| ==> tail[i] == s[i + 2];
      EncodeHead(s);
      EncodeHead(s[1..]);
      assert s[1..][1..] == tail;
    } else if |s| == 1 {
    }
  }

  method EncodeHex(bytes: Bytes) returns (output: string)
    ensures output == HexEncode(bytes)
  {
    output := "";
    for i := 0 to |bytes|
      invariant output + HexEncode(bytes[i..]) == HexEncode(bytes)
    {
      assert bytes[i..][1..] == bytes[i + 1..];
      Assoc(output, HexPair(bytes[i]), HexEncode(bytes[i + 1..]));
      output := output + HexPair(bytes[i]);
    }
  }

  /** What is left of decoding after `done` bytes came out of the text before `rest`. */
  ghost function Resume(done: Bytes, rest: string): Option<Bytes> {
    match HexDecode(rest)
    case None => None
    case Some(b) => Some(done + b)
  }

  lemma ResumeStart(s: string)
    ensures Resume([], s) == HexDecode(s)
  {
    match HexDecode(s)
    case None =>
    case Some(b) => assert [] + b == b;
  }

  lemma ResumeEnd(done: Bytes)
    ensures Resume(done, "") == Some(done)
  {
    assert done + [] == done;
  }

  lemma ResumeStep(done: Bytes, s: string)
    requires |s| >= 2 && Nibble(s[0]).Some? && Nibble(s[1]).Some?
    ensures Resume(done, s) == Resume(done + [ByteOf(Nibble(s[0]).value, Nibble(s[1]).value)], s[2..])
  {
    hide Nibble, ByteOf;
    var b := ByteOf(Nibble(s[0]).value, Nibble(s[1]).value);
    match HexDecode(s[2..])
    case None =>
    case Some(rest) => Assoc(done, [b], rest);
  }

  lemma ResumeStuck(done: Bytes, s: string)
    requires s != "" && (|s| == 1 || Nibble(s[0]).None? || Nibble(s[1]).None?)
    ensures Resume(done, s) == None
  {
  }

  lemma EncodeSize(s: string)
    ensures |Encode(s)| == 0 <==> s == ""
  {
  }

  /** The first byte of an encoded string decides as its first character does. */
  lemma EncodeHead(s: string)
    requires s != ""
    ensures Encode(s) != [] && NibbleOfByte(Encode(s)[0]) == Nibble(s[0])
    ensures Nibble(s[0]).Some? ==> Encode(s)[1..] == Encode(s[1..]) && |Encode(s)| == 1 + |Encode(s[1..])|
  {
  }

  /** The character-walking decoder: `index + 1` stays in range although the parity test counts bytes. */
  method DecodeHex(value: string) returns (r: Option<Bytes>)
    ensures r == HexDecode(value)
  {
    DecodesIff(value);
    ResumeStart(value);
    hide Nibble, NibbleOfByte, ByteOf, EncodeChar, Encode, HexDecode, Resume;
    if |Encode(value)| % 2 != 0 {
      return None;
    }
    var bytes: Bytes := [];
    var index := 0;
    assert value[0..] == value;
    while index < |value|
      invariant index % 2 == 0 && index <= |value|
      invariant Resume(bytes, value[index..]) == HexDecode(value)
      invariant |Encode(value)| == index + |Encode(value[index..])|
    {
      ghost var rest := value[index..];
      EncodeHead(rest);
      EncodeSize(rest[1..]);
      var high := Nibble(value[index]);
      if high.None? {
        ResumeStuck(bytes, rest);
        return None;
      }
      var low := Nibble(value[index + 1]);
      if low.None? {
        ResumeStuck(bytes, rest);
        return None;
      }
      EncodeHead(rest[1..]);
      assert rest[1..][1..] == rest[2..] == value[index + 2..];
      ResumeStep(bytes, rest);
      bytes := bytes + [ByteOf(high.value, low.value)];
      index := index + 2;
    }
    assert value[index..] == "";
    ResumeEnd(bytes);
    return Some(bytes);
  }

  /** The byte-walking decoder. */
  method FromHex(value: string) returns (r: Option<Bytes>)
    ensures r == HexDecode(value)
  {
    DecodesIff(value);
    ResumeStart(value);
    hide Nibble, NibbleOfByte, ByteOf, EncodeChar, Encode, HexDecode, Resume;
    var bytes := Encode(value);
    if |bytes| % 2 != 0 {
      return None;
    }
    var output: Bytes := [];
    var idx := 0;
    assert value[0..] == value && bytes[0..] == bytes;
    while idx < |bytes|
      invariant idx % 2 == 0 && idx <= |bytes| && idx <= |value|
      invariant Resume(output, value[idx..]) == HexDecode(value)
      invariant bytes[idx..] == Encode(value[idx..])
    {
      ghost var rest := value[idx..];
      EncodeSize(rest);
      EncodeHead(rest);
      var high := NibbleOfByte(bytes[idx]);
      if high.None? {
        ResumeStuck(output, rest);
        return None;
      }
      assert bytes[idx + 1..] == bytes[idx..][1..];
      EncodeSize(rest[1..]);
      EncodeHead(rest[1..]);
      var low := NibbleOfByte(bytes[idx + 1]);
      if low.None? {
        ResumeStuck(output, rest);
        return None;
      }
      assert bytes[idx + 2..] == bytes[idx + 1..][1..];
      assert rest[1..][1..] == rest[2..] == value[idx + 2..];
      ResumeStep(output, rest);
      output := output + [ByteOf(high.value, low.value)];
      idx := idx + 2;
    }
    EncodeSize(value[idx..]);
    assert value[idx..] == "";
    ResumeEnd(output);
    return Some(output);
  }

  /** The digits, both cases, and no other character. */
  lemma DigitsAre(c: char)
    ensures Nibble(c).Some? <==> '0' <= c <= '9' || 'a' <= c <= 'f' || 'A' <= c <= 'F'
    ensures Nibble('0') == Some(0) && Nibble('9') == Some(9) && Nibble('a') == Some(10) && Nibble('F') == Some(15)
  {
  }

  /** Decoding succeeds exactly on an even number of hex digits. */
  lemma HexTextIff(s: string)
    ensures HexDecode(s).Some? <==>
      |s| % 2 == 0 && forall i :: 0 <= i < |s| ==> '0' <= s[i] <= '9' || 'a' <= s[i] <= 'f' || 'A' <= s[i] <= 'F'
  {
    DecodesIff(s);
    forall i | 0 <= i < |s|
      ensures Nibble(s[i]).Some? <==> '0' <= s[i] <= '9' || 'a' <= s[i] <= 'f' || 'A' <= s[i] <= 'F'
    {
      DigitsAre(s[i]);
    }
    hide Nibble, HexDecode;
  }

  /** A byte is its high digit and then its low one. */
  lemma HexByteIs(b: byte, rest: Bytes)
    ensures HexEncode([b] + rest) == ["0123456789abcdef"[b / 16], "0123456789abcdef"[b % 16]] + HexEncode(rest)
    ensures HexEncode([]) == ""
  {
    assert ([b] + rest)[1..] == rest;
  }
}
