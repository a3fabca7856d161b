/**
 UTF-8 (RFC 3629) as the program meets it: `as_bytes`, the strict `from_utf8`, and the lossy
 `from_utf8_lossy`, which replaces each maximal ill-formed prefix by U+FFFD.
 */
module Utf8 {
  import opened Prelude

  function EncodeChar(c: char): (b: Bytes)
    ensures 1 <= |b| <= 4
    ensures b[0] < 0x80 <==> c as int < 0x80
    ensures c as int < 0x80 ==> b == [c as int]
    ensures c as int >= 0x80 ==> forall i :: 0 <= i < |b| ==> b[i] >= 0x80
  {
    var n := c as int;
    var q := n / 0x40;
    var r := q / 0x40;
    if n < 0x80 then [n]
    else if n < 0x800 then [0xC0 + q, 0x80 + n % 0x40]
    else if n < 0x10000 then [0xE0 + r, 0x80 + q % 0x40, 0x80 + n % 0x40]
    else [0xF0 + r / 0x40, 0x80 + r % 0x40, 0x80 + q % 0x40, 0x80 + n % 0x40]
  }

  /** The UTF-8 bytes of a string. */
  function Encode(s: string): (b: Bytes)
    ensures |b| >= |s|
  {
    if s == "" then [] else EncodeChar(s[0]) + Encode(s[1..])
  }

  lemma {:induction false} EncodeAppend(a: string, b: string)
    ensures Encode(a + b) == Encode(a) + Encode(b)
  {
    if a == "" {
      assert a + b == b;
    } else {
      assert (a + b)[1..] == a[1..] + b;
      EncodeAppend(a[1..], b);
    }
  }

  /** One decoding step: a scalar value of `n` bytes, or `n` ill-formed bytes to skip. */
  datatype Decoded = Good(c: char, n: nat) | Bad(n: nat)

  predicate IsCont(b: Bytes, i: nat) {
    i < |b| && 0x80 <= b[i] < 0xC0
  }

  /** The second byte allowed after a three-byte or four-byte lead. */
  predicate SecondOk(lead: byte, b: Bytes) {
    IsCont(b, 1)
    && (lead == 0xE0 ==> b[1] >= 0xA0) && (lead == 0xED ==> b[1] < 0xA0)
    && (lead == 0xF0 ==> b[1] >= 0x90) && (lead == 0xF4 ==> b[1] < 0x90)
  }

  /** The six payload bits of a continuation byte. */
  function Payload(b: Bytes, i: nat): (p: int)
    requires IsCont(b, i)
    ensures 0 <= p < 0x40
  {
    b[i] as int - 0x80
  }

  function DecodeStep(b: Bytes): (st: Decoded)
    requires b != []
    ensures 1 <= st.n <= |b|
  {
    var x := b[0] as int;
    if x < 0x80 then Good(x as char, 1)
    else if 0xC2 <= x < 0xE0 then
      if !IsCont(b, 1) then Bad(1)
      else Good((0x40 * (x - 0xC0) + Payload(b, 1)) as char, 2)
    else if 0xE0 <= x < 0xF0 then
      if !SecondOk(x, b) then Bad(1)
      else if !IsCont(b, 2) then Bad(2)
      else Good((0x1000 * (x - 0xE0) + 0x40 * Payload(b, 1) + Payload(b, 2)) as char, 3)
    else if 0xF0 <= x < 0xF5 then
      if !SecondOk(x, b) then Bad(1)
      else if !IsCont(b, 2) then Bad(2)
      else if !IsCont(b, 3) then Bad(3)
      else Good((0x40000 * (x - 0xF0) + 0x1000 * Payload(b, 1) + 0x40 * Payload(b, 2) + Payload(b, 3)) as char, 4)
    else Bad(1)
  }

  lemma DecodeStepOfChar(c: char, rest: Bytes)
    ensures DecodeStep(EncodeChar(c) + rest) == Good(c, |EncodeChar(c)|)
  {
    var n := c as int;
    if n < 0x800 {
      DecodeStepShort(c, rest);
    } else if n < 0x10000 {
      DecodeStepThree(c, rest);
    } else {
      DecodeStepFour(c, rest);
    }
  }

  lemma DecodeStepShort(c: char, rest: Bytes)
    requires c as int < 0x800
    ensures DecodeStep(EncodeChar(c) + rest) == Good(c, |EncodeChar(c)|)
  {
  }

  lemma DecodeStepThree(c: char, rest: Bytes)
    requires 0x800 <= c as int < 0x10000
    ensures DecodeStep(EncodeChar(c) + rest) == Good(c, |EncodeChar(c)|)
  {
    var n, b := c as int, EncodeChar(c) + rest;
    var q := n / 0x40;
    assert n < 0xD800 || n >= 0xE000;
    assert b[0] == 0xE0 + q / 0x40 && b[1] == 0x80 + q % 0x40 && b[2] == 0x80 + n % 0x40;
    assert n == 0x40 * q + n % 0x40 && q == 0x40 * (q / 0x40) + q % 0x40;
  }

  lemma DecodeStepFour(c: char, rest: Bytes)
    requires 0x10000 <= c as int
    ensures DecodeStep(EncodeChar(c) + rest) == Good(c, |EncodeChar(c)|)
  {
    var n, b := c as int, EncodeChar(c) + rest;
    var q := n / 0x40;
    var r := q / 0x40;
    assert b[0] == 0xF0 + r / 0x40 && b[1] == 0x80 + r % 0x40 && b[2] == 0x80 + q % 0x40 && b[3] == 0x80 + n % 0x40;
    assert n == 0x40 * q + n % 0x40 && q == 0x40 * r + q % 0x40 && r == 0x40 * (r / 0x40) + r % 0x40;
    assert |EncodeChar(c)| == 4;
    hide EncodeChar;
  }

  /** `from_utf8`: the whole input must be well formed. */
  function Decode(b: Bytes): Option<string>
    decreases |b|
  {
    if b == [] then Some("")
    else
      match DecodeStep(b)
      case Bad(_) => None
      case Good(c, n) => match Decode(b[n..]) case None => None case Some(s) => Some([c] + s)
  }

  /** `from_utf8_lossy`. */
  function DecodeLossy(b: Bytes): string
    decreases |b|
  {
    if b == [] then ""
    else
      var st := DecodeStep(b);
      [if st.Good? then st.c else '\U{FFFD}'] + DecodeLossy(b[st.n..])
  }

  /** Both decoders invert encoding. */
  lemma {:induction false} DecodeEncode(s: string)
    ensures Decode(Encode(s)) == Some(s)
    ensures DecodeLossy(Encode(s)) == s
  {
    if s != "" {
      var c := EncodeChar(s[0]);
      DecodeStepOfChar(s[0], Encode(s[1..]));
      assert Encode(s)[|c|..] == Encode(s[1..]);
      DecodeEncode(s[1..]);
      assert s == [s[0]] + s[1..];
    }
  }

  lemma EncodeInjective(a: string, b: string)
    requires Encode(a) == Encode(b)
    ensures a == b
  {
    DecodeEncode(a);
    DecodeEncode(b);
  }

  /** An ASCII byte occurs in the encoding only as itself. */
  lemma {:induction false} EncodeAscii(s: string, c: char)
    requires c as int < 0x80
    ensures (c as int) in Encode(s) <==> c in s
  {
    if s != "" {
      EncodeAscii(s[1..], c);
      assert s == [s[0]] + s[1..];
    }
  }

  /** The first and last character of each length of encoding (RFC 3629, section 3). */
  lemma EncodingsAre()
    ensures EncodeChar('\U{0}') == [0x00] && EncodeChar('\U{7F}') == [0x7F]
    ensures EncodeChar('\U{80}') == [0xC2, 0x80] && EncodeChar('\U{7FF}') == [0xDF, 0xBF]
    ensures EncodeChar('\U{800}') == [0xE0, 0xA0, 0x80] && EncodeChar('\U{FFFF}') == [0xEF, 0xBF, 0xBF]
    ensures EncodeChar('\U{10000}') == [0xF0, 0x90, 0x80, 0x80] && EncodeChar('\U{10FFFF}') == [0xF4, 0x8F, 0xBF, 0xBF]
  {
  }

  /** What ill-formed bytes stand for: one replacement character for each maximal part of a sequence. */
  lemma IllFormedAre()
    ensures Decode([0xFF]).None? && DecodeLossy([0xFF, 0x41]) == "\U{FFFD}A"
    ensures DecodeLossy([0xE2, 0x82, 0x41]) == "\U{FFFD}A"
    ensures DecodeLossy([0xC0, 0xAF]) == "\U{FFFD}\U{FFFD}" && Decode([0xED, 0xA0, 0x80]).None?
  {
    assert [0xFF, 0x41][1..] == [0x41] && [0x41][1..] == [] && [0xFF][1..] == [];
    assert [0xE2, 0x82, 0x41][2..] == [0x41];
    assert [0xC0, 0xAF][1..] == [0xAF] && [0xAF][1..] == [];
    assert DecodeLossy([0x41]) == "A" && DecodeLossy([0xAF]) == "\U{FFFD}";
  }
}
