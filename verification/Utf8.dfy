/**
 Strict UTF-8, as CPython applies it at the two borders of the codec: a `str` is a sequence of
 code points in which lone surrogates may occur, and only surrogate-free strings have a UTF-8 form.
 */
module Utf8 {
  import opened Octets

  type CodePoint = c: int | 0 <= c <= 0x10FFFF

  predicate IsScalar(c: CodePoint) {
    !(0xD800 <= c <= 0xDFFF)
  }

  predicate AllScalar(s: seq<CodePoint>) {
    forall i :: 0 <= i < |s| ==> IsScalar(s[i])
  }

  /** The code point carried by two, three and four bytes. */
  function Join2(b0: int, b1: int): int {
    (b0 - 0xC0) * 64 + (b1 - 0x80)
  }

  function Join3(b0: int, b1: int, b2: int): int {
    (b0 - 0xE0) * 4096 + (b1 - 0x80) * 64 + (b2 - 0x80)
  }

  function Join4(b0: int, b1: int, b2: int, b3: int): int {
    (b0 - 0xF0) * 262144 + (b1 - 0x80) * 4096 + (b2 - 0x80) * 64 + (b3 - 0x80)
  }

  function EncodeChar(c: CodePoint): (r: seq<Byte>)
    ensures 1 <= |r| <= 4
  {
    if c < 0x80 then [c]
    else if c < 0x800 then [0xC0 + c / 64, 0x80 + c % 64]
    else if c < 0x1_0000 then [0xE0 + c / 64 / 64, 0x80 + c / 64 % 64, 0x80 + c % 64]
    else [0xF0 + c / 64 / 64 / 64, 0x80 + c / 64 / 64 % 64, 0x80 + c / 64 % 64, 0x80 + c % 64]
  }

  predicate IsTail(b: Byte) {
    0x80 <= b < 0xC0
  }

  /** The first character of `bs` and its length in bytes; overlong forms and surrogates are refused. */
  function DecodeChar(bs: seq<Byte>): (r: Option<(CodePoint, nat)>)
    ensures r.Some? ==> 1 <= r.value.1 <= |bs| && IsScalar(r.value.0)
  {
    if |bs| == 0 then None
    else if bs[0] < 0x80 then Some((bs[0], 1))
    else if 0xC2 <= bs[0] < 0xE0 then
      if |bs| >= 2 && IsTail(bs[1]) then Some((Join2(bs[0], bs[1]), 2)) else None
    else if 0xE0 <= bs[0] < 0xF0 then
      if |bs| >= 3 && IsTail(bs[1]) && IsTail(bs[2]) then
        var c := Join3(bs[0], bs[1], bs[2]);
        if 0x800 <= c && IsScalar(c) then Some((c, 3)) else None
      else None
    else if 0xF0 <= bs[0] < 0xF5 then
      if |bs| >= 4 && IsTail(bs[1]) && IsTail(bs[2]) && IsTail(bs[3]) then
        var c := Join4(bs[0], bs[1], bs[2], bs[3]);
        if 0x1_0000 <= c <= 0x10FFFF then Some((c, 4)) else None
      else None
    else None
  }

  function Encode(s: seq<CodePoint>): (r: seq<Byte>) {
    if s == [] then [] else EncodeChar(s[0]) + Encode(s[1..])
  }

  function Decode(bs: seq<Byte>): (r: Option<seq<CodePoint>>) {
    if bs == [] then Some([])
    else
      match DecodeChar(bs)
      case None => None
      case Some((c, n)) =>
        match Decode(bs[n..])
        case None => None
        case Some(s) => Some([c] + s)
  }

  lemma DecodeCharOfEncodeChar(c: CodePoint, rest: seq<Byte>)
    requires IsScalar(c)
    ensures DecodeChar(EncodeChar(c) + rest) == Some((c, |EncodeChar(c)|))
  {
    var e := EncodeChar(c);
    var bs := e + rest;
    assert bs[0] == e[0];
    if |e| == 2 {
      assert bs[1] == e[1];
    } else if |e| == 3 {
      assert bs[1] == e[1] && bs[2] == e[2];
    } else if |e| == 4 {
      assert bs[1] == e[1] && bs[2] == e[2] && bs[3] == e[3];
    }
  }

  /** Each byte of a longer form is the part of the code point it carries. */
  lemma Digits(q: int, b: int)
    requires 0x80 <= b < 0xC0
    ensures (q * 64 + (b - 0x80)) / 64 == q && (q * 64 + (b - 0x80)) % 64 == b - 0x80
  {
  }

  lemma EncodeOfJoin2(b0: Byte, b1: Byte)
    requires 0xC2 <= b0 < 0xE0 && IsTail(b1)
    ensures 0x80 <= Join2(b0, b1) < 0x800 && EncodeChar(Join2(b0, b1)) == [b0, b1]
  {
    Digits(b0 - 0xC0, b1);
  }

  lemma EncodeOfJoin3(b0: Byte, b1: Byte, b2: Byte)
    requires 0xE0 <= b0 < 0xF0 && IsTail(b1) && IsTail(b2) && 0x800 <= Join3(b0, b1, b2)
    ensures Join3(b0, b1, b2) < 0x1_0000 && EncodeChar(Join3(b0, b1, b2)) == [b0, b1, b2]
  {
    Digits(b0 - 0xE0, b1);
    Digits((b0 - 0xE0) * 64 + (b1 - 0x80), b2);
  }

  lemma EncodeOfJoin4(b0: Byte, b1: Byte, b2: Byte, b3: Byte)
    requires 0xF0 <= b0 < 0xF5 && IsTail(b1) && IsTail(b2) && IsTail(b3)
    requires 0x1_0000 <= Join4(b0, b1, b2, b3) <= 0x10FFFF
    ensures EncodeChar(Join4(b0, b1, b2, b3)) == [b0, b1, b2, b3]
  {
    Digits(b0 - 0xF0, b1);
    Digits((b0 - 0xF0) * 64 + (b1 - 0x80), b2);
    Digits(((b0 - 0xF0) * 64 + (b1 - 0x80)) * 64 + (b2 - 0x80), b3);
  }

  lemma EncodeCharOfDecodeChar(bs: seq<Byte>)
    requires DecodeChar(bs).Some?
    ensures var (c, n) := DecodeChar(bs).value; EncodeChar(c) == bs[..n]
  {
    hide Join2, Join3, Join4, EncodeChar;
    var (c, n) := DecodeChar(bs).value;
    if n == 1 {
      EncodeAscii(c);
    } else if n == 2 {
      EncodeOfJoin2(bs[0], bs[1]);
    } else if n == 3 {
      EncodeOfJoin3(bs[0], bs[1], bs[2]);
    } else {
      EncodeOfJoin4(bs[0], bs[1], bs[2], bs[3]);
    }
  }

  lemma EncodeAscii(c: CodePoint)
    requires c < 0x80
    ensures EncodeChar(c) == [c]
  {
  }

  /** Decoding inverts encoding on every string that has a UTF-8 form. */
  lemma {:induction false} DecodeOfEncode(s: seq<CodePoint>)
    requires AllScalar(s)
    ensures Decode(Encode(s)) == Some(s)
  {
    hide EncodeChar, DecodeChar;
    if s == [] {
    } else {
      DecodeCharOfEncodeChar(s[0], Encode(s[1..]));
      AppendSplits(EncodeChar(s[0]), Encode(s[1..]));
      DecodeOfEncode(s[1..]);
      assert s == [s[0]] + s[1..];
    }
  }

  /** Only surrogate-free text is ever decoded, and it encodes back to the very same bytes. */
  lemma {:induction false} EncodeOfDecode(bs: seq<Byte>)
    requires Decode(bs).Some?
    ensures AllScalar(Decode(bs).value) && Encode(Decode(bs).value) == bs
  {
    hide EncodeChar, DecodeChar;
    if bs == [] {
    } else {
      var (c, n) := DecodeChar(bs).value;
      EncodeCharOfDecodeChar(bs);
      EncodeOfDecode(bs[n..]);
      var s := Decode(bs).value;
      assert s[1..] == Decode(bs[n..]).value;
      assert bs == bs[..n] + bs[n..];
    }
  }

  /** Text split at character boundaries decodes piecewise. */
  lemma {:induction false} DecodeOfConcat(a: seq<Byte>, b: seq<Byte>)
    requires Decode(a).Some? && Decode(b).Some?
    ensures Decode(a + b) == Some(Decode(a).value + Decode(b).value)
  {
    hide EncodeChar, DecodeChar;
    if a == [] {
      assert a + b == b;
      assert [] + Decode(b).value == Decode(b).value;
    } else {
      var (c, n) := DecodeChar(a).value;
      EncodeCharOfDecodeChar(a);
      DecodeCharOfEncodeChar(c, a[n..] + b);
      assert a + b == EncodeChar(c) + (a[n..] + b);
      assert (a + b)[n..] == a[n..] + b;
      DecodeOfConcat(a[n..], b);
      AppendAssociates([c], Decode(a[n..]).value, Decode(b).value);
    }
  }

  /**
   The well-formed byte sequences of UTF-8, byte range by byte range (table 3-7 of the Unicode standard):
   no overlong form, no surrogate, nothing above U+10FFFF.
   */
  lemma DecodeCharIff(bs: seq<Byte>)
    ensures DecodeChar(bs).Some? <==>
              || (|bs| >= 1 && bs[0] <= 0x7F)
              || (|bs| >= 2 && 0xC2 <= bs[0] <= 0xDF && 0x80 <= bs[1] <= 0xBF)
              || (|bs| >= 3 && 0x80 <= bs[2] <= 0xBF && (
                    || (bs[0] == 0xE0 && 0xA0 <= bs[1] <= 0xBF)
                    || (0xE1 <= bs[0] <= 0xEC && 0x80 <= bs[1] <= 0xBF)
                    || (bs[0] == 0xED && 0x80 <= bs[1] <= 0x9F)
                    || (0xEE <= bs[0] <= 0xEF && 0x80 <= bs[1] <= 0xBF)))
              || (|bs| >= 4 && 0x80 <= bs[2] <= 0xBF && 0x80 <= bs[3] <= 0xBF && (
                    || (bs[0] == 0xF0 && 0x90 <= bs[1] <= 0xBF)
                    || (0xF1 <= bs[0] <= 0xF3 && 0x80 <= bs[1] <= 0xBF)
                    || (bs[0] == 0xF4 && 0x80 <= bs[1] <= 0x8F)))
  {
  }

  lemma PayloadBits(b: int)
    ensures 0x80 <= b < 0xC0 ==> b % 0x40 == b - 0x80
    ensures 0xC0 <= b < 0xE0 ==> b % 0x20 == b - 0xC0
    ensures 0xE0 <= b < 0xF0 ==> b % 0x10 == b - 0xE0
    ensures 0xF0 <= b < 0xF8 ==> b % 8 == b - 0xF0
  {
  }

  /** The code point each form carries: its payload bits, most significant first. */
  lemma DecodeCharValue(bs: seq<Byte>, b: seq<int>)
    requires DecodeChar(bs).Some? && |b| == 4 && forall i :: 0 <= i < 4 && i < |bs| ==> b[i] == bs[i]
    ensures DecodeChar(bs).value
         == if b[0] < 0x80 then (b[0], 1)
            else if b[0] < 0xE0 then (b[0] % 0x20 * 0x40 + b[1] % 0x40, 2)
            else if b[0] < 0xF0 then (b[0] % 0x10 * 0x1000 + b[1] % 0x40 * 0x40 + b[2] % 0x40, 3)
            else (b[0] % 8 * 0x4_0000 + b[1] % 0x40 * 0x1000 + b[2] % 0x40 * 0x40 + b[3] % 0x40, 4)
  {
    PayloadBits(b[0]);
    PayloadBits(b[1]);
    PayloadBits(b[2]);
    PayloadBits(b[3]);
  }

  /** Text is exactly what some string without lone surrogates encodes to. */
  lemma DecodesIff(bs: seq<Byte>)
    ensures Decode(bs).Some? <==>
            exists s: seq<CodePoint> :: (forall i :: 0 <= i < |s| ==> s[i] < 0xD800 || s[i] > 0xDFFF) && Encode(s) == bs
  {
    if Decode(bs).Some? {
      EncodeOfDecode(bs);
      assert forall i :: 0 <= i < |Decode(bs).value| ==> IsScalar(Decode(bs).value[i]);
    }
    if s: seq<CodePoint> :| (forall i :: 0 <= i < |s| ==> s[i] < 0xD800 || s[i] > 0xDFFF) && Encode(s) == bs {
      DecodeOfEncode(s);
    }
  }
}
