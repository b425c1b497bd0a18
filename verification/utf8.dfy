/**
 The UTF-8 encoding `Buffer.from(string)` produces, and the fact that makes
 comparing encodings the same as comparing strings: the encoding is
 injective.
 */
module Utf8 {
  import opened Text

  /** The number of bytes a sequence starting with lead byte b occupies. */
  function LeadLength(b: Byte): nat {
    if b < 0x80 then 1 else if b < 0xE0 then 2 else if b < 0xF0 then 3 else 4
  }

  /** The code point a well-formed one- to four-byte sequence stands for. */
  function CodePoint(bytes: seq<Byte>): int
    requires 1 <= |bytes| <= 4
  {
    if |bytes| == 1 then bytes[0] as int
    else if |bytes| == 2 then (bytes[0] as int - 0xC0) * 64 + (bytes[1] as int - 0x80)
    else if |bytes| == 3 then ((bytes[0] as int - 0xE0) * 64 + (bytes[1] as int - 0x80)) * 64 + (bytes[2] as int - 0x80)
    else (((bytes[0] as int - 0xF0) * 64 + (bytes[1] as int - 0x80)) * 64 + (bytes[2] as int - 0x80)) * 64 + (bytes[3] as int - 0x80)
  }

  /** The bytes of one character: six bits per continuation byte, the rest in
      the lead byte, whose high bits announce the length. */
  function EncodeChar(c: char): (r: seq<Byte>)
    ensures 1 <= |r| <= 4
    ensures LeadLength(r[0]) == |r|
    ensures CodePoint(r) == c as int
  {
    var n := c as int;
    var q1 := n / 64;
    var q2 := q1 / 64;
    var q3 := q2 / 64;
    if n < 0x80 then [n]
    else if n < 0x800 then [0xC0 + q1, 0x80 + n % 64]
    else if n < 0x10000 then [0xE0 + q2, 0x80 + q1 % 64, 0x80 + n % 64]
    else [0xF0 + q3, 0x80 + q2 % 64, 0x80 + q1 % 64, 0x80 + n % 64]
  }

  /** `Buffer.from(s)`: the characters' encodings one after another. */
  function Encode(s: string): (r: seq<Byte>)
    ensures |r| >= |s|
  {
    if s == [] then [] else EncodeChar(s[0]) + Encode(s[1..])
  }

  /** Equal encodings come from equal strings. */
  lemma {:induction false} EncodeInjective(a: string, b: string)
    requires Encode(a) == Encode(b)
    ensures a == b
  {
    if a != [] {
      var e := Encode(a);
      var x := EncodeChar(a[0]);
      var y := EncodeChar(b[0]);
      assert e == x + Encode(a[1..]);
      assert e == y + Encode(b[1..]);
      assert |x| == LeadLength(e[0]) == |y|;
      assert x == e[..|x|] == y;
      assert a[0] as int == CodePoint(x) == b[0] as int;
      assert Encode(a[1..]) == e[|x|..] == Encode(b[1..]);
      EncodeInjective(a[1..], b[1..]);
      assert a == [a[0]] + a[1..];
      assert b == [b[0]] + b[1..];
    }
  }
}
