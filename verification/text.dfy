/**
 String operations of the JavaScript runtime that the source relies on:
 `trim`, the `\s` class, `toLowerCase`, `startsWith`/`includes`, `split`,
 `parseInt`, decimal and hexadecimal rendering.
 Strings are sequences of Unicode scalar values; lengths count those rather
 than UTF-16 code units.
 */
module Text {
  import opened Wrappers

  type Byte = x: int | 0 <= x < 256

  /** The characters that `String.prototype.trim` removes and that the
      regular-expression class `\s` matches (white space and line terminators). */
  predicate IsSpace(c: char) {
    || c == '\t' || c == '\n' || c == '\U{000B}' || c == '\U{000C}' || c == '\r' || c == ' '
    || c == '\U{00A0}' || c == '\U{1680}' || ('\U{2000}' <= c <= '\U{200A}')
    || c == '\U{2028}' || c == '\U{2029}' || c == '\U{202F}' || c == '\U{205F}'
    || c == '\U{3000}' || c == '\U{FEFF}'
  }

  /** Removes leading white space. */
  function TrimStart(s: string): (r: string)
    ensures |r| <= |s| && r == s[|s| - |r|..]
    ensures forall k :: 0 <= k < |s| - |r| ==> IsSpace(s[k])
    ensures r == [] || !IsSpace(r[0])
  {
    if |s| > 0 && IsSpace(s[0]) then TrimStart(s[1..]) else s
  }

  /** Removes trailing white space. */
  function TrimEnd(s: string): (r: string)
    ensures |r| <= |s| && r == s[..|r|]
    ensures forall k :: |r| <= k < |s| ==> IsSpace(s[k])
    ensures r == [] || !IsSpace(r[|r| - 1])
  {
    if |s| > 0 && IsSpace(s[|s| - 1]) then TrimEnd(s[..|s| - 1]) else s
  }

  /** `String.prototype.trim`. */
  function Trim(s: string): string {
    TrimEnd(TrimStart(s))
  }

  /** `toLowerCase`, restricted to the ASCII letters. */
  function LowerChar(c: char): char {
    if 'A' <= c <= 'Z' then (c as int + 32) as char else c
  }

  function ToLower(s: string): (r: string)
    ensures |r| == |s|
    ensures forall i :: 0 <= i < |s| ==> r[i] == LowerChar(s[i])
    ensures forall i :: 0 <= i < |r| ==> !('A' <= r[i] <= 'Z')
    ensures forall i :: 0 <= i < |s| && r[i] != s[i] ==> 'A' <= s[i] <= 'Z'
  {
    seq(|s|, i requires 0 <= i < |s| => LowerChar(s[i]))
  }

  /** Lower-casing twice is lower-casing once. */
  lemma ToLowerIdempotent(s: string)
    ensures ToLower(ToLower(s)) == ToLower(s)
  {
  }

  predicate StartsWith(s: string, prefix: string) {
    |prefix| <= |s| && s[..|prefix|] == prefix
  }

  predicate EndsWith(s: string, suffix: string) {
    |suffix| <= |s| && s[|s| - |suffix|..] == suffix
  }

  /** `s.includes(t)`: t occurs in s at some position. */
  predicate Contains(s: string, t: string) {
    exists i | 0 <= i <= |s| - |t| :: OccursAt(s, t, i)
  }

  /** t occurs in s starting at position i. */
  predicate OccursAt(s: string, t: string, i: int) {
    0 <= i && i + |t| <= |s| && s[i..i + |t|] == t
  }

  /** A two-character pattern occurs exactly when some adjacent pair matches it. */
  lemma ContainsPair(s: string, a: char, b: char)
    ensures Contains(s, [a, b]) <==> exists i :: 0 <= i < |s| - 1 && s[i] == a && s[i + 1] == b
  {
    if Contains(s, [a, b]) {
      var i :| 0 <= i <= |s| - 2 && OccursAt(s, [a, b], i);
      var w := s[i..i + 2];
      assert w == [a, b];
      assert s[i] == w[0] && s[i + 1] == w[1];
    }
    if exists i :: 0 <= i < |s| - 1 && s[i] == a && s[i + 1] == b {
      var i :| 0 <= i < |s| - 1 && s[i] == a && s[i + 1] == b;
      assert s[i..i + 2] == [a, b];
      assert OccursAt(s, [a, b], i);
    }
  }

  /** `s.substring(0, n)` or `a.slice(0, n)` for a non-negative n. */
  function Take<T>(s: seq<T>, n: nat): (r: seq<T>)
    ensures |r| == if |s| < n then |s| else n
    ensures r == s[..|r|]
  {
    if n < |s| then s[..n] else s
  }

  /** `s.replace(/c/g, '')`. */
  function RemoveChar(s: string, c: char): (r: string)
    ensures c !in r
    ensures forall x :: x in r ==> x in s
  {
    if s == [] then []
    else if s[0] == c then RemoveChar(s[1..], c)
    else [s[0]] + RemoveChar(s[1..], c)
  }

  /** `s.indexOf(d, from)`: the first position at or after from holding d, or
      -1 when there is none. */
  function FindFrom(s: string, d: char, from: nat): (i: int)
    requires from <= |s|
    ensures i == -1 || (from <= i < |s| && s[i] == d)
    ensures forall j :: from <= j < |s| && (i < 0 || j < i) ==> s[j] != d
    decreases |s| - from
  {
    if from == |s| then -1
    else if s[from] == d then from
    else FindFrom(s, d, from + 1)
  }

  /** `s.slice(from).split(d)` for a one-character separator, kept as positions
      in s. */
  function SplitFrom(s: string, d: char, from: nat): (parts: seq<string>)
    requires from <= |s|
    ensures |parts| >= 1
    decreases |s| - from
  {
    var i := FindFrom(s, d, from);
    if i < 0 then [s[from..]] else [s[from..i]] + SplitFrom(s, d, i + 1)
  }

  /** `s.split(d)`. */
  function Split(s: string, d: char): (parts: seq<string>)
    ensures |parts| >= 1
  {
    SplitFrom(s, d, 0)
  }

  /** `parts.join(d)`. */
  function Join(parts: seq<string>, d: char): string
    requires |parts| >= 1
  {
    if |parts| == 1 then parts[0] else parts[0] + [d] + Join(parts[1..], d)
  }

  /** Splitting and joining again on the same separator gives back the string. */
  lemma JoinSplit(s: string, d: char)
    ensures Join(Split(s, d), d) == s
  {
    JoinSplitFrom(s, d, 0);
  }

  lemma {:induction false} JoinSplitFrom(s: string, d: char, from: nat)
    requires from <= |s|
    ensures Join(SplitFrom(s, d, from), d) == s[from..]
    decreases |s| - from
  {
    var i := FindFrom(s, d, from);
    if i >= 0 {
      JoinSplitFrom(s, d, i + 1);
      assert s[from..] == s[from..i] + [d] + s[i + 1..];
    }
  }

  /** The last element of `s.split(d)` (what `.pop()` returns): the text after the
      last separator. */
  function LastPart(s: string, d: char): string {
    var parts := Split(s, d);
    parts[|parts| - 1]
  }

  lemma LastPartIsSuffix(s: string, d: char)
    ensures EndsWith(s, LastPart(s, d))
    ensures d !in LastPart(s, d)
    ensures d !in s ==> LastPart(s, d) == s
  {
    var m := LastPartFrom(s, d, 0);
    assert s[|s| - |LastPart(s, d)|..] == s[m..];
  }

  /** The last part of `s.slice(from).split(d)` is s[m..] for a position m
      after which d does not occur. */
  lemma {:induction false} LastPartFrom(s: string, d: char, from: nat) returns (m: nat)
    requires from <= |s|
    ensures from <= m <= |s|
    ensures var parts := SplitFrom(s, d, from); parts[|parts| - 1] == s[m..]
    ensures forall j :: m <= j < |s| ==> s[j] != d
    ensures m == from || s[m - 1] == d
    ensures (forall j :: from <= j < |s| ==> s[j] != d) ==> m == from
    decreases |s| - from
  {
    var i := FindFrom(s, d, from);
    if i < 0 {
      m := from;
    } else {
      m := LastPartFrom(s, d, i + 1);
    }
  }

  /** After a separator, the last part is whatever follows when it holds no
      further separator. */
  lemma LastPartAfter(a: string, b: string, d: char)
    requires |a| >= 1 && a[|a| - 1] == d && d !in b
    ensures LastPart(a + b, d) == b
  {
    var s := a + b;
    var m := LastPartFrom(s, d, 0);
    assert s[|a| - 1] == d;
    assert forall j :: |a| <= j < |s| ==> s[j] == b[j - |a|];
    assert m == |a|;
    assert s[m..] == b;
  }

  /** `s.lastIndexOf(c)`: the last position holding c, or -1. */
  function LastIndexOf(s: string, c: char): (i: int)
    ensures -1 <= i < |s|
    ensures i >= 0 ==> s[i] == c
    ensures forall j :: i < j < |s| ==> s[j] != c
  {
    if s == [] then -1
    else if s[|s| - 1] == c then |s| - 1
    else LastIndexOf(s[..|s| - 1], c)
  }

  /** s without its trailing run of c. */
  function TrimTrailing(s: string, c: char): (r: string)
    ensures |r| <= |s| && r == s[..|r|]
    ensures r == [] || r[|r| - 1] != c
    ensures forall i :: |r| <= i < |s| ==> s[i] == c
  {
    if s != [] && s[|s| - 1] == c then TrimTrailing(s[..|s| - 1], c) else s
  }

  /** No a is directly followed by b. */
  predicate NoPair(s: string, a: char, b: char) {
    forall i :: 0 <= i < |s| - 1 ==> !(s[i] == a && s[i + 1] == b)
  }

  /** Two strings without the pair do not form one at their junction unless
      the first ends in a and the second starts with b. */
  lemma NoPairConcat(s: string, t: string, a: char, b: char)
    requires NoPair(s, a, b) && NoPair(t, a, b)
    requires s == [] || t == [] || !(s[|s| - 1] == a && t[0] == b)
    ensures NoPair(s + t, a, b)
  {
    var u := s + t;
    forall i | 0 <= i < |u| - 1
      ensures !(u[i] == a && u[i + 1] == b)
    {
      if i + 1 < |s| {
        assert u[i] == s[i] && u[i + 1] == s[i + 1];
      } else if i >= |s| {
        assert u[i] == t[i - |s|] && u[i + 1] == t[i + 1 - |s|];
      } else {
        assert u[i] == s[|s| - 1] && u[i + 1] == t[0];
      }
    }
  }

  /** `s.includes(ab)` fails exactly when the pair never occurs. */
  lemma NoPairNotContains(s: string, a: char, b: char)
    ensures NoPair(s, a, b) <==> !Contains(s, [a, b])
  {
    ContainsPair(s, a, b);
  }

  // Decimal and hexadecimal rendering.

  function DigitChar(d: nat): char
    requires d < 16
  {
    "0123456789abcdef"[d]
  }

  predicate IsDecimalDigit(c: char) {
    '0' <= c <= '9'
  }

  predicate IsHexDigit(c: char) {
    IsDecimalDigit(c) || 'a' <= c <= 'f' || 'A' <= c <= 'F'
  }

  /** `String(n)` for a natural number: its decimal digits without leading zeros. */
  function NatToString(n: nat): (r: string)
    ensures |r| >= 1
    ensures forall i :: 0 <= i < |r| ==> IsDecimalDigit(r[i])
    ensures |r| > 1 ==> r[0] != '0'
  {
    if n < 10 then [DigitChar(n)] else NatToString(n / 10) + [DigitChar(n % 10)]
  }

  /** `String(n)` for an integer. */
  function IntToString(n: int): string {
    if n < 0 then "-" + NatToString(-n) else NatToString(n)
  }

  /** Different numbers have different decimal renderings. */
  lemma NatToStringInjective()
    ensures forall i: nat, j: nat :: NatToString(i) == NatToString(j) ==> i == j
  {
    forall i: nat, j: nat | NatToString(i) == NatToString(j)
      ensures i == j
    {
      DigitsValueOfNatToString(i);
      DigitsValueOfNatToString(j);
    }
  }

  /** The most significant decimal digit of m. */
  function LeadingDigit(m: nat): (d: nat)
    ensures d < 10
    ensures m > 0 ==> d > 0
  {
    if m < 10 then m else LeadingDigit(m / 10)
  }

  /** The first character of the decimal rendering is the leading digit. */
  lemma {:induction false} NatToStringStartsWithLeadingDigit(m: nat)
    ensures NatToString(m)[0] == DigitChar(LeadingDigit(m))
  {
    if m >= 10 {
      NatToStringStartsWithLeadingDigit(m / 10);
      assert NatToString(m) == NatToString(m / 10) + [DigitChar(m % 10)];
    }
  }

  function Pow10(k: nat): (p: nat)
    ensures p >= 1
  {
    if k == 0 then 1 else 10 * Pow10(k - 1)
  }

  /** A power of ten starts with the digit 1. */
  lemma {:induction false} LeadingDigitOfPow10(k: nat)
    ensures LeadingDigit(Pow10(k)) == 1
  {
    if k > 0 {
      LeadingDigitOfPow10(k - 1);
      assert Pow10(k) / 10 == Pow10(k - 1);
    }
  }

  /** 10^21: from here on JavaScript writes a number in exponent form. */
  const ExponentFrom: int := 1_000_000_000_000_000_000_000

  lemma ExponentFromIsPow10()
    ensures ExponentFrom == Pow10(21)
  {
    assert Pow10(3) == 1000;
    assert Pow10(6) == 1000_000;
  }

  /** `String(x)` for a number with an integer value: plain decimal digits
      below 10^21 in magnitude, and from there on the exponent form
      "d.ddde+k". */
  function NumberToString(n: int): string {
    if -ExponentFrom < n < ExponentFrom then IntToString(n)
    else if n < 0 then "-" + ExponentForm(-n)
    else ExponentForm(n)
  }

  /** The exponent form of m: its leading digit, then "." and the remaining
      digits without trailing zeros when any are left, then "e+" and the
      exponent. */
  function ExponentForm(m: nat): string {
    var ds := NatToString(m);
    var frac := TrimTrailing(ds[1..], '0');
    [ds[0]] + (if frac == [] then "" else "." + frac) + "e+" + NatToString(|ds| - 1)
  }

  /** The value `parseInt(String(x))` gives, by arithmetic: x itself below
      10^21 in magnitude, and from there on only the leading digit, with x's
      sign, since parseInt stops at the "." or "e" of the exponent form. */
  function ReadBackNumber(n: int): int {
    if -ExponentFrom < n < ExponentFrom then n
    else if n < 0 then -(LeadingDigit(-n) as int)
    else LeadingDigit(n)
  }

  /** The digit run of a leading non-zero digit followed by a non-digit is
      that one digit. */
  lemma ParseUnsignedOfLeadingDigit(w: string, d: nat, hexPrefix: bool)
    requires 1 <= d <= 9 && |w| >= 2 && w[0] == DigitChar(d) && !IsDecimalDigit(w[1])
    ensures ParseUnsigned(w, hexPrefix) == Some(d)
  {
    DigitValueOfDigitChar(d);
    assert !HasHexPrefix(w);
    assert DigitRun(w[1..], 10) == 0;
    assert DigitRun(w, 10) == 1;
    assert DigitsValue(w[..1], 10) == d by {
      assert w[..1][..0] == [];
    }
  }

  /** parseInt stops after a leading non-zero digit followed by a non-digit. */
  lemma ParseIntOfLeadingDigit(u: string, d: nat, hexPrefix: bool)
    requires 1 <= d <= 9 && |u| >= 2 && u[0] == DigitChar(d) && !IsDecimalDigit(u[1])
    ensures ParseInt(u, hexPrefix) == Some(d)
  {
    ParseUnsignedOfLeadingDigit(u, d, hexPrefix);
    TrimStartKeeps(u);
  }

  /** After a minus sign, the same digit is read negated. */
  lemma ParseIntOfNegatedDigit(u: string, d: nat, hexPrefix: bool)
    requires 1 <= d <= 9 && |u| >= 3 && u[0] == '-' && u[1] == DigitChar(d) && !IsDecimalDigit(u[2])
    ensures ParseInt(u, hexPrefix) == Some(-(d as int))
  {
    var w := u[1..];
    assert w[0] == u[1] && w[1] == u[2];
    ParseUnsignedOfLeadingDigit(w, d, hexPrefix);
    TrimStartKeeps(u);
  }

  /** The rendering from 10^21 on starts with the sign, the leading digit and
      a non-digit. */
  lemma ExponentFormStart(n: int, d: nat)
    requires !(-ExponentFrom < n < ExponentFrom)
    requires d == LeadingDigit(if n < 0 then -n else n)
    ensures var r := NumberToString(n);
      if n < 0 then |r| >= 3 && r[0] == '-' && r[1] == DigitChar(d) && !IsDecimalDigit(r[2])
      else |r| >= 2 && r[0] == DigitChar(d) && !IsDecimalDigit(r[1])
  {
    var m: nat := if n < 0 then -n else n;
    NatToStringStartsWithLeadingDigit(m);
    var e := ExponentForm(m);
    assert |e| >= 2 && e[0] == DigitChar(d) && !IsDecimalDigit(e[1]);
    if n < 0 {
      var r := "-" + e;
      assert r[1] == e[0] && r[2] == e[1];
    }
  }

  /** parseInt reads back from `String(x)` exactly ReadBackNumber(x): the
      number itself below 10^21 in magnitude, the leading digit above. */
  lemma ParseIntOfNumberToString(n: int, hexPrefix: bool)
    ensures ParseInt(NumberToString(n), hexPrefix) == Some(ReadBackNumber(n))
  {
    if -ExponentFrom < n < ExponentFrom {
      ParseIntOfIntToString(n, hexPrefix);
    } else {
      var d := LeadingDigit(if n < 0 then -n else n);
      ExponentFormStart(n, d);
      if n < 0 {
        ParseIntOfNegatedDigit(NumberToString(n), d, hexPrefix);
      } else {
        ParseIntOfLeadingDigit(NumberToString(n), d, hexPrefix);
      }
    }
  }

  /** `Buffer.toString('hex')`: two lower-case hex digits per byte. */
  function HexEncode(bytes: seq<Byte>): (r: string)
    ensures |r| == 2 * |bytes|
    ensures forall i :: 0 <= i < |r| ==> IsHexDigit(r[i])
    ensures forall i :: 0 <= i < |bytes| ==>
      r[2 * i] == DigitChar(bytes[i] / 16) && r[2 * i + 1] == DigitChar(bytes[i] % 16)
  {
    if bytes == [] then []
    else [DigitChar(bytes[0] / 16), DigitChar(bytes[0] % 16)] + HexEncode(bytes[1..])
  }

  // parseInt

  /** Numeric value of a digit character in the given radix, if it is one. */
  function DigitValue(c: char, radix: nat): Option<nat>
    requires radix == 10 || radix == 16
  {
    if '0' <= c <= '9' then Some(c as int - '0' as int)
    else if radix == 16 && 'a' <= c <= 'f' then Some(c as int - 'a' as int + 10)
    else if radix == 16 && 'A' <= c <= 'F' then Some(c as int - 'A' as int + 10)
    else None
  }

  /** Length of the longest prefix of s made of digits of the radix. */
  function DigitRun(s: string, radix: nat): (n: nat)
    requires radix == 10 || radix == 16
    ensures n <= |s|
    ensures forall i :: 0 <= i < n ==> DigitValue(s[i], radix).Some?
    ensures n < |s| ==> DigitValue(s[n], radix).None?
  {
    if s == [] || DigitValue(s[0], radix).None? then 0 else 1 + DigitRun(s[1..], radix)
  }

  /** Value of a string of digits, most significant first. */
  function DigitsValue(s: string, radix: nat): nat
    requires radix == 10 || radix == 16
    requires forall i :: 0 <= i < |s| ==> DigitValue(s[i], radix).Some?
  {
    if s == [] then 0
    else
      var high := DigitsValue(s[..|s| - 1], radix);
      (if radix == 10 then high * 10 else high * 16) + DigitValue(s[|s| - 1], radix).value
  }

  /** JavaScript `parseInt(s, 10)` (hexPrefix false) or `parseInt(s)` with no
      radix (hexPrefix true, where a leading `0x`/`0X` selects radix 16).
      Leading white space is skipped and one sign is read. None stands for NaN. */
  function ParseInt(s: string, hexPrefix: bool): Option<int> {
    var t := TrimStart(s);
    var negative := |t| > 0 && t[0] == '-';
    var u := if |t| > 0 && (t[0] == '-' || t[0] == '+') then t[1..] else t;
    match ParseUnsigned(u, hexPrefix)
    case None => None
    case Some(v) => var x: int := v; Some(if negative then -x else x)
  }

  predicate HasHexPrefix(u: string) {
    |u| >= 2 && u[0] == '0' && (u[1] == 'x' || u[1] == 'X')
  }

  /** The digits after the sign, in radix 16 after a `0x` prefix when that
      prefix is recognised, otherwise in radix 10. */
  function ParseUnsigned(u: string, hexPrefix: bool): Option<nat> {
    if hexPrefix && HasHexPrefix(u) then ParseDigits(u[2..], 16) else ParseDigits(u, 10)
  }

  /** The value of the longest run of digits at the start of w, if there is one. */
  function ParseDigits(w: string, radix: nat): Option<nat>
    requires radix == 10 || radix == 16
  {
    var n := DigitRun(w, radix);
    if n == 0 then None else Some(DigitsValue(w[..n], radix))
  }

  lemma {:induction false} DigitsValueOfNatToString(n: nat)
    ensures forall i :: 0 <= i < |NatToString(n)| ==> DigitValue(NatToString(n)[i], 10).Some?
    ensures DigitsValue(NatToString(n), 10) == n
  {
    var s := NatToString(n);
    DigitValueOfDigitChar(n % 10);
    if n >= 10 {
      DigitsValueOfNatToString(n / 10);
      assert s[..|s| - 1] == NatToString(n / 10);
    }
  }

  lemma DigitValueOfDigitChar(d: nat)
    requires d < 10
    ensures DigitValue(DigitChar(d), 10) == Some(d)
  {
  }

  /** parseInt reads back what String(n) writes, in either radix mode. */
  lemma ParseIntOfIntToString(n: int, hexPrefix: bool)
    ensures ParseInt(IntToString(n), hexPrefix) == Some(n)
  {
    var m: nat := if n < 0 then -n else n;
    var u := NatToString(m);
    DigitsValueOfNatToString(m);
    if n < 0 {
      ParseIntOfNegative(u, hexPrefix);
    } else {
      ParseIntOfDigits(u, hexPrefix);
    }
  }

  /** Decimal digits parse to their value, and so do they after a minus sign, negated. */
  lemma ParseIntOfDigits(u: string, hexPrefix: bool)
    requires |u| >= 1 && forall i :: 0 <= i < |u| ==> IsDecimalDigit(u[i])
    ensures forall i :: 0 <= i < |u| ==> DigitValue(u[i], 10).Some?
    ensures ParseInt(u, hexPrefix) == Some(DigitsValue(u, 10))
  {
    assert IsDecimalDigit(u[0]);
    TrimStartKeeps(u);
    ParseUnsignedOfDigits(u, hexPrefix);
  }


  lemma ParseIntOfNegative(u: string, hexPrefix: bool)
    requires |u| >= 1 && forall i :: 0 <= i < |u| ==> IsDecimalDigit(u[i])
    ensures forall i :: 0 <= i < |u| ==> DigitValue(u[i], 10).Some?
    ensures ParseInt("-" + u, hexPrefix) == Some(0 - DigitsValue(u, 10) as int)
  {
    var t := "-" + u;
    assert t[0] == '-';
    TrimStartKeeps(t);
    assert t[1..] == u;
    ParseUnsignedOfDigits(u, hexPrefix);
  }

  lemma ParseUnsignedOfDigits(u: string, hexPrefix: bool)
    requires |u| >= 1 && forall i :: 0 <= i < |u| ==> IsDecimalDigit(u[i])
    ensures forall i :: 0 <= i < |u| ==> DigitValue(u[i], 10).Some?
    ensures ParseUnsigned(u, hexPrefix) == Some(DigitsValue(u, 10))
  {
    assert !HasHexPrefix(u);
    DigitRunOfDigits(u);
    assert u[..|u|] == u;
  }

  lemma TrimStartKeeps(s: string)
    requires |s| > 0 && !IsSpace(s[0])
    ensures TrimStart(s) == s
  {
  }

  lemma {:induction false} DigitRunOfDigits(s: string)
    requires forall i :: 0 <= i < |s| ==> DigitValue(s[i], 10).Some?
    ensures DigitRun(s, 10) == |s|
  {
    if s != [] {
      DigitRunOfDigits(s[1..]);
    }
  }

  // ---------------------------------------------------------------------------
  // String order

  /** Lexicographic comparison by character code: negative, zero or positive. */
  function CompareStrings(a: string, b: string): (r: int)
    ensures r == 0 <==> a == b
  {
    if a == [] && b == [] then 0
    else if a == [] then -1
    else if b == [] then 1
    else if a[0] < b[0] then -1
    else if a[0] > b[0] then 1
    else
      assert a == [a[0]] + a[1..] && b == [b[0]] + b[1..];
      CompareStrings(a[1..], b[1..])
  }

  /** Swapping the arguments flips the sign. */
  lemma {:induction false} CompareStringsFlips(a: string, b: string)
    ensures CompareStrings(a, b) < 0 <==> CompareStrings(b, a) > 0
  {
    if a != [] && b != [] && a[0] == b[0] {
      CompareStringsFlips(a[1..], b[1..]);
    }
  }

  lemma {:induction false} CompareStringsTransitive(a: string, b: string, c: string)
    requires CompareStrings(a, b) <= 0 && CompareStrings(b, c) <= 0
    ensures CompareStrings(a, c) <= 0
  {
    if a != [] && b != [] && c != [] && a[0] == b[0] && b[0] == c[0] {
      CompareStringsTransitive(a[1..], b[1..], c[1..]);
    }
  }
}
