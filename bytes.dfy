/** Bytes, ASCII text and the integer conversions the firmware and the host
    scripts use: decimal formatting (`String(n)`, `snprintf("%d")`, Python
    f-strings), C `atoi`/`atol` parsing, Python's `int(str)` and unsigned
    32-bit wrap-around. */
module Bytes {
  import opened Wrappers

  newtype byte = x: int | 0 <= x < 256

  /** 2^32: the range of `unsigned long`, `uint32_t` and `size_t` on the
      32-bit microcontroller. */
  const U32: nat := 0x1_0000_0000

  /** `a - b` computed in unsigned 32-bit arithmetic. */
  function WrapSub(a: nat, b: nat): (r: nat)
    requires a < U32 && b < U32
    ensures r < U32
    ensures a >= b ==> r == a - b
    ensures a < b ==> r == a + U32 - b
  {
    (a - b) % U32
  }

  /** `a + b` computed in unsigned 32-bit arithmetic. */
  function WrapAdd(a: nat, b: nat): (r: nat)
    ensures r < U32
    ensures a + b < U32 ==> r == a + b
  {
    (a + b) % U32
  }

  function Min(a: nat, b: nat): nat {
    if a <= b then a else b
  }

  // ---------------------------------------------------------------------
  // Sequences
  // ---------------------------------------------------------------------

  predicate StartsWith<T(==)>(s: seq<T>, prefix: seq<T>) {
    |prefix| <= |s| && s[..|prefix|] == prefix
  }

  predicate EndsWith<T(==)>(s: seq<T>, suffix: seq<T>) {
    |suffix| <= |s| && s[|s| - |suffix|..] == suffix
  }

  // ---------------------------------------------------------------------
  // Characters and bytes
  // ---------------------------------------------------------------------

  /** A byte read as a C `char` (the firmware builds `String`s this way). */
  function ByteToChar(b: byte): char {
    (b as int) as char
  }

  function BytesToString(bs: seq<byte>): (s: string)
    ensures |s| == |bs|
    ensures forall i :: 0 <= i < |bs| ==> s[i] == ByteToChar(bs[i])
  {
    seq(|bs|, i requires 0 <= i < |bs| => ByteToChar(bs[i]))
  }

  predicate IsByteString(s: string) {
    forall i :: 0 <= i < |s| ==> s[i] as int < 256
  }

  /** The bytes of a string whose characters are all below 256 (the ASCII
      literals and the decimal numbers the programs send). */
  function StringToBytes(s: string): (bs: seq<byte>)
    requires IsByteString(s)
    ensures |bs| == |s|
    ensures forall i :: 0 <= i < |s| ==> bs[i] as int == s[i] as int
  {
    seq(|s|, i requires 0 <= i < |s| => (s[i] as int) as byte)
  }

  lemma {:induction false} BytesStringRoundTrip(bs: seq<byte>)
    ensures IsByteString(BytesToString(bs))
    ensures StringToBytes(BytesToString(bs)) == bs
  {
    var s := BytesToString(bs);
    var t := StringToBytes(s);
    assert |t| == |bs|;
    forall i | 0 <= i < |bs| ensures t[i] == bs[i] {
      assert t[i] as int == s[i] as int == bs[i] as int;
    }
  }

  lemma StringBytesRoundTrip(s: string)
    requires IsByteString(s)
    ensures BytesToString(StringToBytes(s)) == s
  {
    var t := BytesToString(StringToBytes(s));
    assert |t| == |s|;
    forall i | 0 <= i < |s| ensures t[i] == s[i] {
    }
  }

  lemma {:induction false} StringToBytesAppend(a: string, b: string)
    requires IsByteString(a) && IsByteString(b)
    ensures IsByteString(a + b)
    ensures StringToBytes(a + b) == StringToBytes(a) + StringToBytes(b)
  {
    var l, r := StringToBytes(a + b), StringToBytes(a) + StringToBytes(b);
    assert |l| == |r|;
    forall i | 0 <= i < |l| ensures l[i] == r[i] {
      if i < |a| { assert (a + b)[i] == a[i]; } else { assert (a + b)[i] == b[i - |a|]; }
    }
  }

  /** ASCII `tolower`, as Arduino's `String::toLowerCase` applies it. */
  function ToLower(c: char): (r: char)
    ensures 'A' <= c <= 'Z' ==> r as int == c as int + 32
    ensures !('A' <= c <= 'Z') ==> r == c
  {
    if 'A' <= c <= 'Z' then (c as int + 32) as char else c
  }

  function Lower(s: string): (r: string)
    ensures |r| == |s|
    ensures forall i :: 0 <= i < |s| ==> r[i] == ToLower(s[i])
  {
    if s == [] then [] else [ToLower(s[0])] + Lower(s[1..])
  }

  lemma {:induction false} LowerIdempotent(s: string)
    ensures Lower(Lower(s)) == Lower(s)
  {
    var once := Lower(s);
    var twice := Lower(once);
    forall i | 0 <= i < |s| ensures twice[i] == once[i] {
      assert twice[i] == ToLower(once[i]) && once[i] == ToLower(s[i]);
    }
  }

  /** Text without upper-case letters is its own lower-case form. */
  lemma LowerOfLowercase(s: string)
    requires forall i :: 0 <= i < |s| ==> !('A' <= s[i] <= 'Z')
    ensures Lower(s) == s
  {
    assert forall i :: 0 <= i < |s| ==> Lower(s)[i] == s[i];
  }

  lemma {:induction false} LowerNoUpper(s: string)
    ensures forall i :: 0 <= i < |s| ==> !('A' <= Lower(s)[i] <= 'Z')
  {
    forall i | 0 <= i < |s| ensures !('A' <= Lower(s)[i] <= 'Z') {
      assert Lower(s)[i] == ToLower(s[i]);
    }
  }

  // ---------------------------------------------------------------------
  // Decimal formatting
  // ---------------------------------------------------------------------

  predicate IsDigit(c: char) {
    '0' <= c <= '9'
  }

  predicate AllDigits(s: string) {
    forall i :: 0 <= i < |s| ==> IsDigit(s[i])
  }

  function DigitChar(d: nat): (c: char)
    requires d < 10
    ensures IsDigit(c) && c as int - '0' as int == d
  {
    ('0' as int + d) as char
  }

  /** The decimal numeral of `n`, without leading zeros: one digit below
      ten, otherwise `LongDecimal`. */
  function NatToDecimal(n: nat): (s: string)
    ensures 0 < |s| && AllDigits(s)
    ensures n < 10 <==> |s| == 1
    decreases n, 1
  {
    if n < 10 then [DigitChar(n)] else LongDecimal(n)
  }

  /** The numeral of a number of two or more digits: the numeral of
      `n / 10`, then the last digit. */
  function LongDecimal(n: nat): (s: string)
    requires n >= 10
    ensures 1 < |s| && AllDigits(s)
    decreases n, 0
  {
    NatToDecimal(n / 10) + [DigitChar(n % 10)]
  }

  function Pow10(k: nat): (p: nat)
    ensures p >= 1
  {
    if k == 0 then 1 else 10 * Pow10(k - 1)
  }

  /** A number below 10^k has at most k digits. */
  lemma {:induction false} DecimalAtMost(n: nat, k: nat)
    requires 1 <= k && n < Pow10(k)
    ensures |NatToDecimal(n)| <= k
    decreases k
  {
    assert Pow10(1) == 10;
    if n >= 10 {
      assert n / 10 < Pow10(k - 1);
      DecimalAtMost(n / 10, k - 1);
    }
  }

  /** A 32-bit number has at most ten digits. */
  lemma DecimalBelowU32(n: nat)
    requires n < U32
    ensures |NatToDecimal(n)| <= 10
  {
    assert Pow10(10) == 10000000000 by {
      assert Pow10(2) == 100;
      assert Pow10(4) == 10000;
      assert Pow10(6) == 1000000;
      assert Pow10(8) == 100000000;
    }
    DecimalAtMost(n, 10);
  }

  /** `printf("%d")` / `String(long)` / Python `str(int)`. */
  function IntToDecimal(i: int): (s: string)
  {
    if i < 0 then "-" + NatToDecimal(-i) else NatToDecimal(i)
  }

  /** The value of a string of digits. */
  function DigitsValue(s: string): nat
    requires AllDigits(s)
  {
    if s == [] then 0 else DigitsValue(s[..|s| - 1]) * 10 + (s[|s| - 1] as int - '0' as int)
  }

  lemma {:induction false} DecimalRoundTrip(n: nat)
    ensures DigitsValue(NatToDecimal(n)) == n
    decreases n
  {
    if n >= 10 {
      var s := NatToDecimal(n);
      assert s[..|s| - 1] == NatToDecimal(n / 10);
      DecimalRoundTrip(n / 10);
    }
  }

  // ---------------------------------------------------------------------
  // C `atoi` / `atol` / Arduino `String::toInt`
  // ---------------------------------------------------------------------

  /** The characters C's `isspace` accepts. */
  predicate IsCSpace(c: char) {
    c == ' ' || c == '\t' || c == '\n' || c == '\r' || c == '\U{B}' || c == '\U{C}'
  }

  function SkipCSpaces(s: string): (r: string)
    ensures |r| <= |s|
  {
    if s != [] && IsCSpace(s[0]) then SkipCSpaces(s[1..]) else s
  }

  /** The longest prefix of `s` made of digits. */
  function LeadingDigits(s: string): (r: string)
    ensures AllDigits(r) && StartsWith(s, r)
    ensures |r| == |s| || !IsDigit(s[|r|])
  {
    if s != [] && IsDigit(s[0]) then [s[0]] + LeadingDigits(s[1..]) else []
  }

  /** The value `atoi` denotes: optional white space, an optional sign,
      then the longest run of digits; 0 when there are none.  This is the
      mathematical value, before narrowing to the target's `int`. */
  function Atoi(s: string): int {
    var t := SkipCSpaces(s);
    if t != [] && t[0] == '-' then 0 - DigitsValue(LeadingDigits(t[1..]))
    else if t != [] && t[0] == '+' then DigitsValue(LeadingDigits(t[1..]))
    else DigitsValue(LeadingDigits(t))
  }

  /** The range of a 32-bit `int` or `long`, the width of both on the
      ESP32 targets. */
  const IntMin: int := -0x8000_0000
  const IntMax: int := 0x7FFF_FFFF

  /** Narrowing as newlib's `strtol` narrows: a value that does not fit
      saturates at the nearest bound. */
  function Saturate32(v: int): (r: int)
    ensures IntMin <= r <= IntMax
    ensures IntMin <= v <= IntMax ==> r == v
    ensures v > IntMax ==> r == IntMax
    ensures v < IntMin ==> r == IntMin
  {
    if v > IntMax then IntMax else if v < IntMin then IntMin else v
  }

  /** `atoi`, `atol` and `String::toInt` on the target: the value of the
      text, saturated to 32 bits. */
  function CAtoi(s: string): int {
    Saturate32(Atoi(s))
  }

  /** A written integer is read back by the target's `atoi` when it fits
      32 bits, and as the nearest bound otherwise. */
  lemma CAtoiOfDecimal(i: int, rest: string)
    requires rest == [] || !IsDigit(rest[0])
    ensures CAtoi(IntToDecimal(i) + rest) == Saturate32(i)
    ensures IntMin <= i <= IntMax ==> CAtoi(IntToDecimal(i) + rest) == i
  {
    AtoiOfDecimal(i, rest);
  }

  lemma {:induction false} LeadingDigitsOfDecimal(n: nat, rest: string)
    requires rest == [] || !IsDigit(rest[0])
    ensures LeadingDigits(NatToDecimal(n) + rest) == NatToDecimal(n)
  {
    AllDigitsPrefix(NatToDecimal(n), rest);
  }

  lemma {:induction false} AllDigitsPrefix(d: string, rest: string)
    requires AllDigits(d)
    requires rest == [] || !IsDigit(rest[0])
    ensures LeadingDigits(d + rest) == d
    decreases |d|
  {
    if d != [] {
      assert (d + rest)[1..] == d[1..] + rest;
      AllDigitsPrefix(d[1..], rest);
    } else {
      assert d + rest == rest;
    }
  }

  /** Parsing a formatted number gives the number back, whatever non-digit
      text follows it. */
  lemma AtoiOfDecimal(i: int, rest: string)
    requires rest == [] || !IsDigit(rest[0])
    ensures Atoi(IntToDecimal(i) + rest) == i
  {
    if i < 0 {
      assert IntToDecimal(i) == "-" + NatToDecimal(-i);
      AtoiOfNegative(-i, rest);
    } else {
      assert IntToDecimal(i) == NatToDecimal(i);
      AtoiOfNatural(i, rest);
    }
  }

  lemma AtoiOfNatToDecimal(n: nat)
    ensures Atoi(NatToDecimal(n)) == n
  {
    AtoiOfNatural(n, []);
    assert NatToDecimal(n) + [] == NatToDecimal(n);
  }

  lemma AtoiOfNatural(n: nat, rest: string)
    requires rest == [] || !IsDigit(rest[0])
    ensures Atoi(NatToDecimal(n) + rest) == n
  {
    AtoiOfDigits(NatToDecimal(n), rest);
    DecimalRoundTrip(n);
  }

  lemma AtoiOfDigits(d: string, rest: string)
    requires d != [] && AllDigits(d)
    requires rest == [] || !IsDigit(rest[0])
    ensures Atoi(d + rest) == DigitsValue(d)
  {
    var t := d + rest;
    assert t[0] == d[0];
    assert SkipCSpaces(t) == t;
    assert t[0] != '-' && t[0] != '+';
    AllDigitsPrefix(d, rest);
  }

  lemma AtoiOfNegative(n: nat, rest: string)
    requires n > 0
    requires rest == [] || !IsDigit(rest[0])
    ensures Atoi("-" + NatToDecimal(n) + rest) == 0 - n
  {
    var d := NatToDecimal(n);
    var t := "-" + d + rest;
    assert t[0] == '-';
    assert SkipCSpaces(t) == t;
    assert t[1..] == d + rest;
    LeadingDigitsOfDecimal(n, rest);
    DecimalRoundTrip(n);
    assert DigitsValue(LeadingDigits(t[1..])) == n;
  }

  // ---------------------------------------------------------------------
  // Python `int(str)`
  // ---------------------------------------------------------------------

  /** The white space Python's `int()` strips (its ASCII members). */
  predicate IsPySpace(c: char) {
    IsCSpace(c) || ('\U{1C}' <= c <= '\U{1F}')
  }

  function StripPySpaces(s: string): (r: string)
    ensures |r| <= |s|
    decreases |s|
  {
    if s != [] && IsPySpace(s[0]) then StripPySpaces(s[1..])
    else if s != [] && IsPySpace(s[|s| - 1]) then StripPySpaces(s[..|s| - 1])
    else s
  }

  /** A Python integer literal body in base 10: digits, with single
      underscores allowed between digits. */
  predicate IsPyDigits(s: string) {
    s != [] && IsDigit(s[0]) && AfterPyDigit(s[1..])
  }

  /** What may follow a digit in such a body. */
  predicate AfterPyDigit(s: string)
    decreases |s|
  {
    || s == []
    || (IsDigit(s[0]) && AfterPyDigit(s[1..]))
    || (|s| >= 2 && s[0] == '_' && IsDigit(s[1]) && AfterPyDigit(s[2..]))
  }

  predicate DigitsOrUnderscores(s: string) {
    forall i :: 0 <= i < |s| ==> IsDigit(s[i]) || s[i] == '_'
  }

  function RemoveUnderscores(s: string): (r: string)
    ensures DigitsOrUnderscores(s) ==> AllDigits(r)
  {
    if s == [] then [] else (if s[0] == '_' then [] else [s[0]]) + RemoveUnderscores(s[1..])
  }

  lemma {:induction false} AfterPyDigitChars(s: string)
    requires AfterPyDigit(s)
    ensures DigitsOrUnderscores(s)
    decreases |s|
  {
    if s != [] {
      if IsDigit(s[0]) && AfterPyDigit(s[1..]) {
        AfterPyDigitChars(s[1..]);
        assert forall i :: 1 <= i < |s| ==> s[i] == s[1..][i - 1];
      } else {
        AfterPyDigitChars(s[2..]);
        assert forall i :: 2 <= i < |s| ==> s[i] == s[2..][i - 2];
      }
    }
  }

  /** The value of a Python digit body. */
  function PyDigitsValue(s: string): nat
    requires IsPyDigits(s)
  {
    AfterPyDigitChars(s[1..]);
    assert forall i :: 1 <= i < |s| ==> s[i] == s[1..][i - 1];
    DigitsValue(RemoveUnderscores(s))
  }

  /** `int(s)` for a `str`: `None` where Python raises `ValueError`. */
  function PyInt(s: string): Option<int> {
    var t := StripPySpaces(s);
    if t != [] && (t[0] == '-' || t[0] == '+') then
      if IsPyDigits(t[1..]) then
        var v := PyDigitsValue(t[1..]);
        Some(if t[0] == '-' then 0 - v else v)
      else None
    else if IsPyDigits(t) then Some(PyDigitsValue(t))
    else None
  }

  lemma {:induction false} RemoveUnderscoresOfDigits(s: string)
    requires AllDigits(s)
    ensures RemoveUnderscores(s) == s
    ensures AfterPyDigit(s)
    decreases |s|
  {
    if s != [] {
      RemoveUnderscoresOfDigits(s[1..]);
      assert s == [s[0]] + s[1..];
    }
  }

  /** A colon ends a run of digits in a Python literal body. */
  lemma {:induction false} ColonNotAfterPyDigit(d: string, rest: string)
    requires AllDigits(d)
    ensures !AfterPyDigit(d + ":" + rest)
    decreases |d|
  {
    var t := d + ":" + rest;
    if d == [] {
      assert t[0] == ':';
    } else {
      assert t[0] == d[0];
      assert t[1..] == d[1..] + ":" + rest;
      ColonNotAfterPyDigit(d[1..], rest);
    }
  }

  lemma PyDigitsOfDigits(d: string)
    requires d != [] && AllDigits(d)
    ensures IsPyDigits(d) && PyDigitsValue(d) == DigitsValue(d)
  {
    RemoveUnderscoresOfDigits(d);
    RemoveUnderscoresOfDigits(d[1..]);
  }

  /** Python reads a run of digits as its value. */
  lemma PyIntOfDigits(d: string)
    requires d != [] && AllDigits(d)
    ensures PyInt(d) == Some(DigitsValue(d))
  {
    PyDigitsOfDigits(d);
    assert !IsPySpace(d[0]) && !IsPySpace(d[|d| - 1]);
    assert StripPySpaces(d) == d;
  }

  /** Python parses back what the gateway formats with `%d`, for a
      number that is not negative. */
  lemma PyIntOfNatural(n: nat)
    ensures PyInt(NatToDecimal(n)) == Some(n)
  {
    PyIntOfDigits(NatToDecimal(n));
    DecimalRoundTrip(n);
  }
}
