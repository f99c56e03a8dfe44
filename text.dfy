/**
 * Character classes and text rules used by the request validators:
 * the regular expressions /^[a-zA-Z\s]+$/ and /^\d{10}$/, `startsWith`,
 * and express-validator's `isInt({ gt: 0 })` together with the Number
 * cast Mongoose applies when such a field is stored.
 */
module Text {

  predicate IsAsciiLetter(c: char) {
    ('a' <= c <= 'z') || ('A' <= c <= 'Z')
  }

  predicate IsDigit(c: char) {
    '0' <= c <= '9'
  }

  /** The characters JavaScript's `\s` matches: white space and line terminators. */
  predicate IsJsSpace(c: char) {
    c == '\t' || c == '\n' || c == '\U{B}' || c == '\U{C}' || c == '\r' || c == ' '
    || c == '\U{A0}' || c == '\U{1680}' || ('\U{2000}' <= c <= '\U{200A}')
    || c == '\U{2028}' || c == '\U{2029}' || c == '\U{202F}' || c == '\U{205F}'
    || c == '\U{3000}' || c == '\U{FEFF}'
  }

  /** /^[a-zA-Z\s]+$/ : at least one character, each a Latin letter or a space. */
  predicate LettersAndSpaces(s: string) {
    |s| > 0 && forall i :: 0 <= i < |s| ==> IsAsciiLetter(s[i]) || IsJsSpace(s[i])
  }

  predicate AllDigits(s: string) {
    forall i :: 0 <= i < |s| ==> IsDigit(s[i])
  }

  /** /^\d{10}$/ : exactly ten decimal digits. */
  predicate TenDigits(s: string) {
    |s| == 10 && AllDigits(s)
  }

  predicate StartsWith(s: string, prefix: string) {
    |prefix| <= |s| && s[..|prefix|] == prefix
  }

  /** validator.js integer syntax with leading zeroes allowed: /^[-+]?[0-9]+$/ */
  predicate IsIntText(s: string) {
    if |s| > 0 && (s[0] == '+' || s[0] == '-') then |s| > 1 && AllDigits(s[1..])
    else |s| > 0 && AllDigits(s)
  }

  function DigitValue(c: char): (d: nat)
    requires IsDigit(c)
    ensures d < 10
  {
    (c as int) - ('0' as int)
  }

  function DigitChar(d: nat): (c: char)
    requires d < 10
    ensures IsDigit(c) && DigitValue(c) == d
  {
    (('0' as int) + d) as char
  }

  /** The value of a string of decimal digits, most significant first. */
  function DigitsValue(s: string): nat
    requires AllDigits(s)
  {
    if |s| == 0 then 0 else DigitsValue(s[..|s| - 1]) * 10 + DigitValue(s[|s| - 1])
  }

  /** The number an integer text denotes (what `Number(s)` yields for it). */
  function IntValue(s: string): int
    requires IsIntText(s)
  {
    if s[0] == '-' then 0 - DigitsValue(s[1..]) as int
    else if s[0] == '+' then DigitsValue(s[1..])
    else DigitsValue(s)
  }

  /** express-validator `isInt({ gt: 0 })`. */
  predicate IsPositiveIntText(s: string) {
    IsIntText(s) && IntValue(s) > 0
  }

  /** The plain decimal rendering of a natural number, without sign, leading zeros or exponent. */
  function Decimal(n: nat): (s: string)
    ensures |s| > 0 && AllDigits(s)
  {
    if n < 10 then [DigitChar(n)] else Decimal(n / 10) + [DigitChar(n % 10)]
  }

  /** Reading back the decimal rendering of n gives n. */
  lemma {:induction false} DigitsValueOfDecimal(n: nat)
    ensures DigitsValue(Decimal(n)) == n
  {
    if n >= 10 {
      var s := Decimal(n);
      assert s[..|s| - 1] == Decimal(n / 10);
      DigitsValueOfDecimal(n / 10);
    }
  }

  /** 2^53: up to here every integer is a JavaScript number, so `Number()` casts its numeral exactly. */
  const MaxExactNumber: nat := 0x20_0000_0000_0000

  /** A positive number sent as its decimal text passes `isInt({ gt: 0 })` and, up to 2^53, is stored as itself. */
  lemma PositiveDecimalAccepted(n: nat)
    requires 0 < n <= MaxExactNumber
    ensures IsPositiveIntText(Decimal(n)) && IntValue(Decimal(n)) == n
  {
    DigitsValueOfDecimal(n);
  }

  /** An explicit '+' sign is accepted and, up to 2^53, does not change the value. */
  lemma PlusSignAccepted(n: nat)
    requires 0 < n <= MaxExactNumber
    ensures IsPositiveIntText("+" + Decimal(n)) && IntValue("+" + Decimal(n)) == n
  {
    var s := "+" + Decimal(n);
    assert s[1..] == Decimal(n);
    DigitsValueOfDecimal(n);
  }
  // ------------------------------------------------------------- UTF-8

  /** The UTF-8 encoding of one character, as byte values. */
  function CharUtf8(c: char): (bytes: seq<int>)
    ensures 1 <= |bytes| <= 4
  {
    var n := c as int;
    var q1, r0 := n / 64, n % 64;
    var q2, r1 := q1 / 64, q1 % 64;
    var q3, r2 := q2 / 64, q2 % 64;
    if n < 0x80 then [n]
    else if n < 0x800 then [0xC0 + q1, 0x80 + r0]
    else if n < 0x10000 then [0xE0 + q2, 0x80 + r1, 0x80 + r0]
    else [0xF0 + q3, 0x80 + r2, 0x80 + r1, 0x80 + r0]
  }

  /** The UTF-8 encoding of a string: its characters' encodings in order. */
  function Utf8(s: string): (bytes: seq<int>)
    ensures |bytes| >= |s|
  {
    if s == [] then [] else CharUtf8(s[0]) + Utf8(s[1..])
  }

  /** Encoding distributes over concatenation. */
  lemma {:induction false} Utf8Append(s: string, t: string)
    ensures Utf8(s + t) == Utf8(s) + Utf8(t)
  {
    if s != [] {
      assert (s + t)[1..] == s[1..] + t;
      Utf8Append(s[1..], t);
    } else {
      assert s + t == t;
    }
  }

  /** The first byte of a character's encoding tells how many bytes follow it. */
  function Utf8Width(lead: int): nat {
    if lead < 0x80 then 1 else if lead < 0xE0 then 2 else if lead < 0xF0 then 3 else 4
  }

  lemma CharUtf8Width(c: char)
    ensures |CharUtf8(c)| == Utf8Width(CharUtf8(c)[0])
  {
  }

  /** Different characters have different encodings. */
  lemma CharUtf8Injective(c: char, d: char)
    requires CharUtf8(c) == CharUtf8(d)
    ensures c == d
  {
    var n, m := c as int, d as int;
    if n >= 0x800 {
      if n >= 0x10000 {
        SameBase64(n / 64 / 64, m / 64 / 64);
      }
      SameBase64(n / 64, m / 64);
    }
    SameBase64(n, m);
  }

  /** A number is fixed by its quotient and remainder by 64. */
  lemma SameBase64(n: int, m: int)
    requires n / 64 == m / 64 && n % 64 == m % 64
    ensures n == m
  {
  }

  /** Different strings have different encodings: UTF-8 loses nothing. */
  lemma {:induction false} Utf8Injective(s: string, t: string)
    requires Utf8(s) == Utf8(t)
    ensures s == t
  {
    if s != [] {
      assert t != [];
      CharUtf8Width(s[0]);
      CharUtf8Width(t[0]);
      var w := |CharUtf8(s[0])|;
      assert Utf8(s)[0] == Utf8(t)[0];
      assert CharUtf8(s[0]) == Utf8(s)[..w] == Utf8(t)[..w] == CharUtf8(t[0]);
      CharUtf8Injective(s[0], t[0]);
      assert Utf8(s[1..]) == Utf8(s)[w..] == Utf8(t)[w..] == Utf8(t[1..]);
      Utf8Injective(s[1..], t[1..]);
      assert s == [s[0]] + s[1..];
      assert t == [t[0]] + t[1..];
    }
  }
}
