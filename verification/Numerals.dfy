/**
 * Reading decimal numbers as the C library does: atoi() of the scheduler and
 * UtilStoi() of the message parser (util.c).
 */
module Numerals {
  import opened Common

  predicate IsDigit(c: char) {
    '0' <= c <= '9'
  }

  function DigitOf(c: char): nat
    requires IsDigit(c)
  {
    c as int - '0' as int
  }

  /** The number written by a string of digits. */
  function NumberOf(digits: string): nat
    requires AllDigits(digits)
  {
    if digits == "" then 0
    else
      var last := |digits| - 1;
      10 * NumberOf(digits[..last]) + DigitOf(digits[last])
  }

  predicate AllDigits(s: string) {
    forall i :: 0 <= i < |s| ==> IsDigit(s[i])
  }

  predicate IsSpace(c: char) {
    c == ' ' || '\t' <= c <= '\r'
  }

  function SkipSpace(s: string): string {
    if s != "" && IsSpace(s[0]) then SkipSpace(s[1..]) else s
  }

  /** Reads digits up to the first other character. */
  function ReadDigits(s: string, soFar: nat): nat
    decreases |s|
  {
    if s == "" || !IsDigit(s[0]) then soFar else ReadDigits(s[1..], 10 * soFar + DigitOf(s[0]))
  }

  const INT_MAX: int := 0x7FFF_FFFF
  const LONG_MAX: int := 0x7FFF_FFFF_FFFF_FFFF

  /** A 64-bit strtol() saturates. */
  function Saturate(v: int): int {
    if v > LONG_MAX then LONG_MAX else if v < -LONG_MAX - 1 then -LONG_MAX - 1 else v
  }

  /** The conversion to a 32-bit int keeps the low bits. */
  function ToInt32(v: int): int {
    var low := v % 0x1_0000_0000;
    if low > INT_MAX then low - 0x1_0000_0000 else low
  }

  function Atoi(s: string): int {
    var t := SkipSpace(s);
    var v: int := if t != "" && t[0] == '-' then 0 - ReadDigits(t[1..], 0)
             else if t != "" && t[0] == '+' then ReadDigits(t[1..], 0)
             else ReadDigits(t, 0);
    ToInt32(Saturate(v))
  }

  predicate Numeral(s: string) {
    s != "" && AllDigits(s) && NumberOf(s) <= INT_MAX
  }

  lemma {:induction false} DigitsRead(before: string, digits: string, rest: string)
    requires AllDigits(before) && AllDigits(digits)
    requires rest == "" || !IsDigit(rest[0])
    ensures ReadDigits(digits + rest, NumberOf(before)) == NumberOf(before + digits)
    decreases |digits|
  {
    if digits == "" {
      assert digits + rest == rest && before + digits == before;
    } else {
      var more := before + [digits[0]];
      assert more[..|more| - 1] == before;
      assert (digits + rest)[1..] == digits[1..] + rest;
      DigitsRead(more, digits[1..], rest);
      assert more + digits[1..] == before + digits;
    }
  }

  /** atoi() gives the number written by the digits at the front. */
  lemma AtoiOfNumeral(s: string, rest: string)
    requires Numeral(s)
    requires rest == "" || !IsDigit(rest[0])
    ensures Atoi(s + rest) == NumberOf(s)
  {
    assert (s + rest)[0] == s[0] && IsDigit(s[0]);
    DigitsRead("", s, rest);
    assert "" + s == s;
  }

  /** UtilStoi: white space, a sign and decimal digits, and nothing else, within the int range. */
  function StringToInt(s: string): Option<int> {
    var t := SkipSpace(s);
    var negative := t != "" && t[0] == '-';
    var digits := if t != "" && (t[0] == '-' || t[0] == '+') then t[1..] else t;
    if digits == "" || !AllDigits(digits) then None
    else
      var v: int := if negative then 0 - NumberOf(digits) else NumberOf(digits);
      if -INT_MAX - 1 <= v <= INT_MAX then Some(v) else None
  }

  function DecimalDigit(d: nat): (c: char)
    requires d < 10
    ensures IsDigit(c) && DigitOf(c) == d
  {
    ('0' as int + d) as char
  }

  /** What printf() writes for "%d". */
  function Decimal(n: nat): string {
    (if n < 10 then "" else Decimal(n / 10)) + [DecimalDigit(n % 10)]
  }

  /** It is read back as the number. */
  lemma {:induction false} DecimalNumber(n: nat)
    ensures AllDigits(Decimal(n)) && NumberOf(Decimal(n)) == n
  {
    var front, last := if n < 10 then "" else Decimal(n / 10), DecimalDigit(n % 10);
    if n >= 10 {
      DecimalNumber(n / 10);
    }
    assert Decimal(n) == front + [last];
    assert Decimal(n)[..|front|] == front;
  }

  function Power10(k: nat): nat {
    if k == 0 then 1 else 10 * Power10(k - 1)
  }

  lemma {:induction false} DecimalDigits(n: nat, max: nat)
    requires 1 <= max && n < Power10(max)
    ensures 1 <= |Decimal(n)| <= max && AllDigits(Decimal(n))
    decreases max
  {
    if n >= 10 {
      assert n / 10 < Power10(max - 1);
      DecimalDigits(n / 10, max - 1);
    }
  }
}
