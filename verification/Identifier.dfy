/**
 * Generated instance identifiers (xplcore.c): a prefix and the time of day in
 * base 36, written into a character buffer from its end.
 */
module Identifier {

  const BASE36_TABLE: string := "0123456789abcdefghijklmnopqrstuvwxyz"

  predicate IsDigit36(c: char) {
    '0' <= c <= '9' || 'a' <= c <= 'z'
  }

  function Digit36(c: char): nat
    requires IsDigit36(c)
  {
    if c <= '9' then c as int - '0' as int else 10 + (c as int - 'a' as int)
  }

  predicate Digits36(s: string) {
    forall i :: 0 <= i < |s| ==> IsDigit36(s[i])
  }

  /** The number a string of base 36 digits stands for. */
  function Value36(s: string): nat
    requires Digits36(s)
  {
    if s == "" then 0
    else
      var last := |s| - 1;
      36 * Value36(s[..last]) + Digit36(s[last])
  }

  /** The last k digits of a value. */
  function Suffix(value: nat, k: nat): (s: string)
    ensures |s| == k
  {
    if k == 0 then "" else Suffix(value / 36, k - 1) + [BASE36_TABLE[value % 36]]
  }

  function Power36(k: nat): nat {
    if k == 0 then 1 else 36 * Power36(k - 1)
  }

  function Zeros(n: nat): string {
    seq(n, _ => '0')
  }

  lemma {:induction false} SuffixOfZero(k: nat)
    ensures Suffix(0, k) == Zeros(k)
  {
    if k > 0 {
      SuffixOfZero(k - 1);
    }
  }

  lemma TableDigit(d: nat)
    requires d < 36
    ensures IsDigit36(BASE36_TABLE[d]) && Digit36(BASE36_TABLE[d]) == d
  {
  }

  /** The number made of the last k digits. */
  function Low(value: nat, k: nat): nat {
    if k == 0 then 0 else 36 * Low(value / 36, k - 1) + value % 36
  }

  lemma {:induction false} SuffixValue(value: nat, k: nat)
    ensures Digits36(Suffix(value, k)) && Value36(Suffix(value, k)) == Low(value, k)
  {
    if k > 0 {
      var s, d := Suffix(value / 36, k - 1), BASE36_TABLE[value % 36];
      SuffixValue(value / 36, k - 1);
      TableDigit(value % 36);
      Value36Append(s, d);
    }
  }

  lemma Value36Append(s: string, d: char)
    requires Digits36(s) && IsDigit36(d)
    ensures Digits36(s + [d]) && Value36(s + [d]) == 36 * Value36(s) + Digit36(d)
  {
    assert (s + [d])[..|s|] == s;
  }

  /** The value with its last k digits taken off. */
  function Shifted(value: nat, k: nat): nat {
    if k == 0 then value else Shifted(value / 36, k - 1)
  }

  /** Apart from its last k digits a value is a multiple of 36 to the k. */
  lemma {:induction false} ShiftedRest(value: nat, k: nat)
    ensures value == Shifted(value, k) * Power36(k) + Low(value, k) && Low(value, k) < Power36(k)
  {
    if k > 0 {
      ShiftedRest(value / 36, k - 1);
      MoveFactor(Shifted(value, k), Power36(k - 1));
    }
  }

  lemma MoveFactor(a: nat, b: nat)
    ensures 36 * (a * b) == a * (36 * b)
  {
  }

  /** Eight digits keep the value modulo 36 to the 8th. */
  lemma SuffixMeaning(value: nat)
    ensures Digits36(Suffix(value, 8)) && Value36(Suffix(value, 8)) == value % 2_821_109_907_456
  {
    SuffixValue(value, 8);
    ShiftedRest(value, 8);
    PowerOfEight();
    Remainder(value, Shifted(value, 8), Low(value, 8));
  }

  lemma PowerOfEight()
    ensures Power36(8) == 2_821_109_907_456
  {
    assert Power36(2) == 1296;
    assert Power36(4) == 1_679_616;
    assert Power36(6) == 2_176_782_336;
  }

  lemma Remainder(value: nat, high: nat, low: nat)
    requires value == high * 2_821_109_907_456 + low && low < 2_821_109_907_456
    ensures value % 2_821_109_907_456 == low
  {
  }

  lemma DigitInjective(c: char, d: char)
    requires IsDigit36(c) && IsDigit36(d)
    ensures Digit36(c) == Digit36(d) <==> c == d
    ensures Digit36(c) < 36
  {
  }

  lemma {:induction false} Value36Injective(s: string, t: string)
    requires |s| == |t| && Digits36(s) && Digits36(t) && Value36(s) == Value36(t)
    ensures s == t
    decreases |s|
  {
    if s != "" {
      var last := |s| - 1;
      var a, b := Value36(s[..last]), Value36(t[..last]);
      DigitInjective(s[last], t[last]);
      DigitInjective(t[last], s[last]);
      assert 36 * a + Digit36(s[last]) == 36 * b + Digit36(t[last]);
      assert a == b;
      Value36Injective(s[..last], t[..last]);
      assert s == s[..last] + [s[last]];
      assert t == t[..last] + [t[last]];
    }
  }

  /** Two values get the same digits exactly when they agree modulo 36 to the 8th. */
  lemma SameSuffix(v: nat, w: nat)
    ensures Suffix(v, 8) == Suffix(w, 8) <==> v % 2_821_109_907_456 == w % 2_821_109_907_456
  {
    SuffixMeaning(v);
    SuffixMeaning(w);
    if v % 2_821_109_907_456 == w % 2_821_109_907_456 {
      Value36Injective(Suffix(v, 8), Suffix(w, 8));
    }
  }

  // ----- character buffers -----

  /** The position of the terminating NUL. */
  function TextLength(s: string): (n: nat)
    requires '\0' in s
    ensures n < |s| && s[n] == '\0' && '\0' !in s[..n]
  {
    if s[0] == '\0' then 0
    else
      assert s == [s[0]] + s[1..];
      var n := 1 + TextLength(s[1..]);
      assert s[..n] == [s[0]] + s[1..][..n - 1];
      n
  }

  /** The text stored in a buffer. */
  function TextOf(s: string): string
    requires '\0' in s
  {
    s[..TextLength(s)]
  }

  lemma {:induction false} TextEnds(s: string, n: nat)
    requires n < |s| && s[n] == '\0' && '\0' !in s[..n]
    ensures '\0' in s && TextLength(s) == n && TextOf(s) == s[..n]
    decreases |s|
  {
    if n > 0 {
      assert s[0] in s[..n];
      assert s[..n] == [s[0]] + s[1..][..n - 1];
      TextEnds(s[1..], n - 1);
    }
  }

  method StrLen(buffer: array<char>) returns (n: nat)
    requires '\0' in buffer[..]
    ensures n == TextLength(buffer[..])
  {
    n := 0;
    while buffer[n] != '\0'
      invariant n <= TextLength(buffer[..])
      decreases buffer.Length - n
    {
      assert n != TextLength(buffer[..]);
      n := n + 1;
    }
  }

  /** Appends "00000000" and a NUL. */
  method AppendZeros(theBuffer: array<char>) returns (buffLen: nat)
    requires '\0' in theBuffer[..] && TextLength(theBuffer[..]) + 8 < theBuffer.Length
    modifies theBuffer
    ensures buffLen == |old(TextOf(theBuffer[..]))| + 8 < theBuffer.Length
    ensures theBuffer[..] == Partly(old(TextOf(theBuffer[..])), 8, "", theBuffer[buffLen..])
    ensures theBuffer[buffLen] == '\0'
  {
    var n := StrLen(theBuffer);
    for i := 0 to 8
      invariant forall j :: n <= j < n + i ==> theBuffer[j] == '0'
      invariant theBuffer[..n] == old(theBuffer[..n])
    {
      theBuffer[n + i] := '0';
    }
    theBuffer[n + 8] := '\0';
    buffLen := n + 8;
  }

  method StoreDigit(theBuffer: array<char>, i: nat, digit: char)
    requires i < theBuffer.Length
    modifies theBuffer
    ensures theBuffer[..] == old(theBuffer[..])[i := digit]
  {
    theBuffer[i] := digit;
  }

  /** The zeros that are left, and the digits behind them, between a head and a tail. */
  function Partly(head: string, k: nat, digits: string, tail: string): string {
    head + Zeros(k) + digits + tail
  }

  lemma StoredInFront(head: string, k: nat, digits: string, tail: string, digit: char)
    ensures Partly(head, k + 1, digits, tail)[|head| + k := digit] == Partly(head, k, [digit] + digits, tail)
  {
  }

  lemma SuffixStep(value: nat, k: nat, digits: string)
    ensures Suffix(value, k + 1) + digits == Suffix(value / 36, k) + ([BASE36_TABLE[value % 36]] + digits)
  {
  }

  /** Overwrites the eight zeros behind the head from the end, until nothing is left of the value. */
  method FillDigits(theValue: nat, theBuffer: array<char>, ghost head: string, start: nat, ghost tail: string)
    requires start == |head| && theBuffer[..] == Partly(head, 8, "", tail)
    modifies theBuffer
    ensures theBuffer[..] == head + Suffix(theValue, 8) + tail
  {
    var v, k := theValue, 8;
    ghost var left, digits := v, "";
    while k > 0
      invariant 0 <= k <= 8 && left == v && |digits| == 8 - k
      invariant theBuffer[..] == Partly(head, k, digits, tail)
      invariant Suffix(theValue, 8) == Suffix(left, k) + digits
    {
      k := k - 1;
      StoredInFront(head, k, digits, tail, BASE36_TABLE[v % 36]);
      SuffixStep(v, k, digits);
      StoreDigit(theBuffer, start + k, BASE36_TABLE[v % 36]);
      digits, left := [BASE36_TABLE[v % 36]] + digits, v / 36;
      if v < 36 {
        break;
      }
      v := v / 36;
    }
    SuffixOfZero(k);
    assert head + (Zeros(k) + digits) + tail == Partly(head, k, digits, tail);
  }

  lemma JoinNoNul(text: string, value: nat)
    requires '\0' !in text
    ensures '\0' !in text + Suffix(value, 8)
  {
    SuffixMeaning(value);
  }

  /** The text in the buffer is kept, and the last eight digits of the value follow it. */
  method LongToBase36(theValue: nat, theBuffer: array<char>)
    requires '\0' in theBuffer[..] && TextLength(theBuffer[..]) + 8 < theBuffer.Length
    modifies theBuffer
    ensures '\0' in theBuffer[..]
    ensures TextOf(theBuffer[..]) == old(TextOf(theBuffer[..])) + Suffix(theValue, 8)
  {
    ghost var head := TextOf(theBuffer[..]);
    var buffLen := AppendZeros(theBuffer);
    ghost var tail := theBuffer[buffLen..];
    SuffixOfZero(8);
    if theValue != 0 {
      FillDigits(theValue, theBuffer, head, buffLen - 8, tail);
    }
    JoinNoNul(head, theValue);
    TextInFront(head + Suffix(theValue, 8), tail, theBuffer[..]);
  }

  lemma TextInFront(text: string, tail: string, all: string)
    requires all == text + tail && '\0' !in text && tail != "" && tail[0] == '\0'
    ensures '\0' in all && TextOf(all) == text
  {
    assert all[..|text|] == text;
    TextEnds(all, |text|);
  }

  /** Cuts a text that is longer. */
  method CutTo(buffer: array<char>, max: nat)
    requires '\0' in buffer[..] && max < buffer.Length
    modifies buffer
    ensures '\0' in buffer[..]
    ensures
      var text := old(TextOf(buffer[..]));
      TextOf(buffer[..]) == if |text| > max then text[..max] else text
  {
    var length := StrLen(buffer);
    if length > max {
      ghost var text := buffer[..length];
      buffer[max] := '\0';
      assert buffer[..max] == text[..max];
      TextEnds(buffer[..], max);
    }
  }

  method CopyText(buffer: array<char>, text: string)
    requires |text| < buffer.Length && '\0' !in text
    modifies buffer
    ensures '\0' in buffer[..] && TextOf(buffer[..]) == text
  {
    for i := 0 to |text|
      invariant buffer[..i] == text[..i]
    {
      buffer[i] := text[i];
    }
    buffer[|text|] := '\0';
    assert buffer[..|text|] == text;
    TextEnds(buffer[..], |text|);
  }

  // ----- identifiers -----

  const ID_MAX: nat := 16

  /** An identifier: the prefix made at start-up and the time, cut at 16 characters. */
  function Identity(uniqPrefix: string, timeInMillis: nat): string {
    var whole := uniqPrefix + Suffix(timeInMillis, 8);
    if |whole| > 16 then whole[..16] else whole
  }

  method GenerateFairlyUniqueID(uniqPrefix: string, timeInMillis: nat) returns (id: string)
    requires |uniqPrefix| < 24 && '\0' !in uniqPrefix
    ensures id == Identity(uniqPrefix, timeInMillis)
  {
    var newIdent := new char[32](_ => '\0');
    CopyText(newIdent, uniqPrefix);
    LongToBase36(timeInMillis, newIdent);
    CutTo(newIdent, ID_MAX);
    var length := StrLen(newIdent);
    id := newIdent[..length];
  }

  /** How many of the eight digits the cut leaves. */
  function KeptDigits(uniqPrefix: string): (k: nat)
    ensures k <= 8
  {
    if |uniqPrefix| <= 8 then 8 else if |uniqPrefix| <= 16 then 16 - |uniqPrefix| else 0
  }

  /** The first digits are those of the shifted value. */
  lemma {:induction false} SuffixFront(value: nat, n: nat, k: nat)
    requires k <= n
    ensures Suffix(value, n)[..n - k] == Suffix(Shifted(value, k), n - k)
    decreases k
  {
    if k > 0 {
      var front := Suffix(value / 36, n - 1);
      SuffixFront(value / 36, n - 1, k - 1);
      assert Suffix(value, n) == front + [BASE36_TABLE[value % 36]];
      assert Suffix(value, n)[..n - k] == front[..n - k];
    }
  }

  lemma MulGrows(x: nat, d: nat)
    requires x >= 1
    ensures x * d >= d
  {
  }

  lemma QuotientUnique(n: nat, d: nat, q: nat, r: nat)
    requires r < d && n == q * d + r
    ensures n / d == q && n % d == r
  {
    var q', r' := n / d, n % d;
    assert n == q' * d + r';
    assert (q - q') * d == r' - r by {
      assert (q - q') * d == q * d - q' * d;
    }
    if q > q' {
      MulGrows(q - q', d);
    } else if q' > q {
      MulGrows(q' - q, d);
    }
  }

  /** Taking off k digits divides by 36 to the k, and the last k digits are the remainder. */
  lemma ShiftedLow(value: nat, k: nat)
    ensures Power36(k) > 0
    ensures Shifted(value, k) == value / Power36(k) && Low(value, k) == value % Power36(k)
  {
    ShiftedRest(value, k);
    QuotientUnique(value, Power36(k), Shifted(value, k), Low(value, k));
  }

  lemma CutIdentity(uniqPrefix: string, value: nat)
    ensures
      var k := KeptDigits(uniqPrefix);
      Identity(uniqPrefix, value)
        == (if |uniqPrefix| > ID_MAX then uniqPrefix[..ID_MAX] else uniqPrefix) + Suffix(Shifted(value, 8 - k), k)
  {
    var k := KeptDigits(uniqPrefix);
    SuffixFront(value, 8, 8 - k);
    var digits := Suffix(value, 8);
    if |uniqPrefix| <= 8 {
      assert digits[..8] == digits;
    } else if |uniqPrefix| <= ID_MAX {
      assert (uniqPrefix + digits)[..ID_MAX] == uniqPrefix + digits[..k];
    } else {
      assert (uniqPrefix + digits)[..ID_MAX] == uniqPrefix[..ID_MAX];
      assert uniqPrefix[..ID_MAX] + Suffix(Shifted(value, 8), 0) == uniqPrefix[..ID_MAX];
    }
  }

  lemma SameDigits(v: nat, w: nat, k: nat)
    ensures Suffix(v, k) == Suffix(w, k) <==> Low(v, k) == Low(w, k)
  {
    SuffixValue(v, k);
    SuffixValue(w, k);
    if Low(v, k) == Low(w, k) {
      Value36Injective(Suffix(v, k), Suffix(w, k));
    }
  }

  /**
   * When two identifiers with one prefix are the same. With a prefix of at
   * most eight characters, such as the one made at start-up, the times must
   * agree modulo 36 to the 8th. A longer prefix leaves k of the eight digits,
   * and the times need to agree in those only; one of sixteen or more leaves
   * none, and all identifiers are the same.
   */
  lemma IdentifiersDiffer(uniqPrefix: string, v: nat, w: nat)
    ensures
      var k := KeptDigits(uniqPrefix);
      var cut := Power36(8 - k);
      && cut > 0 && Power36(k) > 0
      && (Identity(uniqPrefix, v) == Identity(uniqPrefix, w)
          <==> v / cut % Power36(k) == w / cut % Power36(k))
    ensures |uniqPrefix| <= 8 ==>
      (Identity(uniqPrefix, v) == Identity(uniqPrefix, w)
       <==> v % 2_821_109_907_456 == w % 2_821_109_907_456)
    ensures |uniqPrefix| >= 16 ==> Identity(uniqPrefix, v) == Identity(uniqPrefix, w)
  {
    hide Suffix, Identity, Shifted, Low;
    var k := KeptDigits(uniqPrefix);
    var front := if |uniqPrefix| > ID_MAX then uniqPrefix[..ID_MAX] else uniqPrefix;
    var v', w' := Shifted(v, 8 - k), Shifted(w, 8 - k);
    CutIdentity(uniqPrefix, v);
    CutIdentity(uniqPrefix, w);
    SameTail(front, Suffix(v', k), Suffix(w', k));
    SameDigits(v', w', k);
    ShiftedLow(v, 8 - k);
    ShiftedLow(w, 8 - k);
    ShiftedLow(v', k);
    ShiftedLow(w', k);
    PowerOfEight();
  }

  lemma SameTail(front: string, s: string, t: string)
    ensures front + s == front + t <==> s == t
  {
    assert (front + s)[|front|..] == s;
    assert (front + t)[|front|..] == t;
  }
}
