/** Decimal text of integers as printf writes it and atol reads it back. */
module Decimal {
  import opened Bytes

  predicate IsDigit(c: char) { '0' <= c <= '9' }

  function Digit(d: nat): (c: char)
    requires d < 10
    ensures IsDigit(c)
  {
    '0' + d as char
  }

  function DigitValue(c: char): (d: nat)
    requires IsDigit(c)
    ensures d < 10
  {
    (c - '0') as nat
  }

  /** The digits of `n`, most significant first. */
  function Digits(n: nat): (s: string)
    ensures |s| > 0 && forall i :: 0 <= i < |s| ==> IsDigit(s[i])
  {
    if n < 10 then [Digit(n)] else Digits(n / 10) + [Digit(n % 10)]
  }

  /** printf's %d on a 32-bit unsigned argument: the upper half prints as negative numbers. */
  function Signed(v: uint32): (s: string)
    ensures |s| > 0 && (IsDigit(s[0]) || s[0] == '-')
  {
    if v < 0x8000_0000 then Digits(v) else "-" + Digits(U32 - v)
  }

  predicate IsSpace(c: char) { c == ' ' || '\t' <= c <= '\r' }

  /** The number the digits at `p` go on to spell, behind the value read so far. */
  function ReadDigits(s: string, p: nat, value: nat): nat
    requires p <= |s|
    decreases |s| - p
  {
    if p < |s| && IsDigit(s[p]) then ReadDigits(s, p + 1, 10 * value + DigitValue(s[p])) else value
  }

  /** atol: blanks, a sign, digits; what follows is ignored. */
  function Atol(s: string): int
  {
    if s != [] && IsSpace(s[0]) then Atol(s[1..])
    else if s != [] && s[0] == '-' then 0 - (ReadDigits(s, 1, 0) as int)
    else if s != [] && s[0] == '+' then ReadDigits(s, 1, 0)
    else ReadDigits(s, 0, 0)
  }

  /** Storing a long in an unsigned field keeps its residue. */
  function ToUint32(v: int): uint32 { v % U32 }

  lemma {:induction false} ReadsAppended(s: string, c: char, p: nat, value: nat)
    requires p <= |s| && IsDigit(c)
    requires forall i :: p <= i < |s| ==> IsDigit(s[i])
    ensures ReadDigits(s + [c], p, value) == 10 * ReadDigits(s, p, value) + DigitValue(c)
    decreases |s| - p
  {
    if p < |s| {
      ReadsAppended(s, c, p + 1, 10 * value + DigitValue(s[p]));
    } else {
      assert ReadDigits(s + [c], p + 1, 10 * value + DigitValue(c)) == 10 * value + DigitValue(c);
    }
  }

  lemma {:induction false} ReadsShifted(sign: char, s: string, p: nat, value: nat)
    requires p <= |s|
    ensures ReadDigits([sign] + s, p + 1, value) == ReadDigits(s, p, value)
    decreases |s| - p
  {
    if p < |s| && IsDigit(s[p]) {
      ReadsShifted(sign, s, p + 1, 10 * value + DigitValue(s[p]));
    }
  }

  lemma {:induction false} DigitsBack(n: nat)
    ensures ReadDigits(Digits(n), 0, 0) == n
  {
    if n < 10 {
      var s := [Digit(n)];
      assert ReadDigits(s, 1, DigitValue(s[0])) == n;
    } else {
      DigitsBack(n / 10);
      ReadsAppended(Digits(n / 10), Digit(n % 10), 0, 0);
    }
  }

  lemma UnsignedBack(n: nat)
    ensures Atol(Digits(n)) == n
  {
    DigitsBack(n);
  }

  /** A 32-bit value survives being printed as a signed number and read back as a long. */
  lemma SignedBack(v: uint32)
    ensures ToUint32(Atol(Signed(v))) == v
  {
    if v < 0x8000_0000 {
      UnsignedBack(v);
    } else {
      var n := U32 - v;
      DigitsBack(n);
      ReadsShifted('-', Digits(n), 0, 0);
      assert Atol(Signed(v)) == -n;
    }
  }

  /** What is printed is the two's complement value: the upper half of the words is negative, and only it has a sign. */
  lemma SignedIsTwosComplement(v: uint32)
    ensures Atol(Signed(v)) == if v < 0x8000_0000 then v else v - 0x1_0000_0000
    ensures Signed(v)[0] == '-' <==> v >= 0x8000_0000
  {
    if v < 0x8000_0000 {
      UnsignedBack(v);
    } else {
      DigitsBack(U32 - v);
      ReadsShifted('-', Digits(U32 - v), 0, 0);
    }
  }

  /** No number is printed with a leading zero. */
  lemma {:induction false} NoLeadingZero(n: nat)
    ensures n > 0 ==> Digits(n)[0] != '0'
  {
    if n >= 10 { NoLeadingZero(n / 10); }
  }

  lemma {:induction false} ReadsUpTo(s: string, rest: string, p: nat, value: nat)
    requires p <= |s| && (rest == "" || !IsDigit(rest[0]))
    requires forall i :: p <= i < |s| ==> IsDigit(s[i])
    ensures ReadDigits(s + rest, p, value) == ReadDigits(s, p, value)
    decreases |s| - p
  {
    if p < |s| { ReadsUpTo(s, rest, p + 1, 10 * value + DigitValue(s[p])); }
  }

  /** atol reads a number behind an optional sign, up to the first character that is no digit. */
  lemma AtolReads(n: nat, rest: string)
    requires rest == "" || !IsDigit(rest[0])
    ensures Atol(Digits(n) + rest) == n && Atol("+" + Digits(n) + rest) == n
    ensures Atol("-" + Digits(n) + rest) == 0 - (n as int)
  {
    var s := Digits(n) + rest;
    DigitsBack(n);
    ReadsUpTo(Digits(n), rest, 0, 0);
    assert s[0] == Digits(n)[0];
    assert "+" + Digits(n) + rest == ['+'] + s && "-" + Digits(n) + rest == ['-'] + s;
    hide Digits;
    SignRead('+', s);
    SignRead('-', s);
  }

  lemma SignRead(sign: char, s: string)
    requires sign == '+' || sign == '-'
    ensures Atol([sign] + s) == if sign == '-' then 0 - (ReadDigits(s, 0, 0) as int) else ReadDigits(s, 0, 0)
  {
    ReadsShifted(sign, s, 0, 0);
    hide ReadDigits;
  }

  /** Blank, tab, line feed, vertical tab, form feed and carriage return in front of it do not matter. */
  lemma AtolSkips(c: char, s: string)
    requires c == ' ' || 9 <= c as int <= 13
    ensures Atol([c] + s) == Atol(s)
  {
    assert ([c] + s)[1..] == s;
  }

  /** Printed numbers take at most eleven characters. */
  lemma SignedFits(v: uint32)
    ensures |Signed(v)| <= 11
  {
    DigitsFit(if v < 0x8000_0000 then v else U32 - v, 10);
  }

  function Pow10(k: nat): nat { if k == 0 then 1 else 10 * Pow10(k - 1) }

  lemma {:induction false} DigitsFit(n: nat, k: nat)
    requires k > 0 && n < Pow10(k)
    ensures |Digits(n)| <= k
  {
    if n >= 10 {
      DigitsFit(n / 10, k - 1);
    }
  }
}
