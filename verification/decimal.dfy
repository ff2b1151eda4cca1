/** Decimal text of integers as Python's `str` and format specifiers
    produce it, together with the parser that inverts it. */
module Decimal {
  import opened Options

  predicate IsDigit(c: char) {
    '0' <= c <= '9'
  }

  predicate AllDigits(s: string) {
    forall i :: 0 <= i < |s| ==> IsDigit(s[i])
  }

  /** A decimal numeral as `str(n)` writes it: at least one digit and no
      leading zero unless the number is zero itself. */
  predicate Canonical(s: string) {
    && 1 <= |s|
    && AllDigits(s)
    && (s[0] == '0' ==> |s| == 1)
  }

  function DigitChar(d: nat): (c: char)
    requires d < 10
    ensures IsDigit(c)
  {
    ('0' as int + d) as char
  }

  function DigitValue(c: char): (d: nat)
    requires IsDigit(c)
    ensures d < 10
    ensures DigitChar(d) == c
  {
    c as int - '0' as int
  }

  lemma DigitValueOfChar(d: nat)
    requires d < 10
    ensures DigitValue(DigitChar(d)) == d
  {
  }

  /** `str(n)` for a non-negative int. */
  function NatToString(n: nat): (s: string)
    ensures Canonical(s)
    ensures s[0] == '0' <==> n == 0
    decreases n
  {
    if n < 10 then [DigitChar(n)] else NatToString(n / 10) + [DigitChar(n % 10)]
  }

  /** The number a string of digits denotes, leading zeros allowed. */
  function ValueOf(s: string): nat
    requires AllDigits(s)
  {
    if |s| == 0 then 0 else ValueOf(s[..|s| - 1]) * 10 + DigitValue(s[|s| - 1])
  }

  lemma DivModDigit(v: nat, d: nat)
    requires d < 10
    ensures (v * 10 + d) / 10 == v
    ensures (v * 10 + d) % 10 == d
  {
  }

  /** Reading back the numeral of `n` gives `n`. */
  lemma {:induction false} ValueOfNatToString(n: nat)
    ensures ValueOf(NatToString(n)) == n
    decreases n
  {
    if n < 10 {
      DigitValueOfChar(n);
    } else {
      var t := NatToString(n / 10);
      var s := NatToString(n);
      assert s == t + [DigitChar(n % 10)];
      assert s[..|s| - 1] == t;
      ValueOfNatToString(n / 10);
      DigitValueOfChar(n % 10);
    }
  }

  /** Every canonical numeral is the numeral of the number it denotes, so
      `NatToString` is a bijection between naturals and canonical numerals. */
  lemma {:induction false} NatToStringValueOf(s: string)
    requires Canonical(s)
    ensures NatToString(ValueOf(s)) == s
    decreases |s|
  {
    var last := s[|s| - 1];
    var d := DigitValue(last);
    if |s| == 1 {
      assert s == [last];
    } else {
      var t := s[..|s| - 1];
      assert t[0] == s[0];
      assert Canonical(t);
      NatToStringValueOf(t);
      var v := ValueOf(t);
      assert v != 0;
      DivModDigit(v, d);
      assert ValueOf(s) == v * 10 + d;
      assert s == t + [last];
    }
  }

  /** `str(i)` for any int: a '-' before the magnitude when negative. */
  function IntToString(i: int): (s: string)
    ensures 1 <= |s|
    ensures 0 <= i ==> Canonical(s)
    ensures i < 0 ==> s[0] == '-' && Canonical(s[1..]) && s[1..] != "0"
  {
    if i < 0 then "-" + NatToString(-i) else NatToString(i)
  }

  /** The inverse of `IntToString`: accepts exactly the strings it produces. */
  function ParseInt(s: string): Option<int> {
    if 2 <= |s| && s[0] == '-' && Canonical(s[1..]) && s[1..] != "0" then
      var magnitude: int := ValueOf(s[1..]);
      Some(-magnitude)
    else if Canonical(s) then
      Some(ValueOf(s))
    else
      None
  }

  lemma ParseIntToString(i: int)
    ensures ParseInt(IntToString(i)) == Some(i)
  {
    var s := IntToString(i);
    if i < 0 {
      assert s[1..] == NatToString(-i);
      ValueOfNatToString(-i);
    } else {
      ValueOfNatToString(i);
    }
  }

  lemma IntToStringParseInt(s: string, i: int)
    requires ParseInt(s) == Some(i)
    ensures IntToString(i) == s
  {
    if 2 <= |s| && s[0] == '-' && Canonical(s[1..]) && s[1..] != "0" {
      NatToStringValueOf(s[1..]);
      assert ValueOf(s[1..]) != 0;
      assert s == "-" + s[1..];
    } else {
      NatToStringValueOf(s);
    }
  }

  /** Right-aligns `s` in a field at least `width` characters wide by filling
      on the left with `fill`, as the format specifiers `{:2}` (fill ' ')
      and `{:02}` (fill '0') do for a non-negative int. A longer `s` is kept
      whole: a width never truncates. */
  function PadLeft(s: string, width: nat, fill: char): (r: string)
    ensures |r| == if |s| < width then width else |s|
    ensures r[|r| - |s|..] == s
    ensures forall k :: 0 <= k < |r| - |s| ==> r[k] == fill
  {
    if width <= |s| then s else seq(width - |s|, _ => fill) + s
  }

  /** `f"{n:2}"`: the day of month, space-padded to width 2. */
  function SpacePad2(n: nat): (s: string)
    ensures n < 10 ==> s == [' ', DigitChar(n)]
    ensures 10 <= n < 100 ==> s == [DigitChar(n / 10), DigitChar(n % 10)]
    ensures 10 <= n ==> s == NatToString(n)
  {
    PadLeft(NatToString(n), 2, ' ')
  }

  /** `f"{n:02}"`: a time field, zero-padded to width 2. */
  function ZeroPad2(n: nat): (s: string)
    ensures n < 100 ==> s == [DigitChar(n / 10), DigitChar(n % 10)]
    ensures 10 <= n ==> s == NatToString(n)
  {
    var r := PadLeft(NatToString(n), 2, '0');
    assert n < 10 ==> r == ['0', DigitChar(n)] && DigitChar(n / 10) == '0';
    r
  }

  lemma SpacePad2Chars(n: nat)
    requires n < 100
    ensures var s := SpacePad2(n);
      |s| == 2 && s[0] == (if n < 10 then ' ' else DigitChar(n / 10)) && s[1] == DigitChar(n % 10)
  {
  }

  lemma ZeroPad2Chars(n: nat)
    requires n < 100
    ensures var s := ZeroPad2(n);
      |s| == 2 && s[0] == DigitChar(n / 10) && s[1] == DigitChar(n % 10)
  {
  }
}
