/** Comma-grouped decimal numerals: Python's `{n:,}`, and `int(s.replace(",", ""))`. */
module Numerals {
  import opened Options

  predicate IsDigit(c: char) {
    '0' <= c <= '9'
  }

  predicate IsNumeralChar(c: char) {
    IsDigit(c) || c == ','
  }

  function Digit(d: nat): (c: char)
    requires d < 10
    ensures IsDigit(c) && DigitValue(c) == d
  {
    (('0' as int) + d) as char
  }

  function DigitValue(c: char): nat
    requires IsDigit(c)
  {
    (c as int) - ('0' as int)
  }

  // ---------- printing ----------

  /** Decimal digits of a number below 1000, without leading zeros. */
  function Short(n: nat): string
    requires n < 1000
  {
    if n < 10 then [Digit(n)]
    else if n < 100 then [Digit(n / 10), Digit(n % 10)]
    else Padded(n)
  }

  function Padded(n: nat): string
    requires n < 1000
  {
    [Digit(n / 100), Digit(n / 10 % 10), Digit(n % 10)]
  }

  function Grouped(n: nat): string {
    if n < 1000 then Short(n) else Grouped(n / 1000) + "," + Padded(n % 1000)
  }

  /** `{n:,}` */
  function Format(n: int): string {
    if n < 0 then "-" + Grouped(-n) else Grouped(n)
  }

  /** `{sign}{n:,}` with an explicit plus sign, as the investor lines print it. */
  function FormatSigned(n: int): string {
    if n >= 0 then "+" + Format(n) else Format(n)
  }

  // ---------- reading ----------

  function WithoutCommas(s: string): string {
    if s == [] then []
    else
      var rest := WithoutCommas(s[1..]);
      if s[0] == ',' then rest else [s[0]] + rest
  }

  /** Value of a digit string; None if it is empty or not all digits. */
  function DigitsValue(s: string): Option<nat> {
    if s == [] || !IsDigit(s[|s| - 1]) then None
    else if |s| == 1 then Some(DigitValue(s[0]))
    else
      match DigitsValue(s[..|s| - 1])
      case None => None
      case Some(v) => Some(10 * v + DigitValue(s[|s| - 1]))
  }

  function Negated(negative: bool, v: int): int {
    if negative then -v else v
  }

  /** `int(s.replace(",", ""))`; None stands for ValueError. */
  function ToInt(s: string): Option<int> {
    var t := WithoutCommas(s);
    if t != [] && (t[0] == '+' || t[0] == '-') then
      match DigitsValue(t[1..])
      case None => None
      case Some(v) => Some(Negated(t[0] == '-', v))
    else
      match DigitsValue(t)
      case None => None
      case Some(v) => Some(v)
  }

  // ---------- reading undoes printing ----------

  lemma {:induction false} CommasDropOut(a: string, b: string)
    ensures WithoutCommas(a + b) == WithoutCommas(a) + WithoutCommas(b)
  {
    if a == [] {
      assert a + b == b;
    } else {
      assert (a + b)[1..] == a[1..] + b;
      CommasDropOut(a[1..], b);
    }
  }

  lemma {:induction false} NoCommas(s: string)
    requires ',' !in s
    ensures WithoutCommas(s) == s
  {
    if s != [] {
      NoCommas(s[1..]);
    }
  }

  lemma AppendDigit(s: string, d: nat)
    requires d < 10 && DigitsValue(s).Some?
    ensures DigitsValue(s + [Digit(d)]) == Some(10 * DigitsValue(s).value + d)
  {
    assert (s + [Digit(d)])[..|s|] == s;
  }

  lemma ThreeDigits(s: string, a: nat, b: nat, c: nat)
    requires a < 10 && b < 10 && c < 10 && DigitsValue(s).Some?
    ensures DigitsValue(s + [Digit(a), Digit(b), Digit(c)]) == Some(1000 * DigitsValue(s).value + 100 * a + 10 * b + c)
  {
    AppendDigit(s, a);
    AppendDigit(s + [Digit(a)], b);
    AppendDigit(s + [Digit(a)] + [Digit(b)], c);
    assert s + [Digit(a), Digit(b), Digit(c)] == s + [Digit(a)] + [Digit(b)] + [Digit(c)];
  }

  lemma DecimalPlaces(n: nat)
    requires n < 1000
    ensures n == 100 * (n / 100) + 10 * (n / 10 % 10) + n % 10
  {
  }

  lemma FewDigits(a: nat, b: nat, c: nat)
    requires a < 10 && b < 10 && c < 10
    ensures DigitsValue([Digit(a)]) == Some(a)
    ensures DigitsValue([Digit(a), Digit(b)]) == Some(10 * a + b)
    ensures DigitsValue([Digit(a), Digit(b), Digit(c)]) == Some(100 * a + 10 * b + c)
  {
    AppendDigit([Digit(a)], b);
    assert [Digit(a), Digit(b)] == [Digit(a)] + [Digit(b)];
    AppendDigit([Digit(a), Digit(b)], c);
    assert [Digit(a), Digit(b), Digit(c)] == [Digit(a), Digit(b)] + [Digit(c)];
  }

  lemma ShortValue(n: nat)
    requires n < 1000
    ensures DigitsValue(Short(n)) == Some(n) && ',' !in Short(n)
  {
    DecimalPlaces(n);
    if n < 10 {
      FewDigits(n, 0, 0);
    } else if n < 100 {
      FewDigits(n / 10, n % 10, 0);
    } else {
      FewDigits(n / 100, n / 10 % 10, n % 10);
    }
  }

  lemma PaddedValue(s: string, n: nat)
    requires n < 1000 && DigitsValue(s).Some?
    ensures DigitsValue(s + Padded(n)) == Some(1000 * DigitsValue(s).value + n) && ',' !in Padded(n)
  {
    ThreeDigits(s, n / 100, n / 10 % 10, n % 10);
    DecimalPlaces(n);
  }

  lemma {:induction false} GroupedValue(n: nat)
    ensures DigitsValue(WithoutCommas(Grouped(n))) == Some(n)
  {
    if n < 1000 {
      ShortValue(n);
      NoCommas(Short(n));
    } else {
      GroupedValue(n / 1000);
      PaddedValue(WithoutCommas(Grouped(n / 1000)), n % 1000);
      CommasDropOut(Grouped(n / 1000) + ",", Padded(n % 1000));
      CommasDropOut(Grouped(n / 1000), ",");
      NoCommas(Padded(n % 1000));
      assert WithoutCommas(",") == [];
      assert WithoutCommas(Grouped(n)) == WithoutCommas(Grouped(n / 1000)) + Padded(n % 1000);
    }
  }

  /** A numeral: an optional sign, then digits and commas starting with a digit. */
  predicate IsNumeral(s: string) {
    var d := if s != [] && (s[0] == '+' || s[0] == '-') then s[1..] else s;
    d != [] && IsDigit(d[0]) && forall k :: 0 <= k < |d| ==> IsNumeralChar(d[k])
  }

  lemma {:induction false} GroupedIsNumeral(n: nat)
    ensures Grouped(n) != [] && IsDigit(Grouped(n)[0])
    ensures forall k :: 0 <= k < |Grouped(n)| ==> IsNumeralChar(Grouped(n)[k])
  {
    if n >= 1000 {
      GroupedIsNumeral(n / 1000);
    }
  }

  lemma ShortShape(n: nat)
    requires n < 1000
    ensures 0 < |Short(n)| <= 3 && ',' !in Short(n) && (Short(n)[0] == '0' <==> n == 0)
  {
  }

  /** Every fourth character from the end, and no other, is a comma. */
  ghost predicate CommaEveryFourth(s: string) {
    forall k :: 0 <= k < |s| ==> (s[k] == ',' <==> (|s| - 1 - k) % 4 == 3)
  }

  lemma ThreeMore(front: string, digits: string)
    requires CommaEveryFourth(front) && |digits| == 3 && ',' !in digits
    ensures CommaEveryFourth(front + "," + digits)
  {
    var s := front + "," + digits;
    forall k | 0 <= k < |s| ensures s[k] == ',' <==> (|s| - 1 - k) % 4 == 3 {
      if k < |front| {
        FourLater(|front| - 1 - k);
        assert s[k] == front[k];
      } else if k > |front| {
        assert s[k] == digits[k - |front| - 1];
      }
    }
  }

  lemma FourLater(n: nat)
    ensures (n + 4) % 4 == n % 4
  {
  }

  lemma PaddedShape(n: nat)
    requires n < 1000
    ensures |Padded(n)| == 3 && ',' !in Padded(n)
  {
  }

  /** Every fourth character from the end, and no other, is a comma; no number but 0 begins with 0. */
  lemma {:induction false} GroupedShape(n: nat)
    ensures var s := Grouped(n);
      && s != [] && (s[0] == '0' <==> n == 0)
      && forall k :: 0 <= k < |s| ==> (s[k] == ',' <==> (|s| - 1 - k) % 4 == 3)
  {
    if n < 1000 {
      ShortShape(n);
      assert CommaEveryFourth(Short(n));
    } else {
      GroupedShape(n / 1000);
      PaddedShape(n % 1000);
      ThreeMore(Grouped(n / 1000), Padded(n % 1000));
      assert CommaEveryFourth(Grouped(n));
    }
  }

  /** The sign is printed exactly where the source prints it. */
  lemma SignShape(n: int)
    ensures (Format(n)[0] == '-' <==> n < 0) && Format(n)[0] != '+'
    ensures (FormatSigned(n)[0] == '-' <==> n < 0) && (FormatSigned(n)[0] == '+' <==> n >= 0)
  {
    GroupedIsNumeral(if n < 0 then -n else n);
  }

  lemma SignedValue(sign: char, n: nat)
    requires sign == '+' || sign == '-'
    ensures ToInt([sign] + Grouped(n)) == Some(Negated(sign == '-', n)) && IsNumeral([sign] + Grouped(n))
  {
    GroupedValue(n);
    GroupedIsNumeral(n);
    SignStays(sign, Grouped(n));
    assert ([sign] + Grouped(n))[1..] == Grouped(n);
  }

  lemma SignStays(sign: char, s: string)
    requires sign != ','
    ensures var t := WithoutCommas([sign] + s); t != [] && t[0] == sign && t[1..] == WithoutCommas(s)
  {
    assert ([sign] + s)[1..] == s;
  }

  /** Printed numbers read back, of either sign and with or without an explicit plus. */
  lemma FormatReadsBack(n: int)
    ensures ToInt(Format(n)) == Some(n) && ToInt(FormatSigned(n)) == Some(n)
    ensures IsNumeral(Format(n)) && IsNumeral(FormatSigned(n))
  {
    if n < 0 {
      SignedValue('-', -n);
    } else {
      SignedValue('+', n);
      UnsignedValue(n);
    }
  }

  lemma UnsignedValue(n: nat)
    ensures ToInt(Grouped(n)) == Some(n) && IsNumeral(Grouped(n))
  {
    GroupedValue(n);
    GroupedIsNumeral(n);
    FirstDigitStays(Grouped(n));
  }

  lemma FirstDigitStays(s: string)
    requires s != [] && IsDigit(s[0])
    ensures WithoutCommas(s) != [] && WithoutCommas(s)[0] == s[0]
  {
  }
}
