// Decimal text for integers and numbers: what std::to_string, the
// `(long long)` cast printed through a stream, printf's "%f" and
// std::stod do in the interpreter, over exact rationals.
module Text {
  import opened Wrappers

  predicate IsDigit(c: char) { '0' <= c <= '9' }

  predicate AllDigits(s: string) { forall i :: 0 <= i < |s| ==> IsDigit(s[i]) }

  function DigitChar(d: nat): (c: char)
    requires d < 10
    ensures IsDigit(c) && c as int - '0' as int == d
  {
    (d + '0' as int) as char
  }

  function DigitOf(c: char): nat
    requires IsDigit(c)
  {
    c as int - '0' as int
  }

  /** Decimal digits of n, no sign, no leading zero. */
  function NatToString(n: nat): (s: string)
    ensures 1 <= |s| && AllDigits(s)
    ensures |s| > 1 ==> s[0] != '0'
  {
    if n < 10 then [DigitChar(n)] else NatToString(n / 10) + [DigitChar(n % 10)]
  }

  /** std::to_string of an integer: a '-' sign before the digits when negative. */
  function IntToString(i: int): (s: string)
    ensures 1 <= |s|
    ensures (s[0] == '-') <==> i < 0
    ensures i >= 0 ==> AllDigits(s)
  {
    if i < 0 then "-" + NatToString(-i) else NatToString(i)
  }

  /** Value of a run of decimal digits, most significant first. */
  function DigitsValue(s: string): nat
    requires AllDigits(s)
  {
    if s == [] then 0 else DigitsValue(s[..|s| - 1]) * 10 + DigitOf(s[|s| - 1])
  }

  /** Reading back the digits of n gives n. */
  lemma {:induction false} NatToStringRoundTrip(n: nat)
    ensures DigitsValue(NatToString(n)) == n
  {
    if n >= 10 {
      var p := NatToString(n / 10);
      var s := p + [DigitChar(n % 10)];
      assert s[..|s| - 1] == p;
      NatToStringRoundTrip(n / 10);
    }
  }

  /** Different naturals have different texts. */
  lemma NatToStringInjective(m: nat, n: nat)
    requires NatToString(m) == NatToString(n)
    ensures m == n
  {
    NatToStringRoundTrip(m);
    NatToStringRoundTrip(n);
  }

  function Pow10(k: nat): (p: nat)
    ensures p >= 1
  {
    if k == 0 then 1 else 10 * Pow10(k - 1)
  }

  /**
   * A number lexeme `digits` or `digits.digits`, the only shape the lexer
   * produces for a Number token.
   */
  predicate IsDecimal(s: string)
  {
    exists k :: 0 < k <= |s| && AllDigits(s[..k]) &&
      (k == |s| || (s[k] == '.' && k + 1 < |s| && AllDigits(s[k + 1..])))
  }

  /** Position of the first '.', or |s| when there is none. */
  function DotIndex(s: string): (k: nat)
    ensures k <= |s|
    ensures forall i :: 0 <= i < k ==> s[i] != '.'
    ensures k < |s| ==> s[k] == '.'
  {
    if s == [] then 0 else if s[0] == '.' then 0 else 1 + DotIndex(s[1..])
  }

  /**
   * std::stod on a number lexeme: the exact decimal value when the lexeme
   * has the lexer's shape, None (the exception std::stod throws, or a
   * spelling the model does not read) otherwise.
   */
  function DecimalValue(s: string): (r: Option<real>)
    ensures r.Some? ==> r.value >= 0.0
  {
    var k := DotIndex(s);
    if k == 0 || !AllDigits(s[..k]) then None
    else if k == |s| then Some(DigitsValue(s) as real)
    else if k + 1 < |s| && AllDigits(s[k + 1..]) then
      Some(DigitsValue(s[..k]) as real + DigitsValue(s[k + 1..]) as real / Pow10(|s| - k - 1) as real)
    else None
  }

  /** Every numeral of the lexer's shape has a decimal value. */
  lemma DecimalShapeHasValue(s: string, k: nat)
    requires 0 < k <= |s| && AllDigits(s[..k])
    requires k == |s| || (s[k] == '.' && k + 1 < |s| && AllDigits(s[k + 1..]))
    ensures DecimalValue(s).Some?
  {
    var d := DotIndex(s);
    assert forall i :: 0 <= i < k ==> s[i] == s[..k][i];
    if k == |s| {
      assert s[..k] == s;
    } else {
      assert d == k;
    }
  }

  /** Every integer's text reads back as that integer. */
  lemma DecimalValueOfNat(n: nat)
    ensures DecimalValue(NatToString(n)) == Some(n as real)
  {
    var s := NatToString(n);
    assert DotIndex(s) == |s| by {
      assert forall i :: 0 <= i < |s| ==> s[i] != '.';
    }
    assert s[..|s|] == s;
    NatToStringRoundTrip(n);
  }

  /** Six zero-padded digits of a fraction part below one million. */
  function PadSix(d: nat): (s: string)
    requires d < 1000000
    ensures |s| == 6 && AllDigits(s)
  {
    var t := NatToString(d);
    assert |t| <= 6 by { assert Pow10(6) == 1000000; NatToStringLength(d, 6); }
    Zeros(6 - |t|) + t
  }

  function Zeros(k: nat): (s: string)
    ensures |s| == k && AllDigits(s)
  {
    if k == 0 then "" else "0" + Zeros(k - 1)
  }

  /** A natural below 10^k has at most k digits. */
  lemma {:induction false} NatToStringLength(d: nat, k: nat)
    requires 1 <= k && d < Pow10(k)
    ensures |NatToString(d)| <= k
  {
    if d >= 10 {
      assert k >= 2;
      assert d / 10 < Pow10(k - 1);
      NatToStringLength(d / 10, k - 1);
    }
  }

  /** The nearest whole number to a non-negative x, ties to the even one. */
  function RoundHalfEven(x: real): (m: nat)
    requires x >= 0.0
    ensures x - 0.5 <= m as real <= x + 0.5
  {
    var n := x.Floor;
    var rest := x - n as real;
    if rest > 0.5 || (rest == 0.5 && n % 2 == 1) then n + 1 else n
  }

  /** A count of millionths as `<whole>.<six digits>`. */
  function Millionths(m: nat): (s: string)
    ensures |s| == |NatToString(m / 1000000)| + 7
    ensures s[|NatToString(m / 1000000)|] == '.' && IsDigit(s[0])
  {
    assert IsDigit(NatToString(m / 1000000)[0]);
    NatToString(m / 1000000) + "." + PadSix(m % 1000000)
  }

  /**
   * printf("%f") over an exact number: a sign when negative, the integer
   * part, a point, and six fraction digits rounded to nearest, ties to even.
   */
  function FixedSix(r: real): (s: string)
    ensures '.' in s
    ensures (s[0] == '-') <==> r < 0.0
  {
    var body := Millionths(RoundHalfEven((if r < 0.0 then -r else r) * 1000000.0));
    if r < 0.0 then "-" + body else body
  }

  /** A whole number prints with six zero places: `3` becomes `3.000000`. */
  lemma FixedSixOfNat(n: nat)
    ensures FixedSix(n as real) == NatToString(n) + ".000000"
  {
    ScaledWhole(n);
    MillionthsWhole(n);
    FixedSixNonNegative(n as real, n * 1000000);
  }

  /** n million millionths print as n with six zero places. */
  lemma MillionthsWhole(n: nat)
    ensures Millionths(n * 1000000) == NatToString(n) + ".000000"
  {
    var m := n * 1000000;
    DivModExact(n);
    PadSixOfZero();
    assert Millionths(m) == NatToString(m / 1000000) + "." + PadSix(m % 1000000);
  }

  /** A whole number of millionths is its own rounding. */
  lemma ScaledWhole(n: nat)
    ensures (n as real) * 1000000.0 == (n * 1000000) as real
    ensures RoundHalfEven((n as real) * 1000000.0) == n * 1000000
  {
  }

  lemma PadSixOfZero()
    ensures PadSix(0) == "000000"
  {
    assert NatToString(0) == "0";
    assert Zeros(5) == "00000" by {
      assert Zeros(1) == "0";
      assert Zeros(2) == "00";
      assert Zeros(3) == "000";
      assert Zeros(4) == "0000";
    }
  }

  lemma FixedSixNonNegative(r: real, m: nat)
    requires r >= 0.0 && RoundHalfEven(r * 1000000.0) == m
    ensures FixedSix(r) == Millionths(m)
  {
  }

  lemma DivModExact(n: nat)
    ensures (n * 1000000) / 1000000 == n && (n * 1000000) % 1000000 == 0
  {
    var m := n * 1000000;
    var q, r := m / 1000000, m % 1000000;
    assert m == q * 1000000 + r && 0 <= r < 1000000;
    assert (n - q) * 1000000 == r;
  }

  /** Drops trailing '0' characters. */
  function TrimZeros(s: string): (t: string)
    ensures t <= s
    ensures t == [] || t[|t| - 1] != '0'
    ensures forall i :: |t| <= i < |s| ==> s[i] == '0'
  {
    if s != [] && s[|s| - 1] == '0' then TrimZeros(s[..|s| - 1]) else s
  }

  /**
   * Text of a number as valueToString prints it: an integer-valued number
   * through a `long long` cast, any other with "%f" and its trailing zeros
   * (and then a bare trailing point) removed.
   */
  function NumberToString(r: real): (s: string)
  {
    if r.Floor as real == r then IntToString(r.Floor)
    else
      var t := TrimZeros(FixedSix(r));
      if t != [] && t[|t| - 1] == '.' then t[..|t| - 1] else t
  }

  /** An integer-valued number prints as its integer: no point, no fraction. */
  lemma IntegerNumberText(n: int)
    ensures NumberToString(n as real) == IntToString(n)
    ensures '.' !in NumberToString(n as real)
  {
    assert (n as real).Floor == n;
    var s := IntToString(n);
    if n < 0 {
      assert s == "-" + NatToString(-n);
      assert forall i :: 1 <= i < |s| ==> s[i] == NatToString(-n)[i - 1];
    }
  }

  /** A non-negative integer prints as text that reads back as itself. */
  lemma NumberTextRoundTrip(n: nat)
    ensures DecimalValue(NumberToString(n as real)) == Some(n as real)
  {
    IntegerNumberText(n);
    DecimalValueOfNat(n);
  }
}
