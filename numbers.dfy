/**
 * The global parseFloat, as the tracker applies it to the amount field. The text is read
 * after its leading white space: an optional sign, a run of integer digits, an optional
 * fraction ('.' and digits) and an optional exponent ('e' or 'E', optional sign, digits).
 * The longest such prefix is taken and whatever follows it is ignored; a text with no digit
 * before or right after the point gives NaN, modelled as None. Values are exact reals.
 */
module Numbers {
  import Text
  import opened Wrappers

  predicate IsDigit(c: char) {
    '0' <= c <= '9'
  }

  predicate AllDigits(s: string) {
    forall i :: 0 <= i < |s| ==> IsDigit(s[i])
  }

  /** The first position at or after `i` that does not hold a digit (`|s|` if there is none). */
  function SkipDigits(s: string, i: nat): (n: nat)
    requires i <= |s|
    ensures i <= n <= |s|
    ensures n < |s| ==> !IsDigit(s[n])
    decreases |s| - i
  {
    if i < |s| && IsDigit(s[i]) then SkipDigits(s, i + 1) else i
  }

  /** The value of one decimal digit. */
  function DigitValue(c: char): (v: nat)
    ensures v <= 9
  {
    if IsDigit(c) then (c - '0') as int else 0
  }

  /** The number a string of decimal digits denotes, most significant digit first. */
  function DigitsValue(d: string): nat
  {
    if d == [] then 0 else 10 * DigitsValue(d[..|d| - 1]) + DigitValue(d[|d| - 1])
  }

  /** The value of the digits after a decimal point: ".45" is 0.45. */
  function FractionValue(f: string): real
  {
    if f == [] then 0.0 else (DigitValue(f[0]) as real + FractionValue(f[1..])) / 10.0
  }

  /** The value of the digits `whole`, a point, and the digits `fraction`. */
  function Decimal(whole: string, fraction: string): real
  {
    DigitsValue(whole) as real + FractionValue(fraction)
  }

  /** `m` times ten to the power `e`, one factor of ten at a time. */
  function Scale(m: real, e: int): real
    decreases if e < 0 then -e else e
  {
    if e == 0 then m else if e > 0 then 10.0 * Scale(m, e - 1) else Scale(m, e + 1) / 10.0
  }

  /** The decimal exponent at position `i` ("e-3", "E+12", "e7"), or 0 when there is none there. */
  function ExponentAt(s: string, i: nat): int
    requires i <= |s|
  {
    if i + 1 < |s| && (s[i] == 'e' || s[i] == 'E') then
      var j := if s[i + 1] == '-' || s[i + 1] == '+' then i + 2 else i + 1;
      var n := SkipDigits(s, j);
      if n == j then 0
      else if s[i + 1] == '-' then -(DigitsValue(s[j..n]) as int)
      else DigitsValue(s[j..n])
    else 0
  }

  /** parseFloat after the sign, from position `i`: integer digits, an optional fraction and an optional exponent. */
  function ParseUnsigned(s: string, i: nat): Option<real>
    requires i <= |s|
  {
    var w := SkipDigits(s, i);
    if w < |s| && s[w] == '.' then
      var f := SkipDigits(s, w + 1);
      if w == i && f == w + 1 then None
      else Some(Scale(Decimal(s[i..w], s[w + 1..f]), ExponentAt(s, f)))
    else if w == i then None
    else Some(Scale(Decimal(s[i..w], []), ExponentAt(s, w)))
  }

  /** parseFloat: the value of the longest numeric prefix after leading white space, with its sign. */
  function ParseFloat(s: string): Option<real>
  {
    var k := Text.TrimOffset(s);
    if k < |s| && s[k] == '-' then
      match ParseUnsigned(s, k + 1)
      case Some(v) => Some(-v)
      case None => None
    else if k < |s| && s[k] == '+' then ParseUnsigned(s, k + 1)
    else ParseUnsigned(s, k)
  }

  /** The decimal numeral of `n`, without leading zeros: the text a user types for a whole amount. */
  function NatText(n: nat): (d: string)
    ensures d != [] && AllDigits(d) && DigitsValue(d) == n
  {
    var last := ['0' + (n % 10) as char];
    if n < 10 then last
    else
      var d := NatText(n / 10) + last;
      assert d[..|d| - 1] == NatText(n / 10);
      d
  }

  /** SkipDigits stops exactly at the end of a digit run. */
  lemma {:induction false} SkipDigitsTo(s: string, i: nat, j: nat)
    requires i <= j <= |s|
    requires forall m :: i <= m < j ==> IsDigit(s[m])
    requires j < |s| ==> !IsDigit(s[j])
    ensures SkipDigits(s, i) == j
    decreases j - i
  {
    if i < j {
      SkipDigitsTo(s, i + 1, j);
    }
  }

  /** A run of digits followed by no further numeric syntax is read as the number it denotes. */
  lemma UnsignedDigits(d: string, tail: string)
    requires d != [] && AllDigits(d)
    requires tail != [] ==> !IsDigit(tail[0]) && tail[0] != '.' && tail[0] != 'e' && tail[0] != 'E'
    ensures ParseUnsigned(d + tail, 0) == Some(DigitsValue(d) as real)
  {
    var s := d + tail;
    assert SkipDigits(s, 0) == |d| by {
      forall m | 0 <= m < |d| ensures IsDigit(s[m]) {
        assert s[m] == d[m];
      }
      if tail != [] {
        assert s[|d|] == tail[0];
      }
      SkipDigitsTo(s, 0, |d|);
    }
    assert s[0..|d|] == d;
    assert ExponentAt(s, |d|) == 0 by {
      if |d| < |s| {
        assert s[|d|] == tail[0];
      }
    }
  }

  /** Text that starts with neither white space nor a sign is read by the unsigned grammar directly. */
  lemma FloatIsUnsigned(s: string)
    requires s != [] && !Text.IsSpace(s[0]) && s[0] != '-' && s[0] != '+'
    ensures ParseFloat(s) == ParseUnsigned(s, 0)
  {
    assert Text.TrimOffset(s) == 0;
  }

  /** parseFloat accepts a numeric prefix: digits followed by anything that is not numeric syntax. */
  lemma ParseDigits(d: string, tail: string)
    requires d != [] && AllDigits(d)
    requires tail != [] ==> !IsDigit(tail[0]) && tail[0] != '.' && tail[0] != 'e' && tail[0] != 'E'
    ensures ParseFloat(d + tail) == Some(DigitsValue(d) as real)
  {
    assert (d + tail)[0] == d[0];
    FloatIsUnsigned(d + tail);
    UnsignedDigits(d, tail);
  }

  /** The whole numeral of any natural number parses back to that number. */
  lemma ParseNatText(n: nat)
    ensures ParseFloat(NatText(n)) == Some(n as real)
  {
    ParseDigits(NatText(n), []);
    assert NatText(n) + [] == NatText(n);
  }

  /** "whole.fraction" read without an exponent: the digits on both sides of the point. */
  lemma UnsignedDecimal(whole: string, fraction: string, tail: string)
    requires whole != [] && AllDigits(whole) && AllDigits(fraction)
    requires tail != [] ==> !IsDigit(tail[0]) && tail[0] != 'e' && tail[0] != 'E'
    ensures ParseUnsigned(whole + ['.'] + fraction + tail, 0) == Some(Decimal(whole, fraction))
  {
    var s := whole + ['.'] + fraction + tail;
    var w := |whole|;
    var f := w + 1 + |fraction|;
    assert SkipDigits(s, 0) == w by {
      forall m | 0 <= m < w ensures IsDigit(s[m]) {
        assert s[m] == whole[m];
      }
      SkipDigitsTo(s, 0, w);
    }
    assert SkipDigits(s, w + 1) == f by {
      forall m | w + 1 <= m < f ensures IsDigit(s[m]) {
        assert s[m] == fraction[m - w - 1];
      }
      if f < |s| {
        assert s[f] == tail[0];
      }
      SkipDigitsTo(s, w + 1, f);
    }
    assert s[0..w] == whole;
    assert s[w + 1..f] == fraction;
    assert ExponentAt(s, f) == 0 by {
      if f < |s| {
        assert s[f] == tail[0];
      }
    }
  }

  /**
   * "whole.fraction", followed by anything that does not continue the number (as in "5.5kg"),
   * parses to the whole part plus the value of the fraction digits.
   */
  lemma ParseDecimal(whole: string, fraction: string, tail: string)
    requires whole != [] && AllDigits(whole) && AllDigits(fraction)
    requires tail != [] ==> !IsDigit(tail[0]) && tail[0] != 'e' && tail[0] != 'E'
    ensures ParseFloat(whole + ['.'] + fraction + tail) == Some(Decimal(whole, fraction))
  {
    var s := whole + ['.'] + fraction + tail;
    assert s[0] == whole[0];
    FloatIsUnsigned(s);
    UnsignedDecimal(whole, fraction, tail);
  }

  /** The exponent at `i` is read from the digits that run to the end of `s`, after an optional sign. */
  lemma ExponentDigits(s: string, i: nat, j: nat)
    requires i + 1 <= j < |s|
    requires s[i] == 'e' || s[i] == 'E'
    requires j == i + 1 || (j == i + 2 && (s[i + 1] == '-' || s[i + 1] == '+'))
    requires forall m :: j <= m < |s| ==> IsDigit(s[m])
    ensures ExponentAt(s, i) == if s[i + 1] == '-' then -(DigitsValue(s[j..]) as int) else DigitsValue(s[j..])
  {
    SkipDigitsTo(s, j, |s|);
    assert s[j..|s|] == s[j..];
  }

  /** Digits up to an exponent marker at `w`: the unsigned grammar scales their value by the exponent. */
  lemma UnsignedExponent(s: string, w: nat)
    requires 0 < w < |s| && (s[w] == 'e' || s[w] == 'E')
    requires forall m :: 0 <= m < w ==> IsDigit(s[m])
    ensures ParseUnsigned(s, 0) == Some(Scale(DigitsValue(s[..w]) as real, ExponentAt(s, w)))
  {
    SkipDigitsTo(s, 0, w);
    assert s[0..w] == s[..w];
    assert Decimal(s[..w], []) == DigitsValue(s[..w]) as real;
  }

  /**
   * Digits, an exponent marker `e` or `E`, an optional sign and exponent digits, as in "1e3"
   * or "25E-1": the digits' value times ten to the signed exponent.
   */
  lemma ParseExponent(d: string, marker: char, sign: string, e: string)
    requires d != [] && AllDigits(d) && e != [] && AllDigits(e)
    requires marker == 'e' || marker == 'E'
    requires sign == [] || sign == ['+'] || sign == ['-']
    ensures ParseFloat(d + [marker] + sign + e)
         == Some(Scale(DigitsValue(d) as real, if sign == ['-'] then -(DigitsValue(e) as int) else DigitsValue(e)))
  {
    var s := d + [marker] + sign + e;
    var w := |d|;
    var j := w + 1 + |sign|;
    assert s[0] == d[0];
    FloatIsUnsigned(s);
    assert s[..w] == d;
    assert s[j..] == e;
    assert s[w] == marker;
    assert s[w + 1] == if sign == [] then e[0] else sign[0];
    assert ParseUnsigned(s, 0) == Some(Scale(DigitsValue(d) as real, ExponentAt(s, w))) by {
      forall m | 0 <= m < w ensures IsDigit(s[m]) {
        assert s[m] == d[m];
      }
      UnsignedExponent(s, w);
    }
    assert ExponentAt(s, w) == if sign == ['-'] then -(DigitsValue(e) as int) else DigitsValue(e) by {
      forall m | j <= m < |s| ensures IsDigit(s[m]) {
        assert s[m] == e[m - j];
      }
      ExponentDigits(s, w, j);
    }
  }

  /** After the sign, digits that run to the end of `s` are read as their value. */
  lemma UnsignedTrailingDigits(s: string, j: nat)
    requires j < |s|
    requires forall m :: j <= m < |s| ==> IsDigit(s[m])
    ensures ParseUnsigned(s, j) == Some(DigitsValue(s[j..]) as real)
  {
    SkipDigitsTo(s, j, |s|);
    assert s[j..|s|] == s[j..];
    assert Decimal(s[j..], []) == DigitsValue(s[j..]) as real;
  }

  /**
   * Leading white space and a sign in front of digits, as in " 5", "+5" or "\t-5": the white
   * space is skipped, a plus sign changes nothing and a minus sign negates.
   */
  lemma ParseSigned(space: string, sign: string, d: string)
    requires forall i :: 0 <= i < |space| ==> Text.IsSpace(space[i])
    requires sign == [] || sign == ['+'] || sign == ['-']
    requires d != [] && AllDigits(d)
    ensures ParseFloat(space + sign + d)
         == Some(if sign == ['-'] then -(DigitsValue(d) as real) else DigitsValue(d) as real)
  {
    var s := space + sign + d;
    var k := |space|;
    var j := k + |sign|;
    assert s[k] == if sign == [] then d[0] else sign[0];
    assert Text.TrimOffset(s) == k by {
      forall m | 0 <= m < k ensures Text.IsSpace(s[m]) {
        assert s[m] == space[m];
      }
      Text.SkipSpacesTo(s, 0, k);
    }
    assert s[j..] == d;
    assert ParseUnsigned(s, j) == Some(DigitsValue(d) as real) by {
      forall m | j <= m < |s| ensures IsDigit(s[m]) {
        assert s[m] == d[m - j];
      }
      UnsignedTrailingDigits(s, j);
    }
    if sign == ['-'] {
      assert s[k] == '-' && j == k + 1;
    } else if sign == ['+'] {
      assert s[k] == '+' && j == k + 1;
    } else {
      assert IsDigit(s[k]) && j == k;
    }
  }

  /** A fraction's digits are worth between nothing and one. */
  lemma {:induction false} FractionBounds(f: string)
    ensures 0.0 <= FractionValue(f) <= 1.0
  {
    if f != [] {
      FractionBounds(f[1..]);
    }
  }

  /** Powers of ten keep the sign of what they scale. */
  lemma {:induction false} ScaleKeepsSign(m: real, e: int)
    ensures m > 0.0 ==> Scale(m, e) > 0.0
    ensures m < 0.0 ==> Scale(m, e) < 0.0
    ensures m == 0.0 ==> Scale(m, e) == 0.0
    decreases if e < 0 then -e else e
  {
    if e > 0 {
      ScaleKeepsSign(m, e - 1);
    } else if e < 0 {
      ScaleKeepsSign(m, e + 1);
    }
  }

  /** Without its sign a number is never negative. */
  lemma UnsignedNonNegative(s: string, i: nat)
    requires i <= |s|
    ensures ParseUnsigned(s, i).Some? ==> ParseUnsigned(s, i).value >= 0.0
  {
    var w := SkipDigits(s, i);
    if w < |s| && s[w] == '.' {
      var f := SkipDigits(s, w + 1);
      FractionBounds(s[w + 1..f]);
      ScaleKeepsSign(Decimal(s[i..w], s[w + 1..f]), ExponentAt(s, f));
    } else {
      FractionBounds([]);
      ScaleKeepsSign(Decimal(s[i..w], []), ExponentAt(s, w));
    }
  }

  /** A minus sign before the number, after any white space, never reads as a positive number. */
  lemma MinusNeverPositive(s: string)
    requires Text.TrimOffset(s) < |s| && s[Text.TrimOffset(s)] == '-'
    ensures ParseFloat(s).Some? ==> ParseFloat(s).value <= 0.0
  {
    UnsignedNonNegative(s, Text.TrimOffset(s) + 1);
  }

  /** Text without a digit from position `i` on holds no unsigned number there. */
  lemma UnsignedNeedsDigit(s: string, i: nat)
    requires i <= |s|
    requires forall m :: i <= m < |s| ==> !IsDigit(s[m])
    ensures ParseUnsigned(s, i) == None
  {
    SkipDigitsTo(s, i, i);
    if i < |s| && s[i] == '.' {
      SkipDigitsTo(s, i + 1, i + 1);
    }
  }

  /** Text without a single digit is never a number: parseFloat gives NaN for it. */
  lemma NoDigitNoNumber(s: string)
    requires forall i :: 0 <= i < |s| ==> !IsDigit(s[i])
    ensures ParseFloat(s) == None
  {
    var k := Text.TrimOffset(s);
    if k < |s| && (s[k] == '-' || s[k] == '+') {
      UnsignedNeedsDigit(s, k + 1);
    } else {
      UnsignedNeedsDigit(s, k);
    }
  }
}
