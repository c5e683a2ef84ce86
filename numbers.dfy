/** The text-to-number conversion `pd.to_numeric` applies to a text cell.
    The accepted form is an optional sign, decimal digits and at most one
    decimal point, with at least one digit. */
module Numbers {
  import opened Wrappers

  predicate IsDigit(c: char)
  {
    '0' <= c <= '9'
  }

  predicate AllDigits(s: string)
  {
    forall k | 0 <= k < |s| :: IsDigit(s[k])
  }

  function DigitValue(c: char): nat
    requires IsDigit(c)
  {
    (c as int) - ('0' as int)
  }

  /** The value of a run of decimal digits, read most significant first. */
  function DigitsValue(s: string): (v: nat)
    requires AllDigits(s)
  {
    if s == [] then 0 else 10 * DigitsValue(s[..|s| - 1]) + DigitValue(s[|s| - 1])
  }

  function Pow10(n: nat): (p: nat)
    ensures p >= 1
  {
    if n == 0 then 1 else 10 * Pow10(n - 1)
  }

  /** The decimal `whole.frac`, where `frac` is written with `places` digits. */
  function Decimal(whole: nat, frac: nat, places: nat): (r: real)
    ensures r >= whole as real
  {
    whole as real + frac as real / Pow10(places) as real
  }

  /** Digits with at most one decimal point, e.g. "4", "4.5", ".5", "4.". */
  function ParseUnsigned(s: string): (v: Option<real>)
    ensures v.Some? ==> s != [] && v.value >= 0.0
  {
    if '.' in s then
      var i := FirstDot(s);
      var whole, frac := s[..i], s[i + 1..];
      if AllDigits(whole) && AllDigits(frac) && |whole| + |frac| > 0
      then Some(Decimal(DigitsValue(whole), DigitsValue(frac), |frac|))
      else None
    else if s != [] && AllDigits(s) then Some(DigitsValue(s) as real)
    else None
  }

  function FirstDot(s: string): (i: nat)
    requires '.' in s
    ensures i < |s| && s[i] == '.' && '.' !in s[..i]
  {
    if s[0] == '.' then 0
    else
      assert '.' in s[1..] by { assert s == [s[0]] + s[1..]; }
      var i := 1 + FirstDot(s[1..]);
      assert s[..i] == [s[0]] + s[1..][..i - 1];
      i
  }

  /** The number a text cell holds, or `None` when coercion turns the cell
      into NaN. */
  function ParseNumber(s: string): (v: Option<real>)
    ensures v.Some? ==> s != [] && (v.value < 0.0 ==> s[0] == '-')
  {
    if s != [] && (s[0] == '+' || s[0] == '-') then
      match ParseUnsigned(s[1..])
      case Some(u) => Some(if s[0] == '-' then -u else u)
      case None => None
    else ParseUnsigned(s)
  }

  // ----- Decimal text of a natural number, the partner of ParseNumber -----

  function DigitChar(d: nat): (c: char)
    requires d < 10
    ensures IsDigit(c) && DigitValue(c) == d
  {
    ('0' as int + d) as char
  }

  /** The usual decimal rendering of `n`, without leading zeros. */
  function NatText(n: nat): (s: string)
    ensures s != [] && AllDigits(s) && '.' !in s
  {
    if n < 10 then [DigitChar(n)] else NatText(n / 10) + [DigitChar(n % 10)]
  }

  lemma {:induction false} DigitsValueOfNatText(n: nat)
    ensures DigitsValue(NatText(n)) == n
  {
    if n >= 10 {
      var s := NatText(n);
      assert s[..|s| - 1] == NatText(n / 10);
      DigitsValueOfNatText(n / 10);
    }
  }

  /** A cell that holds the decimal text of a whole number parses to that number. */
  lemma ParseNatText(n: nat)
    ensures ParseNumber(NatText(n)) == Some(n as real)
  {
    var s := NatText(n);
    DigitsValueOfNatText(n);
    assert IsDigit(s[0]);
  }

  /** A leading minus sign negates the value. */
  lemma ParseNegativeNatText(n: nat)
    ensures ParseNumber(['-'] + NatText(n)) == Some(-(n as real))
  {
    var s := ['-'] + NatText(n);
    assert s[1..] == NatText(n);
    ParseNatText(n);
    assert IsDigit(NatText(n)[0]);
  }

  // ----- Texts that are not numbers, and decimal fractions -----

  /** A character other than a digit or the decimal point makes the unsigned
      part unreadable. */
  lemma ParseUnsignedRejects(s: string, k: nat)
    requires k < |s| && !IsDigit(s[k]) && s[k] != '.'
    ensures ParseUnsigned(s) == None
  {
    if '.' in s {
      var i := FirstDot(s);
      if k < i {
        assert s[..i][k] == s[k];
      } else {
        assert s[i + 1..][k - i - 1] == s[k];
      }
    }
  }

  /** A text holding a letter, a blank or a sign anywhere but in front is not
      a number: coercion turns it into NaN. */
  lemma NonNumericTextIsNaN(s: string, k: nat)
    requires k < |s| && !IsDigit(s[k]) && s[k] != '.'
    requires k == 0 ==> s[k] != '+' && s[k] != '-'
    ensures ParseNumber(s) == None
  {
    if s[0] == '+' || s[0] == '-' {
      ParseUnsignedRejects(s[1..], k - 1);
    } else {
      ParseUnsignedRejects(s, k);
    }
  }

  /** A worded answer such as "Sangat puas" becomes NaN. */
  lemma WordedAnswerIsNaN()
    ensures ParseNumber("Sangat puas") == None
  {
    NonNumericTextIsNaN("Sangat puas", 0);
  }

  /** The first point is the one with no point before it. */
  lemma FirstDotAt(s: string, i: nat)
    requires i < |s| && s[i] == '.'
    requires forall m | 0 <= m < i :: s[m] != '.'
    ensures '.' in s && FirstDot(s) == i
  {
    var k := FirstDot(s);
    assert forall m | 0 <= m < k :: s[..k][m] == s[m];
  }

  /** Digits, one point, digits: the whole part plus the fraction. */
  lemma ParseUnsignedAt(s: string, i: nat)
    requires i < |s| && s[i] == '.' && |s| > 1
    requires AllDigits(s[..i]) && AllDigits(s[i + 1..])
    ensures ParseUnsigned(s) == Some(Decimal(DigitsValue(s[..i]), DigitsValue(s[i + 1..]), |s| - i - 1))
  {
    assert forall m | 0 <= m < i :: s[m] != '.' by {
      assert forall m | 0 <= m < i :: s[m] == s[..i][m];
    }
    FirstDotAt(s, i);
  }

  lemma ParseDecimalValue(a: nat, d: string)
    requires AllDigits(d)
    ensures ParseNumber(NatText(a) + "." + d) == Some(Decimal(a, DigitsValue(d), |d|))
  {
    var w := NatText(a);
    var s := w + "." + d;
    assert ParseUnsigned(s) == Some(Decimal(a, DigitsValue(d), |d|)) by {
      assert s[..|w|] == w && s[|w| + 1..] == d && s[|w|] == '.';
      ParseUnsignedAt(s, |w|);
      DigitsValueOfNatText(a);
    }
    assert s[0] == w[0] && IsDigit(w[0]);
  }

  /** A whole part, a point and fraction digits read as the decimal fraction
      they write. */
  lemma ParseDecimalText(a: nat, d: string)
    requires AllDigits(d)
    ensures ParseNumber(NatText(a) + "." + d)
         == Some(a as real + DigitsValue(d) as real / Pow10(|d|) as real)
  {
    ParseDecimalValue(a, d);
    var v, p := DigitsValue(d), Pow10(|d|);
    assert Decimal(a, v, |d|) == a as real + v as real / p as real;
  }

  /** "4.5" reads as four and a half. */
  lemma ParseFourPointFive()
    ensures ParseNumber("4.5") == Some(4.5)
  {
    ParseDecimalText(4, "5");
    assert NatText(4) + "." + "5" == "4.5";
    assert DigitsValue("5") == 5;
  }
}
