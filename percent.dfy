// The numeric reading of a skill bar's data-width attribute: Number() on
// decimal text, and parsePercent, which strips the percent sign and falls
// back to 0.

module Percent {
  import opened Text

  /** Digits after a decimal point, read as the fraction they denote. */
  function FractionValue(ds: string): (r: real)
    requires AllDigits(ds)
    ensures 0.0 <= r < 1.0
  {
    if ds == [] then 0.0
    else
      var rest := FractionValue(ds[1..]);
      (DigitValue(ds[0]) as real + rest) / 10.0
  }

  /** Unsigned decimal text: digits, optionally a point and more digits, with at least one digit. */
  function ParseUnsigned(u: string): (r: Option<real>)
    ensures r.Some? ==> r.value >= 0.0
  {
    match IndexOf(u, '.')
    case None =>
      if u != [] && AllDigits(u) then Some(DigitsValue(u) as real) else None
    case Some(k) =>
      var whole, fraction := u[..k], u[k + 1..];
      if (whole != [] || fraction != []) && AllDigits(whole) && AllDigits(fraction)
      then Some(DigitsValue(whole) as real + FractionValue(fraction))
      else None
  }

  /** Number(text) restricted to decimal notation: surrounding whitespace is ignored, blank
      text is 0, one leading sign is allowed; None stands for NaN. */
  function ParseNumber(s: string): (r: Option<real>)
    ensures Trim(s) == [] ==> r == Some(0.0)
  {
    var t := Trim(s);
    if t == [] then Some(0.0)
    else if t[0] == '-' then
      match ParseUnsigned(t[1..])
      case None => None
      case Some(v) => Some(-v)
    else if t[0] == '+' then ParseUnsigned(t[1..])
    else ParseUnsigned(t)
  }

  /** parsePercent: a missing or empty attribute is 0; otherwise the trimmed text loses its
      first percent sign and is read as a number, and text that is not a number is 0. */
  function ParsePercent(p: Option<string>): (r: real)
    ensures p.None? || p == Some("") ==> r == 0.0
  {
    if p.None? || p.value == [] then 0.0
    else OrZero(ParseNumber(RemoveFirst(Trim(p.value), '%')))
  }

  /** `Number(...) || 0`: NaN (and 0 itself) give 0. */
  function OrZero(n: Option<real>): real
  {
    match n
    case None => 0.0
    case Some(v) => v
  }

  /** Trimmed text without a sign is read as unsigned decimal text. */
  lemma ParseNumberUnsigned(t: string)
    requires t != [] && Trim(t) == t && t[0] != '-' && t[0] != '+'
    ensures ParseNumber(t) == ParseUnsigned(t)
  {
  }

  /** The digits of a natural number, without point or sign, read as that number. */
  lemma ParseUnsignedOfNat(n: nat)
    ensures ParseUnsigned(NatToString(n)) == Some(n as real)
  {
    NatToStringValue(n);
    assert '.' !in NatToString(n);
  }

  lemma ParseNumberOfNat(n: nat)
    ensures ParseNumber(NatToString(n)) == Some(n as real)
  {
    var digits := NatToString(n);
    TrimUnpadded(digits);
    ParseNumberUnsigned(digits);
    ParseUnsignedOfNat(n);
  }

  /** Removing the percent sign from rendered digits followed by '%' leaves the digits. */
  lemma RemovePercentSign(digits: string)
    requires '%' !in digits
    ensures RemoveFirst(digits + "%", '%') == digits
  {
    var core := digits + "%";
    assert IndexOf(core, '%') == Some(|digits|);
    assert core[..|digits|] == digits;
  }

  /** "75%", padded with any whitespace, reads as 75: the rendering of a natural number
      followed by a percent sign reads back as that number. */
  lemma ParsePercentOfRendered(left: string, n: nat, right: string)
    requires AllWhitespace(left) && AllWhitespace(right)
    ensures ParsePercent(Some(left + NatToString(n) + "%" + right)) == n as real
  {
    var digits := NatToString(n);
    var core := digits + "%";
    var s := left + digits + "%" + right;
    assert s == left + core + right;
    assert core[0] == digits[0];
    TrimPadded(left, core, right);
    assert '%' !in digits;
    RemovePercentSign(digits);
    ParseNumberOfNat(n);
    assert s != [] by { assert |s| >= |core|; }
    assert ParsePercent(Some(s)) == OrZero(ParseNumber(RemoveFirst(Trim(s), '%')));
  }

  /** "n%" with nothing around it reads as n. */
  lemma ParsePercentOfNatText(n: nat, w: string)
    requires w == NatToString(n) + "%"
    ensures ParsePercent(Some(w)) == n as real
  {
    var digits := NatToString(n);
    assert w[0] == digits[0] && w[|w| - 1] == '%';
    TrimUnpadded(w);
    assert '%' !in digits;
    RemovePercentSign(digits);
    ParseNumberOfNat(n);
  }

  /** Text with a character that cannot occur in a decimal number reads as 0. */
  lemma ParsePercentNonNumeric(s: string, c: char)
    requires c in s
    requires !IsWhitespace(c) && !IsDigit(c) && c != '.' && c != '+' && c != '-' && c != '%'
    ensures ParsePercent(Some(s)) == 0.0
  {
    var t := Trim(s);
    TrimKeeps(s, c);
    var u := RemoveFirst(t, '%');
    assert c in u by {
      if '%' in t {
        assert c in multiset(t);
        assert c in multiset(u);
      }
    }
    ParseNumberRejects(u, c);
  }

  lemma ParseNumberRejects(u: string, c: char)
    requires c in u
    requires !IsWhitespace(c) && !IsDigit(c) && c != '.' && c != '+' && c != '-'
    ensures ParseNumber(u) == None
  {
    TrimKeeps(u, c);
    var v := Trim(u);
    assert v == [v[0]] + v[1..];
    ParseUnsignedRejects(if v[0] == '-' || v[0] == '+' then v[1..] else v, c);
  }

  lemma ParseUnsignedRejects(u: string, c: char)
    requires c in u && !IsDigit(c) && c != '.'
    ensures ParseUnsigned(u) == None
  {
    match IndexOf(u, '.')
    case None =>
    case Some(k) =>
      assert u == u[..k] + [u[k]] + u[k + 1..];
      assert c in u[..k] || c in u[k + 1..];
  }

  /** Decimal fractions are read with their fractional part: "12.5%" is 12.5. */
  lemma ParsePercentDecimal(s: string)
    requires s == "12.5%"
    ensures ParsePercent(Some(s)) == 12.5
  {
    var number := s[..4];
    assert number == "12.5" && s == number + "%";
    ParsePercentOfNumber(number);
    ParseNumberDecimal(number);
  }

  /** Number text that starts and ends visibly, followed by one percent sign, reads as the
      number. */
  lemma ParsePercentOfNumber(number: string)
    requires number != [] && '%' !in number
    requires !IsWhitespace(number[0]) && !IsWhitespace(number[|number| - 1])
    ensures ParsePercent(Some(number + "%")) == OrZero(ParseNumber(number))
  {
    var s := number + "%";
    assert s[0] == number[0] && s[|s| - 1] == '%';
    TrimUnpadded(s);
    RemovePercentSign(number);
  }

  lemma ParseNumberDecimal(number: string)
    requires number == "12.5"
    ensures ParseNumber(number) == Some(12.5)
  {
    TrimUnpadded(number);
    ParseNumberUnsigned(number);
    ParseUnsignedDecimal(number);
  }

  lemma ParseUnsignedDecimal(s: string)
    requires s == "12.5"
    ensures ParseUnsigned(s) == Some(12.5)
  {
    assert IndexOf(s, '.') == Some(2);
    assert s[..2] == "12";
    assert s[3..] == "5";
    assert DigitsValue("12") == 12 by {
      assert "12"[..1] == "1";
      assert "1"[..0] == "";
    }
    assert FractionValue("5") == 0.5 by {
      assert "5"[1..] == "";
    }
  }
}
