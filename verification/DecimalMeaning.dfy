/**
 * What a numeral denotes, by the laws one would expect of it: digits, sign, point and exponent.
 */
module DecimalMeaning {
  import opened Common
  import opened Decimal

  /** Digits denote their number; one more digit is ten times that and the digit. */
  lemma DigitsMeaning(digits: string, c: char)
    requires AllDigits(digits) && IsDigit(c) && digits != ""
    ensures Denotes(Spelling("", digits, None, "")) == DigitsValue(digits) as real
    ensures AllDigits(digits + [c]) && DigitsValue(digits + [c]) == 10 * DigitsValue(digits) + (c as int - '0' as int)
    ensures DigitsValue("") == 0
  {
    assert (digits + [c])[..|digits|] == digits;
    assert digits + "" == digits;
  }

  /** A minus sign negates, a plus sign does not. */
  lemma SignMeaning(p: Spelling)
    requires IsNumeral(p) && p.sign == ""
    ensures IsNumeral(p.(sign := "-")) && Denotes(p.(sign := "-")) == -Denotes(p)
    ensures IsNumeral(p.(sign := "+")) && Denotes(p.(sign := "+")) == Denotes(p)
  {
    assert "-"[0] != "+"[0];
  }

  /** One digit more behind the point is one power of ten less: ten times the number is the one with the point
      moved right. */
  lemma PointMeaning(p: Spelling, c: char)
    requires IsNumeral(p) && p.fraction.Some? && p.tail == "" && IsDigit(c)
    ensures var longer, moved := p.(fraction := Some([c] + p.fraction.value)), p.(whole := p.whole + [c]);
      IsNumeral(longer) && IsNumeral(moved) && 10.0 * Denotes(longer) == Denotes(moved)
  {
    var longer, moved := p.(fraction := Some([c] + p.fraction.value)), p.(whole := p.whole + [c]);
    var digits := p.whole + ([c] + p.fraction.value);
    assert digits == (p.whole + [c]) + p.fraction.value;
    ShiftMeaning(DigitsValue(digits) as real, -|p.fraction.value| - 1);
  }

  /** One more in the exponent is ten times the number. */
  lemma ShiftMeaning(v: real, e: int)
    ensures Shifted(v, 0) == v && Shifted(v, e + 1) == 10.0 * Shifted(v, e)
  {
    ShiftOne(v, e);
    ShiftScales(v, e);
  }

  lemma {:induction false} ShiftScales(v: real, e: int)
    ensures Shifted(v * 10.0, e) == 10.0 * Shifted(v, e)
    decreases if e < 0 then -e else e
  {
    if e > 0 {
      ShiftScales(v * 10.0, e - 1);
    } else if e < 0 {
      ShiftScales(v / 10.0, e + 1);
      assert v * 10.0 / 10.0 == v / 10.0 * 10.0;
    }
  }

  lemma ExponentMeaning(p: Spelling, tail: string)
    requires IsNumeral(p) && IsTail(p.tail) && IsTail(tail) && WrittenExponent(p.(tail := tail)) == WrittenExponent(p) + 1
    ensures IsNumeral(p.(tail := tail)) && Denotes(p.(tail := tail)) == 10.0 * Denotes(p)
  {
    ShiftMeaning(DigitsValue(p.whole + Fraction(p)) as real, WrittenExponent(p) - |Fraction(p)|);
  }

  lemma IntegerMeaning(digits: string)
    requires AllDigits(digits) && digits != ""
    ensures IsInteger(digits) && IntegerValue(digits) == DigitsValue(digits)
    ensures IsInteger("+" + digits) && IntegerValue("+" + digits) == DigitsValue(digits)
    ensures IsInteger("-" + digits) && IntegerValue("-" + digits) == 0 - DigitsValue(digits)
  {
    assert IsDigit(digits[0]);
    assert ("+" + digits)[1..] == digits && ("-" + digits)[1..] == digits;
  }

  /** An exponent is read with its sign, after either marker; without one it is nought. */
  lemma ExponentReads(p: Spelling, marker: char, signed: string)
    requires WellSpelled(p)
    ensures p.tail == "" ==> WrittenExponent(p) == 0
    ensures p.tail == [marker] + signed ==>
      marker in {'e', 'E'} && IsInteger(signed) && WrittenExponent(p) == IntegerValue(signed)
  {
    assert ([marker] + signed)[1..] == signed;
  }

  /** A spelling is safe exactly when the digits and the exponent, whichever its sign, are at most the largest
      integer up to which all are exact. */
  lemma SafeMeaning(p: Spelling)
    requires WellSpelled(p)
    ensures Safe(p) <==>
      && WrittenExponent(p) + |p.whole| + |Fraction(p)| <= 9007199254740992
      && -WrittenExponent(p) + |p.whole| + |Fraction(p)| <= 9007199254740992
  {
  }
}
