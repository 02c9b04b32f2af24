/**
 * Decimal numerals and their normal form: significand without leading or trailing zeros, times a power
 * of ten. The comparison that decides whether a text may become a number compares normal forms.
 */
module Decimal {
  import opened Common

  predicate IsDigit(c: char) {
    '0' <= c <= '9'
  }

  predicate AllDigits(s: string) {
    forall i | 0 <= i < |s| :: IsDigit(s[i])
  }

  // ---------------------------------------------------------------- reading a numeral

  /** How many digits the text starts with. */
  function DigitRun(s: string): (n: nat)
    ensures n <= |s| && AllDigits(s[..n]) && (n < |s| ==> !IsDigit(s[n]))
  {
    if s == "" || !IsDigit(s[0]) then 0 else 1 + DigitRun(s[1..])
  }

  predicate Signed(s: string) {
    s != "" && (s[0] == '+' || s[0] == '-')
  }

  function Unsigned(s: string): string {
    if Signed(s) then s[1..] else s
  }

  predicate IsInteger(s: string) {
    Unsigned(s) != "" && AllDigits(Unsigned(s))
  }

  /** The groups the numeral expression captures; `tail` is the exponent with its marker, or nothing. */
  datatype Spelling = Spelling(sign: string, whole: string, fraction: Option<string>, tail: string)

  predicate IsTail(tail: string) {
    tail == "" || ((tail[0] == 'e' || tail[0] == 'E') && IsInteger(tail[1..]))
  }

  /** What follows the whole part: a point with a fraction, if there is one, and the tail. */
  function ReadRest(after: string): (r: (Option<string>, string))
    ensures r.0.Some? ==> AllDigits(r.0.value)
  {
    if after != "" && after[0] == '.' then
      var run := DigitRun(after[1..]);
      (Some(after[1..][..run]), after[1..][run..])
    else (None, after)
  }

  function Read(s: string): (p: Option<Spelling>)
    ensures p.Some? ==> WellSpelled(p.value)
  {
    var sign := if Signed(s) then [s[0]] else "";
    var run := DigitRun(Unsigned(s));
    var whole, rest := Unsigned(s)[..run], ReadRest(Unsigned(s)[run..]);
    if IsTail(rest.1) then Some(Spelling(sign, whole, rest.0, rest.1)) else None
  }

  /** The shape of the numeral expression, as a property of the captured groups. */
  predicate WellSpelled(p: Spelling) {
    && p.sign in {"", "+", "-"}
    && AllDigits(p.whole)
    && (p.fraction.Some? ==> AllDigits(p.fraction.value))
    && IsTail(p.tail)
  }

  function SpelledRest(fraction: Option<string>, tail: string): string {
    if fraction.Some? then "." + (fraction.value + tail) else tail
  }

  function Spelled(p: Spelling): string {
    p.sign + (p.whole + SpelledRest(p.fraction, p.tail))
  }

  lemma {:induction false} RunOfDigits(digits: string, rest: string)
    requires AllDigits(digits) && (rest != "" ==> !IsDigit(rest[0]))
    ensures DigitRun(digits + rest) == |digits|
    ensures (digits + rest)[..|digits|] == digits && (digits + rest)[|digits|..] == rest
  {
    if digits == "" {
      assert digits + rest == rest;
    } else {
      assert (digits + rest)[1..] == digits[1..] + rest;
      RunOfDigits(digits[1..], rest);
    }
  }

  lemma RestReadsBack(fraction: Option<string>, tail: string)
    requires IsTail(tail) && (fraction.Some? ==> AllDigits(fraction.value))
    ensures ReadRest(SpelledRest(fraction, tail)) == (fraction, tail)
  {
    if fraction.Some? {
      assert SpelledRest(fraction, tail)[1..] == fraction.value + tail;
      RunOfDigits(fraction.value, tail);
    }
  }

  lemma RestSpellsBack(after: string)
    ensures SpelledRest(ReadRest(after).0, ReadRest(after).1) == after
  {
    if after != "" && after[0] == '.' {
      var run := DigitRun(after[1..]);
      assert after[1..][..run] + after[1..][run..] == after[1..];
      assert "." + after[1..] == after;
    }
  }

  lemma SignSplits(sign: string, rest: string)
    requires sign in {"", "+", "-"} && !Signed(rest)
    ensures Unsigned(sign + rest) == rest
    ensures (if Signed(sign + rest) then [(sign + rest)[0]] else "") == sign
  {
    if sign == "" {
      assert sign + rest == rest;
    } else {
      assert (sign + rest)[1..] == rest && [(sign + rest)[0]] == sign;
    }
  }

  lemma ReadsWhatIsSpelled(p: Spelling)
    requires WellSpelled(p)
    ensures Read(Spelled(p)) == Some(p)
  {
    var after := SpelledRest(p.fraction, p.tail);
    var rest := p.whole + after;
    assert after != "" ==> after[0] == '.' || after[0] == 'e' || after[0] == 'E';
    assert rest != "" ==> rest[0] == (if p.whole != "" then p.whole[0] else after[0]);
    RunOfDigits(p.whole, after);
    SignSplits(p.sign, rest);
    RestReadsBack(p.fraction, p.tail);
  }

  lemma SignJoins(s: string)
    ensures (if Signed(s) then [s[0]] else "") + Unsigned(s) == s
  {
  }

  lemma SpellsWhatIsRead(s: string)
    requires Read(s).Some?
    ensures Spelled(Read(s).value) == s
  {
    var rest, run := Unsigned(s), DigitRun(Unsigned(s));
    RestSpellsBack(rest[run..]);
    assert rest[..run] + rest[run..] == rest;
    SignJoins(s);
  }

  /** The reading accepts exactly the texts of that shape, and each of them in one way only. */
  lemma ReadIffSpelled(s: string, p: Spelling)
    ensures Read(s) == Some(p) <==> WellSpelled(p) && s == Spelled(p)
  {
    if WellSpelled(p) && s == Spelled(p) {
      ReadsWhatIsSpelled(p);
    }
    if Read(s) == Some(p) {
      SpellsWhatIsRead(s);
    }
  }

  // ---------------------------------------------------------------- what a numeral denotes

  function DigitValue(c: char): nat
    requires IsDigit(c)
  {
    (c - '0') as nat
  }

  function DigitsValue(digits: string): nat
    requires AllDigits(digits)
  {
    if digits == "" then 0
    else DigitsValue(digits[..|digits| - 1]) * 10 + DigitValue(digits[|digits| - 1])
  }

  function IntegerValue(s: string): int
    requires IsInteger(s)
  {
    if s[0] == '-' then 0 - DigitsValue(Unsigned(s)) else DigitsValue(Unsigned(s))
  }

  /** `v` times ten to the power `e`. */
  function Shifted(v: real, e: int): real
    decreases if e < 0 then -e else e
  {
    if e == 0 then v else if e > 0 then Shifted(v * 10.0, e - 1) else Shifted(v / 10.0, e + 1)
  }

  function Fraction(p: Spelling): string {
    if p.fraction.Some? then p.fraction.value else ""
  }

  /** Sign, optional digits, and at least one digit somewhere. */
  predicate IsNumeral(p: Spelling) {
    WellSpelled(p) && (p.whole != "" || Fraction(p) != "")
  }

  function WrittenExponent(p: Spelling): int
    requires WellSpelled(p)
  {
    if p.tail == "" then 0 else IntegerValue(p.tail[1..])
  }

  function SignedReal(negative: bool, magnitude: real): real {
    if negative then -magnitude else magnitude
  }

  /** The exact value of a numeral. */
  function Denotes(p: Spelling): real
    requires IsNumeral(p)
  {
    SignedReal(p.sign == "-", Shifted(DigitsValue(p.whole + Fraction(p)) as real, WrittenExponent(p) - |Fraction(p)|))
  }

  // ---------------------------------------------------------------- the normal form

  function StripLeading(digits: string): string {
    if digits != "" && digits[0] == '0' then StripLeading(digits[1..]) else digits
  }

  function StripTrailing(digits: string): (r: string)
    ensures |r| <= |digits|
  {
    if digits != "" && digits[|digits| - 1] == '0' then StripTrailing(digits[..|digits| - 1]) else digits
  }

  /** The number arithmetic of the exponent: `round` takes an integer to the double that stands for it,
      and `show` renders a double. */
  datatype Doubles = Doubles(round: int -> int, show: int -> string)

  const MAX_SAFE: int := 0x20_0000_0000_0000

  /** Rounding settles at once, integers of up to 2^53 are doubles, and distinct doubles render
      distinctly. */
  ghost predicate Ieee(d: Doubles) {
    && (forall e :: d.round(d.round(e)) == d.round(e))
    && (forall e :: -MAX_SAFE <= e <= MAX_SAFE ==> d.round(e) == e)
    && (forall a, b :: d.show(a) == d.show(b) ==> a == b)
  }

  function Significand(p: Spelling): string {
    StripTrailing(StripLeading(p.whole + Fraction(p)))
  }

  function TrailingZeros(p: Spelling): nat {
    var digits := StripLeading(p.whole + Fraction(p));
    |digits| - |StripTrailing(digits)|
  }

  /** The exponent as the code computes it, rounding at every step. */
  function RoundedExponent(d: Doubles, p: Spelling): int
    requires WellSpelled(p)
  {
    d.round(d.round((if p.tail == "" then 0 else d.round(WrittenExponent(p))) - |Fraction(p)|) + TrailingZeros(p))
  }

  function NormalText(d: Doubles, negative: bool, significand: string, exponent: int): string {
    (if negative then "-" else "") + significand + "e" + d.show(exponent)
  }

  function NormalOf(d: Doubles, p: Spelling): string
    requires WellSpelled(p)
  {
    if Significand(p) == "" then "0"
    else NormalText(d, p.sign == "-", Significand(p), RoundedExponent(d, p))
  }

  /** The normal form of a text; nothing for a text that is not a numeral. */
  function Normal(d: Doubles, s: string): Option<string> {
    var p := Read(s);
    if p.None? || (p.value.whole == "" && Fraction(p.value) == "") then None else Some(NormalOf(d, p.value))
  }

  method NormaliseParts(d: Doubles, p: Spelling) returns (r: string)
    requires WellSpelled(p)
    ensures r == NormalOf(d, p)
  {
    var fraction := Fraction(p);
    var digits := p.whole + fraction;
    var exponent := d.round((if p.tail == "" then 0 else d.round(WrittenExponent(p))) - |fraction|);
    digits := StripLeading(digits);
    StrippedKeepsFirst(p.whole + fraction);
    if digits == "" {
      return "0";
    }
    var withoutTrailingZeros := StripTrailing(digits);
    exponent := d.round(exponent + (|digits| - |withoutTrailingZeros|));
    r := NormalText(d, p.sign == "-", withoutTrailingZeros, exponent);
  }

  method NormaliseDecimal(d: Doubles, s: string) returns (r: Option<string>)
    ensures r == Normal(d, s)
  {
    var parts := Read(s);
    if parts.None? {
      return None;
    }
    if parts.value.whole == "" && Fraction(parts.value) == "" {
      return None;
    }
    var text := NormaliseParts(d, parts.value);
    r := Some(text);
  }

  // ---------------------------------------------------------------- values of digit strings

  lemma {:induction false} LeadingZero(digits: string)
    requires AllDigits(digits)
    ensures DigitsValue("0" + digits) == DigitsValue(digits)
  {
    if digits == "" {
      assert "0" + digits == "0" && "0"[..0] == "";
    } else {
      var most := digits[..|digits| - 1];
      LeadingZero(most);
      assert ("0" + digits)[..|digits|] == "0" + most;
    }
  }

  lemma {:induction false} StripLeadingKeepsValue(digits: string)
    requires AllDigits(digits)
    ensures AllDigits(StripLeading(digits)) && DigitsValue(StripLeading(digits)) == DigitsValue(digits)
    ensures StripLeading(digits) != "" ==> StripLeading(digits)[0] != '0'
  {
    if digits != "" && digits[0] == '0' {
      StripLeadingKeepsValue(digits[1..]);
      LeadingZero(digits[1..]);
      assert digits == "0" + digits[1..];
    }
  }

  lemma {:induction false} StripTrailingShape(digits: string)
    requires AllDigits(digits)
    ensures var r := StripTrailing(digits);
      && AllDigits(r) && r == digits[..|r|] && (r != "" ==> r[|r| - 1] != '0')
      && DigitsValue(digits) == TimesTen(DigitsValue(r), |digits| - |r|)
  {
    if digits != "" && digits[|digits| - 1] == '0' {
      var most := digits[..|digits| - 1];
      StripTrailingShape(most);
    }
  }

  /** `b` with `k` zeros written after it. */
  function TimesTen(b: nat, k: nat): nat {
    if k == 0 then b else 10 * TimesTen(b, k - 1)
  }

  /** A factor of ten moves between the value and the exponent. */
  lemma {:induction false} ShiftOne(v: real, e: int)
    ensures Shifted(v * 10.0, e) == Shifted(v, e + 1)
    decreases if e < 0 then -e else e
  {
    if e < 0 {
      assert v * 10.0 / 10.0 == v;
    }
  }

  lemma {:induction false} ShiftMany(b: nat, k: nat, x: int)
    ensures Shifted(TimesTen(b, k) as real, x) == Shifted(b as real, x + k)
  {
    if k > 0 {
      assert TimesTen(b, k) as real == TimesTen(b, k - 1) as real * 10.0;
      ShiftOne(TimesTen(b, k - 1) as real, x);
      ShiftMany(b, k - 1, x + 1);
    }
  }

  /** Shifting keeps signs and loses nothing. */
  lemma {:induction false} ShiftKeeps(v: real, w: real, e: int)
    ensures Shifted(v, e) == Shifted(w, e) <==> v == w
    ensures v > 0.0 <==> Shifted(v, e) > 0.0
    ensures v == 0.0 <==> Shifted(v, e) == 0.0
    decreases if e < 0 then -e else e
  {
    if e > 0 {
      ShiftKeeps(v * 10.0, w * 10.0, e - 1);
    } else if e < 0 {
      ShiftKeeps(v / 10.0, w / 10.0, e + 1);
    }
  }

  lemma {:induction false} NonzeroPositive(digits: string)
    requires AllDigits(digits) && digits != "" && digits[0] != '0'
    ensures DigitsValue(digits) > 0
  {
    if |digits| > 1 {
      NonzeroPositive(digits[..|digits| - 1]);
    }
  }

  lemma StrippedKeepsFirst(digits: string)
    ensures StripLeading(digits) == "" <==> StripTrailing(StripLeading(digits)) == ""
  {
    StripLeadingFirst(digits);
    StripTrailingFirst(StripLeading(digits));
  }

  lemma {:induction false} StripLeadingFirst(digits: string)
    ensures StripLeading(digits) != "" ==> StripLeading(digits)[0] != '0'
  {
    if digits != "" && digits[0] == '0' {
      StripLeadingFirst(digits[1..]);
    }
  }

  lemma {:induction false} StripTrailingFirst(digits: string)
    ensures digits != "" && digits[0] != '0' ==> StripTrailing(digits) != ""
  {
    if digits != "" && digits[|digits| - 1] == '0' {
      StripTrailingFirst(digits[..|digits| - 1]);
    }
  }

  /** Without leading zeros, a digit string is determined by its value. */
  lemma {:induction false} DigitsUnique(a: string, b: string)
    requires AllDigits(a) && AllDigits(b) && DigitsValue(a) == DigitsValue(b)
    requires (a != "" ==> a[0] != '0') && (b != "" ==> b[0] != '0')
    ensures a == b
    decreases |a|
  {
    if a != "" {
      NonzeroPositive(a);
    }
    if b != "" {
      NonzeroPositive(b);
    }
    if a != "" && b != "" {
      var m, n := |a| - 1, |b| - 1;
      assert DigitValue(a[m]) == DigitsValue(a) % 10 && DigitValue(b[n]) == DigitsValue(b) % 10;
      DigitsUnique(a[..m], b[..n]);
      assert a == a[..m] + [a[m]] && b == b[..n] + [b[n]];
    }
  }

  // ---------------------------------------------------------------- significand times power of ten

  /** A higher power of ten leaves a multiple of ten. */
  lemma SmallerExponentIsMultiple(a: nat, x: int, b: nat, y: int)
    requires Shifted(a as real, x) == Shifted(b as real, y) && x < y
    ensures a % 10 == 0
  {
    ShiftMany(b, y - x, x);
    ShiftKeeps(a as real, TimesTen(b, y - x) as real, x);
  }

  /** Significands that do not end in zero, times powers of ten: equal only when both parts are. */
  lemma ScaledUnique(a: nat, x: int, b: nat, y: int)
    requires a % 10 != 0 && b % 10 != 0 && Shifted(a as real, x) == Shifted(b as real, y)
    ensures a == b && x == y
  {
    if x < y {
      SmallerExponentIsMultiple(a, x, b, y);
    } else if y < x {
      SmallerExponentIsMultiple(b, y, a, x);
    } else {
      ShiftKeeps(a as real, b as real, x);
    }
  }

  // ---------------------------------------------------------------- the normal form and the value

  function ExactExponent(p: Spelling): int
    requires WellSpelled(p)
  {
    WrittenExponent(p) - |Fraction(p)| + TrailingZeros(p)
  }

  /** The exponent and the digits stay where doubles are exact. */
  predicate Safe(p: Spelling)
    requires WellSpelled(p)
  {
    var e := WrittenExponent(p);
    (if e < 0 then -e else e) + |p.whole| + |Fraction(p)| <= MAX_SAFE
  }

  lemma {:induction false} StripLeadingShorter(digits: string)
    ensures |StripLeading(digits)| <= |digits|
  {
    if digits != "" && digits[0] == '0' {
      StripLeadingShorter(digits[1..]);
    }
  }

  lemma SafeIsExact(d: Doubles, p: Spelling)
    requires Ieee(d) && WellSpelled(p) && Safe(p)
    ensures RoundedExponent(d, p) == ExactExponent(p)
  {
    StripLeadingShorter(p.whole + Fraction(p));
  }

  lemma LastDigit(digits: string)
    requires AllDigits(digits) && digits != ""
    ensures DigitsValue(digits) % 10 == DigitValue(digits[|digits| - 1])
  {
  }

  /** The significand is a digit string that neither starts nor ends with a zero. */
  lemma SignificandShape(p: Spelling)
    requires WellSpelled(p)
    ensures AllDigits(Significand(p))
    ensures Significand(p) != "" ==>
      Significand(p)[0] != '0' && DigitsValue(Significand(p)) % 10 != 0 && DigitsValue(Significand(p)) > 0
    ensures DigitsValue(p.whole + Fraction(p)) == TimesTen(DigitsValue(Significand(p)), TrailingZeros(p))
  {
    var all := p.whole + Fraction(p);
    var digits := StripLeading(all);
    StripLeadingKeepsValue(all);
    StripTrailingShape(digits);
    if Significand(p) != "" {
      assert Significand(p)[0] == digits[0];
      LastDigit(Significand(p));
      NonzeroPositive(Significand(p));
    }
  }

  /** Significand times ten to the exact exponent. */
  function Magnitude(p: Spelling): real
    requires WellSpelled(p) && AllDigits(Significand(p))
  {
    Shifted(DigitsValue(Significand(p)) as real, ExactExponent(p))
  }

  /** A numeral's value is its signed significand times ten to its exact exponent. */
  lemma ValueOfParts(p: Spelling)
    requires IsNumeral(p)
    ensures AllDigits(Significand(p)) && Denotes(p) == SignedReal(p.sign == "-", Magnitude(p))
    ensures Significand(p) == "" ==> Magnitude(p) == 0.0
    ensures Significand(p) != "" ==> Magnitude(p) > 0.0
  {
    SignificandShape(p);
    ShiftMany(DigitsValue(Significand(p)), TrailingZeros(p), WrittenExponent(p) - |Fraction(p)|);
    ShiftKeeps(DigitsValue(Significand(p)) as real, 0.0, ExactExponent(p));
  }

  lemma MagnitudeUnique(p: Spelling, q: Spelling)
    requires IsNumeral(p) && IsNumeral(q) && Significand(p) != "" && Significand(q) != ""
    requires AllDigits(Significand(p)) && AllDigits(Significand(q)) && Magnitude(p) == Magnitude(q)
    ensures Significand(p) == Significand(q) && ExactExponent(p) == ExactExponent(q)
  {
    SignificandShape(p);
    SignificandShape(q);
    ScaledUnique(DigitsValue(Significand(p)), ExactExponent(p), DigitsValue(Significand(q)), ExactExponent(q));
    DigitsUnique(Significand(p), Significand(q));
  }

  /** Two numerals have the same value exactly when they are both zero or agree in sign, significand and
      exact exponent. */
  lemma SameValueIffSameParts(p: Spelling, q: Spelling)
    requires IsNumeral(p) && IsNumeral(q)
    ensures Denotes(p) == Denotes(q) <==> SameParts(p, q, ExactExponent(p), ExactExponent(q))
  {
    ValueOfParts(p);
    ValueOfParts(q);
    if Significand(p) != "" && Significand(q) != "" && Denotes(p) == Denotes(q) {
      MagnitudeUnique(p, q);
    }
    if SameParts(p, q, ExactExponent(p), ExactExponent(q)) && Significand(p) != "" {
      assert Magnitude(p) == Magnitude(q);
    }
  }

  /** Both zero, or of the same sign and significand and with the same exponents. */
  predicate SameParts(p: Spelling, q: Spelling, x: int, y: int) {
    Significand(p) == Significand(q) && (Significand(p) == "" || ((p.sign == "-") == (q.sign == "-") && x == y))
  }

  lemma {:induction false} MarkerSplits(a: string, x: string, b: string, y: string)
    requires AllDigits(a) && AllDigits(b) && a + "e" + x == b + "e" + y
    ensures a == b && x == y
  {
    var s := a + "e" + x;
    RunOfDigits(a, "e" + x);
    RunOfDigits(b, "e" + y);
    assert s == a + ("e" + x) && s == b + ("e" + y);
    assert "e" + x == "e" + y;
    assert ("e" + x)[1..] == x && ("e" + y)[1..] == y;
  }

  /** The text of a normal form determines its parts. */
  lemma NormalTextUnique(d: Doubles, n: bool, a: string, x: int, n': bool, b: string, y: int)
    requires Ieee(d) && AllDigits(a) && AllDigits(b) && a != "" && b != ""
    ensures NormalText(d, n, a, x) == NormalText(d, n', b, y) <==> n == n' && a == b && x == y
  {
    var s, t := NormalText(d, n, a, x), NormalText(d, n', b, y);
    if s == t {
      assert s[0] == if n then '-' else a[0];
      assert t[0] == if n' then '-' else b[0];
      assert s == (if n then "-" else "") + (a + "e" + d.show(x));
      assert t == (if n' then "-" else "") + (b + "e" + d.show(y));
      var k := if n then 1 else 0;
      assert s[k..] == a + "e" + d.show(x) && t[k..] == b + "e" + d.show(y);
      MarkerSplits(a, d.show(x), b, d.show(y));
    }
  }

  lemma NormalTextIsNotZero(d: Doubles, n: bool, a: string, x: int)
    requires AllDigits(a) && a != ""
    ensures NormalText(d, n, a, x) != "0"
  {
    var s := NormalText(d, n, a, x);
    assert |s| >= 2;
  }

  /** For any two numerals, whatever their exponents: the normal forms agree exactly when both are zero
      or sign, significand and the exponent AS ROUNDED agree. */
  lemma NormalAlikeExactly(d: Doubles, p: Spelling, q: Spelling)
    requires Ieee(d) && IsNumeral(p) && IsNumeral(q)
    ensures Normal(d, Spelled(p)) == Normal(d, Spelled(q)) <==>
      SameParts(p, q, RoundedExponent(d, p), RoundedExponent(d, q))
  {
    ReadsWhatIsSpelled(p);
    ReadsWhatIsSpelled(q);
    ValueOfParts(p);
    ValueOfParts(q);
    if Significand(p) != "" {
      NormalTextIsNotZero(d, p.sign == "-", Significand(p), RoundedExponent(d, p));
    }
    if Significand(q) != "" {
      NormalTextIsNotZero(d, q.sign == "-", Significand(q), RoundedExponent(d, q));
    }
    if Significand(p) != "" && Significand(q) != "" {
      NormalTextUnique(d, p.sign == "-", Significand(p), RoundedExponent(d, p),
                       q.sign == "-", Significand(q), RoundedExponent(d, q));
    }
  }

  /** Two numerals have the same normal form exactly when they denote the same rational, in plain or in
      exponent notation, as long as the exponent stays within the exact integers. */
  lemma NormalIffSameValue(d: Doubles, p: Spelling, q: Spelling)
    requires Ieee(d) && IsNumeral(p) && IsNumeral(q) && Safe(p) && Safe(q)
    ensures Normal(d, Spelled(p)) == Normal(d, Spelled(q)) <==> Denotes(p) == Denotes(q)
  {
    NormalAlikeExactly(d, p, q);
    SameValueIffSameParts(p, q);
    SafeIsExact(d, p);
    SafeIsExact(d, q);
  }

  /** In general the normal forms tell values apart exactly when rounding does not merge their
      exponents: equal forms of different values are the same digits at different exponents that round
      to one double. */
  lemma WrongExactlyWhenExponentsMerge(d: Doubles, p: Spelling, q: Spelling)
    requires Ieee(d) && IsNumeral(p) && IsNumeral(q) && Denotes(p) != Denotes(q)
    ensures Normal(d, Spelled(p)) == Normal(d, Spelled(q)) <==>
      && Significand(p) == Significand(q) != "" && (p.sign == "-") == (q.sign == "-")
      && ExactExponent(p) != ExactExponent(q) && RoundedExponent(d, p) == RoundedExponent(d, q)
  {
    NormalAlikeExactly(d, p, q);
    SameValueIffSameParts(p, q);
  }

  /** A natural number written out in decimal. */
  function Written(n: nat): (digits: string)
    ensures digits != "" && AllDigits(digits) && DigitsValue(digits) == n
  {
    if n < 10 then
      assert [('0' as int + n) as char][..0] == "";
      [('0' as int + n) as char]
    else
      var r := Written(n / 10) + [('0' as int + n % 10) as char];
      assert r[..|r| - 1] == Written(n / 10);
      r
  }

  /** The numeral `1e<n>`. */
  function OneTimesPower(n: nat): Spelling {
    Spelling("", "1", None, "e" + Written(n))
  }

  lemma OneStripped()
    ensures StripLeading("1") == "1" && StripTrailing("1") == "1"
  {
    assert "1"[0] == '1';
  }

  lemma OneTimesPowerReads(n: nat)
    ensures IsNumeral(OneTimesPower(n)) && OneTimesPower(n).tail != "" && WrittenExponent(OneTimesPower(n)) == n
  {
    var p := OneTimesPower(n);
    assert p.tail[1..] == Written(n);
    assert IsDigit(Written(n)[0]);
    assert Unsigned(Written(n)) == Written(n);
  }

  lemma OneTimesPowerParts(d: Doubles, n: nat)
    requires Ieee(d)
    ensures IsNumeral(OneTimesPower(n)) && Significand(OneTimesPower(n)) == "1"
    ensures ExactExponent(OneTimesPower(n)) == n && RoundedExponent(d, OneTimesPower(n)) == d.round(n)
  {
    var p := OneTimesPower(n);
    OneTimesPowerReads(n);
    OneStripped();
    assert p.whole + Fraction(p) == "1";
    assert TrailingZeros(p) == 0;
  }

  /** Beyond the exact integers the law fails: 2^53 and 2^53 + 1 round to the same double, so `1e<2^53>`
      and `1e<2^53 + 1>` are different values with one normal form. */
  lemma HugeExponentsMerge(d: Doubles)
    requires Ieee(d) && d.round(MAX_SAFE + 1) == MAX_SAFE
    ensures IsNumeral(OneTimesPower(MAX_SAFE)) && IsNumeral(OneTimesPower(MAX_SAFE + 1))
    ensures Denotes(OneTimesPower(MAX_SAFE)) != Denotes(OneTimesPower(MAX_SAFE + 1))
    ensures Normal(d, Spelled(OneTimesPower(MAX_SAFE))) == Normal(d, Spelled(OneTimesPower(MAX_SAFE + 1)))
  {
    OneTimesPowerParts(d, MAX_SAFE);
    OneTimesPowerParts(d, MAX_SAFE + 1);
    SameValueIffSameParts(OneTimesPower(MAX_SAFE), OneTimesPower(MAX_SAFE + 1));
    NormalAlikeExactly(d, OneTimesPower(MAX_SAFE), OneTimesPower(MAX_SAFE + 1));
  }
}
