/**
 * Strict conversion of one stored attribute value to another data type, and when a conversion can be
 * undone by converting back.
 */
module Conversion {
  import opened Common
  import opened Decimal
  import opened Calendar

  datatype DataType = StringType | NumberType | BooleanType | DateType | EnumType

  datatype Refusal =
    | NotAScalar
    | NotReadableAsText
    | NotPlainDecimal
    | TooLarge
    | NotExactly(n: Double)
    | NotBoolean
    | NotIsoDate
    | DateRollsOver
    | NoOptions
    | NotAnOption

  /** What the conversions take from the language: `Number` on text (None when the result is not finite),
      `String` on a number, the arithmetic of exponents, whether `Date.parse` gives a time, and the day
      number a date at UTC midnight parses to, if it parses. */
  datatype Engine = Engine(
    numberOf: string -> Option<Double>, textOf: Double -> string, doubles: Doubles,
    parses: string -> bool, midnight: (int, int, int) -> Option<int>)

  /** Parsing may refuse a date that does not exist or roll it over, but not misread one that does. */
  ghost predicate ParsesDates(e: Engine) {
    && (forall y, m, d :: e.midnight(y, m, d).Some? ==> e.midnight(y, m, d).value == MakeDay(y, m - 1, d))
    && (forall y, m, d | RealDate(y, m, d) :: e.midnight(y, m, d).Some?)
    && (forall text | IsDateShape(text) && RealDate(YearIn(text), MonthIn(text), DayIn(text)) :: e.parses(text))
  }

  // ---------------------------------------------------------------- dates

  predicate IsZone(s: string) {
    s == "" || s == "Z" ||
    (|s| == 6 && (s[0] == '+' || s[0] == '-') && AllDigits(s[1..3]) && s[3] == ':' && AllDigits(s[4..]))
  }

  predicate IsFractionAndZone(s: string) {
    if s != "" && s[0] == '.' then DigitRun(s[1..]) > 0 && IsZone(s[1..][DigitRun(s[1..])..]) else IsZone(s)
  }

  predicate IsTimePart(s: string) {
    && |s| >= 9 && s[0] == 'T' && AllDigits(s[1..3]) && s[3] == ':' && AllDigits(s[4..6]) && s[6] == ':'
    && AllDigits(s[7..9]) && IsFractionAndZone(s[9..])
  }

  /** An ISO date, with or without a time of day. */
  predicate IsIsoShape(text: string) {
    |text| >= 10 && IsDateShape(text[..10]) && (|text| == 10 || IsTimePart(text[10..]))
  }

  /** The date as it reads after parsing is the date as it was written. */
  predicate ReadsBackAsWritten(e: Engine, date: string)
    requires IsDateShape(date)
  {
    var day := e.midnight(YearIn(date), MonthIn(date), DayIn(date));
    day.Some? && ReadsAs(day.value, date)
  }

  predicate ReadsAs(day: int, date: string)
    requires |date| == 10
  {
    && Padded(YearOf(day), 4) == date[..4]
    && Padded(MonthOf(day) + 1, 2) == date[5..7]
    && Padded(DateOf(day), 2) == date[8..10]
  }

  /** The validator's own check, with its quirk: `Date.UTC` takes years 0 to 99 for 1900 to 1999. */
  predicate IsIsoCalendarDate(text: string) {
    IsDateShape(text) &&
    var y, m, d := YearIn(text), MonthIn(text), DayIn(text);
    var day := MakeDay(if y <= 99 then 1900 + y else y, m - 1, d);
    YearOf(day) == y && MonthOf(day) == m - 1 && DateOf(day) == d
  }

  predicate WritesRealDate(text: string) {
    |text| >= 10 && IsDateShape(text[..10]) && RealDate(YearIn(text[..10]), MonthIn(text[..10]), DayIn(text[..10]))
  }

  lemma PartsMatch(y: int, m: int, d: int, date: string)
    requires IsDateShape(date)
    ensures (Padded(y, 4) == date[..4] && Padded(m, 2) == date[5..7] && Padded(d, 2) == date[8..10])
      <==> y == YearIn(date) && m == MonthIn(date) && d == DayIn(date)
  {
    PaddedMatches(y, date[..4]);
    PaddedMatches(m, date[5..7]);
    PaddedMatches(d, date[8..10]);
  }

  /** The day a date denotes reads as that date exactly when the date exists. */
  lemma DayReadsIffReal(day: int, date: string)
    requires IsDateShape(date) && day == MakeDay(YearIn(date), MonthIn(date) - 1, DayIn(date))
    ensures ReadsAs(day, date) <==> RealDate(YearIn(date), MonthIn(date), DayIn(date))
  {
    PartsMatch(YearOf(day), MonthOf(day) + 1, DateOf(day), date);
    RoundTripsIffReal(YearIn(date), MonthIn(date), DayIn(date));
  }

  lemma MidnightParses(e: Engine, y: int, m: int, d: int)
    requires ParsesDates(e)
    ensures e.midnight(y, m, d).Some? ==> e.midnight(y, m, d).value == MakeDay(y, m - 1, d)
    ensures RealDate(y, m, d) ==> e.midnight(y, m, d).Some?
  {
  }

  lemma ReadsBackIffReal(e: Engine, date: string)
    requires ParsesDates(e) && IsDateShape(date)
    ensures ReadsBackAsWritten(e, date) <==> RealDate(YearIn(date), MonthIn(date), DayIn(date))
  {
    var midnight := e.midnight(YearIn(date), MonthIn(date), DayIn(date));
    MidnightParses(e, YearIn(date), MonthIn(date), DayIn(date));
    if midnight.Some? {
      DayReadsIffReal(midnight.value, date);
    }
  }

  /** The validator accepts exactly the real dates of the year 100 and later, written without a time. */
  lemma ValidatorIffReal(text: string)
    ensures IsIsoCalendarDate(text) <==> |text| == 10 && WritesRealDate(text) && YearIn(text) >= 100
  {
    if IsDateShape(text) {
      assert text[..10] == text;
      var y, m, d := YearIn(text), MonthIn(text), DayIn(text);
      if y >= 100 {
        RoundTripsIffReal(y, m, d);
      } else {
        DayOfTwentiethCentury(1900 + y, m, d);
      }
    } else if |text| == 10 {
      assert text[..10] == text;
    }
  }

  /** A day counted from the twentieth century does not fall in the first one. */
  lemma DayOfTwentiethCentury(year: int, month: nat, date: nat)
    requires 1900 <= year
    ensures YearOf(MakeDay(year, month - 1, date)) > 100
  {
    var y := year + (month - 1) / 12;
    var day := MakeDay(year, month - 1, date);
    assert y >= 1899;
    assert day >= DayFromYear(y) - 1;
    YearLength(y - 1);
    if YearOf(day) <= 100 {
      YearsIncrease(YearOf(day), y - 1);
    }
  }

  // ---------------------------------------------------------------- conversion

  function AsText(e: Engine, value: Json): Option<string> {
    match value
    case JStr(s) => Some(s)
    case JNum(n) => Some(e.textOf(n))
    case JBool(b) => Some(if b then "true" else "false")
    case _ => None
  }

  /** A minus sign at most, digits, and a point only between digits. */
  predicate IsPlainDecimal(text: string) {
    var p := Read(text);
    p.Some? && p.value.sign != "+" && p.value.whole != "" && p.value.tail == "" && p.value.fraction != Some("")
  }

  function ToNumber(e: Engine, text: string): Result<Json, Refusal> {
    if !IsPlainDecimal(text) then Err(NotPlainDecimal)
    else
      match e.numberOf(text)
      case None => Err(TooLarge)
      case Some(n) =>
        var normalText, normalDouble := Normal(e.doubles, text), Normal(e.doubles, e.textOf(n));
        if normalText.None? || normalDouble.None? || normalText != normalDouble then Err(NotExactly(n)) else Ok(JNum(n))
  }

  function ToDate(e: Engine, text: string): Result<Json, Refusal> {
    if !IsIsoShape(text) || !e.parses(text) then Err(NotIsoDate)
    else if !ReadsBackAsWritten(e, text[..10]) then Err(DateRollsOver)
    else Ok(JStr(text))
  }

  function ConvertValue(e: Engine, value: Json, from: DataType, to: DataType, options: seq<string>)
    : Result<Json, Refusal>
  {
    if from == to then
      (if value.JStr? || value.JNum? || value.JBool? then Ok(value) else Err(NotAScalar))
    else
      match AsText(e, value)
      case None => Err(NotReadableAsText)
      case Some(text) =>
        match to
        case NumberType => ToNumber(e, text)
        case BooleanType =>
          if text == "true" then Ok(JBool(true)) else if text == "false" then Ok(JBool(false)) else Err(NotBoolean)
        case DateType => ToDate(e, text)
        case EnumType =>
          if options == [] then Err(NoOptions) else if text !in options then Err(NotAnOption) else Ok(JStr(text))
        case StringType => Ok(JStr(text))
  }

  // ---------------------------------------------------------------- numbers are never merged

  lemma PlainIsNumeral(text: string)
    requires IsPlainDecimal(text)
    ensures IsNumeral(Read(text).value) && Spelled(Read(text).value) == text
    ensures |text| <= MAX_SAFE ==> Safe(Read(text).value)
  {
    SpellsWhatIsRead(text);
    var p := Read(text).value;
    assert |p.whole| + |Fraction(p)| <= |text|;
  }

  /** Two texts that convert to the same number denote the same rational, whatever the language's
      rounding and rendering of numbers are. A text has at most 2^53 - 1 characters. */
  lemma ConversionNeverMergesValues(e: Engine, a: string, b: string, n: Double)
    requires Ieee(e.doubles) && |a| < MAX_SAFE && |b| < MAX_SAFE
    requires ToNumber(e, a) == Ok(JNum(n)) && ToNumber(e, b) == Ok(JNum(n))
    ensures Denotes(Read(a).value) == Denotes(Read(b).value)
  {
    PlainIsNumeral(a);
    PlainIsNumeral(b);
    NormalIffSameValue(e.doubles, Read(a).value, Read(b).value);
  }

  /** A plain decimal is accepted exactly when the number it reads as is written, by the language, as a
      numeral of the same value: no digit written is lost. */
  lemma AcceptedIffNothingIsLost(e: Engine, text: string, n: Double)
    requires Ieee(e.doubles) && |text| < MAX_SAFE && IsPlainDecimal(text) && e.numberOf(text) == Some(n)
    requires Read(e.textOf(n)).Some? && IsNumeral(Read(e.textOf(n)).value) && Safe(Read(e.textOf(n)).value)
    ensures IsNumeral(Read(text).value)
    ensures ToNumber(e, text) == Ok(JNum(n)) <==> Denotes(Read(text).value) == Denotes(Read(e.textOf(n)).value)
  {
    PlainIsNumeral(text);
    SpellsWhatIsRead(e.textOf(n));
    NormalIffSameValue(e.doubles, Read(text).value, Read(e.textOf(n)).value);
  }

  // ---------------------------------------------------------------- the two date checks

  /** On date-only text conversion accepts exactly the real dates, of any year. */
  lemma ConversionAcceptsRealDates(e: Engine, text: string)
    requires ParsesDates(e) && |text| == 10
    ensures ToDate(e, text).Ok? <==> WritesRealDate(text)
  {
    assert text[..10] == text;
    if IsDateShape(text) {
      ReadsBackIffReal(e, text[..10]);
    }
  }

  /** On date-only text the two checks agree exactly from the year 100 on: they part on the real dates
      before it, which conversion accepts and validation refuses. */
  lemma ChecksAgreeIffNotEarly(e: Engine, text: string)
    requires ParsesDates(e) && |text| == 10
    ensures (ToDate(e, text).Ok? <==> IsIsoCalendarDate(text)) <==> !(WritesRealDate(text) && YearIn(text) < 100)
  {
    assert text[..10] == text;
    ConversionAcceptsRealDates(e, text);
    ValidatorIffReal(text);
  }

  /** On text with a time part, validation refuses all that conversion accepts. */
  lemma TimePartsNeverValidate(e: Engine, text: string)
    requires ParsesDates(e) && |text| > 10
    ensures !IsIsoCalendarDate(text)
    ensures ToDate(e, text).Ok? <==> IsIsoShape(text) && e.parses(text) && WritesRealDate(text)
  {
    if IsIsoShape(text) {
      ReadsBackIffReal(e, text[..10]);
    }
  }

  /** A value converted to a date passes the validation of a date attribute exactly when it has no time
      part and its year is 100 or later. */
  lemma ConvertedDateValidatesIff(e: Engine, value: Json, from: DataType, options: seq<string>)
    requires ParsesDates(e) && from != DateType && ConvertValue(e, value, from, DateType, options).Ok?
    ensures ConvertValue(e, value, from, DateType, options).value.JStr?
    ensures var text := ConvertValue(e, value, from, DateType, options).value.s;
      |text| >= 10 && AllDigits(text[..4]) && (IsIsoCalendarDate(text) <==> |text| == 10 && YearIn(text) >= 100)
  {
    var text := AsText(e, value).value;
    ReadsBackIffReal(e, text[..10]);
    assert text[..10][..4] == text[..4];
    ValidatorIffReal(text);
  }

  lemma FirstDayReads()
    ensures WritesRealDate("0001-01-01") && YearIn("0001-01-01") == 1
  {
    var text := "0001-01-01";
    assert text[..10] == text && text[..4] == "0" + ("0" + ("0" + "1")) && text[5..7] == text[8..10] == "0" + "1";
    LeadingZero("1");
    LeadingZero("0" + "1");
    LeadingZero("0" + ("0" + "1"));
    assert "1"[..0] == "";
  }

  /** A date on which the two checks disagree. */
  lemma FirstDayIsDisputed(e: Engine)
    requires ParsesDates(e)
    ensures ToDate(e, "0001-01-01").Ok? && !IsIsoCalendarDate("0001-01-01")
  {
    FirstDayReads();
    ConversionAcceptsRealDates(e, "0001-01-01");
    ValidatorIffReal("0001-01-01");
  }

  lemma MidnightReads()
    ensures IsTimePart("T00:00:00Z")
  {
    var s := "T00:00:00Z";
    assert s[1..3] == s[4..6] == s[7..9] == "00" && s[9..] == "Z";
  }

  /** A text that converts to a date and does not validate as one. */
  lemma MidnightIsNotValidated(e: Engine)
    requires ParsesDates(e) && e.parses("0001-01-01T00:00:00Z")
    ensures ToDate(e, "0001-01-01T00:00:00Z").Ok? && !IsIsoCalendarDate("0001-01-01T00:00:00Z")
  {
    var text := "0001-01-01T00:00:00Z";
    FirstDayReads();
    MidnightReads();
    assert text[..10] == "0001-01-01" && text[10..] == "T00:00:00Z";
    assert WritesRealDate(text) by {
      assert "0001-01-01"[..10] == "0001-01-01";
    }
    TimePartsNeverValidate(e, text);
  }

  // ---------------------------------------------------------------- undoing by converting back

  predicate IsReversibleConversion(e: Engine, value: Json, from: DataType, to: DataType, options: seq<string>) {
    var forward := ConvertValue(e, value, from, to, options);
    forward.Ok? && ConvertValue(e, forward.value, to, from, options) == Ok(value)
  }

  /** Text to number comes back exactly when the text is how the language writes the number. */
  lemma TextToNumberReversibleIff(e: Engine, text: string, options: seq<string>)
    ensures IsReversibleConversion(e, JStr(text), StringType, NumberType, options) <==>
      ToNumber(e, text).Ok? && e.textOf(ToNumber(e, text).value.n) == text
  {
  }

  /** A number comes back from text exactly when it is written without an exponent and reads as itself. */
  lemma NumberToTextReversibleIff(e: Engine, n: Double, options: seq<string>)
    ensures IsReversibleConversion(e, JNum(n), NumberType, StringType, options) <==>
      IsPlainDecimal(e.textOf(n)) && e.numberOf(e.textOf(n)) == Some(n)
  {
  }

  /** Between string, date and enumeration a text stays as it is, so it comes back exactly when the type
      it came from still accepts it. */
  lemma TextKeptReversibleIff(e: Engine, text: string, from: DataType, to: DataType, options: seq<string>)
    requires from != to && from !in {NumberType, BooleanType} && to !in {NumberType, BooleanType}
    ensures ConvertValue(e, JStr(text), from, to, options).Ok? ==>
      ConvertValue(e, JStr(text), from, to, options) == Ok(JStr(text))
    ensures IsReversibleConversion(e, JStr(text), from, to, options) <==>
      ConvertValue(e, JStr(text), from, to, options).Ok? && ConvertValue(e, JStr(text), to, from, options).Ok?
  {
  }
}
