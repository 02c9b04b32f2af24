/**
 * Day-number arithmetic of ECMA-262 section 21.4.1 and the two checks built on it that decide whether
 * three numbers are a date of the Gregorian calendar.
 */
module Calendar {
  import opened Decimal

  // ---------------------------------------------------------------- the calendar itself

  predicate IsLeap(year: int) {
    year % 4 == 0 && (year % 100 != 0 || year % 400 == 0)
  }

  function DaysInMonth(year: int, month: int): int
    requires 1 <= month <= 12
  {
    if month == 2 then (if IsLeap(year) then 29 else 28)
    else if month in {4, 6, 9, 11} then 30 else 31
  }

  /** A date that exists. */
  predicate RealDate(year: int, month: int, day: int) {
    1 <= month <= 12 && 1 <= day <= DaysInMonth(year, month)
  }

  // ---------------------------------------------------------------- day numbers

  /** The day number of the first of January, counted from 1970. */
  function DayFromYear(year: int): int {
    365 * (year - 1970) + (year - 1969) / 4 - (year - 1901) / 100 + (year - 1601) / 400
  }

  function DaysBefore(month: int, leap: bool): int
    requires 0 <= month <= 12
  {
    [0, 31, 59, 90, 120, 151, 181, 212, 243, 273, 304, 334, 365][month] + if leap && month >= 2 then 1 else 0
  }

  lemma FourthYears(year: int)
    ensures (year + 1 - 1969) / 4 - (year - 1969) / 4 == if year % 4 == 0 then 1 else 0
  {
    var q, r := year / 4, year % 4;
    assert (year - 1969) / 4 == q - 493 + (if r == 0 then 0 else 1);
    assert (year + 1 - 1969) / 4 == q - 492;
  }

  lemma HundredthYears(year: int)
    ensures (year + 1 - 1901) / 100 - (year - 1901) / 100 == if year % 100 == 0 then 1 else 0
  {
    var q, r := year / 100, year % 100;
    assert (year - 1901) / 100 == q - 20 + (if r == 0 then 0 else 1);
    assert (year + 1 - 1901) / 100 == q - 19;
  }

  lemma FourHundredthYears(year: int)
    ensures (year + 1 - 1601) / 400 - (year - 1601) / 400 == if year % 400 == 0 then 1 else 0
  {
    var q, r := year / 400, year % 400;
    assert (year - 1601) / 400 == q - 5 + (if r == 0 then 0 else 1);
    assert (year + 1 - 1601) / 400 == q - 4;
  }

  lemma LeapTermsNest(year: int)
    ensures year % 400 == 0 ==> year % 100 == 0
    ensures year % 100 == 0 ==> year % 4 == 0
  {
  }

  /** A year is as long as its leap rule says. */
  lemma YearLength(year: int)
    ensures DayFromYear(year + 1) - DayFromYear(year) == if IsLeap(year) then 366 else 365
  {
    FourthYears(year);
    HundredthYears(year);
    FourHundredthYears(year);
    LeapTermsNest(year);
  }

  function YearUp(day: int, year: int): (y: int)
    requires DayFromYear(year) <= day
    ensures DayFromYear(y) <= day < DayFromYear(y + 1)
    decreases day - DayFromYear(year)
  {
    YearLength(year);
    if day < DayFromYear(year + 1) then year else YearUp(day, year + 1)
  }

  function YearDown(day: int, year: int): (y: int)
    requires day < DayFromYear(year)
    ensures DayFromYear(y) <= day < DayFromYear(y + 1)
    decreases DayFromYear(year) - day
  {
    YearLength(year - 1);
    if DayFromYear(year - 1) <= day then year - 1 else YearDown(day, year - 1)
  }

  /** The year a day number falls in. */
  function YearOf(day: int): (y: int)
    ensures DayFromYear(y) <= day < DayFromYear(y + 1)
  {
    if day >= 0 then YearUp(day, 1970) else YearDown(day, 1970)
  }

  function DayInYear(day: int): (d: int)
    ensures 0 <= d < if IsLeap(YearOf(day)) then 366 else 365
  {
    YearLength(YearOf(day));
    day - DayFromYear(YearOf(day))
  }

  function MonthFrom(dayInYear: int, leap: bool, month: int): (m: int)
    requires 0 <= month <= 11 && DaysBefore(month, leap) <= dayInYear < DaysBefore(12, leap)
    ensures 0 <= m <= 11 && DaysBefore(m, leap) <= dayInYear < DaysBefore(m + 1, leap)
    decreases 12 - month
  {
    if dayInYear < DaysBefore(month + 1, leap) then month else MonthFrom(dayInYear, leap, month + 1)
  }

  /** Months count from 0, days of the month from 1. */
  function MonthOf(day: int): (m: int)
    ensures 0 <= m <= 11
    ensures DaysBefore(m, IsLeap(YearOf(day))) <= DayInYear(day) < DaysBefore(m + 1, IsLeap(YearOf(day)))
  {
    MonthFrom(DayInYear(day), IsLeap(YearOf(day)), 0)
  }

  function DateOf(day: int): int {
    DayInYear(day) - DaysBefore(MonthOf(day), IsLeap(YearOf(day))) + 1
  }

  /** The day number of a year, a month counted from 0 and a day, any of which may overflow. */
  function MakeDay(year: int, month: int, date: int): int {
    var y, m := year + month / 12, month % 12;
    DayFromYear(y) + DaysBefore(m, IsLeap(y)) + date - 1
  }

  /** Twelve months on is the same day of the next year, whatever month it is. */
  lemma MonthsCarry(year: int, month: int, date: int)
    ensures MakeDay(year, month + 12, date) == MakeDay(year + 1, month, date)
  {
    assert (month + 12) / 12 == month / 12 + 1 && (month + 12) % 12 == month % 12;
  }

  // ---------------------------------------------------------------- the round trip

  lemma {:induction false} YearsIncrease(a: int, b: int)
    requires a < b
    ensures DayFromYear(a + 1) <= DayFromYear(b)
    decreases b - a
  {
    if a + 1 < b {
      YearsIncrease(a, b - 1);
      YearLength(b - 1);
    }
  }

  lemma YearUnique(day: int, y: int)
    requires DayFromYear(y) <= day < DayFromYear(y + 1)
    ensures YearOf(day) == y
  {
    if YearOf(day) < y {
      YearsIncrease(YearOf(day), y);
    } else if y < YearOf(day) {
      YearsIncrease(y, YearOf(day));
    }
  }

  lemma MonthLength(year: int, month: int)
    requires 1 <= month <= 12
    ensures DaysBefore(month, IsLeap(year)) - DaysBefore(month - 1, IsLeap(year)) == DaysInMonth(year, month)
  {
  }

  lemma {:induction false} MonthsIncrease(a: int, b: int, leap: bool)
    requires 0 <= a <= b <= 12
    ensures DaysBefore(a, leap) <= DaysBefore(b, leap)
    decreases b - a
  {
    if a < b {
      MonthsIncrease(a, b - 1, leap);
    }
  }

  lemma MonthUnique(day: int, m: int)
    requires 0 <= m <= 11
    requires DaysBefore(m, IsLeap(YearOf(day))) <= DayInYear(day) < DaysBefore(m + 1, IsLeap(YearOf(day)))
    ensures MonthOf(day) == m
  {
    if MonthOf(day) < m {
      MonthsIncrease(MonthOf(day) + 1, m, IsLeap(YearOf(day)));
    } else if m < MonthOf(day) {
      MonthsIncrease(m + 1, MonthOf(day), IsLeap(YearOf(day)));
    }
  }

  /** A real date's day lies inside its year and, in that year, inside its month. */
  lemma RealDateFits(year: int, month: int, date: int)
    requires RealDate(year, month, date)
    ensures var inYear, leap := DaysBefore(month - 1, IsLeap(year)) + date - 1, IsLeap(year);
      && 0 <= inYear < DayFromYear(year + 1) - DayFromYear(year)
      && DaysBefore(month - 1, leap) <= inYear < DaysBefore(month, leap)
  {
    YearLength(year);
    MonthLength(year, month);
    MonthsIncrease(0, month - 1, IsLeap(year));
    MonthsIncrease(month, 12, IsLeap(year));
  }

  lemma RealDateRoundTrips(year: int, month: int, date: int)
    requires RealDate(year, month, date)
    ensures var day := MakeDay(year, month - 1, date);
      YearOf(day) == year && MonthOf(day) == month - 1 && DateOf(day) == date
  {
    var day := MakeDay(year, month - 1, date);
    RealDateFits(year, month, date);
    assert (month - 1) / 12 == 0 && (month - 1) % 12 == month - 1;
    assert day == DayFromYear(year) + DaysBefore(month - 1, IsLeap(year)) + date - 1;
    YearUnique(day, year);
    MonthUnique(day, month - 1);
  }

  /** Putting a date together and taking it apart again gives the same numbers back exactly when the
      date exists. */
  lemma RoundTripsIffReal(year: int, month: int, date: int)
    ensures var day := MakeDay(year, month - 1, date);
      (YearOf(day) == year && MonthOf(day) == month - 1 && DateOf(day) == date) <==> RealDate(year, month, date)
  {
    var day := MakeDay(year, month - 1, date);
    if RealDate(year, month, date) {
      RealDateRoundTrips(year, month, date);
    }
    if YearOf(day) == year && MonthOf(day) == month - 1 && DateOf(day) == date {
      MonthLength(year, month);
    }
  }

  // ---------------------------------------------------------------- texts

  /** The fields of a ten-character `YYYY-MM-DD`. */
  predicate IsDateShape(text: string) {
    && |text| == 10 && AllDigits(text[..4]) && text[4] == '-' && AllDigits(text[5..7]) && text[7] == '-'
    && AllDigits(text[8..10])
  }

  function YearIn(text: string): nat
    requires |text| >= 10 && AllDigits(text[..4])
  {
    DigitsValue(text[..4])
  }

  function MonthIn(text: string): nat
    requires |text| >= 10 && AllDigits(text[5..7])
  {
    DigitsValue(text[5..7])
  }

  function DayIn(text: string): nat
    requires |text| >= 10 && AllDigits(text[8..10])
  {
    DigitsValue(text[8..10])
  }

  /** `String(n).padStart(width, '0')`. */
  function Padded(n: int, width: nat): string {
    PadStart(if n < 0 then "-" + Written(-n) else Written(n), width)
  }

  function PadStart(s: string, width: nat): string
    decreases width - |s|
  {
    if |s| >= width then s else PadStart("0" + s, width)
  }

  lemma {:induction false} PadStartKeeps(s: string, width: nat)
    ensures |PadStart(s, width)| == if |s| >= width then |s| else width
    ensures AllDigits(PadStart(s, width)) <==> AllDigits(s)
    ensures AllDigits(s) ==> DigitsValue(PadStart(s, width)) == DigitsValue(s)
    decreases width - |s|
  {
    if |s| < width {
      PadStartKeeps("0" + s, width);
      assert forall i | 0 <= i < |s| :: ("0" + s)[i + 1] == s[i];
      if AllDigits(s) {
        LeadingZero(s);
      }
    }
  }

  lemma {:induction false} SameLengthUnique(a: string, b: string)
    requires AllDigits(a) && AllDigits(b) && |a| == |b| && DigitsValue(a) == DigitsValue(b)
    ensures a == b
  {
    if a != "" {
      var n := |a| - 1;
      LastDigit(a);
      LastDigit(b);
      assert DigitsValue(a[..n]) == DigitsValue(a) / 10 && DigitsValue(b[..n]) == DigitsValue(b) / 10;
      SameLengthUnique(a[..n], b[..n]);
      assert a == a[..n] + [a[n]] && b == b[..n] + [b[n]];
    }
  }

  lemma {:induction false} WrittenFits(n: nat, digits: string)
    requires AllDigits(digits) && DigitsValue(digits) == n && digits != ""
    ensures |Written(n)| <= |digits|
    decreases n
  {
    var k := |digits| - 1;
    if n >= 10 {
      assert digits[..0] == "";
      assert k > 0;
      WrittenFits(n / 10, digits[..k]);
    }
  }

  /** A padded number is a given digit string exactly when it is the number the digits write. */
  lemma PaddedMatches(n: int, digits: string)
    requires AllDigits(digits) && digits != ""
    ensures Padded(n, |digits|) == digits <==> n == DigitsValue(digits)
  {
    if n < 0 {
      var s := "-" + Written(-n);
      PadStartKeeps(s, |digits|);
      assert s[0] == '-';
      assert !AllDigits(s);
    } else {
      PadStartKeeps(Written(n), |digits|);
      if n == DigitsValue(digits) {
        WrittenFits(n, digits);
        SameLengthUnique(Padded(n, |digits|), digits);
      }
    }
  }
}
