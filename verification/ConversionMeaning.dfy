/**
 * What a conversion of one value gives, type by type and text by text: which texts are plain decimals and ISO
 * dates, what booleans, enumerations and numbers become, and which refusal is given.
 */
module ConversionMeaning {
  import opened Common
  import opened Decimal
  import opened Calendar
  import opened Conversion

  // ---------------------------------------------------------------- the shapes of texts

  /** Digits, with a minus sign at most before them and a point with digits at most behind them. */
  ghost predicate WritesPlain(text: string) {
    exists minus: bool, whole: string, fraction: Option<string> :: IsPlainText(text, minus, whole, fraction)
  }

  predicate IsPlainText(text: string, minus: bool, whole: string, fraction: Option<string>) {
    && whole != "" && AllDigits(whole)
    && (fraction.Some? ==> fraction.value != "" && AllDigits(fraction.value))
    && text == (if minus then "-" else "") + whole + (if fraction.Some? then "." + fraction.value else "")
  }

  lemma PlainMeaning(text: string)
    ensures IsPlainDecimal(text) <==> WritesPlain(text)
  {
    if IsPlainDecimal(text) {
      var p := Read(text).value;
      SpellsWhatIsRead(text);
      PlainParts(p);
      assert IsPlainText(text, p.sign == "-", p.whole, p.fraction);
    }
    if WritesPlain(text) {
      var minus: bool, whole: string, fraction: Option<string> :| IsPlainText(text, minus, whole, fraction);
      PlainReads(text, minus, whole, fraction);
    }
  }

  lemma PlainParts(p: Spelling)
    requires WellSpelled(p) && p.sign != "+" && p.tail == ""
    ensures Spelled(p)
      == (if p.sign == "-" then "-" else "") + p.whole + (if p.fraction.Some? then "." + p.fraction.value else "")
  {
    if p.fraction.Some? {
      assert p.fraction.value + "" == p.fraction.value;
      assert p.sign + (p.whole + ("." + p.fraction.value)) == p.sign + p.whole + ("." + p.fraction.value);
    } else {
      assert p.sign + (p.whole + "") == p.sign + p.whole + "";
    }
  }

  lemma PlainReads(text: string, minus: bool, whole: string, fraction: Option<string>)
    requires IsPlainText(text, minus, whole, fraction)
    ensures IsPlainDecimal(text)
  {
    var p := Spelling(if minus then "-" else "", whole, fraction, "");
    PlainParts(p);
    ReadsWhatIsSpelled(p);
    assert p.sign != "+" by {
      if minus {
        assert "-"[0] != "+"[0];
      }
    }
  }

  /** Two digits. */
  predicate IsPair(s: string) {
    |s| == 2 && IsDigit(s[0]) && IsDigit(s[1])
  }

  ghost predicate IsZoneText(zone: string) {
    zone == "" || zone == "Z" ||
    exists plus: bool, h: string, m: string :: IsOffset(zone, plus, h, m)
  }

  predicate IsOffset(zone: string, plus: bool, h: string, m: string) {
    IsPair(h) && IsPair(m) && zone == (if plus then "+" else "-") + h + ":" + m
  }

  lemma ZoneMeaning(zone: string)
    ensures IsZone(zone) <==> IsZoneText(zone)
  {
    if IsZone(zone) && zone != "" && zone != "Z" {
      var h, m := zone[1..3], zone[4..];
      assert zone == (if zone[0] == '+' then "+" else "-") + h + ":" + m;
      assert IsOffset(zone, zone[0] == '+', h, m);
    }
    if plus: bool, h: string, m: string :| IsOffset(zone, plus, h, m) {
      assert zone[0] == (if plus then '+' else '-') && zone[1..3] == h && zone[3] == ':' && zone[4..] == m;
    }
  }

  /** `T`, hours, minutes and seconds of two digits each, then a fraction of any length, or none, and a zone. */
  ghost predicate IsTimeText(text: string, h: string, m: string, s: string, fraction: string, zone: string) {
    && IsPair(h) && IsPair(m) && IsPair(s) && IsZoneText(zone)
    && (fraction == "" || (|fraction| > 1 && fraction[0] == '.' && AllDigits(fraction[1..])))
    && text == "T" + h + ":" + m + ":" + s + (fraction + zone)
  }

  ghost predicate WritesTime(text: string) {
    exists h, m, s, fraction, zone :: IsTimeText(text, h, m, s, fraction, zone)
  }

  lemma FractionMeaning(rest: string) returns (fraction: string, zone: string)
    requires IsFractionAndZone(rest)
    ensures rest == fraction + zone && IsZoneText(zone)
    ensures fraction == "" || (|fraction| > 1 && fraction[0] == '.' && AllDigits(fraction[1..]))
  {
    if rest != "" && rest[0] == '.' {
      var run := DigitRun(rest[1..]);
      fraction, zone := "." + rest[1..][..run], rest[1..][run..];
      ZoneMeaning(zone);
      assert rest == "." + (rest[1..][..run] + rest[1..][run..]);
      assert fraction[1..] == rest[1..][..run];
    } else {
      fraction, zone := "", rest;
      ZoneMeaning(zone);
    }
  }

  lemma ZoneStart(zone: string)
    requires IsZoneText(zone)
    ensures zone != "" ==> !IsDigit(zone[0]) && zone[0] != '.'
  {
    ZoneMeaning(zone);
  }

  lemma FractionReads(fraction: string, zone: string)
    requires IsZoneText(zone)
    requires fraction == "" || (|fraction| > 1 && fraction[0] == '.' && AllDigits(fraction[1..]))
    ensures IsFractionAndZone(fraction + zone)
  {
    ZoneMeaning(zone);
    ZoneStart(zone);
    if fraction == "" {
      assert fraction + zone == zone;
    } else {
      assert (fraction + zone)[1..] == fraction[1..] + zone;
      RunOfDigits(fraction[1..], zone);
    }
  }

  lemma TimeMeaning(text: string)
    ensures IsTimePart(text) <==> WritesTime(text)
  {
    if IsTimePart(text) {
      var fraction, zone := FractionMeaning(text[9..]);
      var h, m, s := text[1..3], text[4..6], text[7..9];
      assert text == "T" + h + ":" + m + ":" + s + text[9..];
      assert IsTimeText(text, h, m, s, fraction, zone);
    }
    if h, m, s, fraction, zone :| IsTimeText(text, h, m, s, fraction, zone) {
      TimeReads(text, h, m, s, fraction, zone);
    }
  }

  lemma TimeReads(text: string, h: string, m: string, s: string, fraction: string, zone: string)
    requires IsTimeText(text, h, m, s, fraction, zone)
    ensures IsTimePart(text)
  {
    FractionReads(fraction, zone);
    assert text[0] == 'T' && text[1..3] == h && text[3] == ':' && text[4..6] == m && text[6] == ':' && text[7..9] == s;
    assert text[9..] == fraction + zone;
  }

  /** Four digits, two and two, with dashes between, and a time behind them or nothing. */
  ghost predicate WritesIsoDate(text: string) {
    exists y, m, d, time :: IsIsoText(text, y, m, d, time)
  }

  ghost predicate IsIsoText(text: string, y: string, m: string, d: string, time: string) {
    && |y| == 4 && AllDigits(y) && IsPair(m) && IsPair(d) && (time == "" || WritesTime(time))
    && text == y + "-" + m + "-" + d + time
  }

  lemma IsoMeaning(text: string)
    ensures IsIsoShape(text) <==> WritesIsoDate(text)
  {
    if IsIsoShape(text) {
      var y, m, d, time := text[..4], text[5..7], text[8..10], text[10..];
      var date := text[..10];
      assert date[..4] == y && date[5..7] == m && date[8..10] == d && date[4] == '-' && date[7] == '-';
      assert text == y + "-" + m + "-" + d + time;
      TimeMeaning(time);
      assert IsIsoText(text, y, m, d, time);
    }
    if y, m, d, time :| IsIsoText(text, y, m, d, time) {
      IsoReads(text, y, m, d, time);
    }
  }

  lemma IsoReads(text: string, y: string, m: string, d: string, time: string)
    requires IsIsoText(text, y, m, d, time)
    ensures IsIsoShape(text)
  {
    DateReads(y, m, d);
    TimeMeaning(time);
    var date := y + "-" + m + "-" + d;
    assert text == date + time && text[..10] == date && text[10..] == time;
  }

  lemma DateReads(y: string, m: string, d: string)
    requires |y| == 4 && AllDigits(y) && IsPair(m) && IsPair(d)
    ensures var date := y + "-" + m + "-" + d;
      |date| == 10 && IsDateShape(date)
  {
    var date := y + "-" + m + "-" + d;
    assert date[..4] == y && date[4] == '-' && date[5..7] == m && date[7] == '-' && date[8..10] == d;
  }

  // ---------------------------------------------------------------- what each type makes of a value

  predicate IsScalar(v: Json) {
    v.JStr? || v.JNum? || v.JBool?
  }

  /** The text a value has: its own, how the language writes the number, or the word for a boolean. */
  predicate HasText(e: Engine, v: Json, text: string) {
    match v
    case JStr(s) => text == s
    case JNum(n) => text == e.textOf(n)
    case JBool(b) => (b && text == "true") || (!b && text == "false")
    case _ => false
  }

  ghost predicate ReadsAsText(e: Engine, v: Json) {
    exists text: string :: HasText(e, v, text)
  }

  lemma TextMeaning(e: Engine, v: Json)
    ensures ReadsAsText(e, v) <==> AsText(e, v).Some?
  {
    if AsText(e, v).Some? {
      assert HasText(e, v, AsText(e, v).value);
    }
  }

  /** A refusal of a text is for what it says, not for being none. */
  lemma TextsAreRead(e: Engine, v: Json, from: DataType, to: DataType, options: seq<string>)
    requires from != to && AsText(e, v).Some?
    ensures ConvertValue(e, v, from, to, options) != Err(NotReadableAsText)
  {
    var text := AsText(e, v).value;
    assert ToNumber(e, text) != Err(NotReadableAsText);
    assert ToDate(e, text) != Err(NotReadableAsText);
  }

  /** Without a change of type a scalar stays and anything else is refused; with one, exactly the values
      without a text are refused as unreadable. */
  lemma TypeMeaning(e: Engine, v: Json, from: DataType, to: DataType, options: seq<string>)
    ensures var r := ConvertValue(e, v, from, to, options);
      && (from == to ==> r == if IsScalar(v) then Ok(v) else Err(NotAScalar))
      && (from != to ==> (r == Err(NotReadableAsText) <==> !ReadsAsText(e, v)))
  {
    TextMeaning(e, v);
    if from != to && AsText(e, v).Some? {
      TextsAreRead(e, v, from, to, options);
    }
  }

  /** A boolean comes of the two words and nothing else, each of its own. */
  lemma ToBooleanMeaning(e: Engine, v: Json, from: DataType, options: seq<string>, text: string)
    requires from != BooleanType && HasText(e, v, text)
    ensures var r := ConvertValue(e, v, from, BooleanType, options);
      && (r == Ok(JBool(true)) <==> text == "true") && (r == Ok(JBool(false)) <==> text == "false")
      && (text != "true" && text != "false" <==> r == Err(NotBoolean))
  {
    assert "true"[0] == 't' && "false"[0] == 'f';
  }

  /** A boolean becomes its word, and comes back. */
  lemma BooleanRoundTrip(e: Engine, b: bool, options: seq<string>)
    ensures ConvertValue(e, JBool(b), BooleanType, StringType, options) == Ok(JStr(if b then "true" else "false"))
    ensures IsReversibleConversion(e, JBool(b), BooleanType, StringType, options)
  {
    assert "true"[0] == 't' && "false"[0] == 'f';
  }

  /** A text type takes every text as it is. An enumeration takes exactly its options, as they are, and says
      whether there are none or the text is not one. */
  lemma ToTextMeaning(e: Engine, v: Json, from: DataType, options: seq<string>, text: string)
    requires HasText(e, v, text)
    ensures from != StringType ==> ConvertValue(e, v, from, StringType, options) == Ok(JStr(text))
    ensures from != EnumType ==>
      var r := ConvertValue(e, v, from, EnumType, options);
      && (text in options <==> r == Ok(JStr(text)))
      && (|options| == 0 <==> r == Err(NoOptions))
      && (|options| > 0 && text !in options <==> r == Err(NotAnOption))
  {
  }

  /** A number comes only of a plain decimal that the language reads as that number; otherwise the refusal says
      whether the text is no decimal, is too large, or is not exactly that number. */
  lemma ToNumberMeaning(e: Engine, v: Json, from: DataType, options: seq<string>, text: string)
    requires from != NumberType && HasText(e, v, text)
    ensures var r := ConvertValue(e, v, from, NumberType, options);
      && (!WritesPlain(text) <==> r == Err(NotPlainDecimal))
      && (WritesPlain(text) && e.numberOf(text) == None <==> r == Err(TooLarge))
      && (WritesPlain(text) && e.numberOf(text).Some? ==>
            r == Ok(JNum(e.numberOf(text).value)) || r == Err(NotExactly(e.numberOf(text).value)))
  {
    PlainMeaning(text);
  }

  /** A date keeps its text. It is refused as no ISO date unless it is written as one and parses, and as rolled
      over exactly when it is and parses but does not exist. */
  lemma ToDateMeaning(e: Engine, v: Json, from: DataType, options: seq<string>, text: string)
    requires from != DateType && HasText(e, v, text) && ParsesDates(e)
    ensures var r := ConvertValue(e, v, from, DateType, options);
      && (r == Err(NotIsoDate) <==> !WritesIsoDate(text) || !e.parses(text))
      && (WritesIsoDate(text) && e.parses(text) ==> r == if WritesRealDate(text) then Ok(JStr(text)) else Err(DateRollsOver))
  {
    IsoMeaning(text);
    if IsIsoShape(text) {
      ReadsBackIffReal(e, text[..10]);
    }
  }

  /** Reversible is: there and back is the same value. */
  lemma ReversibleMeaning(e: Engine, v: Json, from: DataType, to: DataType, options: seq<string>)
    ensures IsReversibleConversion(e, v, from, to, options) <==>
      exists w :: ConvertValue(e, v, from, to, options) == Ok(w) && ConvertValue(e, w, to, from, options) == Ok(v)
  {
    if IsReversibleConversion(e, v, from, to, options) {
      var w := ConvertValue(e, v, from, to, options).value;
      assert ConvertValue(e, v, from, to, options) == Ok(w);
    }
  }
}
