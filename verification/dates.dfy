/**
 * `valid_date_format`: whether `strptime(s, '%Y-%m-%d')` succeeds.
 *
 * strptime turns the format into a pattern that must cover the whole
 * string: `%Y` is exactly four digits, `%m` one or two digits, `%d` one
 * or two digits or a space and a digit, and the two dashes are literal.
 * The fields are then read as numbers and must name a real date.
 */
module DateFormat {
  import opened Calendar

  datatype Option<T> = None | Some(value: T)

  predicate IsDigit(c: char) {
    '0' <= c <= '9'
  }

  predicate AllDigits(t: string) {
    forall i :: 0 <= i < |t| ==> IsDigit(t[i])
  }

  function DigitValue(c: char): nat
    requires IsDigit(c)
  {
    c as int - '0' as int
  }

  function DigitChar(n: nat): char
    requires n < 10
  {
    ('0' as int + n) as char
  }

  /** The value of a decimal numeral, most significant digit first. */
  function NumeralValue(t: string): nat
    requires AllDigits(t)
    decreases |t|
  {
    if |t| == 0 then 0 else 10 * NumeralValue(t[..|t| - 1]) + DigitValue(t[|t| - 1])
  }

  /** The `%m` field: one or two digits. */
  function MonthField(t: string): Option<nat> {
    if 1 <= |t| <= 2 && AllDigits(t) then Some(NumeralValue(t)) else None
  }

  /** The `%d` field: one or two digits, or a space followed by one digit. */
  function DayField(t: string): Option<nat> {
    if 1 <= |t| <= 2 && AllDigits(t) then Some(NumeralValue(t))
    else if |t| == 2 && t[0] == ' ' && IsDigit(t[1]) then Some(DigitValue(t[1]))
    else None
  }

  /**
   * The date `strptime(s, '%Y-%m-%d')` produces, or `None` where it raises
   * `ValueError`. Neither field holds a dash, so the month ends at the
   * first dash after position 5, which must be position 6 or 7.
   */
  function ParseDate(s: string): (date: Option<Date>)
    ensures date.Some? ==> IsCalendarDate(date.value)
    ensures date.Some? ==> 8 <= |s| <= 10 && s[4] == '-'
  {
    if |s| < 8 || s[4] != '-' then None
    else
      var k := if s[6] == '-' then 6 else if s[7] == '-' then 7 else 0;
      if k == 0 then None else ReadFields(s[..4], s[5..k], s[k + 1..])
  }

  /** Reads the three fields as numbers; they must name a real date. */
  function ReadFields(year: string, month: string, day: string): Option<Date> {
    if |year| != 4 || !AllDigits(year) || MonthField(month).None? || DayField(day).None? then None
    else
      var d := Date(NumeralValue(year), MonthField(month).value, DayField(day).value);
      if IsCalendarDate(d) then Some(d) else None
  }

  /** A text laid out as four characters, a dash, a one- or two-digit month and a dash parses field by field. */
  lemma ParseDateSplits(year: string, month: string, day: string)
    requires |year| == 4 && 1 <= |month| <= 2 && AllDigits(month)
    ensures ParseDate(year + "-" + month + "-" + day) == ReadFields(year, month, day)
  {
    var s := year + "-" + month + "-" + day;
    var k := 5 + |month|;
    assert s[4] == '-' && s[k] == '-';
    if |month| == 2 {
      assert s[6] == month[1];
    }
    assert s[..4] == year;
    assert s[5..k] == month;
    assert s[k + 1..] == day;
  }

  /** `n` written with exactly `width` decimal digits, zero-padded on the left. */
  function Digits(n: nat, width: nat): string
    decreases width
  {
    if width == 0 then "" else Digits(n / 10, width - 1) + [DigitChar(n % 10)]
  }

  /** The three ways strptime lets a month or day be written. */
  datatype FieldStyle = Unpadded | ZeroPadded | SpacePadded

  function FieldText(n: nat, style: FieldStyle): string {
    match style
    case Unpadded => Digits(n, 1)
    case ZeroPadded => Digits(n, 2)
    case SpacePadded => " " + Digits(n, 1)
  }

  /** `%m` takes `1`..`9` or `01`..`12`. */
  predicate MonthStyleFits(month: int, style: FieldStyle) {
    style == ZeroPadded || (style == Unpadded && month < 10)
  }

  /** `%d` takes `1`..`9`, ` 1`..` 9` or `01`..`31`. */
  predicate DayStyleFits(day: int, style: FieldStyle) {
    style == ZeroPadded || day < 10
  }

  /** `d` written as `YYYY-M-D` with the given month and day styles. */
  function DateText(d: Date, monthStyle: FieldStyle, dayStyle: FieldStyle): string
    requires IsCalendarDate(d)
  {
    Digits(d.year, 4) + "-" + FieldText(d.month, monthStyle) + "-" + FieldText(d.day, dayStyle)
  }

  lemma {:induction false} DigitsReadBack(n: nat, width: nat)
    ensures |Digits(n, width)| == width && AllDigits(Digits(n, width))
    ensures width <= 4 && n < Pow10(width) ==> NumeralValue(Digits(n, width)) == n
    decreases width
  {
    if width > 0 {
      DigitsReadBack(n / 10, width - 1);
      var t := Digits(n, width);
      assert t[..|t| - 1] == Digits(n / 10, width - 1);
    }
  }

  function Pow10(k: nat): nat {
    if k == 0 then 1 else 10 * Pow10(k - 1)
  }

  lemma {:induction false} NumeralWritesBack(t: string)
    requires AllDigits(t)
    ensures NumeralValue(t) < Pow10(|t|)
    ensures Digits(NumeralValue(t), |t|) == t
    decreases |t|
  {
    if |t| > 0 {
      var init := t[..|t| - 1];
      NumeralWritesBack(init);
      var n := NumeralValue(t);
      assert n / 10 == NumeralValue(init) && n % 10 == DigitValue(t[|t| - 1]);
      assert t == init + [t[|t| - 1]];
    }
  }

  /** Every date written in any style strptime accepts parses back to itself. */
  lemma ParseDateComplete(d: Date, monthStyle: FieldStyle, dayStyle: FieldStyle)
    requires IsCalendarDate(d) && MonthStyleFits(d.month, monthStyle) && DayStyleFits(d.day, dayStyle)
    ensures ParseDate(DateText(d, monthStyle, dayStyle)) == Some(d)
  {
    var y, m, dd := Digits(d.year, 4), FieldText(d.month, monthStyle), FieldText(d.day, dayStyle);
    DigitsReadBack(d.year, 4);
    MonthTextReadsBack(d.month, monthStyle);
    DayTextReadsBack(d.day, dayStyle);
    ParseDateSplits(y, m, dd);
  }

  lemma MonthTextReadsBack(month: int, style: FieldStyle)
    requires 1 <= month <= 12 && MonthStyleFits(month, style)
    ensures 1 <= |FieldText(month, style)| <= 2 && AllDigits(FieldText(month, style))
    ensures MonthField(FieldText(month, style)) == Some(month)
  {
    DigitsReadBack(month, 1);
    DigitsReadBack(month, 2);
  }

  lemma DayTextReadsBack(day: int, style: FieldStyle)
    requires 1 <= day <= 31 && DayStyleFits(day, style)
    ensures DayField(FieldText(day, style)) == Some(day)
  {
    DigitsReadBack(day, 1);
    DigitsReadBack(day, 2);
    if style == SpacePadded {
      var t := FieldText(day, style);
      assert t[1] == Digits(day, 1)[0];
      assert !IsDigit(t[0]);
    }
  }

  /** Whatever parses is a real date, written in one of the accepted styles. */
  lemma ParseDateSound(s: string)
    requires ParseDate(s).Some?
    ensures IsCalendarDate(ParseDate(s).value)
    ensures exists monthStyle, dayStyle ::
      && MonthStyleFits(ParseDate(s).value.month, monthStyle)
      && DayStyleFits(ParseDate(s).value.day, dayStyle)
      && s == DateText(ParseDate(s).value, monthStyle, dayStyle)
  {
    var d := ParseDate(s).value;
    var k := if s[6] == '-' then 6 else 7;
    var y, m, dd := s[..4], s[5..k], s[k + 1..];
    assert s == y + "-" + m + "-" + dd;
    assert ReadFields(y, m, dd) == Some(d);
    NumeralWritesBack(y);
    NumeralWritesBack(m);
    var monthStyle := if |m| == 1 then Unpadded else ZeroPadded;
    var dayStyle := DayStyleOf(dd);
    DayStyleOfWritesBack(dd);
    assert FieldText(d.month, monthStyle) == m;
    assert s == DateText(d, monthStyle, dayStyle);
  }

  /** The style a `%d` field was written in. */
  function DayStyleOf(t: string): FieldStyle
    requires DayField(t).Some?
  {
    if AllDigits(t) then (if |t| == 1 then Unpadded else ZeroPadded) else SpacePadded
  }

  /** Writing the day back in the style it was read in gives the same text. */
  lemma DayStyleOfWritesBack(t: string)
    requires DayField(t).Some?
    ensures DayStyleFits(DayField(t).value, DayStyleOf(t))
    ensures FieldText(DayField(t).value, DayStyleOf(t)) == t
  {
    if AllDigits(t) {
      NumeralWritesBack(t);
      assert Pow10(1) == 10;
    } else {
      SpacePaddedWritesBack(t);
    }
  }

  lemma SpacePaddedWritesBack(t: string)
    requires |t| == 2 && t[0] == ' ' && IsDigit(t[1])
    ensures DigitValue(t[1]) < 10
    ensures FieldText(DigitValue(t[1]), SpacePadded) == t
  {
    var c := t[1];
    NumeralWritesBack([c]);
    assert [c][..0] == [];
    assert NumeralValue([c]) == DigitValue(c);
    assert t == " " + [c];
  }

  /**
   * `valid_date_format`: true exactly for the texts of real dates in
   * the styles strptime accepts, and false for anything else, with no
   * text allowed after the day.
   */
  function ValidDateFormat(s: string): (ok: bool)
    ensures ok <==> exists d, monthStyle, dayStyle ::
      && IsCalendarDate(d)
      && MonthStyleFits(d.month, monthStyle)
      && DayStyleFits(d.day, dayStyle)
      && s == DateText(d, monthStyle, dayStyle)
  {
    ParseDateExact(s);
    ParseDate(s).Some?
  }

  lemma ParseDateExact(s: string)
    ensures ParseDate(s).Some? <==> exists d, monthStyle, dayStyle ::
      && IsCalendarDate(d)
      && MonthStyleFits(d.month, monthStyle)
      && DayStyleFits(d.day, dayStyle)
      && s == DateText(d, monthStyle, dayStyle)
  {
    if ParseDate(s).Some? {
      ParseDateSound(s);
    }
    forall d, monthStyle, dayStyle |
      && IsCalendarDate(d)
      && MonthStyleFits(d.month, monthStyle)
      && DayStyleFits(d.day, dayStyle)
      && s == DateText(d, monthStyle, dayStyle)
      ensures ParseDate(s).Some?
    {
      ParseDateComplete(d, monthStyle, dayStyle);
    }
  }

  lemma NumeralValueSmall(t: string)
    requires AllDigits(t) && 1 <= |t| <= 4
    ensures |t| == 1 ==> NumeralValue(t) == DigitValue(t[0])
    ensures |t| == 2 ==> NumeralValue(t) == 10 * DigitValue(t[0]) + DigitValue(t[1])
    ensures |t| == 4 ==>
      NumeralValue(t) == 1000 * DigitValue(t[0]) + 100 * DigitValue(t[1]) + 10 * DigitValue(t[2]) + DigitValue(t[3])
  {
    assert t[..|t| - 1][..0] == [];
    if |t| >= 2 {
      assert t[..|t| - 1][..|t| - 2] == t[..|t| - 2];
    }
    if |t| == 4 {
      assert t[..3][..2] == t[..2];
      assert t[..2][..1] == t[..1];
      assert t[..1][..0] == [];
    }
  }

  /** 2012 is a leap year, so 29 February 2012 exists. */
  lemma LeapDayAccepted()
    ensures ValidDateFormat("2012-02-29")
  {
    NumeralValueSmall("2012");
    NumeralValueSmall("02");
    NumeralValueSmall("29");
    ReadsAs("2012", "02", "29", 2012, 2, 29);
    assert "2012" + "-" + "02" + "-" + "29" == "2012-02-29";
  }

  /** 2013 is not a leap year. */
  lemma MissingLeapDayRejected()
    ensures !ValidDateFormat("2013-02-29")
  {
    NumeralValueSmall("2013");
    NumeralValueSmall("02");
    NumeralValueSmall("29");
    ReadsAs("2013", "02", "29", 2013, 2, 29);
    assert "2013" + "-" + "02" + "-" + "29" == "2013-02-29";
  }

  lemma ThirtiethOfFebruaryRejected()
    ensures !ValidDateFormat("2014-02-30")
  {
    NumeralValueSmall("2014");
    NumeralValueSmall("02");
    NumeralValueSmall("30");
    ReadsAs("2014", "02", "30", 2014, 2, 30);
    assert "2014" + "-" + "02" + "-" + "30" == "2014-02-30";
  }

  /** `datetime` has no year 0. */
  lemma YearZeroRejected()
    ensures !ValidDateFormat("0000-01-01")
  {
    NumeralValueSmall("0000");
    NumeralValueSmall("01");
    ReadsAs("0000", "01", "01", 0, 1, 1);
    assert "0000" + "-" + "01" + "-" + "01" == "0000-01-01";
  }

  /** The whole text must be used: a character after the day fails. */
  lemma TrailingTextRejected()
    ensures !ValidDateFormat("2014-01-01x")
  {
    ParseDateSplits("2014", "01", "01x");
    assert "2014" + "-" + "01" + "-" + "01x" == "2014-01-01x";
  }

  /** One-digit months and days are accepted. */
  lemma UnpaddedFieldsAccepted()
    ensures ValidDateFormat("2014-1-5")
  {
    NumeralValueSmall("2014");
    NumeralValueSmall("1");
    NumeralValueSmall("5");
    ReadsAs("2014", "1", "5", 2014, 1, 5);
    assert "2014" + "-" + "1" + "-" + "5" == "2014-1-5";
  }

  /** strptime's `%d` also takes a space before a one-digit day. */
  lemma SpacePaddedDayAccepted()
    ensures ValidDateFormat("2014-01- 5")
  {
    NumeralValueSmall("2014");
    NumeralValueSmall("01");
    assert !IsDigit(" 5"[0]);
    ReadsAs("2014", "01", " 5", 2014, 1, 5);
    assert "2014" + "-" + "01" + "-" + " 5" == "2014-01- 5";
  }

  /** A month of three digits is not a month. */
  lemma ThreeDigitMonthRejected()
    ensures !ValidDateFormat("2014-001-05")
  {
    assert "2014-001-05"[6] != '-' && "2014-001-05"[7] != '-';
  }

  /** Helper for the examples: the text `year-month-day` reads as these three numbers. */
  lemma ReadsAs(year: string, month: string, day: string, y: int, m: int, d: int)
    requires |year| == 4 && AllDigits(year) && 1 <= |month| <= 2 && AllDigits(month) && 1 <= |day| <= 2
    requires NumeralValue(year) == y && NumeralValue(month) == m
    requires DayField(day) == Some(d)
    ensures ParseDate(year + "-" + month + "-" + day) ==
      if IsCalendarDate(Date(y, m, d)) then Some(Date(y, m, d)) else None
  {
    ParseDateSplits(year, month, day);
  }
}
