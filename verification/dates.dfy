/**
 * Calendar dates as `add_expense` checks them with
 * `datetime.strptime(date, "%Y-%m-%d")`, and the zero-padded digit shape of
 * the `full-date` form of section 5.6 of RFC 3339, under which text order is
 * date order.
 */
module Dates {
  import opened Wrappers
  import opened TextOrder

  datatype Date = Date(year: int, month: int, day: int)

  /** The Gregorian leap-year rule. */
  predicate IsLeapYear(y: int) {
    y % 4 == 0 && (y % 100 != 0 || y % 400 == 0)
  }

  function DaysInMonth(y: int, m: int): int
    requires 1 <= m <= 12
  {
    if m == 2 then (if IsLeapYear(y) then 29 else 28)
    else if m == 4 || m == 6 || m == 9 || m == 11 then 30
    else 31
  }

  /** A date Python's `datetime.date` accepts: years 1 to 9999, real month lengths. */
  predicate IsCalendarDate(d: Date) {
    1 <= d.year <= 9999 && 1 <= d.month <= 12 && 1 <= d.day <= DaysInMonth(d.year, d.month)
  }

  /** Chronological order of dates. */
  predicate DateLe(x: Date, y: Date) {
    x.year < y.year || (x.year == y.year && (x.month < y.month || (x.month == y.month && x.day <= y.day)))
  }

  // ---------------------------------------------------------------------------
  // The `%Y-%m-%d` pattern of Python's `_strptime`.
  // ---------------------------------------------------------------------------

  /** `%Y`: exactly four digits. */
  function YearField(t: string): Option<int> {
    if |t| == 4 && AllDigits(t) then Some(Num(t)) else None
  }

  /** `%m`: the alternatives `1[0-2]`, `0[1-9]` and `[1-9]`. */
  function MonthField(t: string): Option<int> {
    if |t| == 2 && t[0] == '1' && '0' <= t[1] <= '2' then Some(10 + DigitValue(t[1]))
    else if |t| == 2 && t[0] == '0' && '1' <= t[1] <= '9' then Some(DigitValue(t[1]))
    else if |t| == 1 && '1' <= t[0] <= '9' then Some(DigitValue(t[0]))
    else None
  }

  /** `%d`: the alternatives `3[01]`, `[12]\d`, `0[1-9]`, `[1-9]` and ` [1-9]`. */
  function DayField(t: string): Option<int> {
    if |t| == 2 && t[0] == '3' && '0' <= t[1] <= '1' then Some(30 + DigitValue(t[1]))
    else if |t| == 2 && '1' <= t[0] <= '2' && IsDigit(t[1]) then Some(10 * DigitValue(t[0]) + DigitValue(t[1]))
    else if |t| == 2 && t[0] == '0' && '1' <= t[1] <= '9' then Some(DigitValue(t[1]))
    else if |t| == 1 && '1' <= t[0] <= '9' then Some(DigitValue(t[0]))
    else if |t| == 2 && t[0] == ' ' && '1' <= t[1] <= '9' then Some(DigitValue(t[1]))
    else None
  }

  /**
   * Cuts `s` into the texts of the three directives. The year is four
   * characters; the month text ends at the second `-`, one or two characters
   * later (no month alternative contains a `-`); the day text is everything
   * after it, since the pattern must match the whole input.
   */
  function SplitFields(s: string): Option<(string, string, string)> {
    if |s| >= 7 && s[4] == '-' && s[6] == '-' then Some((s[..4], s[5..6], s[7..]))
    else if |s| >= 8 && s[4] == '-' && s[7] == '-' then Some((s[..4], s[5..7], s[8..]))
    else None
  }

  /**
   * The date `datetime.strptime(s, "%Y-%m-%d")` returns, or `None` where it
   * raises `ValueError`: the text does not match the pattern, or the numbers
   * do not form a date.
   */
  function ParseDate(s: string): Option<Date> {
    match SplitFields(s)
    case None => None
    case Some((yt, mt, dt)) =>
      match (YearField(yt), MonthField(mt), DayField(dt))
      case (Some(y), Some(m), Some(d)) =>
        if IsCalendarDate(Date(y, m, d)) then Some(Date(y, m, d)) else None
      case _ => None
  }

  // ---------------------------------------------------------------------------
  // An independent description of the accepted texts.
  // ---------------------------------------------------------------------------

  /** The month texts `%m` reads as `m`: two digits, or one digit below 10. */
  predicate SpellsMonth(t: string, m: int) {
    (1 <= m <= 12 && t == Pad(m, 2)) || (1 <= m <= 9 && t == [DigitChar(m)])
  }

  /** The day texts `%d` reads as `d`: two digits, or one digit below 10 with or without a leading space. */
  predicate SpellsDay(t: string, d: int) {
    (1 <= d <= 31 && t == Pad(d, 2)) || (1 <= d <= 9 && (t == [DigitChar(d)] || t == [' ', DigitChar(d)]))
  }

  /** `s` is a four-digit year, a `-`, a spelling of the month, a `-` and a spelling of the day. */
  ghost predicate Spells(s: string, d: Date) {
    0 <= d.year < 10000 &&
    exists mt, dt :: SpellsMonth(mt, d.month) && SpellsDay(dt, d.day) && s == Pad(d.year, 4) + "-" + mt + "-" + dt
  }

  /** `add_expense` accepts the date text `s`. */
  ghost predicate IsAcceptedDate(s: string) {
    exists d :: IsCalendarDate(d) && Spells(s, d)
  }

  lemma MonthFieldSpells(t: string)
    requires MonthField(t).Some?
    ensures SpellsMonth(t, MonthField(t).value)
  {
    var m := MonthField(t).value;
    if |t| == 2 {
      Pad2(m);
      DigitCharOfValue(t[1]);
    } else {
      DigitCharOfValue(t[0]);
    }
  }

  lemma DayFieldSpells(t: string)
    requires DayField(t).Some?
    ensures SpellsDay(t, DayField(t).value)
  {
    var d := DayField(t).value;
    if |t| == 2 {
      Pad2(d);
      DigitCharOfValue(t[1]);
      if IsDigit(t[0]) {
        DigitCharOfValue(t[0]);
      }
    } else {
      DigitCharOfValue(t[0]);
    }
  }

  lemma SpelledMonthField(t: string, m: int)
    requires SpellsMonth(t, m)
    ensures MonthField(t) == Some(m)
  {
    if t == Pad(m, 2) {
      Pad2(m);
    }
  }

  lemma SpelledDayField(t: string, d: int)
    requires SpellsDay(t, d)
    ensures DayField(t) == Some(d)
  {
    if t == Pad(d, 2) {
      Pad2(d);
    }
  }

  /** What `ParseDate` returns is a calendar date that the text spells. */
  lemma ParseDateSound(s: string)
    requires ParseDate(s).Some?
    ensures IsCalendarDate(ParseDate(s).value) && Spells(s, ParseDate(s).value)
  {
    var d := ParseDate(s).value;
    var (yt, mt, dt) := SplitFields(s).value;
    PadNum(yt);
    MonthFieldSpells(mt);
    DayFieldSpells(dt);
    if s[6] == '-' {
      assert s == s[..4] + "-" + s[5..6] + "-" + s[7..];
    } else {
      assert s == s[..4] + "-" + s[5..7] + "-" + s[8..];
    }
    assert SpellsMonth(mt, d.month) && SpellsDay(dt, d.day) && s == Pad(d.year, 4) + "-" + mt + "-" + dt;
  }

  /** Every spelling of a calendar date is parsed back to that date. */
  lemma ParseDateComplete(s: string, d: Date)
    requires IsCalendarDate(d) && Spells(s, d)
    ensures ParseDate(s) == Some(d)
  {
    var mt, dt :| SpellsMonth(mt, d.month) && SpellsDay(dt, d.day) && s == Pad(d.year, 4) + "-" + mt + "-" + dt;
    var yt := Pad(d.year, 4);
    NumPad(d.year, 4);
    SpelledMonthField(mt, d.month);
    SpelledDayField(dt, d.day);
    if |mt| == 1 {
      assert s[..4] == yt && s[4] == '-' && s[5..6] == mt && s[6] == '-' && s[7..] == dt;
    } else {
      if mt == Pad(d.month, 2) {
        Pad2(d.month);
      }
      assert s[..4] == yt && s[4] == '-' && s[5..7] == mt && s[6] == mt[1] && s[7] == '-' && s[8..] == dt;
    }
  }

  /**
   * `add_expense` accepts exactly the spellings of real calendar dates, and
   * reads each back as the date it spells.
   */
  lemma ParseDateExact(s: string, d: Date)
    ensures ParseDate(s) == Some(d) <==> IsCalendarDate(d) && Spells(s, d)
  {
    if ParseDate(s) == Some(d) {
      ParseDateSound(s);
    }
    if IsCalendarDate(d) && Spells(s, d) {
      ParseDateComplete(s, d);
    }
  }

  /** A text is rejected exactly when it spells no calendar date. */
  lemma ParseDateAccepts(s: string)
    ensures ParseDate(s).Some? <==> IsAcceptedDate(s)
  {
    if ParseDate(s).Some? {
      ParseDateSound(s);
    }
    if IsAcceptedDate(s) {
      var d :| IsCalendarDate(d) && Spells(s, d);
      ParseDateComplete(s, d);
    }
  }

  // ---------------------------------------------------------------------------
  // The zero-padded digit shape of `full-date`.
  // ---------------------------------------------------------------------------

  /**
   * The digit shape of `full-date` (section 5.6 of RFC 3339): `YYYY-MM-DD`
   * with every field zero-padded. Only the shape is checked, so `2024-99-99`
   * qualifies; whether the fields form a date is `IsCalendarDate`.
   */
  predicate IsFullDate(s: string) {
    |s| == 10 && AllDigits(s[..4]) && s[4] == '-' && AllDigits(s[5..7]) && s[7] == '-' && AllDigits(s[8..])
  }

  /** The numbers written in the three fields of a `full-date` text. */
  function FieldsOf(s: string): Date
    requires IsFullDate(s)
  {
    Date(Num(s[..4]), Num(s[5..7]), Num(s[8..]))
  }

  function FormatDate(d: Date): string
    requires 0 <= d.year && 0 <= d.month && 0 <= d.day
  {
    Pad(d.year, 4) + "-" + Pad(d.month, 2) + "-" + Pad(d.day, 2)
  }

  /**
   * Every calendar date has a `full-date` spelling; it is accepted and read
   * back as the same date.
   */
  lemma FormatDateRoundTrip(d: Date)
    requires IsCalendarDate(d)
    ensures IsFullDate(FormatDate(d)) && FieldsOf(FormatDate(d)) == d
    ensures ParseDate(FormatDate(d)) == Some(d)
  {
    var s := FormatDate(d);
    assert s[..4] == Pad(d.year, 4) && s[5..7] == Pad(d.month, 2) && s[8..] == Pad(d.day, 2);
    NumPad(d.year, 4);
    NumPad(d.month, 2);
    NumPad(d.day, 2);
    assert SpellsMonth(Pad(d.month, 2), d.month) && SpellsDay(Pad(d.day, 2), d.day);
    ParseDateComplete(s, d);
  }

  lemma TwoDigitNum(t: string)
    requires |t| == 2 && AllDigits(t)
    ensures Num(t) == 10 * DigitValue(t[0]) + DigitValue(t[1])
  {
    assert t[..1][..0] == [];
    assert Num(t[..1]) == DigitValue(t[0]);
  }

  lemma TwoDigitMonth(t: string)
    requires |t| == 2 && AllDigits(t)
    ensures MonthField(t) == if 1 <= Num(t) <= 12 then Some(Num(t)) else None
  {
    TwoDigitNum(t);
  }

  lemma TwoDigitDay(t: string)
    requires |t| == 2 && AllDigits(t)
    ensures DayField(t) == if 1 <= Num(t) <= 31 then Some(Num(t)) else None
  {
    TwoDigitNum(t);
  }

  /**
   * A `full-date` text is accepted exactly when its fields form a calendar
   * date, and is then read as those fields.
   */
  lemma FullDateParse(s: string)
    requires IsFullDate(s)
    ensures ParseDate(s) == if IsCalendarDate(FieldsOf(s)) then Some(FieldsOf(s)) else None
  {
    assert s[6] == s[5..7][1];
    assert SplitFields(s) == Some((s[..4], s[5..7], s[8..]));
    TwoDigitMonth(s[5..7]);
    TwoDigitDay(s[8..]);
  }

  /**
   * On `full-date` texts, text order (what SQLite's `BETWEEN` compares) is
   * chronological order of the fields.
   */
  lemma FullDateOrder(a: string, b: string)
    requires IsFullDate(a) && IsFullDate(b)
    ensures LexLe(a, b) <==> DateLe(FieldsOf(a), FieldsOf(b))
  {
    assert a[0..] == a && b[0..] == b;
    LexLeSplitAt(a, b, 0, 4);
    LexLeSplitAt(a, b, 4, 5);
    LexLeSplitAt(a, b, 5, 7);
    LexLeSplitAt(a, b, 7, 8);
    assert a[..4] == a[0..4] && b[..4] == b[0..4];
    assert a[4..5] == "-" == b[4..5] && a[7..8] == "-" == b[7..8];
    DigitsLess(a[..4], b[..4]);
    DigitsLess(a[5..7], b[5..7]);
    DigitsOrder(a[8..], b[8..]);
    DigitsLess(a[8..], b[8..]);
  }

  /** A `full-date` text, read digit by digit. */
  lemma FullDateDigits(s: string)
    requires IsFullDate(s)
    ensures FieldsOf(s) == Date(
      1000 * DigitValue(s[0]) + 100 * DigitValue(s[1]) + 10 * DigitValue(s[2]) + DigitValue(s[3]),
      10 * DigitValue(s[5]) + DigitValue(s[6]),
      10 * DigitValue(s[8]) + DigitValue(s[9]))
    ensures ParseDate(s) == if IsCalendarDate(FieldsOf(s)) then Some(FieldsOf(s)) else None
  {
    FourDigitNum(s[..4]);
    TwoDigitNum(s[5..7]);
    TwoDigitNum(s[8..]);
    FullDateParse(s);
  }

  /** Impossible dates are rejected: month 13, February 29 outside leap years, April 31, year 0. */
  lemma RejectsImpossibleDates()
    ensures ParseDate("2024-13-40") == None
    ensures ParseDate("2023-02-29") == None
    ensures ParseDate("1900-02-29") == None
    ensures ParseDate("2024-04-31") == None
    ensures ParseDate("0000-01-01") == None
  {
    FullDateDigits("2024-13-40");
    FullDateDigits("2023-02-29");
    FullDateDigits("1900-02-29");
    FullDateDigits("2024-04-31");
    FullDateDigits("0000-01-01");
  }

  /** February 29 is accepted in leap years, including the 400-year exception. */
  lemma AcceptsLeapDays()
    ensures ParseDate("2024-02-29") == Some(Date(2024, 2, 29))
    ensures ParseDate("2000-02-29") == Some(Date(2000, 2, 29))
  {
    FullDateDigits("2024-02-29");
    FullDateDigits("2000-02-29");
  }

  /**
   * `strptime` also accepts one-digit months and days and a space before a
   * one-digit day, but no trailing text.
   */
  lemma LooseSpellings()
    ensures ParseDate("2024-1-5") == Some(Date(2024, 1, 5))
    ensures ParseDate("2024-01- 5") == Some(Date(2024, 1, 5))
    ensures ParseDate("2024-01-15 ") == None
  {
    FourDigitNum("2024");
    var a, b, c := "2024-1-5", "2024-01- 5", "2024-01-15 ";
    assert a[..4] == "2024" && a[5..6] == "1" && a[7..] == "5";
    assert b[..4] == "2024" && b[5..7] == "01" && b[8..] == " 5";
    assert c[..4] == "2024" && c[5..7] == "01" && c[8..] == "15 ";
  }
}
