/**
 The one timestamp layout the interval engine understands, Go's reference
 layout "2006-01-02 15:04:05": a four-digit year, two-digit month, day,
 24-hour hour, minute and second, no zone and no fraction. The instants are
 counted in whole seconds from 0000-01-01 00:00:00 of the proleptic
 Gregorian calendar; only differences of such counts are ever used.
 */
module Timestamp {
  import opened Decimal
  import opened Results

  datatype DateTime = DateTime(year: nat, month: nat, day: nat, hour: nat, minute: nat, second: nat)

  const Layout: string := "2006-01-02 15:04:05"

  predicate IsLeap(year: nat) {
    year % 4 == 0 && (year % 100 != 0 || year % 400 == 0)
  }

  function DaysInYear(year: nat): (n: nat) {
    if IsLeap(year) then 366 else 365
  }

  function DaysIn(month: nat, year: nat): (n: nat)
    requires 1 <= month <= 12
  {
    if month == 2 then (if IsLeap(year) then 29 else 28)
    else if month in {4, 6, 9, 11} then 30
    else 31
  }

  /** Days of `year` that lie before the first of `month` (13 meaning the next year). */
  function DaysBeforeMonth(year: nat, month: nat): (n: nat)
    requires 1 <= month <= 13
  {
    var common := [0, 31, 59, 90, 120, 151, 181, 212, 243, 273, 304, 334, 365][month - 1];
    if month > 2 && IsLeap(year) then common + 1 else common
  }

  function DaysBeforeYear(year: nat): (n: nat) {
    if year == 0 then 0 else DaysBeforeYear(year - 1) + DaysInYear(year - 1)
  }

  /** What Go's time.Parse checks once the digits are read: month, day-of-month and clock ranges. */
  predicate Valid(t: DateTime) {
    && t.year < 10000
    && 1 <= t.month <= 12
    && 1 <= t.day <= DaysIn(t.month, t.year)
    && t.hour < 24
    && t.minute < 60
    && t.second < 60
  }

  /** Seconds elapsed from 0000-01-01 00:00:00 to `t`. */
  function Seconds(t: DateTime): (n: int)
    requires Valid(t)
  {
    (DaysBeforeYear(t.year) + DaysBeforeMonth(t.year, t.month) + t.day - 1) * 86400
    + t.hour * 3600 + t.minute * 60 + t.second
  }

  /** The character positions of the layout that hold digits rather than separators. */
  predicate WellShaped(s: string) {
    && |s| == |Layout|
    && s[4] == '-' && s[7] == '-' && s[10] == ' ' && s[13] == ':' && s[16] == ':'
    && AllDigits(s[0..4]) && AllDigits(s[5..7]) && AllDigits(s[8..10])
    && AllDigits(s[11..13]) && AllDigits(s[14..16]) && AllDigits(s[17..19])
  }

  function Fields(s: string): (t: DateTime)
    requires WellShaped(s)
  {
    DateTime(DecimalValue(s[0..4]), DecimalValue(s[5..7]), DecimalValue(s[8..10]),
             DecimalValue(s[11..13]), DecimalValue(s[14..16]), DecimalValue(s[17..19]))
  }

  /** Parse `s` under the layout; None for a shape mismatch or a field out of range. */
  function Parse(s: string): (r: Option<DateTime>)
    ensures r.Some? ==> Valid(r.value)
  {
    if WellShaped(s) && Valid(Fields(s)) then Some(Fields(s)) else None
  }

  /** Render a date-time under the layout, zero-padding every field. */
  function Format(t: DateTime): (s: string)
    ensures |s| == |Layout|
  {
    PadDigits(t.year, 4) + "-" + PadDigits(t.month, 2) + "-" + PadDigits(t.day, 2) + " "
    + PadDigits(t.hour, 2) + ":" + PadDigits(t.minute, 2) + ":" + PadDigits(t.second, 2)
  }

  /** Every instant the layout can express is read back from its own rendering. */
  lemma ParseFormat(t: DateTime)
    requires Valid(t)
    ensures Parse(Format(t)) == Some(t)
  {
    var s := Format(t);
    assert s[0..4] == PadDigits(t.year, 4);
    assert s[5..7] == PadDigits(t.month, 2);
    assert s[8..10] == PadDigits(t.day, 2);
    assert s[11..13] == PadDigits(t.hour, 2);
    assert s[14..16] == PadDigits(t.minute, 2);
    assert s[17..19] == PadDigits(t.second, 2);
    PadDigitsValue(t.year, 4);
    PadDigitsValue(t.month, 2);
    PadDigitsValue(t.day, 2);
    PadDigitsValue(t.hour, 2);
    PadDigitsValue(t.minute, 2);
    PadDigitsValue(t.second, 2);
    assert WellShaped(s);
    assert Fields(s) == t;
  }

  /** The layout is rigid: a string that parses is exactly the rendering of what it parses to. */
  lemma FormatParse(s: string)
    requires Parse(s).Some?
    ensures Format(Parse(s).value) == s
  {
    ValuePadDigits(s[0..4]);
    ValuePadDigits(s[5..7]);
    ValuePadDigits(s[8..10]);
    ValuePadDigits(s[11..13]);
    ValuePadDigits(s[14..16]);
    ValuePadDigits(s[17..19]);
    Reassemble(s);
  }

  /** A string of the layout's shape is its digit groups joined by the layout's separators. */
  lemma Reassemble(s: string)
    requires WellShaped(s)
    ensures s == s[0..4] + "-" + s[5..7] + "-" + s[8..10] + " " + s[11..13] + ":" + s[14..16] + ":" + s[17..19]
  {
    assert s == s[0..4] + [s[4]] + s[5..7] + [s[7]] + s[8..10] + [s[10]]
      + s[11..13] + [s[13]] + s[14..16] + [s[16]] + s[17..19];
  }

  /** A string that ends in anything but a digit is never a timestamp. */
  lemma NonDigitEndRejected(s: string)
    requires s != [] && !IsDigit(s[|s| - 1])
    ensures Parse(s) == None
  {
  }

  /** Chronological order of two instants: the fields compared from year down to second. */
  predicate Before(a: DateTime, b: DateTime) {
    || a.year < b.year
    || (a.year == b.year && a.month < b.month)
    || (a.year == b.year && a.month == b.month && a.day < b.day)
    || (a.year == b.year && a.month == b.month && a.day == b.day && a.hour < b.hour)
    || (a.year == b.year && a.month == b.month && a.day == b.day && a.hour == b.hour
        && a.minute < b.minute)
    || (a.year == b.year && a.month == b.month && a.day == b.day && a.hour == b.hour
        && a.minute == b.minute && a.second < b.second)
  }

  lemma DaysBeforeNextMonth(year: nat, month: nat)
    requires 1 <= month <= 12
    ensures DaysBeforeMonth(year, month + 1) == DaysBeforeMonth(year, month) + DaysIn(month, year)
  {
  }

  lemma {:induction false} DaysBeforeMonthMonotone(year: nat, m1: nat, m2: nat)
    requires 1 <= m1 <= m2 <= 13
    ensures DaysBeforeMonth(year, m1) <= DaysBeforeMonth(year, m2)
    decreases m2 - m1
  {
    if m1 < m2 {
      DaysBeforeNextMonth(year, m1);
      DaysBeforeMonthMonotone(year, m1 + 1, m2);
    }
  }

  lemma {:induction false} DaysBeforeYearMonotone(y1: nat, y2: nat)
    requires y1 <= y2
    ensures DaysBeforeYear(y1) <= DaysBeforeYear(y2)
    decreases y2 - y1
  {
    if y1 < y2 {
      DaysBeforeYearMonotone(y1, y2 - 1);
    }
  }

  /** The whole days of `t`'s date before `t` stay inside its year. */
  lemma DayOfYearBound(t: DateTime)
    requires Valid(t)
    ensures DaysBeforeMonth(t.year, t.month) + t.day - 1 < DaysInYear(t.year)
  {
    DaysBeforeNextMonth(t.year, t.month);
    DaysBeforeMonthMonotone(t.year, t.month + 1, 13);
  }

  /** Counting seconds preserves chronological order. */
  lemma BeforeSeconds(a: DateTime, b: DateTime)
    requires Valid(a) && Valid(b) && Before(a, b)
    ensures Seconds(a) < Seconds(b)
  {
    var da := DaysBeforeYear(a.year) + DaysBeforeMonth(a.year, a.month) + a.day - 1;
    var db := DaysBeforeYear(b.year) + DaysBeforeMonth(b.year, b.month) + b.day - 1;
    if a.year < b.year {
      DayOfYearBound(a);
      DaysBeforeYearMonotone(a.year + 1, b.year);
      assert da < db;
    } else if a.month < b.month {
      assert a.day - 1 < DaysIn(a.month, a.year);
      DaysBeforeNextMonth(a.year, a.month);
      DaysBeforeMonthMonotone(a.year, a.month + 1, b.month);
      assert da < db;
    }
  }

  /** The calendar second after `t`: the clock carries into the minute, hour, day, month and year. */
  function Tick(t: DateTime): (n: DateTime)
    requires Valid(t)
    ensures Before(t, n)
  {
    if t.second < 59 then t.(second := t.second + 1)
    else if t.minute < 59 then t.(minute := t.minute + 1, second := 0)
    else if t.hour < 23 then t.(hour := t.hour + 1, minute := 0, second := 0)
    else if t.day < DaysIn(t.month, t.year) then t.(day := t.day + 1, hour := 0, minute := 0, second := 0)
    else if t.month < 12 then DateTime(t.year, t.month + 1, 1, 0, 0, 0)
    else DateTime(t.year + 1, 1, 1, 0, 0, 0)
  }

  /** The count is elapsed time: the next calendar second lies exactly one second further on. */
  lemma TickSeconds(t: DateTime)
    requires Valid(t) && Valid(Tick(t))
    ensures Seconds(Tick(t)) == Seconds(t) + 1
  {
    if t.second == 59 && t.minute == 59 && t.hour == 23 && t.day == DaysIn(t.month, t.year) {
      DaysBeforeNextMonth(t.year, t.month);
      if t.month == 12 {
        assert DaysBeforeMonth(t.year, 13) == DaysInYear(t.year);
        assert DaysBeforeYear(t.year + 1) == DaysBeforeYear(t.year) + DaysInYear(t.year);
      }
    }
  }

  /** The elapsed seconds are positive exactly when the first instant comes first. */
  lemma SecondsOrder(a: DateTime, b: DateTime)
    requires Valid(a) && Valid(b)
    ensures Seconds(a) < Seconds(b) <==> Before(a, b)
    ensures Seconds(a) == Seconds(b) <==> a == b
  {
    if Before(a, b) {
      BeforeSeconds(a, b);
    } else if Before(b, a) {
      BeforeSeconds(b, a);
    } else {
      assert a == b;
    }
  }
}
