/** `timestamp_to_epoch`: the timestamp captured by every grammar, read month first as
    `%m/%d/%Y - %H:%M:%S` in the proleptic Gregorian calendar with no time zone, and
    turned into seconds since 1970-01-01 00:00:00. An out-of-range field makes the
    parse fail, which the source turns into a panic with `unwrap`. */
module Utils {
  import opened Common
  import opened Decimal

  /** A date and time as the parse yields it; `second` is already folded to at most 59
      (a leap second `60` counts as second 59 once converted to an epoch). */
  datatype DateTime = DateTime(year: nat, month: nat, day: nat, hour: nat, minute: nat, second: nat)

  predicate IsLeap(y: int) {
    y % 4 == 0 && (y % 100 != 0 || y % 400 == 0)
  }

  function DaysInMonth(y: int, m: int): nat
    requires 1 <= m <= 12
  {
    if m == 2 then (if IsLeap(y) then 29 else 28)
    else if m == 4 || m == 6 || m == 9 || m == 11 then 30
    else 31
  }

  function DaysInYear(y: int): nat {
    if IsLeap(y) then 366 else 365
  }

  predicate ValidDate(y: int, m: int, d: int) {
    1 <= m <= 12 && 1 <= d <= DaysInMonth(y, m)
  }

  predicate Valid(t: DateTime) {
    ValidDate(t.year, t.month, t.day) && t.hour <= 23 && t.minute <= 59 && t.second <= 59
  }

  /* ---- Days since 1970-01-01 ---- */

  /** Days in the months of year `y` before month `m`. */
  function DaysBeforeMonth(y: int, m: int): nat
    requires 1 <= m <= 12
  {
    var common :=
      if m == 1 then 0 else if m == 2 then 31 else if m == 3 then 59 else if m == 4 then 90
      else if m == 5 then 120 else if m == 6 then 151 else if m == 7 then 181
      else if m == 8 then 212 else if m == 9 then 243 else if m == 10 then 273
      else if m == 11 then 304 else 334;
    if m > 2 && IsLeap(y) then common + 1 else common
  }

  /** Leap years among 0, 1, ..., y - 1. */
  function LeapsBefore(y: nat): nat {
    (y + 3) / 4 - (y + 99) / 100 + (y + 399) / 400
  }

  /** Days from 0000-01-01 to the first day of year `y`. */
  function YearStart(y: nat): nat {
    365 * y + LeapsBefore(y)
  }

  const UNIX_YEAR_START: nat := 719528

  /** Days from 1970-01-01 to the given date (negative before it). */
  function EpochDays(y: nat, m: int, d: int): int
    requires 1 <= m <= 12
  {
    YearStart(y) - UNIX_YEAR_START + DaysBeforeMonth(y, m) + d - 1
  }

  function Timestamp(t: DateTime): int
    requires 1 <= t.month <= 12
  {
    EpochDays(t.year, t.month, t.day) * 86400 + t.hour * 3600 + t.minute * 60 + t.second
  }

  /** The day after a valid date. */
  function NextDay(y: nat, m: int, d: int): (nat, int, int)
    requires ValidDate(y, m, d)
  {
    if d < DaysInMonth(y, m) then (y, m, d + 1)
    else if m < 12 then (y, m + 1, 1)
    else (y + 1, 1, 1)
  }

  /* ---- Reading the fixed-width timestamp ---- */

  function Digits2(a: char, b: char): nat
    requires IsDigit(a) && IsDigit(b)
  {
    10 * DigitValue(a) + DigitValue(b)
  }

  /** chrono's `parse_from_str(t, "%m/%d/%Y - %H:%M:%S")` on the shape the grammars
      guarantee: `None` when a field is out of range (month 1-12, a day of that month,
      hour up to 23, minute up to 59, second up to 60). */
  function ParseStamp(t: string): (r: Option<DateTime>)
    requires IsTimestamp(t)
    ensures r.Some? ==> Valid(r.value)
  {
    var month, day := Digits2(t[0], t[1]), Digits2(t[3], t[4]);
    var year := 100 * Digits2(t[6], t[7]) + Digits2(t[8], t[9]);
    var hour, minute, second := Digits2(t[13], t[14]), Digits2(t[16], t[17]), Digits2(t[19], t[20]);
    if 1 <= month <= 12 && 1 <= day <= DaysInMonth(year, month) && hour <= 23 && minute <= 59 && second <= 60
    then Some(DateTime(year, month, day, hour, minute, if second == 60 then 59 else second))
    else None
  }

  /** `timestamp_to_epoch`; `None` stands for the panic of `unwrap` on a failed parse. */
  function TimestampToEpoch(t: string): (r: Option<int>)
    requires IsTimestamp(t)
    ensures r.Some? <==> ParseStamp(t).Some?
  {
    var dt :- ParseStamp(t);
    Some(Timestamp(dt))
  }

  /** Two-digit zero-padded text of `n`. */
  function Pad2(n: nat): string
    requires n < 100
  {
    [DigitChar(n / 10), DigitChar(n % 10)]
  }

  /** The timestamp text of a date and time, in the format the parse reads. */
  function StampText(t: DateTime): string
    requires t.year <= 9999 && t.month < 100 && t.day < 100 && t.hour < 100 && t.minute < 100 && t.second < 100
  {
    Pad2(t.month) + "/" + Pad2(t.day) + "/" + Pad2(t.year / 100) + Pad2(t.year % 100)
    + " - " + Pad2(t.hour) + ":" + Pad2(t.minute) + ":" + Pad2(t.second)
  }

  /* ---- Properties ---- */

  lemma Pad2Value(n: nat)
    requires n < 100
    ensures IsDigit(Pad2(n)[0]) && IsDigit(Pad2(n)[1]) && Digits2(Pad2(n)[0], Pad2(n)[1]) == n
  {
  }

  lemma StampTextFields(t: DateTime)
    requires t.year <= 9999 && t.month < 100 && t.day < 100 && t.hour < 100 && t.minute < 100 && t.second < 100
    ensures var s := StampText(t);
      IsTimestamp(s)
      && Digits2(s[0], s[1]) == t.month && Digits2(s[3], s[4]) == t.day
      && 100 * Digits2(s[6], s[7]) + Digits2(s[8], s[9]) == t.year
      && Digits2(s[13], s[14]) == t.hour && Digits2(s[16], s[17]) == t.minute
      && Digits2(s[19], s[20]) == t.second
  {
    var s := StampText(t);
    var mo, d, c, y := Pad2(t.month), Pad2(t.day), Pad2(t.year / 100), Pad2(t.year % 100);
    var h, mi, se := Pad2(t.hour), Pad2(t.minute), Pad2(t.second);
    Pad2Value(t.month);
    Pad2Value(t.day);
    Pad2Value(t.year / 100);
    Pad2Value(t.year % 100);
    Pad2Value(t.hour);
    Pad2Value(t.minute);
    Pad2Value(t.second);
    assert s[0] == mo[0] && s[1] == mo[1] && s[3] == d[0] && s[4] == d[1];
    assert s[6] == c[0] && s[7] == c[1] && s[8] == y[0] && s[9] == y[1];
    assert s[13] == h[0] && s[14] == h[1] && s[16] == mi[0] && s[17] == mi[1];
    assert s[19] == se[0] && s[20] == se[1];
  }

  /** Parsing the text of a valid date and time gives it back. */
  lemma ParseStampRoundTrip(t: DateTime)
    requires Valid(t) && t.year <= 9999
    ensures IsTimestamp(StampText(t))
    ensures ParseStamp(StampText(t)) == Some(t)
  {
    var s := StampText(t);
    StampTextFields(t);
    var year := 100 * Digits2(s[6], s[7]) + Digits2(s[8], s[9]);
    assert year == t.year && 1 <= t.day <= DaysInMonth(year, t.month) && t.second != 60;
  }

  lemma Pad2Digits(a: char, b: char)
    requires IsDigit(a) && IsDigit(b)
    ensures Pad2(Digits2(a, b)) == [a, b]
  {
  }

  /** A timestamp is the text of the date and time its two-digit fields spell. */
  lemma StampTextOfFields(t: DateTime, s: string)
    requires IsTimestamp(s) && t.year <= 9999
    requires t.month < 100 && t.day < 100 && t.hour < 100 && t.minute < 100 && t.second < 100
    requires Pad2(t.month) == s[0..2] && Pad2(t.day) == s[3..5]
    requires Pad2(t.year / 100) == s[6..8] && Pad2(t.year % 100) == s[8..10]
    requires Pad2(t.hour) == s[13..15] && Pad2(t.minute) == s[16..18] && Pad2(t.second) == s[19..21]
    ensures StampText(t) == s
  {
    assert s == s[0..2] + "/" + s[3..5] + "/" + s[6..8] + s[8..10] + " - " + s[13..15] + ":" + s[16..18] + ":" + s[19..21];
  }

  lemma ParseStampFields(s: string)
    requires IsTimestamp(s) && ParseStamp(s).Some?
    ensures var t := ParseStamp(s).value;
      t.month == Digits2(s[0], s[1]) && t.day == Digits2(s[3], s[4])
      && t.year / 100 == Digits2(s[6], s[7]) && t.year % 100 == Digits2(s[8], s[9])
      && t.hour == Digits2(s[13], s[14]) && t.minute == Digits2(s[16], s[17])
      && (if Digits2(s[19], s[20]) == 60 then t.second == 59 else t.second == Digits2(s[19], s[20]))
  {
  }

  /** Conversely, whatever the parse accepts is the text of what it returns, except
      that a leap second `60` comes back as second 59. */
  lemma ParseStampSound(s: string)
    requires IsTimestamp(s) && ParseStamp(s).Some?
    ensures var t := ParseStamp(s).value;
      t.year <= 9999 && StampText(t) == (if s[19..21] == "60" then s[..19] + "59" else s)
  {
    var t := ParseStamp(s).value;
    ParseStampFields(s);
    Pad2Digits(s[0], s[1]);
    Pad2Digits(s[3], s[4]);
    Pad2Digits(s[6], s[7]);
    Pad2Digits(s[8], s[9]);
    Pad2Digits(s[13], s[14]);
    Pad2Digits(s[16], s[17]);
    assert s[19..21] == [s[19], s[20]];
    if s[19..21] == "60" {
      var w := s[..19] + "59";
      assert w[..19] == s[..19];
      Pad2Digits(w[19], w[20]);
      StampTextOfFields(t, w);
    } else {
      Pad2Digits(s[19], s[20]);
      StampTextOfFields(t, s);
    }
  }

  lemma Step4(y: nat)
    ensures (y + 4) / 4 == (y + 3) / 4 + (if y % 4 == 0 then 1 else 0)
  {
  }

  lemma Step100(y: nat)
    ensures (y + 100) / 100 == (y + 99) / 100 + (if y % 100 == 0 then 1 else 0)
  {
  }

  lemma Step400(y: nat)
    ensures (y + 400) / 400 == (y + 399) / 400 + (if y % 400 == 0 then 1 else 0)
  {
  }

  /** Leap years add one day, others none, to the count of leap years before a year. */
  lemma LeapStep(y: nat)
    ensures LeapsBefore(y + 1) == LeapsBefore(y) + (if IsLeap(y) then 1 else 0)
  {
    Step4(y);
    Step100(y);
    Step400(y);
  }

  lemma YearStep(y: nat)
    ensures YearStart(y + 1) == YearStart(y) + DaysInYear(y)
  {
    LeapStep(y);
  }

  /** Each month starts where the previous one ends. */
  lemma MonthStep(y: int, m: int)
    requires 1 <= m < 12
    ensures DaysBeforeMonth(y, m + 1) == DaysBeforeMonth(y, m) + DaysInMonth(y, m)
  {
  }

  lemma LastMonth(y: int)
    ensures DaysBeforeMonth(y, 12) + DaysInMonth(y, 12) == DaysInYear(y)
  {
  }

  /** The epoch starts at 1970-01-01. */
  lemma EpochOrigin()
    ensures EpochDays(1970, 1, 1) == 0
  {
  }

  /** Successive days are numbered successively: together with `EpochOrigin` this
      determines `EpochDays` on every valid date. */
  lemma EpochDaysNext(y: nat, m: int, d: int)
    requires ValidDate(y, m, d)
    ensures var (y', m', d') := NextDay(y, m, d);
      ValidDate(y', m', d') && EpochDays(y', m', d') == EpochDays(y, m, d) + 1
  {
    if d == DaysInMonth(y, m) {
      if m < 12 {
        MonthStep(y, m);
      } else {
        LastMonth(y);
        YearStep(y);
      }
    }
  }

  /** A valid date lies inside its year. */
  lemma DayOfYearBound(y: nat, m: int, d: int)
    requires ValidDate(y, m, d)
    ensures 0 <= DaysBeforeMonth(y, m) + d - 1 < DaysInYear(y)
  {
  }

  lemma {:induction false} YearStartGrows(y: nat, y': nat)
    requires y < y'
    ensures YearStart(y) + DaysInYear(y) <= YearStart(y')
    decreases y' - y
  {
    YearStep(y);
    if y + 1 < y' {
      YearStartGrows(y + 1, y');
    }
  }

  lemma {:induction false} MonthsGrow(y: int, m: int, m': int)
    requires 1 <= m < m' <= 12
    ensures DaysBeforeMonth(y, m) + DaysInMonth(y, m) <= DaysBeforeMonth(y, m')
    decreases m' - m
  {
    MonthStep(y, m);
    if m + 1 < m' {
      MonthsGrow(y, m + 1, m');
    }
  }

  /** Calendar order of dates. */
  predicate DateBefore(y: int, m: int, d: int, y': int, m': int, d': int) {
    y < y' || (y == y' && (m < m' || (m == m' && d < d')))
  }

  lemma EpochDaysMonotonic(y: nat, m: int, d: int, y': nat, m': int, d': int)
    requires ValidDate(y, m, d) && ValidDate(y', m', d')
    requires DateBefore(y, m, d, y', m', d')
    ensures EpochDays(y, m, d) < EpochDays(y', m', d')
  {
    if y < y' {
      DayOfYearBound(y, m, d);
      YearStartGrows(y, y');
    } else if m < m' {
      MonthsGrow(y, m, m');
    }
  }

  /** Chronological order of date-times. */
  predicate Before(a: DateTime, b: DateTime) {
    DateBefore(a.year, a.month, a.day, b.year, b.month, b.day)
    || (a.year == b.year && a.month == b.month && a.day == b.day
        && (a.hour < b.hour || (a.hour == b.hour
            && (a.minute < b.minute || (a.minute == b.minute && a.second < b.second)))))
  }

  /** A later date-time has a strictly larger epoch; in particular distinct valid
      date-times have distinct epochs. */
  lemma TimestampMonotonic(a: DateTime, b: DateTime)
    requires Valid(a) && Valid(b) && Before(a, b)
    ensures Timestamp(a) < Timestamp(b)
  {
    if DateBefore(a.year, a.month, a.day, b.year, b.month, b.day) {
      EpochDaysMonotonic(a.year, a.month, a.day, b.year, b.month, b.day);
    }
  }

  /** The three conversions the source's unit test checks. */
  lemma TimestampVectors()
    ensures TimestampToEpoch("01/01/1970 - 00:00:00") == Some(0)
    ensures TimestampToEpoch("05/04/2020 - 21:49:01") == Some(1588628941)
    ensures TimestampToEpoch("03/29/2021 - 15:39:30") == Some(1617032370)
  {
    EpochOriginVector();
    Vector2020();
    Vector2021();
  }

  lemma EpochOriginVector()
    ensures TimestampToEpoch("01/01/1970 - 00:00:00") == Some(0)
  {
    assert ParseStamp("01/01/1970 - 00:00:00") == Some(DateTime(1970, 1, 1, 0, 0, 0));
    EpochOrigin();
  }

  lemma Vector2020()
    ensures TimestampToEpoch("05/04/2020 - 21:49:01") == Some(1588628941)
  {
    assert ParseStamp("05/04/2020 - 21:49:01") == Some(DateTime(2020, 5, 4, 21, 49, 1));
    assert LeapsBefore(2020) == 490;
    assert EpochDays(2020, 5, 4) == 18386;
  }

  lemma Vector2021()
    ensures TimestampToEpoch("03/29/2021 - 15:39:30") == Some(1617032370)
  {
    assert ParseStamp("03/29/2021 - 15:39:30") == Some(DateTime(2021, 3, 29, 15, 39, 30));
    assert LeapsBefore(2021) == 491;
    assert EpochDays(2021, 3, 29) == 18715;
  }

  /** Out-of-range fields are refused (and so panic in the source): a thirteenth
      month, the 29th of February of a common year, hour 24. */
  lemma TimestampRejects()
    ensures TimestampToEpoch("13/01/2020 - 00:00:00").None?
    ensures TimestampToEpoch("02/29/2021 - 00:00:00").None?
    ensures TimestampToEpoch("01/01/2020 - 24:00:00").None?
  {
  }

  /** A leap second converts to the same epoch as second 59 of the same minute. */
  lemma LeapSecondAlias()
    ensures TimestampToEpoch("12/31/2016 - 23:59:60") == TimestampToEpoch("12/31/2016 - 23:59:59")
  {
  }
}
