/**
  Seconds since 1970 to a calendar date and back (src/timeutil.cpp), through a cycle of 1461
  days in which every fourth year is a leap year.
 */
module Calendar {

  const SEC_PER_DAY := 86400
  const SEC_PER_HOUR := 3600
  const DAY_PER_4YEAR := 1461

  const LEAP_YEAR: seq<int> := [0, 31, 60, 91, 121, 152, 182, 213, 244, 274, 305, 335, 366]
  const COMMON_YEAR: seq<int> := [0, 31, 59, 90, 120, 151, 181, 212, 243, 273, 304, 334, 365]
  const FOUR_YEARS: seq<int> := [0, 365, 730, 1096, 1461]

  datatype Date = Date(year: int, month: int, day: int, hour: int, minute: int, second: int, msec: int, usec: int)

  function DaysIn(leap: bool): seq<int> {
    if leap then LEAP_YEAR else COMMON_YEAR
  }

  predicate FourthYear(year: int) {
    year % 4 == 0
  }

  /** A date from 1970 on, under the every-fourth-year leap rule, to the second. */
  predicate Valid(d: Date) {
    && d.year >= 1970 && 1 <= d.month <= 12
    && 1 <= d.day <= DaysIn(FourthYear(d.year))[d.month] - DaysIn(FourthYear(d.year))[d.month - 1]
    && 0 <= d.hour < 24 && 0 <= d.minute < 60 && 0 <= d.second < 60 && d.msec == 0 && d.usec == 0
  }

  // ----- the meaning of a date -----

  /** Days from the start of 1970 to the start of a year. */
  function YearStart(year: int): int
    requires year >= 1970
  {
    (year - 1970) / 4 * DAY_PER_4YEAR + FOUR_YEARS[(year - 1970) % 4]
  }

  function DayNumber(d: Date): int
    requires d.year >= 1970 && 1 <= d.month <= 13
  {
    YearStart(d.year) + DaysIn(FourthYear(d.year))[d.month - 1] + d.day - 1
  }

  /** Seconds from the start of 1970, over the integers. */
  function Seconds(d: Date): int
    requires d.year >= 1970 && 1 <= d.month <= 13
  {
    DayNumber(d) * SEC_PER_DAY + d.hour * SEC_PER_HOUR + d.minute * 60 + d.second
  }

  // ----- the code -----

  class Time {
    var year: int
    var month: int
    var day: int
    var hour: int
    var minute: int
    var second: int
    var msec: int
    var usec: int

    function Value(): Date
      reads this
    {
      Date(year, month, day, hour, minute, second, msec, usec)
    }
  }

  /** The table search of `SecToTime`: the bracket that holds `t`. */
  method FindBracket(table: seq<int>, t: int) returns (i: nat)
    requires |table| >= 1 && table[0] <= t < table[|table| - 1]
    ensures i + 1 < |table| && table[i] <= t < table[i + 1]
  {
    i := 0;
    while i < |table| - 1
      invariant 0 <= i <= |table| - 1 && table[i] <= t
    {
      if t >= table[i] && t < table[i + 1] {
        break;
      }
      i := i + 1;
    }
  }

  method SecToTime(nSec: int, p: Time) returns (code: int)
    modifies p
    ensures code == 0 <==> nSec < 0
    ensures code == 0 ==> unchanged(p)
    ensures code == 1 <==> nSec >= 0
    ensures code == 1 ==> p.Value() == DateOf(nSec)
  {
    if nSec < 0 {
      return 0;
    }
    p.year, p.month, p.day, p.hour, p.minute, p.second, p.msec, p.usec := 1970, 1, 1, 0, 0, 0, 0, 0;
    hide DateOf, DayNumber, DaysIn;
    var t := nSec % SEC_PER_DAY;
    p.hour := t / SEC_PER_HOUR;
    t := t % SEC_PER_HOUR;
    p.minute := t / 60;
    p.second := t % 60;

    t := nSec / SEC_PER_DAY;
    SetDay(t, p);
    code := 1;
    PartsAddUp(p.Value(), nSec);
  }

  /** The second half of `SecToTime`: the day `t` days after the start of 1970. */
  method SetDay(days: int, p: Time)
    requires days >= 0 && p.year == 1970 && p.month == 1 && p.day == 1
    modifies p`year, p`month, p`day
    ensures p.year >= 1970 && 1 <= p.month <= 12
    ensures 1 <= p.day <= DaysIn(FourthYear(p.year))[p.month] - DaysIn(FourthYear(p.year))[p.month - 1]
    ensures DayNumber(p.Value()) == days
  {
    hide YearStart;
    var t := days;
    ghost var q := t / DAY_PER_4YEAR;
    p.year := p.year + 4 * (t / DAY_PER_4YEAR);
    t := t % DAY_PER_4YEAR;
    var i := FindBracket(FOUR_YEARS, t);
    p.year := p.year + i;
    CycleYear(q, i);
    var table := if i == 2 then LEAP_YEAR else COMMON_YEAR;
    t := t - FOUR_YEARS[i];
    i := FindBracket(table, t);
    p.month := p.month + i;
    t := t - table[i];
    p.day := p.day + t;
  }

  /** Conversion of a 64-bit value to the 32-bit `int` that `TimeToSec` returns. */
  function ToInt32(x: int): (r: int)
    ensures -0x8000_0000 <= r < 0x8000_0000
    ensures r == x <==> -0x8000_0000 <= x < 0x8000_0000
  {
    (x + 0x8000_0000) % 0x1_0000_0000 - 0x8000_0000
  }

  /** It drops a multiple of 2^32. */
  lemma TruncationDropsHighBits(x: int)
    ensures exists k :: x - ToInt32(x) == k * 4294967296
  {
    var k := (x + 0x8000_0000) / 0x1_0000_0000;
    assert x - ToInt32(x) == k * 4294967296;
  }

  method TimeToSec(p: Time) returns (r: int)
    requires p.year >= 1970 && 1 <= p.month <= 13
    ensures r == ToInt32(Seconds(p.Value()))
  {
    var days := if p.year % 4 == 0 then LEAP_YEAR else COMMON_YEAR;
    var res := 0;
    res := res + days[p.month - 1] * SEC_PER_DAY;
    res := res + (p.day - 1) * SEC_PER_DAY;
    res := res + (p.hour - 0) * SEC_PER_HOUR;
    res := res + (p.minute - 0) * 60;
    res := res + (p.second - 0);
    var t := p.year - 1970;
    res := res + t / 4 * FOUR_YEARS[4] * SEC_PER_DAY;
    t := t % 4;
    res := res + FOUR_YEARS[t] * SEC_PER_DAY;
    assert res == Seconds(p.Value());
    r := ToInt32(res);
  }

  // ----- order -----

  predicate DayBefore(a: Date, b: Date) {
    || a.year < b.year
    || (a.year == b.year && (a.month < b.month || (a.month == b.month && a.day < b.day)))
  }

  predicate SameDay(a: Date, b: Date) {
    a.year == b.year && a.month == b.month && a.day == b.day
  }

  predicate TimeBefore(a: Date, b: Date) {
    || a.hour < b.hour
    || (a.hour == b.hour && (a.minute < b.minute || (a.minute == b.minute && a.second < b.second)))
  }

  /** Lexicographic order on the fields. */
  predicate Before(a: Date, b: Date) {
    DayBefore(a, b) || (SameDay(a, b) && TimeBefore(a, b))
  }

  lemma YearsAreLongEnough(y: int, y': int)
    requires 1970 <= y < y'
    ensures YearStart(y) + DaysIn(FourthYear(y))[12] <= YearStart(y')
    decreases y'
  {}

  lemma MonthTable(leap: bool, m: int, m': int)
    requires 0 <= m < m' <= 12
    ensures DaysIn(leap)[m] + 28 <= DaysIn(leap)[m']
  {}

  lemma DaysGrow(a: Date, b: Date)
    requires Valid(a) && Valid(b) && DayBefore(a, b)
    ensures DayNumber(a) < DayNumber(b)
  {
    hide YearStart;
    if a.month < 12 { MonthTable(FourthYear(a.year), a.month, 12); }
    if a.year < b.year {
      YearsAreLongEnough(a.year, b.year);
      if b.month > 1 { MonthTable(FourthYear(b.year), 0, b.month - 1); }
    } else if a.month < b.month && a.month < b.month - 1 {
      MonthTable(FourthYear(a.year), a.month, b.month - 1);
    }
  }

  /** Earlier dates have fewer seconds. */
  lemma SecondsGrow(a: Date, b: Date)
    requires Valid(a) && Valid(b) && Before(a, b)
    ensures Seconds(a) < Seconds(b)
  {
    if DayBefore(a, b) {
      DaysGrow(a, b);
    }
  }

  lemma BeforeIsTotal(a: Date, b: Date)
    requires Valid(a) && Valid(b)
    ensures Before(a, b) || Before(b, a) || a == b
  {}

  /** Equal seconds, equal dates: together with `SecToTime` this makes `Seconds` a bijection
      between valid dates and the non-negative integers. */
  lemma DateIsUnique(a: Date, b: Date)
    requires Valid(a) && Valid(b) && Seconds(a) == Seconds(b)
    ensures a == b
  {
    BeforeIsTotal(a, b);
    if Before(a, b) {
      SecondsGrow(a, b);
    } else if Before(b, a) {
      SecondsGrow(b, a);
    }
  }

  // ----- both directions -----

  /** The bracket of a table that holds `t`. */
  function Bracket(table: seq<int>, t: int, i: nat := 0): (r: nat)
    requires i + 1 < |table| && table[i] <= t < table[|table| - 1]
    ensures r + 1 < |table| && table[r] <= t < table[r + 1]
    decreases |table| - i
  {
    if t < table[i + 1] then i else Bracket(table, t, i + 1)
  }

  lemma CycleYear(q: int, i: int)
    requires q >= 0 && 0 <= i < 4
    ensures YearStart(1970 + 4 * q + i) == q * DAY_PER_4YEAR + FOUR_YEARS[i]
    ensures FourthYear(1970 + 4 * q + i) <==> i == 2
    ensures FOUR_YEARS[i + 1] - FOUR_YEARS[i] == DaysIn(i == 2)[12]
  {}

  lemma ClockParts(s: int)
    requires 0 <= s < SEC_PER_DAY
    ensures var h, r := s / SEC_PER_HOUR, s % SEC_PER_HOUR;
      && 0 <= h < 24 && 0 <= r / 60 < 60 && 0 <= r % 60 < 60
      && h * SEC_PER_HOUR + r / 60 * 60 + r % 60 == s
  {}

  /** The day a number of days after the start of 1970, at midnight. */
  function DayOf(days: int): (d: Date)
    requires days >= 0
    ensures Valid(d) && DayNumber(d) == days && d.hour == 0 && d.minute == 0 && d.second == 0
  {
    var q, r := days / DAY_PER_4YEAR, days % DAY_PER_4YEAR;
    var i := Bracket(FOUR_YEARS, r);
    CycleYear(q, i);
    DayInYear(1970 + 4 * q + i, r - FOUR_YEARS[i])
  }

  function DayInYear(year: int, t: int): (d: Date)
    requires year >= 1970 && 0 <= t < DaysIn(FourthYear(year))[12]
    ensures Valid(d) && DayNumber(d) == YearStart(year) + t && d.hour == 0 && d.minute == 0 && d.second == 0
  {
    var table := DaysIn(FourthYear(year));
    var m := Bracket(table, t);
    Date(year, 1 + m, 1 + t - table[m], 0, 0, 0, 0, 0)
  }

  /** The date of a number of seconds: the unique valid date with that many. */
  function DateOf(n: int): (d: Date)
    requires n >= 0
    ensures Valid(d) && Seconds(d) == n
  {
    var s := n % SEC_PER_DAY;
    ClockParts(s);
    DayOf(n / SEC_PER_DAY).(hour := s / SEC_PER_HOUR, minute := s % SEC_PER_HOUR / 60, second := s % SEC_PER_HOUR % 60)
  }

  /** The day of a number of seconds with the time of day that is left. */
  lemma {:induction false} PartsAddUp(d: Date, n: int)
    requires n >= 0 && d.year >= 1970 && 1 <= d.month <= 12 && d.msec == 0 && d.usec == 0
    requires 1 <= d.day <= DaysIn(FourthYear(d.year))[d.month] - DaysIn(FourthYear(d.year))[d.month - 1]
    requires DayNumber(d) == n / SEC_PER_DAY
    requires var t := n % SEC_PER_DAY;
      d.hour == t / SEC_PER_HOUR && d.minute == t % SEC_PER_HOUR / 60 && d.second == t % SEC_PER_HOUR % 60
    ensures d == DateOf(n)
  {
    hide DateOf, DayNumber, DaysIn;
    ClockParts(n % SEC_PER_DAY);
    DateIsUnique(d, DateOf(n));
  }

  /** `SecToTime` undoes `TimeToSec`'s sum on every valid date. */
  lemma DateOfSeconds(d: Date)
    requires Valid(d)
    ensures Seconds(d) >= 0 && DateOf(Seconds(d)) == d
  {
    YearStartPositive(d.year);
    if d.month > 1 { MonthTable(FourthYear(d.year), 0, d.month - 1); }
    assert DayNumber(d) >= 0;
    DateIsUnique(DateOf(Seconds(d)), d);
  }

  lemma YearStartPositive(y: int)
    requires y >= 1970
    ensures YearStart(y) >= 0
  {}

  /** The date grows strictly with the seconds, field by field. */
  lemma DateGrows(m: int, n: int)
    requires 0 <= m < n
    ensures Before(DateOf(m), DateOf(n))
  {
    BeforeIsTotal(DateOf(m), DateOf(n));
    if Before(DateOf(n), DateOf(m)) {
      SecondsGrow(DateOf(n), DateOf(m));
    }
  }

  /** The pair of conversions as compiled is the identity exactly below the 32-bit limit. */
  lemma RoundTripIff32Bit(n: int)
    requires n >= 0
    ensures ToInt32(Seconds(DateOf(n))) == n <==> n < 0x8000_0000
  {}

  // ----- the calendar day by day -----

  function MonthLength(year: int, month: int): int {
    if month == 4 || month == 6 || month == 9 || month == 11 then 30
    else if month == 2 then if year % 4 == 0 then 29 else 28
    else 31
  }

  /** The same time on the next day. */
  function Tomorrow(d: Date): Date {
    if d.day < MonthLength(d.year, d.month) then d.(day := d.day + 1)
    else if d.month < 12 then d.(month := d.month + 1, day := 1)
    else d.(year := d.year + 1, month := 1, day := 1)
  }

  /** The first day, second by second. */
  lemma FirstDay(n: int)
    requires 0 <= n < 86400
    ensures DateOf(n) == Date(1970, 1, 1, n / 3600, n % 3600 / 60, n % 3600 % 60, 0, 0)
  {
    hide DateOf;
    PartsAddUp(Date(1970, 1, 1, n / 3600, n % 3600 / 60, n % 3600 % 60, 0, 0), n);
  }

  /** And every 86400 seconds the date is that of the next day, month ends and leap years included. */
  lemma {:induction false} DayAfterDay(n: int)
    requires n >= 0
    ensures DateOf(n + 86400) == Tomorrow(DateOf(n))
  {
    hide DateOf, MonthLength, DaysIn, YearStart;
    var d := DateOf(n);
    TomorrowCounts(d);
    DateIsUnique(DateOf(n + 86400), Tomorrow(d));
  }

  lemma MonthTableLengths(year: int, month: int)
    requires 1 <= month <= 12
    ensures DaysIn(FourthYear(year))[month] - DaysIn(FourthYear(year))[month - 1] == MonthLength(year, month)
  {}

  lemma {:induction false} TomorrowCounts(d: Date)
    requires Valid(d)
    ensures Valid(Tomorrow(d)) && Seconds(Tomorrow(d)) == Seconds(d) + 86400
  {
    TomorrowIsNext(d);
    hide DayNumber, Tomorrow;
  }

  lemma {:induction false} TomorrowIsNext(d: Date)
    requires Valid(d)
    ensures Valid(Tomorrow(d)) && DayNumber(Tomorrow(d)) == DayNumber(d) + 1
    ensures var t := Tomorrow(d); t.hour == d.hour && t.minute == d.minute && t.second == d.second
  {
    MonthTableLengths(d.year, d.month);
    if d.day == MonthLength(d.year, d.month) {
      if d.month < 12 {
        MonthTableLengths(d.year, d.month + 1);
        hide YearStart;
      } else {
        NextYear(d.year);
        MonthTableLengths(d.year + 1, 1);
        hide YearStart;
      }
    }
  }

  lemma NextYear(year: int)
    requires year >= 1970
    ensures YearStart(year + 1) == YearStart(year) + DaysIn(FourthYear(year))[12]
    ensures DaysIn(FourthYear(year))[0] == 0 && DaysIn(FourthYear(year + 1))[0] == 0
  {}

  // ----- IEEE Std 1003.1-2017, section 4.16 -----

  predicate GregorianLeap(year: int) {
    year % 4 == 0 && (year % 100 != 0 || year % 400 == 0)
  }

  predicate GregorianValid(d: Date) {
    && Valid(d) && d.day <= DaysIn(GregorianLeap(d.year))[d.month] - DaysIn(GregorianLeap(d.year))[d.month - 1]
  }

  /** Seconds Since the Epoch, by the formula of the standard. */
  function PosixSeconds(d: Date): int
    requires d.year >= 1970 && 1 <= d.month <= 12
  {
    var tm_year := d.year - 1900;
    var tm_yday := DaysIn(GregorianLeap(d.year))[d.month - 1] + d.day - 1;
    d.second + d.minute * 60 + d.hour * 3600 + tm_yday * 86400 + (tm_year - 70) * 31536000
    + (tm_year - 69) / 4 * 86400 - (tm_year - 1) / 100 * 86400 + (tm_year + 299) / 400 * 86400
  }

  lemma YearStartByLeaps(year: int)
    requires year >= 1970
    ensures YearStart(year) == (year - 1970) * 365 + (year - 1969) / 4
  {}

  /** The days by which the century rule sets the two calendars apart at the start of a year. */
  lemma CenturyGap(tm_year: int)
    requires tm_year >= 70
    ensures var gap := (tm_year - 1) / 100 - (tm_year + 299) / 400;
      if tm_year <= 200 then gap == 0 else gap >= 1
  {}

  /** On the dates both calendars have, the two counts agree exactly up to the end of
      February 2100, the first fourth year that is not a leap year. */
  lemma AgreesWithPosixIff(d: Date)
    requires GregorianValid(d)
    ensures Seconds(d) == PosixSeconds(d) <==> d.year < 2100 || (d.year == 2100 && d.month <= 2)
  {
    YearStartByLeaps(d.year);
    var tm_year := d.year - 1900;
    CenturyGap(tm_year);
    var gap := (tm_year - 1) / 100 - (tm_year + 299) / 400;
    var table, table' := DaysIn(FourthYear(d.year)), DaysIn(GregorianLeap(d.year));
    var extra := table[d.month - 1] - table'[d.month - 1];
    assert extra == if FourthYear(d.year) != GregorianLeap(d.year) && d.month >= 3 then 1 else 0;
    assert Seconds(d) - PosixSeconds(d) == (extra + gap) * 86400;
    if d.year < 2100 {
      assert GregorianLeap(d.year) == FourthYear(d.year);
    }
  }

  /** In particular on every date from 1970 through 2099. */
  lemma AgreesWithPosixThrough2099(d: Date)
    requires GregorianValid(d) && d.year <= 2099
    ensures Seconds(d) == PosixSeconds(d)
  {
    AgreesWithPosixIff(d);
  }
}
