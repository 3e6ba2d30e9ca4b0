/** Conversion between seconds since 1970 and calendar fields. */
module Calendar {
  const TWO_32 := 0x1_0000_0000
  const DAY := 86400

  type U32 = x: int | 0 <= x < TWO_32
  type U8 = x: int | 0 <= x < 256

  /** The fields of DateTimeFields: the year counts from 1900, the month from 0. */
  datatype Fields = Fields(sec: U8, min: U8, hour: U8, wday: U8, mday: U8, mon: U8, year: U8)

  // ---------- the Gregorian calendar ----------

  predicate Leap(year: nat) {
    year % 4 == 0 && (year % 100 != 0 || year % 400 == 0)
  }

  function YearLength(year: nat): nat {
    if Leap(year) then 366 else 365
  }

  const MONTH_DAYS := [31, 28, 31, 30, 31, 30, 31, 31, 30, 31, 30, 31]

  function MonthLength(leap: bool, month: nat): nat
    requires month < 12
  {
    if month == 1 && leap then 29 else MONTH_DAYS[month]
  }

  /** The month lengths by rule: 31 and 30 days in turn, starting anew with August, and
      February. */
  lemma MonthLengthRule(leap: bool, month: nat)
    requires month < 12
    ensures MonthLength(leap, month) ==
      if month == 1 then (if leap then 29 else 28) else 30 + (month + 1 + (month + 1) / 8) % 2
  {
    assert MONTH_DAYS == [31, 28, 31, 30, 31, 30, 31, 31, 30, 31, 30, 31];
  }

  /** Days from 1 January 1970 to 1 January of the year 1970 + y. */
  function YearStart(y: nat): nat {
    if y == 0 then 0 else YearStart(y - 1) + YearLength(1970 + y - 1)
  }

  /** Days from 1 January to the first day of a month. */
  function MonthStart(leap: bool, month: nat): nat
    requires month <= 12
  {
    if month == 0 then 0 else MonthStart(leap, month - 1) + MonthLength(leap, month - 1)
  }

  predicate IsDate(tm: Fields) {
    tm.mon < 12 && tm.year >= 70 && 1 <= tm.mday <= MonthLength(Leap(1900 + tm.year), tm.mon)
  }

  /** Days from 1 January 1970 to a date. */
  function DayNumber(tm: Fields): nat
    requires IsDate(tm)
  {
    YearStart(tm.year - 70) + MonthStart(Leap(1900 + tm.year), tm.mon) + tm.mday - 1
  }

  /** `tm` is the calendar reading of second `t`. */
  predicate Reads(tm: Fields, t: nat) {
    && tm.sec < 60 && tm.min < 60 && tm.hour < 24 && IsDate(tm)
    && tm.wday == (DayNumber(tm) + 4) % 7
    && t == DAY * DayNumber(tm) + 3600 * tm.hour + 60 * tm.min + tm.sec
  }

  lemma {:induction false} YearsGrow(a: nat, b: nat)
    requires a <= b
    ensures YearStart(a) + 365 * (b - a) <= YearStart(b)
    decreases b
  {
    if a < b {
      YearsGrow(a, b - 1);
    }
  }

  lemma {:induction false} MonthsGrow(leap: bool, a: nat, b: nat)
    requires a <= b <= 12
    ensures MonthStart(leap, a) + 28 * (b - a) <= MonthStart(leap, b)
    decreases b
  {
    if a < b {
      MonthsGrow(leap, a, b - 1);
    }
  }

  lemma YearIsTwelveMonths(year: nat)
    ensures MonthStart(Leap(year), 12) == YearLength(year)
  {
    var l := Leap(year);
    var feb := if l then 29 else 28;
    assert MonthStart(l, 1) == 31 && MonthStart(l, 2) == 31 + feb;
    assert MonthStart(l, 3) == 62 + feb && MonthStart(l, 4) == 92 + feb;
    assert MonthStart(l, 5) == 123 + feb && MonthStart(l, 6) == 153 + feb;
    assert MonthStart(l, 7) == 184 + feb && MonthStart(l, 8) == 215 + feb;
    assert MonthStart(l, 9) == 245 + feb && MonthStart(l, 10) == 276 + feb;
    assert MonthStart(l, 11) == 306 + feb;
  }

  /** The leap test of the code, whose argument is meant to count years from 1970. */
  predicate LeapYearMacro(y: int) {
    1970 + y > 0 && (1970 + y) % 4 == 0 && ((1970 + y) % 100 != 0 || (1970 + y) % 400 == 0)
  }

  lemma NextYearStart(y: nat)
    ensures YearStart(y + 1) == YearStart(y) + 365 + if LeapYearMacro(y) then 1 else 0
    ensures YearLength(1970 + y) == 365 + if LeapYearMacro(y) then 1 else 0
    ensures YearStart(0) == 0
  {
  }

  // ---------- seconds to fields ----------

  /** The year a day falls in, and the days of that year before it. */
  method FindYear(today: nat) returns (year: nat, left: nat)
    requires today < 50000
    ensures year <= 136 && today == YearStart(year) + left && left < YearLength(1970 + year)
  {
    hide YearStart, YearLength, LeapYearMacro;
    NextYearStart(0);
    year := 0;
    var days := 0;
    days := days + if LeapYearMacro(year) then 366 else 365;
    while days <= today
      invariant 0 <= year <= 136 && days == YearStart(year + 1) && YearStart(year) <= today
      decreases today + 400 - days
    {
      YearsGrow(0, year + 1);
      year := year + 1;
      NextYearStart(year);
      days := days + if LeapYearMacro(year) then 366 else 365;
    }
    NextYearStart(year);
    days := days - if LeapYearMacro(year) then 366 else 365;
    left := today - days;
  }

  /** The month a day of the year falls in, and the days of that month before it. */
  method FindMonth(year: nat, day: nat) returns (month: nat, left: nat)
    requires day < YearLength(1970 + year)
    ensures month < 12 && left < MonthLength(Leap(1970 + year), month)
    ensures day == MonthStart(Leap(1970 + year), month) + left
  {
    left := day;
    month := 0;
    YearIsTwelveMonths(1970 + year);
    while month < 12
      invariant 0 <= month <= 12 && left + MonthStart(Leap(1970 + year), month) == day
    {
      var monthLength := if month == 1 then (if LeapYearMacro(year) then 29 else 28) else MONTH_DAYS[month];
      if left >= monthLength {
        left := left - monthLength;
      } else {
        break;
      }
      month := month + 1;
    }
  }

  method BreakTime(time: U32) returns (tm: Fields)
    ensures Reads(tm, time) && tm.year <= 206
  {
    var sec, minutes := time % 60, time / 60;
    var min, hours := minutes % 60, minutes / 60;
    var hour, today := hours % 24, hours / 24;
    var wday := (today + 4) % 7;
    var year, day := FindYear(today);
    var month, left := FindMonth(year, day);
    tm := Fields(sec, min, hour, wday, left + 1, month, year + 70);
  }

  lemma WithinYear(a: Fields)
    requires IsDate(a)
    ensures YearStart(a.year - 70) <= DayNumber(a) < YearStart(a.year - 70 + 1)
  {
    MonthsGrow(Leap(1900 + a.year), a.mon + 1, 12);
    YearIsTwelveMonths(1900 + a.year);
  }

  lemma EarlierYearEarlierDay(a: Fields, b: Fields)
    requires IsDate(a) && IsDate(b) && a.year < b.year
    ensures DayNumber(a) < DayNumber(b)
  {
    WithinYear(a);
    WithinYear(b);
    YearsGrow(a.year - 70 + 1, b.year - 70);
  }

  lemma EarlierMonthEarlierDay(a: Fields, b: Fields)
    requires IsDate(a) && IsDate(b) && a.year == b.year && a.mon < b.mon
    ensures DayNumber(a) < DayNumber(b)
  {
    var leap := Leap(1900 + a.year);
    MonthsGrow(leap, a.mon + 1, b.mon);
    assert MonthStart(leap, a.mon + 1) == MonthStart(leap, a.mon) + MonthLength(leap, a.mon);
  }

  lemma SameDaySameDate(a: Fields, b: Fields)
    requires IsDate(a) && IsDate(b) && DayNumber(a) == DayNumber(b)
    ensures a.year == b.year && a.mon == b.mon && a.mday == b.mday
  {
    if a.year < b.year {
      EarlierYearEarlierDay(a, b);
    } else if b.year < a.year {
      EarlierYearEarlierDay(b, a);
    } else if a.mon < b.mon {
      EarlierMonthEarlierDay(a, b);
    } else if b.mon < a.mon {
      EarlierMonthEarlierDay(b, a);
    }
  }

  lemma SameSecondSameDay(a: Fields, b: Fields, t: nat)
    requires Reads(a, t) && Reads(b, t)
    ensures DayNumber(a) == DayNumber(b) && a.hour == b.hour && a.min == b.min && a.sec == b.sec
  {
    assert DayNumber(a) == t / DAY == DayNumber(b);
  }

  /** A second has one calendar reading only. */
  lemma ReadsIsUnique(a: Fields, b: Fields, t: nat)
    requires Reads(a, t) && Reads(b, t)
    ensures a == b
  {
    SameSecondSameDay(a, b, t);
    SameDaySameDate(a, b);
  }

  // ---------- fields to seconds ----------

  /** The days makeTime counts up to a year: those since 1970, or before it 365 days a year. */
  function YearDays(year: U8): int {
    if year >= 70 then YearStart(year - 70) else 365 * (year - 70)
  }

  /** What makeTime adds up: its leap test for the current year is fed a year counted
      from 1900. */
  function Made(tm: Fields): int
    requires tm.mon <= 12
  {
    DAY * (YearDays(tm.year) + MonthStart(Leap(1970 + tm.year), tm.mon) + tm.mday - 1)
      + 3600 * tm.hour + 60 * tm.min + tm.sec
  }

  function Wrap(x: int): U32 {
    x % TWO_32
  }

  lemma WrapAdd(x: int, d: int)
    ensures Wrap(Wrap(x) + d) == Wrap(x + d)
  {
  }

  method SecondsOfYears(year: U8) returns (seconds: U32, ghost exact: int)
    ensures seconds == Wrap(DAY * YearDays(year)) && exact == DAY * YearDays(year)
  {
    hide YearStart, YearLength, LeapYearMacro;
    NextYearStart(0);
    exact := (year - 70) * (DAY * 365);
    seconds := Wrap((year - 70) * (DAY * 365));
    var i := 70;
    while i < year
      invariant 70 <= i && (i <= year || i == 70) && seconds == Wrap(exact)
      invariant exact == DAY * YearStart(i - 70) + (year - i) * (DAY * 365)
    {
      NextYearStart(i - 70);
      if LeapYearMacro(i - 70) {
        WrapAdd(exact, DAY);
        seconds := Wrap(seconds + DAY);
        exact := exact + DAY;
      }
      i := i + 1;
    }
  }

  method SecondsOfMonths(year: nat, mon: nat, before: U32, ghost exactBefore: int)
    returns (seconds: U32, ghost exact: int)
    requires mon <= 12 && before == Wrap(exactBefore)
    ensures seconds == Wrap(exactBefore + DAY * MonthStart(Leap(1970 + year), mon))
    ensures exact == exactBefore + DAY * MonthStart(Leap(1970 + year), mon)
  {
    seconds, exact := before, exactBefore;
    var i := 0;
    while i < mon
      invariant 0 <= i <= mon && seconds == Wrap(exact)
      invariant exact == exactBefore + DAY * MonthStart(Leap(1970 + year), i)
    {
      var d := if i == 1 && LeapYearMacro(year) then DAY * 29 else DAY * MONTH_DAYS[i];
      WrapAdd(exact, d);
      seconds := Wrap(seconds + d);
      exact := exact + d;
      i := i + 1;
    }
  }

  method MakeTime(tm: Fields) returns (seconds: U32)
    requires tm.mon <= 12
    ensures seconds == Wrap(Made(tm))
  {
    hide YearDays, MonthStart, Leap, Wrap;
    ghost var exact;
    seconds, exact := SecondsOfYears(tm.year);
    seconds, exact := SecondsOfMonths(tm.year, tm.mon, seconds, exact);
    WrapAdd(exact, (tm.mday - 1) * DAY);
    seconds := Wrap(seconds + (tm.mday - 1) * DAY);
    exact := exact + (tm.mday - 1) * DAY;
    WrapAdd(exact, tm.hour * 3600);
    seconds := Wrap(seconds + tm.hour * 3600);
    exact := exact + tm.hour * 3600;
    WrapAdd(exact, tm.min * 60);
    seconds := Wrap(seconds + tm.min * 60);
    exact := exact + tm.min * 60;
    WrapAdd(exact, tm.sec);
    seconds := Wrap(seconds + tm.sec);
  }

  /** Which years makeTime takes for leap years, compared with the calendar. */
  lemma LeapTests(year: nat)
    requires 1970 <= year <= 2106
    ensures Leap(year) ==> !Leap(year + 70)
    ensures Leap(year + 70) <==> year % 4 == 2 && year != 2030
  {
  }

  lemma {:induction false} LeapShift(month: nat)
    requires month <= 12
    ensures MonthStart(true, month) == MonthStart(false, month) + if month >= 2 then 1 else 0
  {
    if month > 0 {
      LeapShift(month - 1);
    }
  }

  /** What makeTime adds up for the reading of second `t`: exact in January and February,
      and from March on off by one day in a leap year and, the other way, 70 years before one. */
  lemma MadeOffByOneDay(tm: Fields, t: nat)
    requires Reads(tm, t)
    ensures Made(tm) == if tm.mon < 2 then t
      else if Leap(1900 + tm.year) then t - DAY
      else if Leap(1970 + tm.year) then t + DAY
      else t
  {
    assert Leap(1900 + tm.year) ==> (1970 + tm.year) % 4 == 2;
    LeapShift(tm.mon);
  }

  /** Before 1970 every year counts 365 days. */
  lemma EarlierYears(tm: Fields)
    requires tm.year < 70 && tm.mon < 2
    ensures Made(tm) == Made(tm.(year := 70)) - 31536000 * (70 - tm.year)
  {
    assert MonthStart(Leap(1970 + tm.year), tm.mon) == MonthStart(Leap(2040), tm.mon);
  }

  lemma WrapShift(t: U32)
    ensures Wrap(t) == t && Wrap(t - DAY) != t && Wrap(t + DAY) != t
  {
  }

  /** makeTime undoes breakTime exactly in January and February and in all of a year for
      which the misplaced leap test agrees with the calendar. */
  lemma RoundTrip(tm: Fields, t: U32)
    requires Reads(tm, t)
    ensures Wrap(Made(tm)) == t <==> tm.mon < 2 || (!Leap(1900 + tm.year) && !Leap(1970 + tm.year))
  {
    hide Made, Reads;
    MadeOffByOneDay(tm, t);
    WrapShift(t);
  }

  lemma {:induction false} YearStartClosed(y: nat)
    requires y <= 130
    ensures YearStart(y) == 365 * y + (y + 1) / 4
  {
    if y > 0 {
      YearStartClosed(y - 1);
    }
  }

  lemma MarchStart(leap: bool)
    ensures MonthStart(leap, 2) == if leap then 60 else 59
  {
    assert MonthStart(leap, 1) == 31;
  }

  lemma FirstOfMarch(tm: Fields)
    requires tm.sec == tm.min == tm.hour == 0 && tm.mday == 1 && tm.mon == 2 && 70 <= tm.year <= 200
    requires tm.wday == (365 * (tm.year - 70) + (tm.year - 69) / 4 + (if Leap(1900 + tm.year) then 64 else 63)) % 7
    ensures Reads(tm, DAY * (365 * (tm.year - 70) + (tm.year - 69) / 4 + if Leap(1900 + tm.year) then 60 else 59))
  {
    hide YearStart, MonthStart, Leap;
    YearStartClosed(tm.year - 70);
    MarchStart(Leap(1900 + tm.year));
  }

  /** 1 March 2020 comes back as 29 February, 1 March 2022 as the second. */
  lemma RoundTripFails()
    ensures var tm, t := Fields(0, 0, 0, 0, 1, 2, 120), 1583020800; Reads(tm, t) && Wrap(Made(tm)) == t - DAY
    ensures var tm, t := Fields(0, 0, 0, 2, 1, 2, 122), 1646092800; Reads(tm, t) && Wrap(Made(tm)) == t + DAY
  {
    hide Made, Reads;
    FirstOfMarch(Fields(0, 0, 0, 0, 1, 2, 120));
    FirstOfMarch(Fields(0, 0, 0, 2, 1, 2, 122));
    MadeOffByOneDay(Fields(0, 0, 0, 0, 1, 2, 120), 1583020800);
    MadeOffByOneDay(Fields(0, 0, 0, 2, 1, 2, 122), 1646092800);
  }
}
