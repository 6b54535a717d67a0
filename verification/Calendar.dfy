/** The proleptic Gregorian calendar at a fixed offset from UTC: mktime and
    localtime_r as the C library defines them when no daylight saving applies. */
module Calendar {

  /** struct tm with the year written in full; months count from 0, days from 1. */
  datatype Tm = Tm(year: int, mon: int, mday: int, hour: int, min: int, sec: int, wday: int)

  const DAY := 86400

  predicate Leap(y: int) {
    y % 4 == 0 && (y % 100 != 0 || y % 400 == 0)
  }

  function MonthLength(y: int, m: int): (d: int)
    requires 0 <= m < 12
    ensures 28 <= d <= 31
  {
    if m == 1 then (if Leap(y) then 29 else 28)
    else if m == 3 || m == 5 || m == 8 || m == 10 then 30
    else 31
  }

  /** Days of year `y` before month `m`. */
  function DaysBefore(y: int, m: int): int
    requires 0 <= m <= 12
  {
    [0, 31, 59, 90, 120, 151, 181, 212, 243, 273, 304, 334, 365][m] + if m >= 2 && Leap(y) then 1 else 0
  }

  /** Days from 1 January of year 0 to 1 January of year `y`. */
  function YearStart(y: int): int {
    365 * y + (y + 3) / 4 - (y + 99) / 100 + (y + 399) / 400
  }

  /** The day number, counted from 1 January 1970, of the first day of month `k`;
      months count on through the years. */
  function MonthStart(k: int): int {
    YearStart(k / 12) + DaysBefore(k / 12, k % 12) - YearStart(1970)
  }

  /** 1 January 1970, 1 March 2000, 29 February 2024 and 1 January 2100. */
  lemma KnownDays()
    ensures MonthStart(1970 * 12) == 0
    ensures MonthStart(2000 * 12 + 2) == 11017
    ensures MonthStart(2024 * 12 + 1) + 28 == 19782 && MonthStart(2024 * 12 + 2) == 19783
    ensures MonthStart(2100 * 12) == 47482
  {
    assert YearStart(1970) == 719528 && YearStart(2000) == 730485;
    assert YearStart(2024) == 739251 && YearStart(2100) == 767010;
    assert (1970 * 12) / 12 == 1970 && (2000 * 12 + 2) / 12 == 2000 && (2024 * 12 + 1) / 12 == 2024;
    assert (2024 * 12 + 2) / 12 == 2024 && (2100 * 12) / 12 == 2100;
  }

  /** 1 January 1970 and 29 February 2024 were Thursdays; at an offset of an hour the
      local time of instant 0 is one o'clock. */
  lemma KnownTimes()
    ensures Weekday(0, 0) == 4 && Weekday(19782 * 86400, 0) == 4
    ensures Localtime(0, 3600) == Tm(1970, 0, 1, 1, 0, 0, 4)
  {
    hide MonthStart;
    KnownDays();
    NextMonth(1970 * 12);
    MonthOfIs(0, 1970 * 12);
    assert DayOf(0, 3600) == 0 && SecondOfDay(0, 3600) == 3600;
  }

  /** The twelve lengths, and when February has one day more. */
  lemma MonthLengths(y: int, m: nat)
    requires m < 12
    ensures LengthOfMonth(12 * y + m) ==
            [31, 28, 31, 30, 31, 30, 31, 31, 30, 31, 30, 31][m] +
            if m == 1 && (y % 400 == 0 || (y % 4 == 0 && y % 100 != 0)) then 1 else 0
  {
    assert (12 * y + m) / 12 == y && (12 * y + m) % 12 == m;
    Multiples(y);
  }

  lemma LeapDay(y: int)
    ensures YearStart(y + 1) - YearStart(y) == if Leap(y) then 366 else 365
  {
    EveryFourth(y);
    EveryHundredth(y);
    EveryFourHundredth(y);
    Multiples(y);
  }

  lemma EveryFourth(y: int)
    ensures (y + 4) / 4 - (y + 3) / 4 == if y % 4 == 0 then 1 else 0
  {
  }

  lemma EveryHundredth(y: int)
    ensures (y + 100) / 100 - (y + 99) / 100 == if y % 100 == 0 then 1 else 0
  {
  }

  lemma EveryFourHundredth(y: int)
    ensures (y + 400) / 400 - (y + 399) / 400 == if y % 400 == 0 then 1 else 0
  {
  }

  lemma Multiples(y: int)
    ensures (y % 100 == 0 ==> y % 4 == 0) && (y % 400 == 0 ==> y % 100 == 0)
  {
  }

  function LengthOfMonth(k: int): (d: int)
    ensures 28 <= d <= 31
  {
    MonthLength(k / 12, k % 12)
  }

  /** Each month starts where the one before it ended. */
  lemma NextMonth(k: int)
    ensures MonthStart(k + 1) == MonthStart(k) + LengthOfMonth(k)
  {
    var y, m := k / 12, k % 12;
    if m < 11 {
      assert (k + 1) / 12 == y && (k + 1) % 12 == m + 1;
    } else {
      assert (k + 1) / 12 == y + 1 && (k + 1) % 12 == 0;
      LeapDay(y);
    }
  }

  lemma {:induction false} MonthsIncrease(j: int, k: int)
    requires j < k
    ensures MonthStart(j) + 28 <= MonthStart(k)
    decreases k - j
  {
    hide MonthStart;
    NextMonth(k - 1);
    if j < k - 1 {
      MonthsIncrease(j, k - 1);
    }
  }

  /** The month that day `n` lies in, searched for from month `k`. */
  function MonthOf(n: int, k: int): (m: int)
    ensures MonthStart(m) <= n < MonthStart(m + 1)
    decreases if n < MonthStart(k) then MonthStart(k) - n else if n >= MonthStart(k + 1) then n - MonthStart(k) else 0
  {
    hide MonthStart, LengthOfMonth;
    NextMonth(k);
    NextMonth(k - 1);
    if n < MonthStart(k) then MonthOf(n, k - 1)
    else if n >= MonthStart(k + 1) then MonthOf(n, k + 1)
    else k
  }

  lemma MonthOfIs(n: int, k: int)
    requires MonthStart(k) <= n < MonthStart(k + 1)
    ensures MonthOf(n, 1970 * 12) == k
  {
    hide MonthStart;
    var m := MonthOf(n, 1970 * 12);
    if m < k && m + 1 < k {
      MonthsIncrease(m + 1, k);
    }
    if k < m && k + 1 < m {
      MonthsIncrease(k + 1, m);
    }
  }

  /** mktime: fields outside their usual ranges carry over. */
  function Mktime(tm: Tm, offset: int): int {
    (MonthStart(12 * tm.year + tm.mon) + tm.mday - 1) * DAY + tm.hour * 3600 + tm.min * 60 + tm.sec - offset
  }

  function DayOf(t: int, offset: int): int {
    (t + offset) / DAY
  }

  function SecondOfDay(t: int, offset: int): (s: int)
    ensures 0 <= s < DAY
  {
    (t + offset) % DAY
  }

  function MonthIndex(t: int, offset: int): int {
    MonthOf(DayOf(t, offset), 1970 * 12)
  }

  function DayOfMonth(t: int, offset: int): int {
    DayOf(t, offset) - MonthStart(MonthIndex(t, offset)) + 1
  }

  /** Sunday is 0; 1 January 1970 was a Thursday. */
  function Weekday(t: int, offset: int): int {
    (DayOf(t, offset) + 4) % 7
  }

  function Localtime(t: int, offset: int): Tm {
    var k, s := MonthIndex(t, offset), SecondOfDay(t, offset);
    Tm(k / 12, k % 12, DayOfMonth(t, offset), s / 3600, s % 3600 / 60, s % 60, Weekday(t, offset))
  }

  /** localtime_r and then mktime give the instant back. */
  lemma MktimeLocaltime(t: int, offset: int)
    ensures Mktime(Localtime(t, offset), offset) == t
  {
    hide MonthStart, MonthOf, MonthIndex;
    var k, s := MonthIndex(t, offset), SecondOfDay(t, offset);
    assert 12 * (k / 12) + k % 12 == k;
    assert s / 3600 * 3600 + s % 3600 / 60 * 60 + s % 60 == s;
    assert DayOf(t, offset) * DAY + s == t + offset;
  }

  lemma ClockParts(hh: int, mm: int)
    requires 0 <= hh < 24 && 0 <= mm < 60
    ensures var s := hh * 3600 + mm * 60;
            0 <= s < DAY && s / 3600 == hh && s % 3600 / 60 == mm && s % 60 == 0
  {
    var s := hh * 3600 + mm * 60;
    assert s % 3600 == mm * 60;
  }

  /** What localtime_r finds on day `mday` of month `k` at hh:mm. */
  lemma LocaltimeOn(k: int, mday: int, hh: int, mm: int, offset: int)
    requires 1 <= mday <= LengthOfMonth(k) && 0 <= hh < 24 && 0 <= mm < 60
    ensures var t := InstantOf(MonthStart(k) + mday - 1, hh * 3600 + mm * 60, offset);
            MonthIndex(t, offset) == k && DayOfMonth(t, offset) == mday &&
            Localtime(t, offset) == Tm(k / 12, k % 12, mday, hh, mm, 0, Weekday(t, offset))
  {
    hide MonthStart, MonthOf, LengthOfMonth;
    NextMonth(k);
    ClockParts(hh, mm);
    MonthOfIs(MonthStart(k) + mday - 1, k);
    InstantParts(MonthStart(k) + mday - 1, hh * 3600 + mm * 60, offset);
  }

  /** The instant of a day and a second within it. */
  function InstantOf(day: int, second: int, offset: int): int {
    day * DAY + second - offset
  }

  lemma InstantParts(day: int, second: int, offset: int)
    requires 0 <= second < DAY
    ensures DayOf(InstantOf(day, second, offset), offset) == day
    ensures SecondOfDay(InstantOf(day, second, offset), offset) == second
  {
  }

  lemma InstantAgain(t: int, offset: int)
    ensures InstantOf(DayOf(t, offset), SecondOfDay(t, offset), offset) == t
  {
  }
}
