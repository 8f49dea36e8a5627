/**
 When a poll started now will close. Instants are milliseconds since the start of
 year 0 of the proleptic Gregorian calendar, in UTC.
 */
module PollCalendar {

  const DAY: int := 86_400_000

  // ----- the calendar

  predicate IsLeap(year: int)
  {
    year % 4 == 0 && (year % 100 != 0 || year % 400 == 0)
  }

  /** Months are numbered through: month 12 * y + k is month k + 1 of year y. */
  function DaysInMonth(month: int): int
  {
    var k := month % 12;
    if k == 1 then (if IsLeap(month / 12) then 29 else 28)
    else if k == 3 || k == 5 || k == 8 || k == 10 then 30
    else 31
  }

  /** Days before the first of January. */
  function DaysBeforeYear(year: int): int
  {
    365 * year + (year + 3) / 4 - (year + 99) / 100 + (year + 399) / 400
  }

  function DaysBeforeMonthInYear(k: int, leap: bool): int
    requires 0 <= k < 12
  {
    var shift := if leap then 1 else 0;
    if k == 0 then 0 else if k == 1 then 31 else if k == 2 then 59 + shift
    else if k == 3 then 90 + shift else if k == 4 then 120 + shift else if k == 5 then 151 + shift
    else if k == 6 then 181 + shift else if k == 7 then 212 + shift else if k == 8 then 243 + shift
    else if k == 9 then 273 + shift else if k == 10 then 304 + shift else 334 + shift
  }

  /** The day a month starts on. */
  function MonthStart(month: int): int
  {
    DaysBeforeYear(month / 12) + DaysBeforeMonthInYear(month % 12, IsLeap(month / 12))
  }

  lemma YearLength(year: int)
    ensures DaysBeforeYear(year + 1) == DaysBeforeYear(year) + if IsLeap(year) then 366 else 365
  {
    LeapStep4(year);
    LeapStep100(year);
    LeapStep400(year);
    LeapCount(year);
  }

  lemma LeapCount(year: int)
    ensures (if year % 4 == 0 then 1 else 0) - (if year % 100 == 0 then 1 else 0) + (if year % 400 == 0 then 1 else 0)
         == if IsLeap(year) then 1 else 0
  {
  }

  /** Counting the multiples of 4, 100 and 400 below a year. */
  lemma LeapStep4(year: int)
    ensures (year + 1 + 3) / 4 == (year + 3) / 4 + if year % 4 == 0 then 1 else 0
  {
  }

  lemma LeapStep100(year: int)
    ensures (year + 1 + 99) / 100 == (year + 99) / 100 + if year % 100 == 0 then 1 else 0
  {
  }

  lemma LeapStep400(year: int)
    ensures (year + 1 + 399) / 400 == (year + 399) / 400 + if year % 400 == 0 then 1 else 0
  {
  }

  /** The closed formula agrees with the lengths of the months. */
  lemma MonthStartStep(month: int)
    ensures MonthStart(month + 1) == MonthStart(month) + DaysInMonth(month)
  {
    var year, k := month / 12, month % 12;
    if k == 11 {
      assert (month + 1) / 12 == year + 1 && (month + 1) % 12 == 0;
      YearLength(year);
    } else {
      assert (month + 1) / 12 == year && (month + 1) % 12 == k + 1;
    }
  }

  lemma MonthLengths(month: int)
    ensures 28 <= DaysInMonth(month) <= 31
  {
  }

  lemma MonthsAdvance(month: int)
    ensures MonthStart(month) + 28 <= MonthStart(month + 1)
  {
    hide MonthStart, DaysInMonth;
    MonthStartStep(month);
    MonthLengths(month);
  }

  lemma {:induction false} MonthStartMonotone(month: int, later: int)
    requires month <= later
    ensures MonthStart(month) <= MonthStart(later)
    decreases later - month
  {
    hide *;
    if month < later {
      MonthsAdvance(month);
      MonthStartMonotone(month + 1, later);
    }
  }

  /** The month that contains a day, searched for from month `guess`. */
  function FindMonth(day: int, guess: int): (month: int)
    ensures MonthStart(month) <= day < MonthStart(month + 1)
    decreases if day < MonthStart(guess) then MonthStart(guess) - day
              else if day >= MonthStart(guess + 1) then day - MonthStart(guess + 1) + 1 else 0
  {
    hide MonthStart;
    MonthStartStep(guess - 1);
    MonthStartStep(guess);
    MonthStartStep(guess + 1);
    if day < MonthStart(guess) then FindMonth(day, guess - 1)
    else if day >= MonthStart(guess + 1) then FindMonth(day, guess + 1)
    else guess
  }

  function DayOf(t: int): int
  {
    t / DAY
  }

  function MonthOf(t: int): int
  {
    FindMonth(DayOf(t), 0)
  }

  /** Day of the month, counted from one. */
  function DayOfMonth(t: int): int
  {
    DayOf(t) - MonthStart(MonthOf(t)) + 1
  }

  function TimeOfDay(t: int): int
  {
    t % DAY
  }

  lemma MonthIsUnique(day: int, month: int, month': int)
    requires MonthStart(month) <= day < MonthStart(month + 1)
    requires MonthStart(month') <= day < MonthStart(month' + 1)
    ensures month == month'
  {
    hide MonthStart;
    if month < month' {
      MonthStartMonotone(month + 1, month');
    } else if month' < month {
      MonthStartMonotone(month' + 1, month);
    }
  }

  function StartOfMonth(t: int): int
  {
    MonthStart(MonthOf(t)) * DAY
  }

  /** The last millisecond of the month. */
  function EndOfMonth(t: int): int
  {
    MonthStart(MonthOf(t) + 1) * DAY - 1
  }

  lemma MonthContains(t: int)
    ensures StartOfMonth(t) <= t <= EndOfMonth(t)
    ensures EndOfMonth(t) + 1 - StartOfMonth(t) == DaysInMonth(MonthOf(t)) * DAY
  {
    hide MonthStart, FindMonth, DaysInMonth;
    var m := MonthOf(t);
    MonthStartStep(m);
    assert MonthStart(m) <= DayOf(t) < MonthStart(m + 1);
  }

  // ----- the closing time

  function AddDays(t: int, days: int): int
  {
    t + days * DAY
  }

  /**
   The source's own comment speaks of the 1st or 15th of the month; the instants it
   computes are the start of the 16th, and the last millisecond of the 1st and of the 15th.
   */
  function NextOffchainPollEndingTime(now: int): int
  {
    var t1 := AddDays(StartOfMonth(now), 15);
    var t2 := AddDays(EndOfMonth(now), 1);
    var t3 := AddDays(EndOfMonth(now), 15);
    var earliestPossible := AddDays(now, 5);
    if t1 > earliestPossible then t1
    else if t2 > earliestPossible then t2
    else t3
  }

  /** A poll is open for strictly more than 5 and strictly less than 22 days. */
  lemma PollDuration(now: int)
    ensures AddDays(now, 5) < NextOffchainPollEndingTime(now) < AddDays(now, 22)
    ensures AddDays(now, 5) == now + 432_000_000 && AddDays(now, 22) == now + 1_900_800_000
  {
    hide StartOfMonth, EndOfMonth, DaysInMonth, MonthOf;
    MonthContains(now);
    MonthLengths(MonthOf(now));
    var length := DaysInMonth(MonthOf(now)) * DAY;
    assert 28 * DAY <= length <= 31 * DAY;
  }

  /** Both bounds are as tight as milliseconds allow. */
  lemma PollDurationIsTight(start: int, month: int)
    requires MonthStart(month) * DAY == start && DaysInMonth(month) == 31
    ensures NextOffchainPollEndingTime(AddDays(start, 10)) == AddDays(AddDays(start, 10), 22) - 1
    ensures NextOffchainPollEndingTime(AddDays(start, 10) - 1) == AddDays(AddDays(start, 10) - 1, 5) + 1
  {
    hide MonthStart;
    MonthStartStep(month);
    InMonth(AddDays(start, 10), month);
    InMonth(AddDays(start, 10) - 1, month);
  }

  lemma InMonth(t: int, month: int)
    requires MonthStart(month) * DAY <= t < MonthStart(month + 1) * DAY
    ensures MonthOf(t) == month
    ensures StartOfMonth(t) == MonthStart(month) * DAY && EndOfMonth(t) == MonthStart(month + 1) * DAY - 1
  {
    hide MonthStart;
    assert MonthStart(month) <= DayOf(t) < MonthStart(month + 1);
    MonthIsUnique(DayOf(t), MonthOf(t), month);
  }

  /** A poll started later never closes earlier, within a month and across month and year ends. */
  lemma PollEndIsMonotone(now: int, later: int)
    requires now <= later
    ensures NextOffchainPollEndingTime(now) <= NextOffchainPollEndingTime(later)
  {
    hide MonthStart, FindMonth;
    MonthContains(now);
    MonthContains(later);
    var m, m' := MonthOf(now), MonthOf(later);
    if m < m' {
      MonthStartMonotone(m + 1, m');
    } else if m' < m {
      MonthStartMonotone(m' + 1, m);
    }
  }

  /** The poll closes at one of three instants of a month. */
  lemma PollEndsOnSchedule(now: int)
    ensures var end := NextOffchainPollEndingTime(now);
      || (MonthOf(end) == MonthOf(now) && DayOfMonth(end) == 16 && TimeOfDay(end) == 0)
      || (MonthOf(end) == MonthOf(now) + 1 && DayOfMonth(end) == 1 && TimeOfDay(end) == DAY - 1)
      || (MonthOf(end) == MonthOf(now) + 1 && DayOfMonth(end) == 15 && TimeOfDay(end) == DAY - 1)
    ensures DayOfMonth(NextOffchainPollEndingTime(now)) == 16 <==> DayOfMonth(now) <= 10
    ensures DayOfMonth(NextOffchainPollEndingTime(now)) == 1 <==> DayOfMonth(now) > 10 && AddDays(now, 4) < EndOfMonth(now)
    ensures DayOfMonth(NextOffchainPollEndingTime(now)) == 15 <==> AddDays(now, 4) >= EndOfMonth(now)
  {
    hide MonthStart, FindMonth, DaysInMonth;
    var m, end := MonthOf(now), NextOffchainPollEndingTime(now);
    MonthContains(now);
    MonthsAdvance(m);
    MonthsAdvance(m + 1);
    if end == AddDays(StartOfMonth(now), 15) {
      InMonth(end, m);
    } else {
      InMonth(end, m + 1);
    }
  }

  /** What the source promises: the poll closes on the 1st or on the 15th. */
  predicate ClosesOn1stOr15th(now: int)
  {
    DayOfMonth(NextOffchainPollEndingTime(now)) in {1, 15}
  }

  /** The promise is kept exactly for polls started after the 10th of a month. */
  lemma PromisedDayIff(now: int)
    ensures ClosesOn1stOr15th(now) <==> DayOfMonth(now) > 10
  {
    hide DayOfMonth, NextOffchainPollEndingTime, EndOfMonth, AddDays;
    PollEndsOnSchedule(now);
  }

  /** A poll started at midnight on 1 June 2021 closes on the 16th. */
  lemma JunePollClosesOnThe16th()
    ensures var now := MonthStart(12 * 2021 + 5) * DAY;
      && DayOfMonth(now) == 1
      && DayOfMonth(NextOffchainPollEndingTime(now)) == 16
      && !ClosesOn1stOr15th(now)
  {
    var now := MonthStart(12 * 2021 + 5) * DAY;
    assert DayOfMonth(now) == 1 by {
      hide MonthStart, FindMonth;
      MonthsAdvance(12 * 2021 + 5);
      InMonth(now, 12 * 2021 + 5);
    }
    hide *;
    PollEndsOnSchedule(now);
    PromisedDayIff(now);
  }

  // ----- the calendar, checked against known dates

  /** The start of a month by its year and its number. */
  lemma MonthOfYear(year: int, k: int)
    requires 0 <= k < 12
    ensures MonthStart(12 * year + k) == DaysBeforeYear(year) + DaysBeforeMonthInYear(k, IsLeap(year))
    ensures DaysInMonth(12 * year + k) ==
            if k in {3, 5, 8, 10} then 30 else if k != 1 then 31
            else if year % 400 == 0 || (year % 4 == 0 && year % 100 != 0) then 29 else 28
  {
    assert (12 * year + k) / 12 == year && (12 * year + k) % 12 == k;
    LeapYears(year);
  }

  lemma LeapYears(year: int)
    ensures IsLeap(year) <==> year % 400 == 0 || (year % 4 == 0 && year % 100 != 0)
  {
  }

  /** Day 0 is 1 January of year 0; 400 years have 146097 days. */
  lemma CalendarIsGregorian(year: int, k: int)
    requires 0 <= k < 12
    ensures MonthStart(12 * 0 + 0) == 0
    ensures MonthStart(12 * (year + 400) + k) == MonthStart(12 * year + k) + 146097
  {
    hide *;
    MonthOfYear(0, 0);
    MonthOfYear(year, k);
    MonthOfYear(year + 400, k);
    YearZero();
    LeapsRepeat(year);
  }

  lemma YearZero()
    ensures DaysBeforeYear(0) == 0 && forall leap :: DaysBeforeMonthInYear(0, leap) == 0
  {
  }

  lemma LeapsRepeat(year: int)
    ensures IsLeap(year + 400) == IsLeap(year)
    ensures DaysBeforeYear(year + 400) == DaysBeforeYear(year) + 146097
  {
    Quarters(year);
    Quarters(year + 3);
    Centuries(year);
    Centuries(year + 99);
    Quadricentennials(year);
    Quadricentennials(year + 399);
  }

  lemma Quarters(x: int)
    ensures (x + 400) / 4 == x / 4 + 100 && (x + 400) % 4 == x % 4
  {
  }

  lemma Centuries(x: int)
    ensures (x + 400) / 100 == x / 100 + 4 && (x + 400) % 100 == x % 100
  {
  }

  lemma Quadricentennials(x: int)
    ensures (x + 400) / 400 == x / 400 + 1 && (x + 400) % 400 == x % 400
  {
  }

  /** Days since 1 January 1970 of 1 March 1900, 2000, 2019 and 2020, and of 1 June 2019. */
  lemma KnownDates()
    ensures var epoch := MonthStart(12 * 1970 + 0);
      && MonthStart(12 * 1900 + 2) == epoch - 25508
      && MonthStart(12 * 2000 + 2) == epoch + 11017
      && MonthStart(12 * 2019 + 2) == epoch + 17956
      && MonthStart(12 * 2020 + 2) == epoch + 18322
      && MonthStart(12 * 2019 + 5) == epoch + 18048
  {
    hide *;
    MonthOfYear(1970, 0);
    MonthOfYear(1900, 2);
    MonthOfYear(2000, 2);
    MonthOfYear(2019, 2);
    MonthOfYear(2020, 2);
    MonthOfYear(2019, 5);
    KnownYears();
  }

  lemma KnownYears()
    ensures DaysBeforeYear(1970) + DaysBeforeMonthInYear(0, IsLeap(1970)) == 719528
    ensures DaysBeforeYear(1900) + DaysBeforeMonthInYear(2, IsLeap(1900)) == 694020
    ensures DaysBeforeYear(2000) + DaysBeforeMonthInYear(2, IsLeap(2000)) == 730545
    ensures DaysBeforeYear(2019) + DaysBeforeMonthInYear(2, IsLeap(2019)) == 737484
    ensures DaysBeforeYear(2020) + DaysBeforeMonthInYear(2, IsLeap(2020)) == 737850
    ensures DaysBeforeYear(2019) + DaysBeforeMonthInYear(5, IsLeap(2019)) == 737576
  {
  }
}
