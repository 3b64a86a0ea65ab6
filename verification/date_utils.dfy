/** The billing-date engine of `services/dateUtils.ts`: month and year
    addition with ECMAScript `Date` normalisation, the one-period roll
    forward of a subscription's schedule, the ceiling day difference and the
    cadence-dependent colour bands. "Now" is a parameter, in milliseconds. */
module DateUtils {
  import opened Wrappers
  import opened Calendar
  import opened Types

  /** `setMonth(getMonth() + months)`: the month index moves by `months`
      (carrying into the year) and a day-of-month the target month lacks
      overflows into the month after it; nothing is clamped. */
  function AddMonthsToDate(d: ValidDate, months: int): (r: ValidDate)
    ensures var t := MonthIndex(d) + months;
            var len := DaysInMonth(t / 12, t % 12 + 1);
            if d.day <= len then MonthIndex(r) == t && r.day == d.day
            else MonthIndex(r) == t + 1 && r.day == d.day - len
    ensures DayNumber(r) == FirstOfMonth(MonthIndex(d) + months) + d.day - 1
  {
    var t := MonthIndex(d) + months;
    assert MonthIndex(Date(t / 12, t % 12 + 1, 1)) == t;
    NormalizeOverflowOnce(t / 12, t % 12 + 1, d.day);
    Normalize(t / 12, t % 12 + 1, d.day)
  }

  /** `setFullYear(getFullYear() + years)`: month and day are kept, except
      that February 29 becomes March 1 in a year without one. */
  function AddYearsToDate(d: ValidDate, years: int): (r: ValidDate)
    ensures d.month == 2 && d.day == 29 && !IsLeapYear(d.year + years)
            ==> r == Date(d.year + years, 3, 1)
    ensures !(d.month == 2 && d.day == 29) || IsLeapYear(d.year + years)
            ==> r == Date(d.year + years, d.month, d.day)
  {
    Normalize(d.year + years, d.month, d.day)
  }

  /** One billing period after `d`. */
  function AdvanceOnePeriod(d: ValidDate, duration: Duration): ValidDate {
    if duration == Monthly then AddMonthsToDate(d, 1) else AddYearsToDate(d, 1)
  }

  /** The instant of a date: its midnight, in milliseconds since the epoch. */
  function Instant(d: ValidDate): int {
    DayNumber(d) * MsPerDay
  }

  /** A payment is due once its date's midnight is not after now. A missing
      date parses to an invalid `Date`, which is never `<=` anything. */
  predicate IsDue(s: Subscription, now: int) {
    s.nextPaymentDate.Some? && Instant(s.nextPaymentDate.value) <= now
  }

  /** `updatePaymentDates`: a due subscription moves its schedule forward by
      exactly one period; any other subscription is returned as it is. */
  function UpdatePaymentDates(s: Subscription, now: int): (r: Subscription)
    ensures !IsDue(s, now) ==> r == s
    ensures IsDue(s, now) ==>
              && r.lastPaymentDate == s.nextPaymentDate
              && r.nextPaymentDate == Some(AdvanceOnePeriod(s.nextPaymentDate.value, s.duration))
              && Before(s.nextPaymentDate.value, r.nextPaymentDate.value)
    ensures r.(lastPaymentDate := s.lastPaymentDate, nextPaymentDate := s.nextPaymentDate) == s
  {
    if IsDue(s, now) then
      var next := s.nextPaymentDate.value;
      AdvanceIsLater(next, s.duration);
      s.(lastPaymentDate := Some(next), nextPaymentDate := Some(AdvanceOnePeriod(next, s.duration)))
    else
      s
  }

  /** `Math.ceil(ms / 86_400_000)` on an exact integer difference. */
  function CeilDays(ms: int): (n: int)
    ensures (n - 1) * MsPerDay < ms <= n * MsPerDay
  {
    -((-ms) / MsPerDay)
  }

  /** `calculateDaysUntilPayment`: whole days, rounded up, from now to the
      next payment's midnight; no value (`NaN` in the source) when the
      subscription has no next payment date. */
  function CalculateDaysUntilPayment(s: Subscription, now: int): (r: Option<int>)
    ensures r.Some? <==> s.nextPaymentDate.Some?
    ensures r.Some? ==>
              var diff := Instant(s.nextPaymentDate.value) - now;
              (r.value - 1) * MsPerDay < diff <= r.value * MsPerDay
  {
    match s.nextPaymentDate
    case None => None
    case Some(next) => Some(CeilDays(Instant(next) - now))
  }

  /** The five Tailwind colour families the bars and labels use. */
  datatype Tone = Blue | Green | Orange | Red | Slate

  /** A bar colour and a text colour (`bg-*-500`, `text-*-400`). */
  datatype ColourPair = ColourPair(bar: Tone, text: Tone)

  /** `getProgressBarConfig`: annual schedules are blue beyond 30 days,
      monthly ones only from 15 to 31 days; everything outside the listed
      ranges is slate. */
  function GetProgressBarConfig(days: int, duration: Duration): (r: ColourPair)
    ensures r.bar == r.text
    ensures duration == Annually ==>
              && (r.bar == Blue <==> days > 30)
              && (r.bar == Green <==> 15 <= days <= 30)
              && (r.bar == Orange <==> 5 <= days <= 14)
              && (r.bar == Red <==> 0 <= days <= 4)
              && (r.bar == Slate <==> days < 0)
    ensures duration == Monthly ==>
              && (r.bar == Blue <==> 15 <= days <= 31)
              && (r.bar == Green <==> 10 <= days <= 14)
              && (r.bar == Orange <==> 3 <= days <= 9)
              && (r.bar == Red <==> 0 <= days <= 2)
              && (r.bar == Slate <==> days < 0 || days > 31)
  {
    var tone :=
      if duration == Annually then
        if days > 30 then Blue
        else if days >= 15 then Green
        else if days >= 5 then Orange
        else if days >= 0 then Red
        else Slate
      else
        if 15 <= days <= 31 then Blue
        else if 10 <= days <= 14 then Green
        else if 3 <= days <= 9 then Orange
        else if 0 <= days <= 2 then Red
        else Slate;
    ColourPair(tone, tone)
  }

  // ---------------------------------------------------------------------
  // Properties of the date arithmetic

  /** One period later is strictly later in the calendar. */
  lemma AdvanceIsLater(d: ValidDate, duration: Duration)
    ensures Before(d, AdvanceOnePeriod(d, duration))
    ensures DayNumber(d) < DayNumber(AdvanceOnePeriod(d, duration))
  {
    var r := AdvanceOnePeriod(d, duration);
    if duration == Monthly {
      AddMonthsIsLater(d, 1);
    } else {
      assert r.year == d.year + 1;
      DayNumberOrder(d, r);
    }
  }

  /** Adding one month keeps the day when the next month has it, and
      December carries into January of the following year. */
  lemma AddOneMonthKeepsDay(d: ValidDate)
    requires d.day <= DaysInMonth(NextMonth(d.year, d.month).0, NextMonth(d.year, d.month).1)
    ensures AddMonthsToDate(d, 1) == Date(NextMonth(d.year, d.month).0, NextMonth(d.year, d.month).1, d.day)
  {
    var r := AddMonthsToDate(d, 1);
    var t := MonthIndex(d) + 1;
    var n := NextMonth(d.year, d.month);
    assert t / 12 == n.0 && t % 12 + 1 == n.1;
    assert 12 * r.year + r.month == 12 * n.0 + n.1;
  }

  /** December plus one month is January of the next year, same day. */
  lemma DecemberCarries(d: ValidDate)
    requires d.month == 12
    ensures AddMonthsToDate(d, 1) == Date(d.year + 1, 1, d.day)
  {
    AddOneMonthKeepsDay(d);
  }

  /** A day the next month lacks rolls into the month after it, by the
      number of missing days. */
  lemma AddOneMonthOverflows(d: ValidDate)
    requires d.day > DaysInMonth(NextMonth(d.year, d.month).0, NextMonth(d.year, d.month).1)
    ensures var n := NextMonth(d.year, d.month);
            var len := DaysInMonth(n.0, n.1);
            AddMonthsToDate(d, 1) == Date(NextMonth(n.0, n.1).0, NextMonth(n.0, n.1).1, d.day - len)
  {
    var r := AddMonthsToDate(d, 1);
    var t := MonthIndex(d) + 1;
    var n := NextMonth(d.year, d.month);
    var n2 := NextMonth(n.0, n.1);
    assert t / 12 == n.0 && t % 12 + 1 == n.1;
    assert 12 * r.year + r.month == 12 * n2.0 + n2.1;
  }

  /** Adding one or more months always lands strictly later. */
  lemma AddMonthsIsLater(d: ValidDate, months: int)
    requires months >= 1
    ensures Before(d, AddMonthsToDate(d, months))
    ensures DayNumber(d) < DayNumber(AddMonthsToDate(d, months))
  {
    var r := AddMonthsToDate(d, months);
    assert MonthIndex(d) < MonthIndex(r);
    EarlierMonth(d, r);
    DayNumberOrder(d, r);
  }

  /** January 31 plus one month is in early March, never the end of
      February: March 3 in a common year, March 2 in a leap year. */
  lemma January31PlusOneMonth(y: int)
    ensures !IsLeapYear(y) ==> AddMonthsToDate(Date(y, 1, 31), 1) == Date(y, 3, 3)
    ensures IsLeapYear(y) ==> AddMonthsToDate(Date(y, 1, 31), 1) == Date(y, 3, 2)
  {
    AddOneMonthOverflows(Date(y, 1, 31));
  }

  /** February 29 plus one year is March 1; plus four years it is kept
      unless the target is a skipped century year. */
  lemma LeapDayPlusYears(y: int)
    requires IsLeapYear(y)
    ensures AddYearsToDate(Date(y, 2, 29), 1) == Date(y + 1, 3, 1)
    ensures IsLeapYear(y + 4) ==> AddYearsToDate(Date(y, 2, 29), 4) == Date(y + 4, 2, 29)
  {
  }

  // ---------------------------------------------------------------------
  // Properties of the roll forward

  /** After a roll forward that left the schedule in the future, another
      call changes nothing. */
  lemma UpdateSettles(s: Subscription, now: int)
    requires !IsDue(UpdatePaymentDates(s, now), now)
    ensures UpdatePaymentDates(UpdatePaymentDates(s, now), now) == UpdatePaymentDates(s, now)
  {
  }

  /** Only one period is added per call: when a whole period has elapsed
      since the old next date, the result is still due. */
  lemma UpdateAddsOnlyOnePeriod(s: Subscription, now: int)
    requires s.nextPaymentDate.Some?
    requires Instant(AdvanceOnePeriod(s.nextPaymentDate.value, s.duration)) <= now
    ensures IsDue(UpdatePaymentDates(s, now), now)
    ensures UpdatePaymentDates(s, now).nextPaymentDate
            == Some(AdvanceOnePeriod(s.nextPaymentDate.value, s.duration))
  {
    AdvanceIsLater(s.nextPaymentDate.value, s.duration);
  }

  // ---------------------------------------------------------------------
  // Properties of the day count

  /** The day count is positive exactly when the payment's midnight is
      after now. */
  lemma DaysPositiveIffFuture(s: Subscription, now: int)
    requires s.nextPaymentDate.Some?
    ensures CalculateDaysUntilPayment(s, now).value > 0 <==> Instant(s.nextPaymentDate.value) > now
  {
    var n := CalculateDaysUntilPayment(s, now).value;
    var diff := Instant(s.nextPaymentDate.value) - now;
    if n > 0 {
      assert (n - 1) * MsPerDay >= 0;
    } else {
      assert n * MsPerDay <= 0;
    }
  }

  /** During calendar day `today`, the count is the plain difference of day
      numbers: 0 on the day itself, 1 the day before, -1 the day after. */
  lemma DaysIsCalendarDifference(s: Subscription, now: int, today: int)
    requires s.nextPaymentDate.Some?
    requires today * MsPerDay <= now < (today + 1) * MsPerDay
    ensures CalculateDaysUntilPayment(s, now) == Some(DayNumber(s.nextPaymentDate.value) - today)
  {
    var k := DayNumber(s.nextPaymentDate.value) - today;
    var n := CalculateDaysUntilPayment(s, now).value;
    var diff := Instant(s.nextPaymentDate.value) - now;
    assert (k - 1) * MsPerDay < diff <= k * MsPerDay;
  }
}
