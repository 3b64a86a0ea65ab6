/** The card's own day count in `components/SubscriptionCard.tsx`. Unlike
    the schedule in the date engine, it starts from the start date's
    midnight and, once that has passed, adds a flat 30 or 365 days, once. */
module SubscriptionCard {
  import opened Calendar
  import opened Types
  import opened DateUtils
  import ProgressBar

  /** The days added to a start date that has passed. */
  function DaysToAdd(duration: Duration): int {
    if duration == Monthly then 30 else 365
  }

  /** `calculateDaysUntilPayment` of the card. */
  function CardDaysUntilPayment(start: ValidDate, duration: Duration, now: int): (r: int)
    ensures var due := if Instant(start) < now then Instant(start) + DaysToAdd(duration) * MsPerDay
                       else Instant(start);
            (r - 1) * MsPerDay < due - now <= r * MsPerDay
  {
    var next := if Instant(start) < now then Instant(start) + DaysToAdd(duration) * MsPerDay
                else Instant(start);
    CeilDays(next - now)
  }

  /** The "Due Soon" badge. */
  predicate IsDueSoon(days: int) {
    days <= 2
  }

  // ---------------------------------------------------------------------
  // Properties

  /** Adding whole days moves the ceiling by exactly that many days. */
  lemma CeilDaysShift(ms: int, k: int)
    ensures CeilDays(ms + k * MsPerDay) == CeilDays(ms) + k
  {
    var a, b := CeilDays(ms), CeilDays(ms + k * MsPerDay);
    assert (a + k - 1) * MsPerDay < ms + k * MsPerDay <= (a + k) * MsPerDay;
  }

  /** A start date not yet reached is counted as it is. */
  lemma FutureStartUnshifted(start: ValidDate, duration: Duration, now: int)
    requires now <= Instant(start)
    ensures CardDaysUntilPayment(start, duration, now) == CeilDays(Instant(start) - now)
  {
  }

  /** A passed start date is shifted by one flat period, exactly once. */
  lemma PastStartShiftedOnce(start: ValidDate, duration: Duration, now: int)
    requires Instant(start) < now
    ensures CardDaysUntilPayment(start, duration, now)
            == CeilDays(Instant(start) - now) + DaysToAdd(duration)
  {
    CeilDaysShift(Instant(start) - now, DaysToAdd(duration));
  }

  /** More than one flat period in the past, the count is negative. */
  lemma LongPastStillNegative(start: ValidDate, duration: Duration, now: int)
    requires Instant(start) + (DaysToAdd(duration) + 1) * MsPerDay <= now
    ensures CardDaysUntilPayment(start, duration, now) < 0
  {
    var r := CardDaysUntilPayment(start, duration, now);
    var due := Instant(start) + DaysToAdd(duration) * MsPerDay;
    assert due - now <= -MsPerDay;
  }

  /** A start date of today counts 0 at midnight itself, but the full 30 or
      365 days once now is later that day. */
  lemma StartTodayShiftedAfterMidnight(start: ValidDate, duration: Duration, now: int)
    requires Instant(start) <= now < Instant(start) + MsPerDay
    ensures now == Instant(start) ==> CardDaysUntilPayment(start, duration, now) == 0
    ensures now > Instant(start) ==> CardDaysUntilPayment(start, duration, now) == DaysToAdd(duration)
  {
    if now > Instant(start) {
      PastStartShiftedOnce(start, duration, now);
      assert CeilDays(Instant(start) - now) == 0;
    }
  }

  /** The badge shows for every overdue count and for the red band. */
  lemma DueSoonIsRedOrOverdue(days: int)
    ensures IsDueSoon(days) <==> days < 0 || ProgressBar.ColorClasses(days) == Red
  {
  }
}
