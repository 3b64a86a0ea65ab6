/** A proleptic Gregorian calendar with the day-number arithmetic that
    ECMAScript `Date` uses (section 21.4.1 of ECMA-262): `DayFromYear`,
    the cumulative month table and `MakeDay`, whose day-of-month overflow
    rolls forward into the following months. All dates are read in one
    uniform time zone. */
module Calendar {

  /** Milliseconds in a day (`1000 * 3600 * 24` in the source). */
  const MsPerDay: int := 86_400_000

  /** A calendar date; `month` runs 1..12 (ECMAScript counts 0..11). */
  datatype Date = Date(year: int, month: int, day: int) {
    predicate Valid() {
      1 <= month <= 12 && 1 <= day <= DaysInMonth(year, month)
    }
  }

  type ValidDate = d: Date | d.Valid() witness Date(1970, 1, 1)

  predicate IsLeapYear(y: int) {
    y % 4 == 0 && (y % 100 != 0 || y % 400 == 0)
  }

  function DaysInYear(y: int): int {
    if IsLeapYear(y) then 366 else 365
  }

  function DaysInMonth(y: int, m: int): (n: int)
    ensures 28 <= n <= 31
  {
    if m == 2 then (if IsLeapYear(y) then 29 else 28)
    else if m == 4 || m == 6 || m == 9 || m == 11 then 30
    else 31
  }

  /** Day number of January 1 of `y`, counted from 1970-01-01: the sum of
      the lengths of the years in between. */
  function DayFromYear(y: int): int
    decreases if y < 1970 then 1970 - y else y - 1970
  {
    if y == 1970 then 0
    else if y > 1970 then DayFromYear(y - 1) + DaysInYear(y - 1)
    else DayFromYear(y + 1) - DaysInYear(y)
  }

  /** Consecutive years are `DaysInYear` apart. */
  lemma YearLength(y: int)
    ensures DayFromYear(y + 1) == DayFromYear(y) + DaysInYear(y)
  {
  }

  /** The closed form ECMA-262 gives for `DayFromYear` (section 21.4.1.3)
      agrees with the year-by-year sum. */
  lemma {:induction false} DayFromYearClosedForm(y: int)
    ensures DayFromYear(y)
            == 365 * (y - 1970) + (y - 1969) / 4 - (y - 1901) / 100 + (y - 1601) / 400
    decreases if y < 1970 then 1970 - y else y - 1970
  {
    if y > 1970 {
      DayFromYearClosedForm(y - 1);
      ClosedFormStep(y - 1);
    } else if y < 1970 {
      DayFromYearClosedForm(y + 1);
      ClosedFormStep(y);
    }
  }

  /** The closed form grows by `DaysInYear` from one year to the next. */
  lemma ClosedFormStep(y: int)
    ensures (365 * (y + 1 - 1970) + (y + 1 - 1969) / 4 - (y + 1 - 1901) / 100 + (y + 1 - 1601) / 400)
            - (365 * (y - 1970) + (y - 1969) / 4 - (y - 1901) / 100 + (y - 1601) / 400)
            == DaysInYear(y)
  {
    FloorStep(y - 1969, 4);
    assert (y - 1968) % 4 == y % 4;
    FloorStep(y - 1901, 100);
    assert (y - 1900) % 100 == y % 100;
    FloorStep(y - 1601, 400);
    assert (y - 1600) % 400 == y % 400;
  }

  /** Floor division by `d` steps up by one exactly when the next value is
      a multiple of `d`. */
  lemma FloorStep(a: int, d: int)
    requires d in {4, 100, 400}
    ensures (a + 1) / d - a / d == (if (a + 1) % d == 0 then 1 else 0)
  {
    var q, r := a / d, a % d;
    assert a == d * q + r && 0 <= r < d;
    if r == d - 1 {
      assert a + 1 == d * (q + 1);
    } else {
      assert a + 1 == d * q + (r + 1);
    }
  }

  /** Days of year `y` before the first of month `m`. */
  function DaysBeforeMonth(y: int, m: int): int
    requires 1 <= m <= 12
  {
    var table := [0, 31, 59, 90, 120, 151, 181, 212, 243, 273, 304, 334];
    table[m - 1] + (if m > 2 && IsLeapYear(y) then 1 else 0)
  }

  /** Day number of `d`, counted from 1970-01-01 (day 0). For a day-of-month
      beyond the month's length this is MakeDay's arithmetic continuation. */
  function DayNumber(d: Date): int
    requires 1 <= d.month <= 12
  {
    DayFromYear(d.year) + DaysBeforeMonth(d.year, d.month) + d.day - 1
  }

  /** The (year, month) after (`y`, `m`). */
  function NextMonth(y: int, m: int): (r: (int, int))
    requires 1 <= m <= 12
    ensures 1 <= r.1 <= 12
    ensures 12 * r.0 + r.1 == 12 * y + m + 1
  {
    if m == 12 then (y + 1, 1) else (y, m + 1)
  }

  /** The first of the next month is `DaysInMonth` days after the first of
      this one. */
  lemma MonthLength(y: int, m: int)
    requires 1 <= m <= 12
    ensures DayNumber(Date(NextMonth(y, m).0, NextMonth(y, m).1, 1))
            == DayNumber(Date(y, m, 1)) + DaysInMonth(y, m)
  {
    if m == 12 {
      YearLength(y);
    }
  }

  /** MakeDay followed by the conversion back to a calendar date: a
      day-of-month that overflows month `m` carries into the months after it.
      With `1 <= day` and `m` a real month this is what ECMAScript computes
      for `new Date(y, m - 1, day)`. */
  function Normalize(y: int, m: int, day: int): (d: Date)
    requires 1 <= m <= 12 && 1 <= day
    ensures d.Valid()
    ensures DayNumber(d) == DayNumber(Date(y, m, 1)) + day - 1
    decreases day
  {
    if day <= DaysInMonth(y, m) then Date(y, m, day)
    else
      var next := NextMonth(y, m);
      MonthLength(y, m);
      Normalize(next.0, next.1, day - DaysInMonth(y, m))
  }

  /** A day-of-month at most 28 past the end of its month lands in the
      following month. */
  lemma NormalizeOverflowOnce(y: int, m: int, day: int)
    requires 1 <= m <= 12 && 1 <= day <= DaysInMonth(y, m) + 28
    ensures var d := Normalize(y, m, day);
            var len := DaysInMonth(y, m);
            if day <= len then d == Date(y, m, day)
            else MonthIndex(d) == MonthIndex(Date(y, m, 1)) + 1 && d.day == day - len
  {
    var len := DaysInMonth(y, m);
    if day > len {
      var next := NextMonth(y, m);
      assert Normalize(y, m, day) == Normalize(next.0, next.1, day - len);
      assert Normalize(next.0, next.1, day - len) == Date(next.0, next.1, day - len);
    }
  }

  /** A date's place in the sequence of months. */
  function MonthIndex(d: Date): int {
    12 * d.year + d.month - 1
  }

  /** Day number of the first of the month with index `k`. */
  function FirstOfMonth(k: int): int {
    DayNumber(Date(k / 12, k % 12 + 1, 1))
  }

  lemma FirstOfMonthStep(k: int)
    ensures FirstOfMonth(k + 1) == FirstOfMonth(k) + DaysInMonth(k / 12, k % 12 + 1)
  {
    var y, m := k / 12, k % 12 + 1;
    MonthLength(y, m);
    var next := NextMonth(y, m);
    assert 12 * next.0 + next.1 == k + 2;
    assert (k + 1) / 12 == next.0 && (k + 1) % 12 + 1 == next.1;
  }

  /** A sequence of integers that grows at every step grows overall. */
  lemma {:induction false} StepwiseIncreasing(f: int -> int, j: int, k: int)
    requires forall i :: f(i) < f(i + 1)
    requires j < k
    ensures f(j) < f(k)
    decreases k - j
  {
    if j + 1 < k {
      StepwiseIncreasing(f, j + 1, k);
    }
  }

  /** Months start in increasing order. */
  lemma FirstOfMonthIncreasing(j: int, k: int)
    requires j < k
    ensures FirstOfMonth(j) < FirstOfMonth(k)
  {
    forall i ensures FirstOfMonth(i) < FirstOfMonth(i + 1) {
      FirstOfMonthStep(i);
    }
    StepwiseIncreasing(FirstOfMonth, j, k);
  }

  lemma FirstOfMonthMonotone(j: int, k: int)
    requires j <= k
    ensures FirstOfMonth(j) <= FirstOfMonth(k)
  {
    if j < k {
      FirstOfMonthIncreasing(j, k);
    }
  }

  /** A valid date lies between the first of its month and the first of
      the next month. */
  lemma WithinMonth(d: Date)
    requires d.Valid()
    ensures FirstOfMonth(MonthIndex(d)) <= DayNumber(d) < FirstOfMonth(MonthIndex(d) + 1)
  {
    var k := MonthIndex(d);
    assert k / 12 == d.year && k % 12 + 1 == d.month;
    FirstOfMonthStep(k);
  }

  /** Calendar order: year, then month, then day. */
  predicate Before(a: Date, b: Date) {
    a.year < b.year
    || (a.year == b.year && a.month < b.month)
    || (a.year == b.year && a.month == b.month && a.day < b.day)
  }

  /** Calendar order compares month indices first, then days. */
  lemma BeforeByMonthIndex(a: Date, b: Date)
    requires 1 <= a.month <= 12 && 1 <= b.month <= 12
    ensures Before(a, b) <==>
              MonthIndex(a) < MonthIndex(b) || (MonthIndex(a) == MonthIndex(b) && a.day < b.day)
    ensures MonthIndex(a) == MonthIndex(b) ==> a.year == b.year && a.month == b.month
  {
  }

  /** A valid date of an earlier month has a smaller day number. */
  lemma EarlierMonth(a: Date, b: Date)
    requires a.Valid() && b.Valid()
    requires MonthIndex(a) < MonthIndex(b)
    ensures DayNumber(a) < DayNumber(b)
  {
    var i, j := MonthIndex(a), MonthIndex(b);
    var hiA, loB := FirstOfMonth(i + 1), FirstOfMonth(j);
    assert DayNumber(a) < hiA by { WithinMonth(a); }
    assert loB <= DayNumber(b) by { WithinMonth(b); }
    assert hiA <= loB by { FirstOfMonthMonotone(i + 1, j); }
  }

  /** Day numbers follow calendar order on valid dates. */
  lemma DayNumberOrder(a: Date, b: Date)
    requires a.Valid() && b.Valid()
    ensures Before(a, b) <==> DayNumber(a) < DayNumber(b)
  {
    BeforeByMonthIndex(a, b);
    if MonthIndex(a) < MonthIndex(b) {
      EarlierMonth(a, b);
    } else if MonthIndex(b) < MonthIndex(a) {
      EarlierMonth(b, a);
    }
  }
}
