/** The proleptic Gregorian calendar and UTC instants, as the cost store's
    timestamps use them. */
module Calendar {

  /** The seconds of a day. */
  const DAY: nat := 86_400

  datatype Date = Date(year: nat, month: nat, day: nat)

  predicate IsLeap(y: nat) {
    y % 4 == 0 && (y % 100 != 0 || y % 400 == 0)
  }

  function DaysIn(y: nat, m: nat): nat {
    if m == 2 then (if IsLeap(y) then 29 else 28)
    else if m == 4 || m == 6 || m == 9 || m == 11 then 30 else 31
  }

  predicate ValidDate(d: Date) {
    1 <= d.month <= 12 && 1 <= d.day <= DaysIn(d.year, d.month)
  }

  function NextDay(d: Date): Date {
    if d.day < DaysIn(d.year, d.month) then d.(day := d.day + 1)
    else if d.month < 12 then Date(d.year, d.month + 1, 1)
    else Date(d.year + 1, 1, 1)
  }

  /** The date `n` days after 0000-01-01. */
  function DateOf(n: nat): (d: Date)
    ensures ValidDate(d)
  {
    if n == 0 then Date(0, 1, 1) else NextDay(DateOf(n - 1))
  }

  /** Calendar order. */
  predicate Before(a: Date, b: Date) {
    || a.year < b.year
    || (a.year == b.year && a.month < b.month)
    || (a.year == b.year && a.month == b.month && a.day < b.day)
  }

  lemma {:induction false} DatesAscend(a: nat, b: nat)
    requires a < b
    ensures Before(DateOf(a), DateOf(b))
  {
    if a < b - 1 {
      DatesAscend(a, b - 1);
    }
  }

  /** Calendar order is day order. */
  lemma {:induction false} DateOrderIsDayOrder(a: nat, b: nat)
    ensures Before(DateOf(a), DateOf(b)) <==> a < b
    ensures DateOf(a) == DateOf(b) <==> a == b
  {
    if a < b {
      DatesAscend(a, b);
    } else if b < a {
      DatesAscend(b, a);
    }
  }

  // ---------------------------------------------------------------------
  // The closed form, to anchor the day count at the Unix epoch
  // ---------------------------------------------------------------------

  function LeapDaysBefore(y: nat): nat {
    if y == 0 then 0 else (y - 1) / 4 - (y - 1) / 100 + (y - 1) / 400 + 1
  }

  function DaysBeforeMonth(y: nat, m: nat): nat
    requires 1 <= m <= 12
  {
    if m == 1 then 0 else DaysBeforeMonth(y, m - 1) + DaysIn(y, m - 1)
  }

  function DayNumber(d: Date): int
    requires ValidDate(d)
  {
    365 * d.year + LeapDaysBefore(d.year) + DaysBeforeMonth(d.year, d.month) + d.day - 1
  }

  lemma YearLength(y: nat)
    ensures DaysBeforeMonth(y, 12) + 31 == if IsLeap(y) then 366 else 365
  {
    assert DaysBeforeMonth(y, 2) == 31;
    assert DaysBeforeMonth(y, 3) == 31 + DaysIn(y, 2);
    assert DaysBeforeMonth(y, 5) == DaysBeforeMonth(y, 3) + 61;
    assert DaysBeforeMonth(y, 7) == DaysBeforeMonth(y, 5) + 61;
    assert DaysBeforeMonth(y, 9) == DaysBeforeMonth(y, 7) + 62;
    assert DaysBeforeMonth(y, 11) == DaysBeforeMonth(y, 9) + 61;
  }

  lemma Multiples(y: nat)
    requires y > 0
    ensures y / 4 == (y - 1) / 4 + (if y % 4 == 0 then 1 else 0)
    ensures y / 100 == (y - 1) / 100 + (if y % 100 == 0 then 1 else 0)
    ensures y / 400 == (y - 1) / 400 + (if y % 400 == 0 then 1 else 0)
  {}

  lemma Nested(y: nat)
    ensures y % 100 == 0 ==> y % 4 == 0
    ensures y % 400 == 0 ==> y % 100 == 0
  {
    var h, f := y / 100, y / 400;
    assert y == 4 * (25 * h) + y % 100;
    assert y == 100 * (4 * f) + y % 400;
  }

  lemma LeapStep(y: nat)
    ensures LeapDaysBefore(y + 1) == LeapDaysBefore(y) + (if IsLeap(y) then 1 else 0)
  {
    if y > 0 {
      Multiples(y);
      Nested(y);
    }
  }

  /** Counting days one by one agrees with the closed form. */
  lemma {:induction false} DayNumberInverts(n: nat)
    ensures DayNumber(DateOf(n)) == n
  {
    if n > 0 {
      DayNumberInverts(n - 1);
      var d := DateOf(n - 1);
      if d.day == DaysIn(d.year, d.month) && d.month == 12 {
        YearLength(d.year);
        LeapStep(d.year);
      }
    }
  }

  const EPOCH_DAY: nat := 719528

  /** Day 719528 is 1970-01-01. */
  lemma EpochDay(n: nat)
    ensures DateOf(n) == Date(1970, 1, 1) <==> n == EPOCH_DAY
  {
    var epoch := Date(1970, 1, 1);
    assert DayNumber(epoch) == EPOCH_DAY;
    DayNumberInverts(n);
    if n == EPOCH_DAY {
      DayNumberInjective(DateOf(n), epoch);
    }
  }

  lemma DayNumberInjective(a: Date, b: Date)
    requires ValidDate(a) && ValidDate(b) && DayNumber(a) == DayNumber(b)
    ensures a == b
  {
    if Before(a, b) {
      DayNumberAscends(a, b);
    } else if Before(b, a) {
      DayNumberAscends(b, a);
    }
  }

  lemma DayNumberAscends(a: Date, b: Date)
    requires ValidDate(a) && ValidDate(b) && Before(a, b)
    ensures DayNumber(a) < DayNumber(b)
  {
    if a.year < b.year {
      WithinYear(a);
      YearsAscend(a.year + 1, b.year);
      LeapStep(a.year);
    } else if a.month < b.month {
      MonthsAscend(a.year, a.month, b.month);
    }
  }

  lemma {:induction false} YearsAscend(x: nat, y: nat)
    requires x <= y
    ensures 365 * x + LeapDaysBefore(x) <= 365 * y + LeapDaysBefore(y)
    decreases y
  {
    if x < y {
      YearsAscend(x, y - 1);
      LeapStep(y - 1);
    }
  }

  lemma {:induction false} MonthsAscend(y: nat, m: nat, k: nat)
    requires 1 <= m < k <= 12
    ensures DaysBeforeMonth(y, m) + DaysIn(y, m) <= DaysBeforeMonth(y, k)
    decreases k
  {
    if m < k - 1 {
      MonthsAscend(y, m, k - 1);
    }
  }

  lemma WithinYear(a: Date)
    requires ValidDate(a)
    ensures DaysBeforeMonth(a.year, a.month) + a.day <= if IsLeap(a.year) then 366 else 365
  {
    YearLength(a.year);
    if a.month < 12 {
      MonthsAscend(a.year, a.month, 12);
    }
  }
}
