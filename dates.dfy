/** Calendar dates at local midnight, the values the source compares after
    `setHours(0, 0, 0, 0)`, and the month arithmetic of `Date.setMonth`. */
module Dates {

  /** A date of the proleptic Gregorian calendar. A `Date` that is not
      `ValidDate` stands for JavaScript's "Invalid Date" (a NaN time value). */
  datatype Date = Date(year: int, month: int, day: int)

  predicate IsLeapYear(y: int) {
    (y % 4 == 0 && y % 100 != 0) || y % 400 == 0
  }

  function DaysInMonth(y: int, m: int): (n: int)
    requires 1 <= m <= 12
    ensures 28 <= n <= 31
  {
    if m == 2 then (if IsLeapYear(y) then 29 else 28)
    else if m == 4 || m == 6 || m == 9 || m == 11 then 30
    else 31
  }

  predicate ValidDate(d: Date) {
    1 <= d.month <= 12 && 1 <= d.day <= DaysInMonth(d.year, d.month)
  }

  /** `a < b` on two dates at midnight. */
  predicate Before(a: Date, b: Date) {
    a.year < b.year
    || (a.year == b.year && (a.month < b.month || (a.month == b.month && a.day < b.day)))
  }

  /** Months counted from January of year 0. */
  function MonthIndex(d: Date): int {
    d.year * 12 + (d.month - 1)
  }

  /** The date with day `day` in the month numbered `t`. */
  function InMonth(t: int, day: int): (d: Date)
    ensures 1 <= d.month <= 12 && MonthIndex(d) == t && d.day == day
  {
    Date(t / 12, t % 12 + 1, day)
  }

  function DaysInMonthAt(t: int): (n: int)
    ensures 28 <= n <= 31
  {
    DaysInMonth(t / 12, t % 12 + 1)
  }

  lemma BeforeByMonthIndex(a: Date, b: Date)
    requires 1 <= a.month <= 12 && 1 <= b.month <= 12
    ensures Before(a, b) <==>
      MonthIndex(a) < MonthIndex(b) || (MonthIndex(a) == MonthIndex(b) && a.day < b.day)
  {
  }

  /** `d.setMonth(d.getMonth() - n)` on a date at midnight: the same day of
      the month `n` months earlier; when that month is too short the surplus
      days spill into the following month, as `Date` does. */
  function MonthsAgo(today: Date, n: nat): (r: Date)
    requires ValidDate(today)
    ensures ValidDate(r)
  {
    var t := MonthIndex(today) - n;
    var dim := DaysInMonthAt(t);
    if today.day <= dim then InMonth(t, today.day)
    else InMonth(t + 1, today.day - dim)
  }

  /** Moving zero months back leaves the date alone. */
  lemma MonthsAgoZero(today: Date)
    requires ValidDate(today)
    ensures MonthsAgo(today, 0) == today
  {
    var t := MonthIndex(today);
    assert t / 12 == today.year && t % 12 + 1 == today.month;
  }

  /** One more month back gives a strictly earlier date, day overflow
      included. */
  lemma MonthsAgoStep(today: Date, n: nat)
    requires ValidDate(today)
    ensures Before(MonthsAgo(today, n + 1), MonthsAgo(today, n))
  {
    var t := MonthIndex(today) - n;
    var a, b := MonthsAgo(today, n + 1), MonthsAgo(today, n);
    BeforeByMonthIndex(a, b);
    if today.day > DaysInMonthAt(t - 1) {
      assert MonthIndex(a) == t && a.day <= 3;
      assert MonthIndex(b) > t || b.day == today.day;
    } else {
      assert MonthIndex(a) == t - 1;
    }
  }

  /** The further back, the earlier: a longer window starts strictly
      earlier. */
  lemma MonthsAgoStrictlyDecreasing(today: Date, n: nat, m: nat)
    requires ValidDate(today) && n < m
    ensures Before(MonthsAgo(today, m), MonthsAgo(today, n))
  {
    var f := (k: nat) => if ValidDate(today) then MonthsAgo(today, k) else today;
    forall k: nat
      ensures Before(f(k + 1), f(k))
    {
      MonthsAgoStep(today, k);
    }
    StepsCompose(f, n, m);
  }

  /** Dates that step strictly back at every index are strictly
      decreasing. */
  lemma {:induction false} StepsCompose(f: nat -> Date, n: nat, m: nat)
    requires forall k: nat :: Before(f(k + 1), f(k))
    requires n < m
    ensures Before(f(m), f(n))
    decreases m - n
  {
    if n + 1 < m {
      StepsCompose(f, n + 1, m);
      BeforeTransitive(f(m), f(n + 1), f(n));
    }
  }

  lemma BeforeTransitive(a: Date, b: Date, c: Date)
    requires Before(a, b) && Before(b, c)
    ensures Before(a, c)
  {
  }

  /** The day before `d`. */
  function PrevDay(d: Date): (r: Date)
    requires ValidDate(d)
    ensures ValidDate(r)
  {
    if d.day > 1 then d.(day := d.day - 1)
    else InMonth(MonthIndex(d) - 1, DaysInMonthAt(MonthIndex(d) - 1))
  }

  /** `PrevDay(d)` is earlier than `d`, and no valid date lies strictly
      between them. */
  lemma PrevDayIsPrevious(d: Date, x: Date)
    requires ValidDate(d) && ValidDate(x)
    ensures Before(PrevDay(d), d)
    ensures Before(x, d) ==> !Before(PrevDay(d), x)
  {
    var p := PrevDay(d);
    BeforeByMonthIndex(p, d);
    BeforeByMonthIndex(x, d);
    BeforeByMonthIndex(p, x);
    if d.day == 1 {
      assert MonthIndex(p) == MonthIndex(d) - 1;
      if MonthIndex(x) == MonthIndex(d) - 1 {
        assert x.year == p.year && x.month == p.month;
      }
    }
  }
}
