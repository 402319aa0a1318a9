/**
 The proleptic Gregorian calendar and UTC instants in microseconds.

 Months lie on one line: month `k` is `12 * year + (month - 1)`. `MonthFirst`
 counts days month by month; `OrdinalClosedForm` proves that this is the day number
 Python's `date.toordinal` computes from its leap-year formula. Years are unbounded
 integers, so stepping across a year boundary is never out of range.
 */
module Calendar {

  const SECOND: int := 1_000_000
  const DAY: int := 86_400_000_000

  predicate IsLeap(year: int) {
    year % 4 == 0 && (year % 100 != 0 || year % 400 == 0)
  }

  function DaysInMonth(year: int, month: int): (n: int)
    ensures 28 <= n <= 31
  {
    if month == 2 then (if IsLeap(year) then 29 else 28)
    else if month == 4 || month == 6 || month == 9 || month == 11 then 30
    else 31
  }

  function MonthLength(k: int): (n: int)
    ensures 28 <= n <= 31
  {
    DaysInMonth(k / 12, k % 12 + 1)
  }

  /** The day number of the first day of month `k`; 1 January of year 1 is day 1. */
  function MonthFirst(k: int): int
    decreases if k >= 12 then k - 12 else 12 - k
  {
    if k == 12 then 1
    else if k > 12 then MonthFirst(k - 1) + MonthLength(k - 1)
    else MonthFirst(k + 1) - MonthLength(k)
  }

  /** Consecutive months abut: the calendar has no gap and no overlap. */
  lemma MonthStep(k: int)
    ensures MonthFirst(k + 1) == MonthFirst(k) + MonthLength(k)
    ensures MonthFirst(k) + 28 <= MonthFirst(k + 1) <= MonthFirst(k) + 31
  {
  }

  lemma {:induction false} MonthFirstIncreasing(i: int, j: int)
    requires i <= j
    ensures MonthFirst(i) + 28 * (j - i) <= MonthFirst(j)
    decreases j - i
  {
    if i < j {
      MonthFirstIncreasing(i, j - 1);
      MonthStep(j - 1);
    }
  }

  // ----- dates and day numbers -----

  datatype Date = Date(year: int, month: int, day: int)

  predicate Valid(d: Date) {
    1 <= d.month <= 12 && 1 <= d.day <= DaysInMonth(d.year, d.month)
  }

  function MonthIndex(d: Date): int {
    12 * d.year + d.month - 1
  }

  function Ordinal(d: Date): int {
    MonthFirst(MonthIndex(d)) + d.day - 1
  }

  /** The month that contains day number `n`, found by walking from month `k`. */
  function MonthFrom(n: int, k: int): (r: int)
    ensures MonthFirst(r) <= n < MonthFirst(r + 1)
    decreases if n < MonthFirst(k) then MonthFirst(k) - n
              else if MonthFirst(k + 1) <= n then n - MonthFirst(k + 1) + 1
              else 0
  {
    if n < MonthFirst(k) then
      MonthStep(k - 1);
      MonthFrom(n, k - 1)
    else if MonthFirst(k + 1) <= n then
      MonthStep(k + 1);
      MonthFrom(n, k + 1)
    else k
  }

  function MonthOf(n: int): (r: int)
    ensures MonthFirst(r) <= n < MonthFirst(r + 1)
  {
    hide MonthFirst, MonthFrom;
    MonthFrom(n, 0)
  }

  /** No day belongs to two months. */
  lemma MonthsDisjoint(n: int, i: int, j: int)
    requires MonthFirst(i) <= n < MonthFirst(i + 1)
    requires MonthFirst(j) <= n < MonthFirst(j + 1)
    ensures i == j
  {
    if i < j {
      MonthFirstIncreasing(i + 1, j);
    } else if j < i {
      MonthFirstIncreasing(j + 1, i);
    }
  }

  lemma MonthOfUnique(n: int, k: int)
    requires MonthFirst(k) <= n < MonthFirst(k + 1)
    ensures MonthOf(n) == k
  {
    hide MonthFirst, MonthFrom;
    MonthsDisjoint(n, MonthOf(n), k);
  }

  /** The calendar date of an instant (`datetime.date`). */
  function DateOf(t: int): Date {
    var k := MonthOf(t / DAY);
    Date(k / 12, k % 12 + 1, t / DAY - MonthFirst(k) + 1)
  }

  /** Every instant has a valid date, with the day number the instant falls on. */
  lemma DateOfMeaning(t: int)
    ensures Valid(DateOf(t))
    ensures MonthIndex(DateOf(t)) == MonthOf(t / DAY)
    ensures Ordinal(DateOf(t)) == t / DAY
  {
    hide MonthFirst, MonthFrom, IsLeap;
    DateFieldsAreValid(t / DAY, MonthOf(t / DAY));
  }

  lemma DateFieldsAreValid(n: int, k: int)
    requires MonthFirst(k) <= n < MonthFirst(k + 1)
    ensures
      var d := Date(k / 12, k % 12 + 1, n - MonthFirst(k) + 1);
      Valid(d) && MonthIndex(d) == k && Ordinal(d) == n
  {
    hide MonthFirst, IsLeap;
    MonthStep(k);
    assert 12 * (k / 12) + k % 12 == k;
  }

  /** The first instant of a date. */
  function Midnight(d: Date): int {
    Ordinal(d) * DAY
  }

  /** Dates and day numbers are in bijection: building a date and reading it back is the identity. */
  lemma DateRoundTrip(d: Date, timeOfDay: int)
    requires Valid(d) && 0 <= timeOfDay < DAY
    ensures DateOf(Midnight(d) + timeOfDay) == d
  {
    hide MonthFirst, MonthOf, IsLeap;
    var n, k := Ordinal(d), MonthIndex(d);
    InstantSplit(n, timeOfDay);
    assert k / 12 == d.year && k % 12 == d.month - 1;
    MonthStep(k);
    MonthOfUnique(n, k);
  }

  lemma InstantSplit(n: int, timeOfDay: int)
    requires 0 <= timeOfDay < DAY
    ensures (n * DAY + timeOfDay) / DAY == n && (n * DAY + timeOfDay) % DAY == timeOfDay
  {
  }

  // ----- the closed form -----

  function DaysBeforeYear(year: int): int {
    var y := year - 1;
    365 * y + y / 4 - y / 100 + y / 400
  }

  function DaysBeforeMonth(year: int, month: int): int {
    (match month
     case 1 => 0 case 2 => 31 case 3 => 59 case 4 => 90 case 5 => 120 case 6 => 151
     case 7 => 181 case 8 => 212 case 9 => 243 case 10 => 273 case 11 => 304 case _ => 334)
    + (if month > 2 && IsLeap(year) then 1 else 0)
  }

  lemma QuotientStep(y: int, d: int)
    requires d == 4 || d == 100 || d == 400
    ensures y / d == (y - 1) / d + (if y % d == 0 then 1 else 0)
  {
  }

  lemma MultipleOf100(q: int)
    ensures 100 * q % 100 == 0
  {
  }

  lemma MultipleOf4(q: int)
    ensures 4 * q % 4 == 0
  {
  }

  lemma DivisibilityChain(y: int)
    ensures y % 400 == 0 ==> y % 100 == 0
    ensures y % 100 == 0 ==> y % 4 == 0
  {
    if y % 400 == 0 {
      MultipleOf100(4 * (y / 400));
    }
    if y % 100 == 0 {
      MultipleOf4(25 * (y / 100));
    }
  }

  lemma YearStep(y: int)
    ensures DaysBeforeYear(y + 1) == DaysBeforeYear(y) + (if IsLeap(y) then 366 else 365)
  {
    QuotientStep(y, 4);
    QuotientStep(y, 100);
    QuotientStep(y, 400);
    DivisibilityChain(y);
  }

  /** Counting month by month gives the leap-year formula. */
  lemma {:induction false} MonthFirstClosedForm(k: int)
    ensures MonthFirst(k) == DaysBeforeYear(k / 12) + DaysBeforeMonth(k / 12, k % 12 + 1) + 1
    decreases if k >= 12 then k - 12 else 12 - k
  {
    if k > 12 {
      MonthFirstClosedForm(k - 1);
      ClosedFormStep(k - 1);
    } else if k < 12 {
      MonthFirstClosedForm(k + 1);
      ClosedFormStep(k);
    }
  }

  lemma ClosedFormStep(k: int)
    ensures DaysBeforeYear((k + 1) / 12) + DaysBeforeMonth((k + 1) / 12, (k + 1) % 12 + 1)
         == DaysBeforeYear(k / 12) + DaysBeforeMonth(k / 12, k % 12 + 1) + MonthLength(k)
  {
    if k % 12 == 11 {
      assert (k + 1) / 12 == k / 12 + 1 && (k + 1) % 12 == 0;
      YearStep(k / 12);
    } else {
      assert (k + 1) / 12 == k / 12 && (k + 1) % 12 == k % 12 + 1;
    }
  }

  /** `Ordinal` is `date.toordinal`: whole years by the leap formula, whole months, then days. */
  lemma OrdinalClosedForm(d: Date)
    requires Valid(d)
    ensures Ordinal(d) == DaysBeforeYear(d.year) + DaysBeforeMonth(d.year, d.month) + d.day
  {
    hide MonthFirst, IsLeap, DaysBeforeYear, DaysBeforeMonth;
    var k := MonthIndex(d);
    assert k / 12 == d.year && k % 12 == d.month - 1;
    MonthFirstClosedForm(k);
  }
}
