/** Proleptic Gregorian calendar arithmetic at day resolution: the part of
    JavaScript's `Date` and of date-fns that the budget engine relies on. */
module Dates {

  datatype Date = Date(year: int, month: int, day: int)

  predicate IsLeap(y: int) {
    y % 4 == 0 && (y % 100 != 0 || y % 400 == 0)
  }

  function DaysInMonth(y: int, m: int): (n: int)
    requires 1 <= m <= 12
    ensures 28 <= n <= 31
  {
    if m == 2 then (if IsLeap(y) then 29 else 28)
    else if m == 4 || m == 6 || m == 9 || m == 11 then 30
    else 31
  }

  function DaysInYear(y: int): int {
    if IsLeap(y) then 366 else 365
  }

  predicate Valid(d: Date) {
    1 <= d.month <= 12 && 1 <= d.day <= DaysInMonth(d.year, d.month)
  }

  /** Days from 0000-01-01 to the first day of year y (negative for earlier years).
      (y + k - 1) / k with Euclidean division counts the multiples of k in [0, y). */
  function DaysBeforeYear(y: int): int {
    365 * y + (y + 3) / 4 - (y + 99) / 100 + (y + 399) / 400
  }

  /** Days from the first of January to the first of month m. */
  function DaysBeforeMonth(y: int, m: int): int
    requires 1 <= m <= 12
  {
    var table := [0, 31, 59, 90, 120, 151, 181, 212, 243, 273, 304, 334];
    table[m - 1] + (if m > 2 && IsLeap(y) then 1 else 0)
  }

  /** Position of a date on the day line: consecutive dates get consecutive numbers. */
  function DayNumber(d: Date): int
    requires Valid(d)
  {
    DaysBeforeYear(d.year) + DaysBeforeMonth(d.year, d.month) + d.day - 1
  }

  /** Chronological order of dates, field by field. */
  predicate Before(a: Date, b: Date) {
    a.year < b.year
    || (a.year == b.year && a.month < b.month)
    || (a.year == b.year && a.month == b.month && a.day < b.day)
  }

  predicate OnOrBefore(a: Date, b: Date) {
    a == b || Before(a, b)
  }

  /** JavaScript's getDay: 0 is Sunday. 0000-01-01 is DayNumber 0 and a Saturday. */
  function Weekday(d: Date): (w: int)
    requires Valid(d)
    ensures 0 <= w < 7
  {
    (DayNumber(d) + 6) % 7
  }

  function NextDay(d: Date): (r: Date)
    requires Valid(d)
    ensures Valid(r) && DayNumber(r) == DayNumber(d) + 1
  {
    DaysBeforeYearStep(d.year);
    if d.day < DaysInMonth(d.year, d.month) then Date(d.year, d.month, d.day + 1)
    else if d.month < 12 then Date(d.year, d.month + 1, 1)
    else Date(d.year + 1, 1, 1)
  }

  /** date-fns addDays: the day of the month moves by n and carries into the
      neighbouring months. */
  function AddDays(d: Date, n: int): (r: Date)
    requires Valid(d)
    ensures Valid(r) && DayNumber(r) == DayNumber(d) + n
  {
    NormDay(d.year, d.month, d.day + n)
  }

  /** The carry rule of `new Date(y, m, day)` once the month is between 1 and 12:
      a day outside the month moves into the neighbouring months. */
  function NormDay(y: int, m: int, day: int): (r: Date)
    requires 1 <= m <= 12
    ensures Valid(r)
    ensures DayNumber(r) == DayNumber(Date(y, m, 1)) + day - 1
    decreases if day < 1 then 1 else 0, if day < 1 then -day else day
  {
    if day < 1 then
      var py := if m == 1 then y - 1 else y;
      var pm := if m == 1 then 12 else m - 1;
      MonthStep(py, pm);
      NormDay(py, pm, day + DaysInMonth(py, pm))
    else if day > DaysInMonth(y, m) then
      var ny := if m == 12 then y + 1 else y;
      var nm := if m == 12 then 1 else m + 1;
      MonthStep(y, m);
      NormDay(ny, nm, day - DaysInMonth(y, m))
    else
      Date(y, m, day)
  }

  /** `new Date(y, monthIndex, day)` at day resolution: the month index is 0-based
      and carries into the year, the day carries into the months, and a year
      between 0 and 99 is read as 1900 + year. */
  function JsDate(y: int, monthIndex: int, day: int): (r: Date)
    ensures Valid(r)
    ensures DayNumber(r) == DayNumber(Date(JsYear(y) + monthIndex / 12, monthIndex % 12 + 1, 1)) + day - 1
  {
    NormDay(JsYear(y) + monthIndex / 12, monthIndex % 12 + 1, day)
  }

  /** The year `new Date` uses: two-digit years are read in the 1900s. */
  function JsYear(y: int): int {
    if 0 <= y <= 99 then 1900 + y else y
  }

  /** The last day of the date's month (date-fns endOfMonth, at day resolution). */
  function EndOfMonth(d: Date): (r: Date)
    requires Valid(d)
    ensures Valid(r) && r.year == d.year && r.month == d.month
    ensures forall x :: Valid(x) && x.year == d.year && x.month == d.month ==> OnOrBefore(x, r)
  {
    Date(d.year, d.month, DaysInMonth(d.year, d.month))
  }

  /** The last day of the date's year (date-fns endOfYear, at day resolution). */
  function EndOfYear(d: Date): (r: Date)
    ensures Valid(r) && r.year == d.year
    ensures forall x :: Valid(x) && x.year == d.year ==> OnOrBefore(x, r)
  {
    Date(d.year, 12, 31)
  }

  /** The Saturday that ends the date's week (date-fns endOfWeek, weeks starting on
      Sunday). */
  function EndOfWeek(d: Date): (r: Date)
    requires Valid(d)
    ensures Valid(r) && DayNumber(r) == DayNumber(d) + 6 - Weekday(d)
  {
    AddDays(d, 6 - Weekday(d))
  }

  // ---- The day line ----

  lemma DaysBeforeYearStep(y: int)
    ensures DaysBeforeYear(y + 1) == DaysBeforeYear(y) + DaysInYear(y)
  {
    CountStep4(y);
    CountStep100(y);
    CountStep400(y);
    DivisibilityChain(y);
    var c4, c100, c400 := (y + 3) / 4, (y + 99) / 100, (y + 399) / 400;
    assert DaysBeforeYear(y) == 365 * y + c4 - c100 + c400;
    assert DaysBeforeYear(y + 1) == 365 * y + 365 + (y + 4) / 4 - (y + 100) / 100 + (y + 400) / 400;
  }

  /** A multiple of 400 is a multiple of 100, and a multiple of 100 one of 4. */
  lemma DivisibilityChain(y: int)
    ensures y % 400 == 0 ==> y % 100 == 0
    ensures y % 100 == 0 ==> y % 4 == 0
  {
    if y % 400 == 0 {
      MultipleOf100(y / 400 * 4);
    }
    if y % 100 == 0 {
      MultipleOf4(y / 100 * 25);
    }
  }

  lemma MultipleOf100(k: int)
    ensures (k * 100) % 100 == 0
  {
  }

  lemma MultipleOf4(k: int)
    ensures (k * 4) % 4 == 0
  {
  }

  lemma CountStep4(y: int)
    ensures (y + 4) / 4 - (y + 3) / 4 == if y % 4 == 0 then 1 else 0
  {
  }

  lemma CountStep100(y: int)
    ensures (y + 100) / 100 - (y + 99) / 100 == if y % 100 == 0 then 1 else 0
  {
  }

  lemma CountStep400(y: int)
    ensures (y + 400) / 400 - (y + 399) / 400 == if y % 400 == 0 then 1 else 0
  {
  }

  /** The first of the next month is a month's length after the first of this one. */
  lemma MonthStep(y: int, m: int)
    requires 1 <= m <= 12
    ensures var ny := if m == 12 then y + 1 else y;
            var nm := if m == 12 then 1 else m + 1;
            DayNumber(Date(ny, nm, 1)) == DayNumber(Date(y, m, 1)) + DaysInMonth(y, m)
  {
    DaysBeforeYearStep(y);
  }

  lemma {:induction false} DaysBeforeYearMonotone(y1: int, y2: int)
    requires y1 < y2
    ensures DaysBeforeYear(y1 + 1) <= DaysBeforeYear(y2)
    decreases y2 - y1
  {
    if y1 + 1 < y2 {
      DaysBeforeYearMonotone(y1 + 1, y2);
      DaysBeforeYearStep(y1 + 1);
    }
  }

  /** Within a year, the first of the next month is a month's length later. */
  lemma MonthLengthStep(y: int, m: int)
    requires 1 <= m < 12
    ensures DaysBeforeMonth(y, m + 1) == DaysBeforeMonth(y, m) + DaysInMonth(y, m)
  {
  }

  lemma {:induction false} DaysBeforeMonthMonotone(y: int, m1: int, m2: int)
    requires 1 <= m1 < m2 <= 12
    ensures DaysBeforeMonth(y, m1) + DaysInMonth(y, m1) <= DaysBeforeMonth(y, m2)
    decreases m2 - m1
  {
    MonthLengthStep(y, m1);
    if m1 + 1 < m2 {
      DaysBeforeMonthMonotone(y, m1 + 1, m2);
    }
  }

  lemma DecemberEnd(y: int)
    ensures DaysBeforeMonth(y, 12) + DaysInMonth(y, 12) == DaysInYear(y)
  {
  }

  lemma DayNumberWithinYear(d: Date)
    requires Valid(d)
    ensures DaysBeforeYear(d.year) <= DayNumber(d) < DaysBeforeYear(d.year + 1)
  {
    DaysBeforeYearStep(d.year);
    DecemberEnd(d.year);
    if d.month < 12 {
      DaysBeforeMonthMonotone(d.year, d.month, 12);
    }
  }

  /** Chronological order is the order of the day line. */
  lemma {:induction false} DayNumberOrder(a: Date, b: Date)
    requires Valid(a) && Valid(b)
    ensures Before(a, b) <==> DayNumber(a) < DayNumber(b)
    ensures a == b <==> DayNumber(a) == DayNumber(b)
  {
    if a.year < b.year {
      EarlierYear(a, b);
    } else if b.year < a.year {
      EarlierYear(b, a);
    } else if a.month < b.month {
      EarlierMonth(a, b);
    } else if b.month < a.month {
      EarlierMonth(b, a);
    }
  }

  lemma EarlierYear(a: Date, b: Date)
    requires Valid(a) && Valid(b) && a.year < b.year
    ensures DayNumber(a) < DayNumber(b)
  {
    DayNumberWithinYear(a);
    DayNumberWithinYear(b);
    DaysBeforeYearMonotone(a.year, b.year);
  }

  lemma EarlierMonth(a: Date, b: Date)
    requires Valid(a) && Valid(b) && a.year == b.year && a.month < b.month
    ensures DayNumber(a) < DayNumber(b)
  {
    DaysBeforeMonthMonotone(a.year, a.month, b.month);
  }

  lemma DayNumberInjective(a: Date, b: Date)
    requires Valid(a) && Valid(b) && DayNumber(a) == DayNumber(b)
    ensures a == b
  {
    DayNumberOrder(a, b);
  }

  lemma OnOrBeforeIsDayNumberOrder(a: Date, b: Date)
    requires Valid(a) && Valid(b)
    ensures OnOrBefore(a, b) <==> DayNumber(a) <= DayNumber(b)
  {
    DayNumberOrder(a, b);
  }

  /** Moving a later date further forward keeps it on or after a. */
  lemma OnOrBeforeStep(a: Date, b: Date, c: Date)
    requires Valid(a) && Valid(b) && Valid(c)
    requires OnOrBefore(a, b) && DayNumber(b) <= DayNumber(c)
    ensures OnOrBefore(a, c)
  {
    OnOrBeforeIsDayNumberOrder(a, b);
    OnOrBeforeIsDayNumberOrder(a, c);
  }

  /** The weekday advances by one each day. */
  lemma WeekdayNext(d: Date)
    requires Valid(d)
    ensures Weekday(NextDay(d)) == (Weekday(d) + 1) % 7
  {
    ModSuccessor(DayNumber(d) + 6);
  }

  lemma ModSuccessor(n: int)
    ensures (n + 1) % 7 == (n % 7 + 1) % 7
  {
  }

  /** Two weeks later falls on the same weekday. */
  lemma WeekdayAddFortnight(d: Date)
    requires Valid(d)
    ensures Weekday(AddDays(d, 14)) == Weekday(d)
  {
    ModFortnight(DayNumber(d) + 6);
  }

  lemma ModFortnight(n: int)
    ensures (n + 14) % 7 == n % 7
  {
  }

  lemma KnownWeekdays()
    ensures Weekday(Date(1970, 1, 1)) == 4
    ensures Weekday(Date(2024, 1, 1)) == 1
  {
  }

  /** For a day that exists in every month, `new Date` does not carry. */
  lemma JsDateNoCarry(y: int, monthIndex: int, day: int)
    requires y < 0 || y > 99
    requires 1 <= day <= 28
    ensures JsDate(y, monthIndex, day) == Date(y + monthIndex / 12, monthIndex % 12 + 1, day)
  {
    var r := JsDate(y, monthIndex, day);
    var e := Date(y + monthIndex / 12, monthIndex % 12 + 1, day);
    assert Valid(e) && DayNumber(e) == DayNumber(r);
    DayNumberInjective(r, e);
  }

  /** The day number of the first of the month `monthIndex` months (0-based,
      carrying into the years) after January of year y. */
  function MonthStart(y: int, monthIndex: int): int {
    DayNumber(Date(y + monthIndex / 12, monthIndex % 12 + 1, 1))
  }

  /** The next month index starts a month's length later. */
  lemma MonthStartStep(y: int, i: int)
    ensures MonthStart(y, i + 1) == MonthStart(y, i) + DaysInMonth(y + i / 12, i % 12 + 1)
  {
    var q, r := i / 12, i % 12;
    var here := Date(y + q, r + 1, 1);
    var next := if r == 11 then Date(y + q + 1, 1, 1) else Date(y + q, r + 2, 1);
    MonthStep(y + q, r + 1);
    assert DayNumber(next) == DayNumber(here) + DaysInMonth(y + q, r + 1);
    IndexSuccessor(i);
    assert Date(y + (i + 1) / 12, (i + 1) % 12 + 1, 1) == next;
    assert MonthStart(y, i + 1) == DayNumber(next);
    assert MonthStart(y, i) == DayNumber(here);
  }

  /** How a 0-based month index carries into the year when it goes up by one. */
  lemma IndexSuccessor(i: int)
    ensures i % 12 == 11 ==> (i + 1) / 12 == i / 12 + 1 && (i + 1) % 12 == 0
    ensures i % 12 != 11 ==> (i + 1) / 12 == i / 12 && (i + 1) % 12 == i % 12 + 1
  {
  }

  lemma MonthStartIncreases(y: int, i: int)
    ensures MonthStart(y, i) < MonthStart(y, i + 1)
  {
    MonthStartStep(y, i);
  }

  /** Later month indexes start later. */
  lemma {:induction false} MonthStartStrict(y: int, i: int, j: int)
    requires i < j
    ensures MonthStart(y, i) < MonthStart(y, j)
    decreases j - i
  {
    MonthStartIncreases(y, i);
    if i + 1 < j {
      MonthStartStrict(y, i + 1, j);
    }
  }

  /** `new Date(y, i, day)` and `new Date(y, j, day)` are the same date only for the
      same month index, whatever the day and however far it carries. */
  lemma JsDateMonthInjective(y: int, i: int, j: int, day: int)
    requires JsDate(y, i, day) == JsDate(y, j, day)
    ensures i == j
  {
    assert MonthStart(JsYear(y), i) == MonthStart(JsYear(y), j);
    if i < j {
      MonthStartStrict(JsYear(y), i, j);
    } else if j < i {
      MonthStartStrict(JsYear(y), j, i);
    }
  }

  /** Day 31 asked of February 2024 lands on the second of March. */
  lemma JsDateOverflowExample()
    ensures JsDate(2024, 1, 31) == Date(2024, 3, 2)
  {
    assert NormDay(2024, 2, 31) == NormDay(2024, 3, 2);
  }

  /** The week's end is a Saturday at most six days ahead; it can lie in the next
      month or the next year. */
  lemma EndOfWeekIsSaturday(d: Date)
    requires Valid(d)
    ensures Weekday(EndOfWeek(d)) == 6
    ensures OnOrBefore(d, EndOfWeek(d)) && DayNumber(EndOfWeek(d)) - DayNumber(d) <= 6
  {
    SaturdayMod(DayNumber(d) + 6);
    OnOrBeforeIsDayNumberOrder(d, EndOfWeek(d));
  }

  lemma SaturdayMod(n: int)
    ensures (n - n % 7 + 6) % 7 == 6
  {
    assert n - n % 7 == 7 * (n / 7);
  }

  /** 2025-12-30 is a Tuesday: its week ends on 2026-01-03, after the end of its year. */
  lemma WeekEndAfterYearEnd()
    ensures EndOfWeek(Date(2025, 12, 30)) == Date(2026, 1, 3)
    ensures Before(EndOfYear(Date(2025, 12, 30)), EndOfWeek(Date(2025, 12, 30)))
  {
    var d := Date(2025, 12, 30);
    assert DayNumber(d) == 739980;
    assert Weekday(d) == 2;
    DayNumberInjective(EndOfWeek(d), Date(2026, 1, 3));
  }
}
