/** Two views of the application shell: the transactions of the selected calendar
    day, and the balance projected for the end of the current month. */
module AppViews {
  import opened Options
  import opened Dates
  import opened IsoText
  import opened Records
  import opened Sums
  import opened ListEdits
  import opened Grouping
  import Balances
  import Calendar

  function OnSelectedDay(selectedDay: Option<string>): Transaction -> bool {
    (t: Transaction) => selectedDay == Some(t.date)
  }

  /** `dayTxs`: the transactions dated exactly the selected day, in their order;
      none when no day is selected. */
  function DayTxs(txs: seq<Transaction>, selectedDay: Option<string>): (r: seq<Transaction>)
    ensures forall i :: 0 <= i < |r| ==> r[i] in txs && selectedDay == Some(r[i].date)
  {
    FilterKept(txs, OnSelectedDay(selectedDay));
    Filter(txs, OnSelectedDay(selectedDay))
  }

  lemma DayTxsMembers(txs: seq<Transaction>, selectedDay: Option<string>, t: Transaction)
    ensures t in DayTxs(txs, selectedDay) <==> t in txs && selectedDay == Some(t.date)
    ensures selectedDay.None? ==> DayTxs(txs, selectedDay) == []
  {
    FilterMembers(txs, OnSelectedDay(selectedDay), t);
    var d := DayTxs(txs, selectedDay);
    assert |d| > 0 ==> selectedDay == Some(d[0].date);
  }

  /** The list shown for a day nets to the balance its calendar cell shows. */
  lemma DayTxsMatchCell(txs: seq<Transaction>, byDate: map<string, int>, day: string)
    requires Grouped(byDate, txs, Calendar.DateKey(), Balances.Amount)
    ensures Balances.Total(DayTxs(txs, Some(day))) == Lookup(byDate, day)
  {
    Calendar.CellBalance(byDate, txs, day);
    FilterCongruent(txs, OnSelectedDay(Some(day)), Calendar.OnDate(day));
  }

  // ---- The projected end-of-month balance ----

  /** `new Date(year, month + 1, 0)` with the 0-based month of today: day 0 of the
      next month. */
  function EndOfMonthCutoff(today: Date): Date {
    JsDate(today.year, today.month, 0)
  }

  /** `new Date(tx.date) <= endOfMonthDate`: a date text that does not parse gives
      an invalid date, which compares false. */
  predicate DatedBy(t: Transaction, cutoff: Date) {
    ParseIso(t.date).Some? && OnOrBefore(ParseIso(t.date).value, cutoff)
  }

  function UpToCutoff(cutoff: Date): Transaction -> bool {
    (t: Transaction) => DatedBy(t, cutoff)
  }

  /** The amount of a transaction if it is dated by the cutoff, else 0. */
  function AmountIfDatedBy(cutoff: Date): Transaction -> int {
    (t: Transaction) => if DatedBy(t, cutoff) then t.amount else 0
  }

  /** `projectedEndOfMonthBalance`: the sum of the amounts of the transactions
      dated on or before the cutoff, every other transaction counting 0. */
  function ProjectedEndOfMonthBalance(txs: seq<Transaction>, today: Date): (r: int)
    ensures r == SumOf(txs, AmountIfDatedBy(EndOfMonthCutoff(today)))
  {
    var cutoff := EndOfMonthCutoff(today);
    SumOfFilter(txs, UpToCutoff(cutoff), Balances.Amount, AmountIfDatedBy(cutoff));
    if txs == [] then 0
    else SumOf(Filter(txs, UpToCutoff(cutoff)), Balances.Amount)
  }

  /** Day 0 of the next month is the last day of this one, for every year that
      `new Date` does not read as two-digit. */
  lemma CutoffIsEndOfMonth(today: Date)
    requires Valid(today) && (today.year < 0 || today.year > 99)
    ensures EndOfMonthCutoff(today) == EndOfMonth(today)
  {
    var y, m := today.year, today.month;
    var r := EndOfMonthCutoff(today);
    assert JsYear(y) == y;
    var next := if m == 12 then Date(y + 1, 1, 1) else Date(y, m + 1, 1);
    assert Date(JsYear(y) + m / 12, m % 12 + 1, 1) == next;
    MonthStep(y, m);
    assert DayNumber(r) == DayNumber(EndOfMonth(today));
    DayNumberInjective(r, EndOfMonth(today));
  }

  /** The projection is the amount dated on or before the month's last day; when
      every date text is an ISO date it is the balance panel's end-of-month
      figure. */
  lemma ProjectedIsMonthBalance(txs: seq<Transaction>, today: Date)
    requires Valid(today) && 100 <= today.year <= 9999
    requires forall i :: 0 <= i < |txs| ==> ParseIso(txs[i].date).Some?
    ensures ProjectedEndOfMonthBalance(txs, today) == Balances.SumUpTo(txs, Iso(EndOfMonth(today)))
  {
    CutoffIsEndOfMonth(today);
    var e := EndOfMonth(today);
    var p := UpToCutoff(e);
    forall i | 0 <= i < |txs|
      ensures Balances.UpTo(Iso(e))(txs[i]) == if p(txs[i]) then Balances.Amount(txs[i]) else 0
    {
      var d := ParseIso(txs[i].date).value;
      IsoOrder(d, e);
    }
    SumOfFilter(txs, p, Balances.Amount, Balances.UpTo(Iso(e)));
  }

  /** Only transactions with a date that parses and falls on or before the cutoff
      count; with none of them the projection is 0. */
  lemma ProjectedCounts(txs: seq<Transaction>, today: Date)
    ensures (forall i :: 0 <= i < |txs| ==> !DatedBy(txs[i], EndOfMonthCutoff(today))) ==> ProjectedEndOfMonthBalance(txs, today) == 0
  {
    var p := UpToCutoff(EndOfMonthCutoff(today));
    var zero := (t: Transaction) => 0;
    if txs != [] && forall i :: 0 <= i < |txs| ==> !DatedBy(txs[i], EndOfMonthCutoff(today)) {
      SumOfFilter(txs, p, Balances.Amount, zero);
      SumOfZero(txs, zero);
    }
  }
}
