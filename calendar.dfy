/** The year calendar: one cell per day of the year, each showing the net of the
    transactions dated that day. */
module Calendar {
  import opened Options
  import opened Dates
  import opened IsoText
  import opened Records
  import opened Sums
  import opened ListEdits
  import opened Grouping
  import Balances

  /** `txByDate` files every transaction under its date text. */
  function DateKey(): Transaction -> Option<string> {
    (t: Transaction) => Some(t.date)
  }

  /** `txByDate`: one entry per date text that occurs, holding the net of that
      date's amounts; the entries add up to the net of all transactions. */
  method TxByDate(txs: seq<Transaction>) returns (byDate: map<string, int>)
    ensures Grouped(byDate, txs, DateKey(), Balances.Amount)
    ensures SumValues(byDate) == Balances.Total(txs)
  {
    byDate := map[];
    for i := 0 to |txs|
      invariant Grouped(byDate, txs[..i], DateKey(), Balances.Amount)
    {
      GroupedPrefixStep(byDate, txs, i, DateKey(), Balances.Amount);
      byDate := AddToDate(byDate, txs[i]);
    }
    assert txs[..|txs|] == txs;
    SumOfCongruent(txs, KeyedOnly(DateKey(), Balances.Amount), Balances.Amount);
  }

  /** The `forEach` callback. */
  method AddToDate(byDate: map<string, int>, tx: Transaction) returns (r: map<string, int>)
    ensures r == AddEntry(byDate, tx, DateKey(), Balances.Amount)
  {
    r := byDate[tx.date := (if tx.date in byDate then byDate[tx.date] else 0) + tx.amount];
  }

  function OnDate(dateStr: string): Transaction -> bool {
    (t: Transaction) => t.date == dateStr
  }

  /** `txByDate[dateStr] || 0`: the net of the transactions dated exactly
      `dateStr`, 0 for a day without any. */
  lemma CellBalance(byDate: map<string, int>, txs: seq<Transaction>, dateStr: string)
    requires Grouped(byDate, txs, DateKey(), Balances.Amount)
    ensures Lookup(byDate, dateStr) == Balances.Total(Filter(txs, OnDate(dateStr)))
    ensures (forall i :: 0 <= i < |txs| ==> txs[i].date != dateStr) ==> Lookup(byDate, dateStr) == 0
  {
    LookupIsTotal(byDate, txs, DateKey(), Balances.Amount, dateStr);
    SumOfFilter(txs, OnDate(dateStr), Balances.Amount, KeyedWeight(DateKey(), Balances.Amount, dateStr));
    if forall i :: 0 <= i < |txs| ==> txs[i].date != dateStr {
      SumOfZero(txs, KeyedWeight(DateKey(), Balances.Amount, dateStr));
    }
  }

  // ---- The grid of days ----

  /** n consecutive days from d. */
  function DaysFrom(d: Date, n: nat): (r: seq<Date>)
    requires Valid(d)
    ensures |r| == n
    ensures forall i :: 0 <= i < n ==> Valid(r[i]) && DayNumber(r[i]) == DayNumber(d) + i
    decreases n
  {
    if n == 0 then []
    else
      var rest := DaysFrom(NextDay(d), n - 1);
      [d] + rest
  }

  /** `eachDayOfInterval` from the first to the last day of year y: every day of
      the year, in order. */
  function YearDays(y: int): (r: seq<Date>)
    ensures |r| == DaysInYear(y)
    ensures forall i :: 0 <= i < |r| ==> Valid(r[i]) && r[i].year == y
    ensures forall i :: 0 <= i < |r| ==> DayNumber(r[i]) == DaysBeforeYear(y) + i
  {
    var first := Date(y, 1, 1);
    var r := DaysFrom(first, DaysInYear(y));
    assert forall i :: 0 <= i < |r| ==> r[i].year == y by {
      forall i | 0 <= i < |r|
        ensures r[i].year == y
      {
        YearOfDay(y, r[i]);
      }
    }
    r
  }

  /** A date whose day number falls within year y's is in year y. */
  lemma YearOfDay(y: int, x: Date)
    requires Valid(x) && DaysBeforeYear(y) <= DayNumber(x) < DaysBeforeYear(y) + DaysInYear(y)
    ensures x.year == y
  {
    DaysBeforeYearStep(y);
    DayNumberWithinYear(x);
    if x.year < y {
      DaysBeforeYearMonotone(x.year, y);
    } else if x.year > y {
      DaysBeforeYearMonotone(y, x.year);
    }
  }

  /** The calendar for `year`: `new Date(year, 0, 1)` reads a two-digit year in
      the 1900s. */
  function CalendarDays(year: int): (r: seq<Date>)
    ensures var y := if 0 <= year <= 99 then 1900 + year else year;
      && |r| == DaysInYear(y)
      && forall i :: 0 <= i < |r| ==> Valid(r[i]) && r[i].year == y && DayNumber(r[i]) == DaysBeforeYear(y) + i
  {
    YearDays(JsYear(year))
  }

  /** The grid holds exactly the valid dates of the year. */
  lemma YearDaysMembers(y: int, x: Date)
    ensures x in YearDays(y) <==> Valid(x) && x.year == y
  {
    if Valid(x) && x.year == y {
      YearDayFound(y, x);
    }
  }

  lemma YearDayFound(y: int, x: Date)
    requires Valid(x) && x.year == y
    ensures x in YearDays(y)
  {
    DaysBeforeYearStep(y);
    DayNumberWithinYear(x);
    DaysFromFound(Date(y, 1, 1), DaysInYear(y), x);
  }

  /** A date whose day number lies in the run's range is in the run. */
  lemma DaysFromFound(d: Date, n: nat, x: Date)
    requires Valid(d) && Valid(x) && DayNumber(d) <= DayNumber(x) < DayNumber(d) + n
    ensures x in DaysFrom(d, n)
  {
    var r := DaysFrom(d, n);
    var i := DayNumber(x) - DayNumber(d);
    DayNumberInjective(r[i], x);
  }

  /** The days run in calendar order, so no date appears twice; and when the year
      prints as `YYYY-MM-DD` the cells' date texts rise in text order too. */
  lemma YearDaysChronological(y: int, i: int, j: int)
    requires 0 <= i < j < DaysInYear(y)
    ensures Before(YearDays(y)[i], YearDays(y)[j])
    ensures 0 <= y <= 9999 ==> LexLess(Iso(YearDays(y)[i]), Iso(YearDays(y)[j]))
  {
    var r := YearDays(y);
    DayNumberOrder(r[i], r[j]);
    if 0 <= y <= 9999 {
      IsoOrder(r[i], r[j]);
    }
  }
}
