/** Running balances: the sum of the amounts dated up to a cutoff, compared as
    text the way the engine compares `YYYY-MM-DD` strings. */
module Balances {
  import opened Dates
  import opened IsoText
  import opened Records
  import opened Sums

  function Amount(t: Transaction): int {
    t.amount
  }

  /** A transaction's amount when its date text is `<=` h, else nothing. */
  function UpTo(h: string): Transaction -> int {
    (t: Transaction) => if StrLe(t.date, h) then t.amount else 0
  }

  /** A transaction's amount when its date text is after lo and `<=` hi. */
  function Between(lo: string, hi: string): Transaction -> int {
    (t: Transaction) => if !StrLe(t.date, lo) && StrLe(t.date, hi) then t.amount else 0
  }

  /** The sum of all amounts. */
  function Total(txs: seq<Transaction>): int {
    SumOf(txs, Amount)
  }

  /** The sum of the amounts of the transactions whose date text is `<=` h. */
  function SumUpTo(txs: seq<Transaction>, h: string): int {
    SumOf(txs, UpTo(h))
  }

  datatype Balances = Balances(today: int, week: int, month: int, year: int)

  /** The four cutoffs of the balances panel must print as `YYYY-MM-DD`. */
  predicate HorizonsPrintable(today: Date) {
    Representable(today) && Representable(EndOfWeek(today))
  }

  /** The balances at today, the end of this week, of this month and of this year:
      each one the sum of the amounts dated on or before its cutoff. */
  method ComputeBalances(txs: seq<Transaction>, today: Date) returns (b: Balances)
    requires HorizonsPrintable(today)
    ensures b.today == SumUpTo(txs, Iso(today))
    ensures b.week == SumUpTo(txs, Iso(EndOfWeek(today)))
    ensures b.month == SumUpTo(txs, Iso(EndOfMonth(today)))
    ensures b.year == SumUpTo(txs, Iso(EndOfYear(today)))
    ensures txs == [] ==> b == Balances(0, 0, 0, 0)
  {
    b := Accumulate(txs, Iso(today), Iso(EndOfWeek(today)), Iso(EndOfMonth(today)), Iso(EndOfYear(today)));
  }

  /** The `forEach` pass that adds each amount into every total whose cutoff is on
      or after its date. */
  method Accumulate(txs: seq<Transaction>, hToday: string, hWeek: string, hMonth: string, hYear: string)
    returns (b: Balances)
    ensures b == Balances(SumUpTo(txs, hToday), SumUpTo(txs, hWeek), SumUpTo(txs, hMonth), SumUpTo(txs, hYear))
  {
    var balToday, balWeek, balMonth, balYear := 0, 0, 0, 0;
    for i := 0 to |txs|
      invariant balToday == SumUpTo(txs[..i], hToday)
      invariant balWeek == SumUpTo(txs[..i], hWeek)
      invariant balMonth == SumUpTo(txs[..i], hMonth)
      invariant balYear == SumUpTo(txs[..i], hYear)
    {
      var tx := txs[i];
      assert txs[..i + 1][..i] == txs[..i];
      if StrLe(tx.date, hToday) { balToday := balToday + tx.amount; }
      if StrLe(tx.date, hWeek) { balWeek := balWeek + tx.amount; }
      if StrLe(tx.date, hMonth) { balMonth := balMonth + tx.amount; }
      if StrLe(tx.date, hYear) { balYear := balYear + tx.amount; }
    }
    assert txs[..|txs|] == txs;
    b := Balances(balToday, balWeek, balMonth, balYear);
  }

  // ---- Properties of the cutoff sums ----

  /** A cutoff sum does not depend on the order of the transactions. */
  lemma SumUpToPermutation(a: seq<Transaction>, b: seq<Transaction>, h: string)
    requires multiset(a) == multiset(b)
    ensures SumUpTo(a, h) == SumUpTo(b, h)
  {
    SumOfPermutation(a, b, UpTo(h));
  }

  /** A cutoff on or after every date takes in every amount; one before every date
      takes in none. */
  lemma {:induction false} SumUpToExtremes(txs: seq<Transaction>, h: string)
    ensures (forall t :: t in txs ==> StrLe(t.date, h)) ==> SumUpTo(txs, h) == Total(txs)
    ensures (forall t :: t in txs ==> !StrLe(t.date, h)) ==> SumUpTo(txs, h) == 0
    decreases |txs|
  {
    if txs != [] {
      var init := txs[..|txs| - 1];
      assert forall t :: t in init ==> t in txs;
      SumUpToExtremes(init, h);
    }
  }

  /** Moving the cutoff later adds exactly the amounts dated in between. */
  lemma {:induction false} SumUpToWindow(txs: seq<Transaction>, lo: string, hi: string)
    requires StrLe(lo, hi)
    ensures SumUpTo(txs, hi) == SumUpTo(txs, lo) + SumOf(txs, Between(lo, hi))
    decreases |txs|
  {
    if txs != [] {
      var t := txs[|txs| - 1];
      SumUpToWindow(txs[..|txs| - 1], lo, hi);
      if StrLe(t.date, lo) {
        StrLeTransitive(t.date, lo, hi);
      }
    }
  }

  /** The balance panel's cutoffs: today's week, month and year all end on or after
      today, and the month ends on or before the year. */
  lemma HorizonsOrdered(today: Date)
    requires HorizonsPrintable(today)
    ensures StrLe(Iso(today), Iso(EndOfWeek(today)))
    ensures StrLe(Iso(today), Iso(EndOfMonth(today)))
    ensures StrLe(Iso(EndOfMonth(today)), Iso(EndOfYear(today)))
  {
    EndOfWeekIsSaturday(today);
    IsoOrder(today, EndOfWeek(today));
    IsoOrder(today, EndOfMonth(today));
    IsoOrder(EndOfMonth(today), EndOfYear(today));
  }
}
