/** The spending-by-category chart: the expenses in the chosen date range, their
    totals per category, and the range it starts with. */
module SpendingChart {
  import opened Options
  import opened IsoText
  import opened Records
  import opened Sums
  import opened ListEdits
  import opened Grouping

  /** A negative amount, dated within `[start, end]` by text order unless either
      bound is empty. */
  predicate IsExpenseIn(t: Transaction, start: string, end: string) {
    t.amount < 0 && (start == "" || end == "" || (StrLe(start, t.date) && StrLe(t.date, end)))
  }

  function ExpenseIn(start: string, end: string): Transaction -> bool {
    (t: Transaction) => IsExpenseIn(t, start, end)
  }

  /** `expenses`. */
  function Expenses(txs: seq<Transaction>, start: string, end: string): (r: seq<Transaction>)
    ensures |r| <= |txs|
    ensures forall i :: 0 <= i < |r| ==> r[i].amount < 0
  {
    var r := Filter(txs, ExpenseIn(start, end));
    assert forall i :: 0 <= i < |r| ==> r[i].amount < 0 by {
      forall i | 0 <= i < |r|
        ensures r[i].amount < 0
      {
        FilterMembers(txs, ExpenseIn(start, end), r[i]);
      }
    }
    r
  }

  /** The chart keeps exactly the negative amounts in the range. */
  lemma ExpensesMembers(txs: seq<Transaction>, start: string, end: string, t: Transaction)
    ensures t in Expenses(txs, start, end) <==> t in txs && IsExpenseIn(t, start, end)
  {
    FilterMembers(txs, ExpenseIn(start, end), t);
  }

  /** `tx.category || 'Uncategorized'`. */
  function CategoryKey(): Transaction -> Option<string> {
    (t: Transaction) => Some(if Truthy(t.category) then t.category.value else "Uncategorized")
  }

  /** `totalsByCategory`: one entry per category of the expenses (or
      "Uncategorized"), each the sum of their sizes and so positive, the entries
      adding up to the sizes of all the expenses. */
  method TotalsByCategory(expenses: seq<Transaction>) returns (totals: map<string, int>)
    ensures Grouped(totals, expenses, CategoryKey(), AbsAmount)
    ensures SumValues(totals) == SumOf(expenses, AbsAmount)
    ensures (forall i :: 0 <= i < |expenses| ==> expenses[i].amount != 0) ==> forall k :: k in totals ==> totals[k] > 0
  {
    totals := map[];
    for i := 0 to |expenses|
      invariant Grouped(totals, expenses[..i], CategoryKey(), AbsAmount)
    {
      GroupedPrefixStep(totals, expenses, i, CategoryKey(), AbsAmount);
      totals := AddToCategory(totals, expenses[i]);
    }
    assert expenses[..|expenses|] == expenses;
    CategoryTotals(totals, expenses);
  }

  /** Every expense has a category key, so the totals add up to all the sizes, and
      each total of non-zero amounts is positive. */
  lemma CategoryTotals(totals: map<string, int>, expenses: seq<Transaction>)
    requires Grouped(totals, expenses, CategoryKey(), AbsAmount)
    ensures SumValues(totals) == SumOf(expenses, AbsAmount)
    ensures (forall i :: 0 <= i < |expenses| ==> expenses[i].amount != 0) ==> forall k :: k in totals ==> totals[k] > 0
  {
    SumOfCongruent(expenses, KeyedOnly(CategoryKey(), AbsAmount), AbsAmount);
    if forall i :: 0 <= i < |expenses| ==> expenses[i].amount != 0 {
      forall k | k in totals
        ensures totals[k] > 0
      {
        GroupTotalPositive(expenses, CategoryKey(), AbsAmount, k);
      }
    }
  }

  /** The `forEach` callback. */
  method AddToCategory(totals: map<string, int>, tx: Transaction) returns (r: map<string, int>)
    ensures r == AddEntry(totals, tx, CategoryKey(), AbsAmount)
  {
    var cat := if tx.category.Some? && tx.category.value != "" then tx.category.value else "Uncategorized";
    r := totals[cat := (if cat in totals then totals[cat] else 0) + AbsAmount(tx)];
  }

  /** The chart shows its no-data state exactly when no transaction is an expense
      in the range, which is exactly when it has no category. */
  lemma NoDataIff(txs: seq<Transaction>, start: string, end: string, totals: map<string, int>)
    requires Grouped(totals, Expenses(txs, start, end), CategoryKey(), AbsAmount)
    ensures Expenses(txs, start, end) == [] <==> forall i :: 0 <= i < |txs| ==> !IsExpenseIn(txs[i], start, end)
    ensures Expenses(txs, start, end) == [] <==> totals == map[]
  {
    var e := Expenses(txs, start, end);
    if e != [] {
      ExpensesMembers(txs, start, end, e[0]);
      KeysOfMembers(e, CategoryKey(), CategoryKey()(e[0]).value);
      assert CategoryKey()(e[0]).value in totals;
    } else {
      forall i | 0 <= i < |txs|
        ensures !IsExpenseIn(txs[i], start, end)
      {
        ExpensesMembers(txs, start, end, txs[i]);
      }
    }
  }

  // ---- The initial range ----

  /** The earliest date text of a non-empty list. */
  function EarliestDate(txs: seq<Transaction>): (r: string)
    requires txs != []
    ensures exists i :: 0 <= i < |txs| && r == txs[i].date
    ensures forall i :: 0 <= i < |txs| ==> StrLe(r, txs[i].date)
    decreases |txs|
  {
    if |txs| == 1 then StrLeTotal(txs[0].date, txs[0].date); txs[0].date
    else
      var rest := EarliestDate(txs[1..]);
      StrLeTotal(txs[0].date, rest);
      StrLeTotal(txs[0].date, txs[0].date);
      var r := if StrLe(txs[0].date, rest) then txs[0].date else rest;
      assert forall i :: 1 <= i < |txs| ==> txs[i] == txs[1..][i - 1];
      assert forall i :: 1 <= i < |txs| ==> StrLe(r, txs[i].date) by {
        forall i | 1 <= i < |txs|
          ensures StrLe(r, txs[i].date)
        {
          if r != rest {
            StrLeTransitive(r, rest, txs[i].date);
          }
        }
      }
      r
  }

  /** The latest date text of a non-empty list. */
  function LatestDate(txs: seq<Transaction>): (r: string)
    requires txs != []
    ensures exists i :: 0 <= i < |txs| && r == txs[i].date
    ensures forall i :: 0 <= i < |txs| ==> StrLe(txs[i].date, r)
    decreases |txs|
  {
    if |txs| == 1 then StrLeTotal(txs[0].date, txs[0].date); txs[0].date
    else
      var rest := LatestDate(txs[1..]);
      StrLeTotal(txs[0].date, rest);
      StrLeTotal(txs[0].date, txs[0].date);
      var r := if StrLe(txs[0].date, rest) then rest else txs[0].date;
      assert forall i :: 1 <= i < |txs| ==> txs[i] == txs[1..][i - 1];
      assert forall i :: 1 <= i < |txs| ==> StrLe(txs[i].date, r) by {
        forall i | 1 <= i < |txs|
          ensures StrLe(txs[i].date, r)
        {
          if r != rest {
            StrLeTransitive(txs[i].date, rest, r);
          }
        }
      }
      r
  }

  /** The first and last dates of the date-sorted list, or empty texts without
      transactions. */
  function InitialRange(txs: seq<Transaction>): (r: (string, string))
    ensures txs == [] ==> r == ("", "")
    ensures txs != [] ==> r == (EarliestDate(txs), LatestDate(txs))
  {
    if txs == [] then ("", "") else (EarliestDate(txs), LatestDate(txs))
  }

  predicate SortedByDate(p: seq<Transaction>) {
    forall i, j :: 0 <= i < j < |p| ==> StrLe(p[i].date, p[j].date)
  }

  /** Any date-sorted copy of the list starts with its earliest date and ends with
      its latest, so the range does not depend on how ties are sorted. */
  lemma SortedEnds(txs: seq<Transaction>, p: seq<Transaction>)
    requires txs != [] && multiset(p) == multiset(txs) && SortedByDate(p)
    ensures |p| == |txs|
    ensures p[0].date == EarliestDate(txs) && p[|p| - 1].date == LatestDate(txs)
  {
    assert |p| == |multiset(p)| == |txs|;
    SortedFirst(txs, p);
    SortedLast(txs, p);
  }

  lemma SortedFirst(txs: seq<Transaction>, p: seq<Transaction>)
    requires txs != [] && |p| == |txs| && multiset(p) == multiset(txs) && SortedByDate(p)
    ensures p[0].date == EarliestDate(txs)
  {
    var lo := EarliestDate(txs);
    var a :| 0 <= a < |txs| && lo == txs[a].date;
    assert txs[a] in multiset(p);
    var ia :| 0 <= ia < |p| && p[ia] == txs[a];
    assert p[0] in multiset(txs);
    if ia > 0 { assert StrLe(p[0].date, p[ia].date); } else { StrLeTotal(lo, lo); }
    StrLeAntisymmetric(p[0].date, lo);
  }

  lemma SortedLast(txs: seq<Transaction>, p: seq<Transaction>)
    requires txs != [] && |p| == |txs| && multiset(p) == multiset(txs) && SortedByDate(p)
    ensures p[|p| - 1].date == LatestDate(txs)
  {
    var hi := LatestDate(txs);
    var b :| 0 <= b < |txs| && hi == txs[b].date;
    assert txs[b] in multiset(p);
    var ib :| 0 <= ib < |p| && p[ib] == txs[b];
    assert p[|p| - 1] in multiset(txs);
    if ib < |p| - 1 { assert StrLe(p[ib].date, p[|p| - 1].date); } else { StrLeTotal(hi, hi); }
    StrLeAntisymmetric(p[|p| - 1].date, hi);
  }

  /** With the initial range the date filter lets every expense through. */
  lemma InitialRangeKeepsAll(txs: seq<Transaction>)
    ensures Expenses(txs, InitialRange(txs).0, InitialRange(txs).1) == Filter(txs, (t: Transaction) => t.amount < 0)
  {
    var r := InitialRange(txs);
    FilterCongruent(txs, ExpenseIn(r.0, r.1), (t: Transaction) => t.amount < 0);
  }
}
