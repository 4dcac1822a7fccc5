/** The application shell's budget figures for the current month: the budgets
    it counts as active, what is left of all budgets after this month's
    spending, and the months left in the year. */
module AppBudgets {
  import opened Options
  import opened Dates
  import opened IsoText
  import opened Records
  import opened Sums
  import opened ListEdits

  function BudgetAmount(b: Budget): int {
    b.amount
  }

  /** The shell's test for a budget that applies to the current month `cur`: set
      for this month; or without a month and either recurring without an end
      month or not recurring; or a month range that contains `cur`. */
  predicate CountedFor(b: Budget, cur: string) {
    || (Truthy(b.month) && b.month.value == cur)
    || (!Truthy(b.month) && !Truthy(b.endMonth) && b.recurring)
    || (!Truthy(b.month) && !b.recurring)
    || (Truthy(b.month) && Truthy(b.endMonth) && StrLe(b.month.value, cur) && StrLe(cur, b.endMonth.value))
  }

  function Counted(cur: string): Budget -> bool {
    (b: Budget) => CountedFor(b, cur)
  }

  function CountedAmount(cur: string): Budget -> int {
    (b: Budget) => if CountedFor(b, cur) then b.amount else 0
  }

  /** `totalRemainingBudgets`: the reduce that adds the amount of each budget
      that applies to `cur`; it is the sum over exactly those budgets. */
  function TotalRemainingBudgets(budgets: seq<Budget>, cur: string): (r: int)
    ensures r == SumOf(Filter(budgets, Counted(cur)), BudgetAmount)
  {
    SumOfFilter(budgets, Counted(cur), BudgetAmount, CountedAmount(cur));
    SumOf(budgets, CountedAmount(cur))
  }

  /** Budgets that do not apply leave the total alone; ones that do add their
      amount, in any order. */
  lemma TotalRemainingAppend(budgets: seq<Budget>, b: Budget, cur: string)
    ensures TotalRemainingBudgets(budgets + [b], cur)
         == TotalRemainingBudgets(budgets, cur) + (if CountedFor(b, cur) then b.amount else 0)
  {
    var s := budgets + [b];
    assert s[..|s| - 1] == budgets;
  }

  lemma TotalRemainingPermutation(a: seq<Budget>, b: seq<Budget>, cur: string)
    requires multiset(a) == multiset(b)
    ensures TotalRemainingBudgets(a, cur) == TotalRemainingBudgets(b, cur)
  {
    SumOfPermutation(a, b, CountedAmount(cur));
  }

  // ---- Remaining budget this month ----

  function HasId(id: string): Category -> bool {
    (c: Category) => c.id == id
  }

  /** `categories.find(c => c.id === id)?.name`: the name of the first category
      with the id, or None when no category has it. */
  function CategoryName(categories: seq<Category>, id: string): (r: Option<string>)
    ensures r.None? <==> forall i :: 0 <= i < |categories| ==> categories[i].id != id
    ensures r.Some? ==> exists i ::
              && 0 <= i < |categories| && categories[i] == Category(id, r.value)
              && (forall j :: 0 <= j < i ==> categories[j].id != id)
  {
    var c := Find(categories, HasId(id));
    if c.Some? then Some(c.value.name) else None
  }

  /** The spending a transaction charges to budget b this month (`monthStr`): the
      size of a negative amount whose date text starts with `monthStr` and that
      names b's id or b's category name (when that name is not empty). */
  function SpentWeight(b: Budget, catName: Option<string>, monthStr: string): Transaction -> int {
    (t: Transaction) =>
      if Slice(t.date, 7) == monthStr
         && (t.budgetId == Some(b.id) || (Truthy(catName) && t.category == catName))
         && t.amount < 0
      then -t.amount else 0
  }

  /** The filter of the spending test: a negative amount whose date text starts
      with `monthStr` and that names b's id or b's category name (when that name
      is not empty). */
  predicate ChargedFor(t: Transaction, b: Budget, catName: Option<string>, monthStr: string) {
    && Slice(t.date, 7) == monthStr
    && (t.budgetId == Some(b.id) || (Truthy(catName) && t.category == catName))
    && t.amount < 0
  }

  function Charged(b: Budget, catName: Option<string>, monthStr: string): Transaction -> bool {
    (t: Transaction) => ChargedFor(t, b, catName, monthStr)
  }

  /** What budget b has spent this month: the sizes of exactly the charged
      transactions added up, so never negative. */
  function Spent(b: Budget, categories: seq<Category>, txs: seq<Transaction>, monthStr: string): (r: int)
    ensures r == SumOf(Filter(txs, Charged(b, CategoryName(categories, b.categoryId), monthStr)), AbsAmount)
    ensures r >= 0
  {
    var catName := CategoryName(categories, b.categoryId);
    SumOfPositive(txs, SpentWeight(b, catName, monthStr));
    SumOfFilter(txs, Charged(b, catName, monthStr), AbsAmount, SpentWeight(b, catName, monthStr));
    SumOf(txs, SpentWeight(b, catName, monthStr))
  }

  function SpentBy(categories: seq<Category>, txs: seq<Transaction>, monthStr: string): Budget -> int {
    (b: Budget) => Spent(b, categories, txs, monthStr)
  }

  function Leftover(categories: seq<Category>, txs: seq<Transaction>, monthStr: string): Budget -> int {
    (b: Budget) => b.amount - Spent(b, categories, txs, monthStr)
  }

  /** `remainingBudgetThisMonth`, over every budget whatever its month: the budgeted
      total less what the budgets have spent this month, so never more than the
      budgeted total. */
  function RemainingBudgetThisMonth(budgets: seq<Budget>, categories: seq<Category>, txs: seq<Transaction>,
                                   monthStr: string): (r: int)
    ensures r == SumOf(budgets, BudgetAmount) - SumOf(budgets, SpentBy(categories, txs, monthStr))
    ensures r <= SumOf(budgets, BudgetAmount)
  {
    var spent := SpentBy(categories, txs, monthStr);
    var neg := (b: Budget) => -Spent(b, categories, txs, monthStr);
    SumOfAdd(budgets, BudgetAmount, neg, Leftover(categories, txs, monthStr));
    SumOfAdd(budgets, spent, neg, (b: Budget) => 0);
    SumOfZero(budgets, (b: Budget) => 0);
    SumOfPositive(budgets, spent);
    SumOf(budgets, Leftover(categories, txs, monthStr))
  }

  /** With no spending dated this month every budget is left whole. */
  lemma NothingSpent(budgets: seq<Budget>, categories: seq<Category>, txs: seq<Transaction>, monthStr: string)
    requires forall i :: 0 <= i < |txs| ==> txs[i].amount >= 0 || Slice(txs[i].date, 7) != monthStr
    ensures RemainingBudgetThisMonth(budgets, categories, txs, monthStr) == SumOf(budgets, BudgetAmount)
  {
    forall b | b in budgets
      ensures Spent(b, categories, txs, monthStr) == 0
    {
      var w := SpentWeight(b, CategoryName(categories, b.categoryId), monthStr);
      SumOfZero(txs, w);
    }
    SumOfCongruent(budgets, SpentBy(categories, txs, monthStr), (b: Budget) => 0);
    SumOfZero(budgets, (b: Budget) => 0);
  }

  /** `12 - now.getMonth()`: between 1 (December) and 12 (January). */
  function MonthsLeftInYear(today: Date): (r: int)
    requires Valid(today)
    ensures 1 <= r <= 12
    ensures r == 12 <==> today.month == 1
    ensures r == 1 <==> today.month == 12
  {
    12 - (today.month - 1)
  }
}
