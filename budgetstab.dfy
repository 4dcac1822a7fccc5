/** The budgets tab: the category and budget edits, what each budget has spent
    in the viewed month, which budgets the month lists, and the month's totals. */
module BudgetsTab {
  import opened Options
  import opened Dates
  import opened IsoText
  import opened Records
  import opened Sums
  import opened ListEdits
  import opened Grouping
  import opened Text
  import opened AppBudgets
  import Balances

  /** `parseISO(tx.date)` falls in the viewed date's year and month; an invalid
      date falls in no month. */
  predicate InViewedMonth(t: Transaction, view: Date) {
    ParseIso(t.date).Some? && ParseIso(t.date).value.year == view.year
    && ParseIso(t.date).value.month == view.month
  }

  /** The key `spentByBudget` files a transaction under: its budget id, when it
      has one and is dated in the viewed month. */
  function BudgetKey(view: Date): Transaction -> Option<string> {
    (t: Transaction) => if Truthy(t.budgetId) && InViewedMonth(t, view) then t.budgetId else None
  }

  /** `spentByBudget`: for every budget id used this month, the sizes of the
      amounts filed under it, refunds included; and no other keys. */
  method SpentByBudget(txs: seq<Transaction>, view: Date) returns (spent: map<string, int>)
    ensures Grouped(spent, txs, BudgetKey(view), AbsAmount)
  {
    spent := map[];
    for i := 0 to |txs|
      invariant Grouped(spent, txs[..i], BudgetKey(view), AbsAmount)
    {
      GroupedPrefixStep(spent, txs, i, BudgetKey(view), AbsAmount);
      spent := FileSpending(spent, txs[i], view);
    }
    assert txs[..|txs|] == txs;
  }

  /** The `forEach` callback: a transaction with a budget id, dated in the viewed
      month, adds its size to that id's entry. */
  method FileSpending(spent: map<string, int>, tx: Transaction, view: Date) returns (r: map<string, int>)
    ensures r == AddEntry(spent, tx, BudgetKey(view), AbsAmount)
  {
    r := spent;
    if tx.budgetId.Some? && tx.budgetId.value != "" {
      var txDate := ParseIso(tx.date);
      if txDate.Some? && txDate.value.year == view.year && txDate.value.month == view.month {
        var b := tx.budgetId.value;
        r := r[b := (if b in r then r[b] else 0) + AbsAmount(tx)];
      }
    }
  }

  /** A budget id is a key exactly when a transaction of the viewed month names it,
      and what it has spent is never negative. */
  lemma SpentKeys(txs: seq<Transaction>, view: Date, id: string)
    ensures id in KeysOf(txs, BudgetKey(view)) <==>
      exists i :: 0 <= i < |txs| && txs[i].budgetId == Some(id) && id != "" && InViewedMonth(txs[i], view)
    ensures GroupTotal(txs, BudgetKey(view), AbsAmount, id) >= 0
  {
    KeysOfMembers(txs, BudgetKey(view), id);
    GroupTotalNonNegative(txs, BudgetKey(view), AbsAmount, id);
  }

  // ---- The budgets listed for the month ----

  /** `b.month === monthStr || (b.recurring && (!b.month || b.month <= monthStr))`;
      the end month plays no part. */
  predicate ListedFor(b: Budget, monthStr: string) {
    b.month == Some(monthStr) || (b.recurring && (!Truthy(b.month) || StrLe(b.month.value, monthStr)))
  }

  function Listed(monthStr: string): Budget -> bool {
    (b: Budget) => ListedFor(b, monthStr)
  }

  function BudgetsForMonth(budgets: seq<Budget>, monthStr: string): (r: seq<Budget>)
    ensures |r| <= |budgets|
    ensures forall i :: 0 <= i < |r| ==> r[i] in budgets && ListedFor(r[i], monthStr)
  {
    FilterKept(budgets, Listed(monthStr));
    Filter(budgets, Listed(monthStr))
  }

  /** The month lists exactly the budgets set for it and the recurring budgets
      that started no later, in their stored order. */
  lemma BudgetsForMonthMembers(budgets: seq<Budget>, monthStr: string, b: Budget)
    ensures b in BudgetsForMonth(budgets, monthStr) <==> b in budgets && ListedFor(b, monthStr)
  {
    FilterMembers(budgets, Listed(monthStr), b);
  }

  /** The tab and the shell disagree about which budgets are active:
      a recurring budget that started in an earlier month is listed by the tab but
      not counted by the shell; a budget with neither a month nor the recurring flag
      is counted by the shell but not listed by the tab; and the tab lists a
      recurring budget whose end month has passed. A budget set for the month
      itself is active for both. */
  lemma ActiveTestsDisagree(cur: string, b: Budget)
    ensures var started := Budget("b", "c", 100, Some("2025-01"), None, true);
      ListedFor(started, "2025-03") && !CountedFor(started, "2025-03")
    ensures var plain := Budget("b", "c", 100, None, None, false);
      CountedFor(plain, cur) && !ListedFor(plain, cur)
    ensures var ended := Budget("b", "c", 100, Some("2025-01"), Some("2025-02"), true);
      ListedFor(ended, "2025-03") && !CountedFor(ended, "2025-03")
    ensures cur != "" && b.month == Some(cur) ==> ListedFor(b, cur) && CountedFor(b, cur)
  {
    assert LexLess("2025-01", "2025-03");
    assert LexLess("2025-02", "2025-03");
  }

  /** The two tests on every budget that is not set for the month itself. Without
      a month the tab lists exactly the recurring budgets while the shell counts
      every budget except a recurring one with an end month, so they agree only on
      a recurring budget without an end month. With a month the tab asks for the
      recurring flag and the shell for an end month, and only the shell bounds the
      month from above. */
  lemma ActiveTestsCompared(b: Budget, cur: string)
    requires b.month != Some(cur)
    ensures !Truthy(b.month) ==>
      && (ListedFor(b, cur) <==> b.recurring)
      && (CountedFor(b, cur) <==> !b.recurring || !Truthy(b.endMonth))
      && (ListedFor(b, cur) == CountedFor(b, cur) <==> b.recurring && !Truthy(b.endMonth))
    ensures Truthy(b.month) ==>
      && (ListedFor(b, cur) <==> b.recurring && StrLe(b.month.value, cur))
      && (CountedFor(b, cur) <==> Truthy(b.endMonth) && StrLe(b.month.value, cur) && StrLe(cur, b.endMonth.value))
  {
  }

  // ---- The month's totals ----

  /** The `totalIncome` filter: a positive amount dated in the viewed month. */
  function IncomeIn(view: Date): Transaction -> bool {
    (t: Transaction) => t.amount > 0 && InViewedMonth(t, view)
  }

  /** The `totalExpense` filter: a negative amount dated in the viewed month. */
  function ExpenseIn(view: Date): Transaction -> bool {
    (t: Transaction) => t.amount < 0 && InViewedMonth(t, view)
  }

  function IncomeWeight(view: Date): Transaction -> int {
    (t: Transaction) => if t.amount > 0 && InViewedMonth(t, view) then t.amount else 0
  }

  function ExpenseWeight(view: Date): Transaction -> int {
    (t: Transaction) => if t.amount < 0 && InViewedMonth(t, view) then t.amount else 0
  }

  function MonthWeight(view: Date): Transaction -> int {
    (t: Transaction) => if InViewedMonth(t, view) then t.amount else 0
  }

  datatype MonthTotals = MonthTotals(income: int, expense: int, budget: int, before: int, after: int)

  /** The panel's figures: the month's income (the sum of its positive amounts,
      never negative), its expenses (the sum of its negative amounts, never
      positive), the listed budgets' total, the balance before budgets (income
      plus expenses, which is the sum of the month's amounts) and after them. */
  function Totals(txs: seq<Transaction>, budgets: seq<Budget>, view: Date, monthStr: string): (r: MonthTotals)
    ensures r.income == SumOf(Filter(txs, IncomeIn(view)), Balances.Amount)
    ensures r.expense == SumOf(Filter(txs, ExpenseIn(view)), Balances.Amount)
    ensures r.income >= 0 && r.expense <= 0
    ensures r.before == r.income + r.expense
    ensures r.before == SumOf(txs, MonthWeight(view))
    ensures r.budget == SumOf(Filter(budgets, Listed(monthStr)), BudgetAmount)
    ensures r.after == SumOf(txs, MonthWeight(view)) - r.budget
  {
    var income := SumOf(txs, IncomeWeight(view));
    var expense := SumOf(txs, ExpenseWeight(view));
    var budget := SumOf(BudgetsForMonth(budgets, monthStr), BudgetAmount);
    SumOfPositive(txs, IncomeWeight(view));
    SumOfNonPositive(txs, ExpenseWeight(view));
    SumOfAdd(txs, IncomeWeight(view), ExpenseWeight(view), MonthWeight(view));
    SumOfFilter(txs, IncomeIn(view), Balances.Amount, IncomeWeight(view));
    SumOfFilter(txs, ExpenseIn(view), Balances.Amount, ExpenseWeight(view));
    MonthTotals(income, expense, budget, income + expense, income + expense - budget)
  }

  // ---- One budget's row ----

  datatype BudgetRow = BudgetRow(caption: string, spent: int, remaining: int, over: bool)

  /** A listed budget's row: its category's name (or "Uncategorized"), what it has
      spent (0 without an entry), what remains, and "Over" when that is negative. */
  function Row(b: Budget, categories: seq<Category>, spent: map<string, int>): (r: BudgetRow)
    ensures r.caption != ""
    ensures r.spent == Lookup(spent, b.id) && r.remaining == b.amount - r.spent
    ensures r.over <==> r.spent > b.amount
  {
    var name := CategoryName(categories, b.categoryId);
    var caption := if Truthy(name) then name.value else "Uncategorized";
    var s := Lookup(spent, b.id);
    BudgetRow(caption, s, b.amount - s, b.amount - s < 0)
  }

  /** A budget shows "Over" exactly when the month's transactions filed under it
      add up to more than its amount. */
  lemma OverMeansOverspent(b: Budget, categories: seq<Category>, txs: seq<Transaction>, view: Date,
                           spent: map<string, int>)
    requires Grouped(spent, txs, BudgetKey(view), AbsAmount)
    ensures Row(b, categories, spent).over <==> GroupTotal(txs, BudgetKey(view), AbsAmount, b.id) > b.amount
  {
    LookupIsTotal(spent, txs, BudgetKey(view), AbsAmount, b.id);
  }

  // ---- The category and budget edits ----

  datatype Choice = ThisMonth | EveryMonth

  datatype TabData = TabData(categories: seq<Category>, budgets: seq<Budget>)

  /** The budget `handleAddCategory` creates: for this month only, or recurring
      with no month. */
  function NewBudget(id: string, categoryId: string, amount: int, choice: Choice, monthStr: string): Budget {
    Budget(id, categoryId, amount, if choice == ThisMonth then Some(monthStr) else None, None, choice == EveryMonth)
  }

  /** `handleAddCategory`, with the fresh ids and `Number(newCatBudget)` as
      parameters (None for NaN): nothing happens for a blank name; otherwise the
      trimmed name is appended as a category and, when a budget text that is a
      number was entered, one budget for it is appended. */
  function AddCategory(d: TabData, newCat: string, newCatBudget: string, parsedBudget: Option<int>,
                       choice: Choice, monthStr: string, catId: string, budgetId: string): (r: TabData)
    ensures Trim(newCat) == "" ==> r == d
    ensures Trim(newCat) != "" ==>
      && |r.categories| == |d.categories| + 1 && r.categories[..|d.categories|] == d.categories
      && r.categories[|d.categories|] == Category(catId, Trim(newCat))
    ensures Trim(newCat) != "" && newCatBudget != "" && parsedBudget.Some? ==>
      r.budgets == d.budgets + [NewBudget(budgetId, catId, parsedBudget.value, choice, monthStr)]
    ensures !(newCatBudget != "" && parsedBudget.Some?) ==> r.budgets == d.budgets
  {
    var name := Trim(newCat);
    if name == "" then d
    else
      var cats := Added(d.categories, Category(catId, name));
      if newCatBudget != "" && parsedBudget.Some? then
        TabData(cats, Added(d.budgets, NewBudget(budgetId, catId, parsedBudget.value, choice, monthStr)))
      else TabData(cats, d.budgets)
  }

  /** A budget added for this month is listed in that month only and counted by
      the shell in that month; one added for every month is listed and counted in
      every month. */
  lemma NewBudgetActive(id: string, categoryId: string, amount: int, choice: Choice, monthStr: string, m: string)
    requires monthStr != ""
    ensures var b := NewBudget(id, categoryId, amount, choice, monthStr);
      && (choice == ThisMonth ==> (ListedFor(b, m) <==> m == monthStr) && (CountedFor(b, m) <==> m == monthStr))
      && (choice == EveryMonth ==> ListedFor(b, m) && CountedFor(b, m))
  {
  }

  /** `handleEditCategory`: the categories with that id are renamed; nothing else
      changes. */
  function EditCategory(categories: seq<Category>, id: string, name: string): (r: seq<Category>)
    ensures |r| == |categories|
    ensures forall i :: 0 <= i < |r| ==>
      r[i] == if categories[i].id == id then categories[i].(name := name) else categories[i]
  {
    Replaced(categories, CategoryId, Category(id, name))
  }

  /** `handleDeleteCategory`: the category and its budgets go. */
  function DeleteCategory(d: TabData, id: string): (r: TabData)
    ensures |r.categories| <= |d.categories| && |r.budgets| <= |d.budgets|
    ensures forall i :: 0 <= i < |r.categories| ==> r.categories[i] in d.categories && r.categories[i].id != id
    ensures forall i :: 0 <= i < |r.budgets| ==> r.budgets[i] in d.budgets && r.budgets[i].categoryId != id
  {
    FilterKept(d.categories, KeyIsNot(CategoryId, id));
    FilterKept(d.budgets, KeyIsNot(BudgetCategoryId, id));
    TabData(RemoveKey(d.categories, CategoryId, id), RemoveKey(d.budgets, BudgetCategoryId, id))
  }

  /** Deleting a category keeps exactly the other categories and the budgets of
      other categories. */
  lemma DeleteCategoryMembers(d: TabData, id: string, c: Category, b: Budget)
    ensures c in DeleteCategory(d, id).categories <==> c in d.categories && c.id != id
    ensures b in DeleteCategory(d, id).budgets <==> b in d.budgets && b.categoryId != id
  {
    RemoveKeyMembers(d.categories, CategoryId, id, c);
    RemoveKeyMembers(d.budgets, BudgetCategoryId, id, b);
  }

  function ForCategory(categoryId: string): Budget -> bool {
    (b: Budget) => b.categoryId == categoryId
  }

  /** `budgets.map(b => b.categoryId === categoryId ? { ...b, amount } : b)`. */
  function SetAmounts(budgets: seq<Budget>, categoryId: string, amount: int): (r: seq<Budget>)
    ensures |r| == |budgets|
    ensures forall i :: 0 <= i < |r| ==>
      r[i] == if budgets[i].categoryId == categoryId then budgets[i].(amount := amount) else budgets[i]
    decreases |budgets|
  {
    if budgets == [] then []
    else
      var last := budgets[|budgets| - 1];
      SetAmounts(budgets[..|budgets| - 1], categoryId, amount)
        + [if last.categoryId == categoryId then last.(amount := amount) else last]
  }

  /** `handleSetBudget`, with `Number(amount)` as a parameter (None for NaN) and a
      fresh id. */
  function SetBudget(budgets: seq<Budget>, categoryId: string, amountText: string, parsed: Option<int>,
                     freshId: string): (r: seq<Budget>)
    ensures amountText == "" || parsed.None? ==> r == budgets
    ensures amountText != "" && parsed.Some? && (exists i :: 0 <= i < |budgets| && budgets[i].categoryId == categoryId) ==>
      && |r| == |budgets|
      && forall i :: 0 <= i < |r| ==>
           r[i] == if budgets[i].categoryId == categoryId then budgets[i].(amount := parsed.value) else budgets[i]
    ensures amountText != "" && parsed.Some? && (forall i :: 0 <= i < |budgets| ==> budgets[i].categoryId != categoryId) ==>
      r == budgets + [Budget(freshId, categoryId, parsed.value, None, None, false)]
  {
    if amountText == "" || parsed.None? then budgets
    else if Find(budgets, ForCategory(categoryId)).Some? then SetAmounts(budgets, categoryId, parsed.value)
    else budgets + [Budget(freshId, categoryId, parsed.value, None, None, false)]
  }

  /** The budget `handleSetBudget` appends has no month and is not recurring, so no
      month of the tab lists it, while the shell counts it in every month. */
  lemma SetBudgetAppendsUnlisted(budgets: seq<Budget>, categoryId: string, amountText: string, amount: int,
                                 freshId: string, m: string)
    requires amountText != ""
    requires forall i :: 0 <= i < |budgets| ==> budgets[i].categoryId != categoryId
    ensures var r := SetBudget(budgets, categoryId, amountText, Some(amount), freshId);
      && |r| == |budgets| + 1
      && !ListedFor(r[|budgets|], m) && CountedFor(r[|budgets|], m)
  {
  }
}
