/** The application's stored records. Amounts are integer cents; optional
    fields of the source are `Option` values. */
module Records {
  import opened Options

  /** A one-off transaction, or an instance materialised from a recurring rule
      (`recurring` is false where the source leaves the flag undefined). */
  datatype Transaction = Transaction(
    id: string,
    date: string,
    description: string,
    amount: int,
    category: Option<string>,
    recurring: bool,
    budgetId: Option<string>)

  datatype RecurrenceType = Monthly | Biweekly

  datatype RecurringTransaction = RecurringTransaction(
    id: string,
    description: string,
    amount: int,
    kind: RecurrenceType,
    dayOfMonth: Option<int>,
    dayOfWeek: Option<int>,
    startDate: string,
    endDate: Option<string>,
    category: Option<string>,
    budgetId: Option<string>)

  datatype Category = Category(id: string, name: string)

  /** `month` and `endMonth` are `YYYY-MM` keys; `recurring` is false where the
      source leaves it undefined. */
  datatype Budget = Budget(
    id: string,
    categoryId: string,
    amount: int,
    month: Option<string>,
    endMonth: Option<string>,
    recurring: bool)

  datatype Goal = Goal(id: string, name: string, target: int, notes: Option<string>)

  datatype User = User(id: string, name: string)

  datatype AppUserData = AppUserData(
    transactions: seq<Transaction>,
    recurrings: seq<RecurringTransaction>,
    categories: seq<Category>,
    budgets: seq<Budget>)

  function EmptyUserData(): AppUserData {
    AppUserData([], [], [], [])
  }

  /** JavaScript truthiness of an optional string: present and not empty. */
  predicate Truthy(s: Option<string>) {
    s.Some? && s.value != ""
  }

  /** `Math.abs(tx.amount)`. */
  function AbsAmount(t: Transaction): int {
    if t.amount < 0 then -t.amount else t.amount
  }

  function UserId(u: User): string { u.id }
  function TransactionId(t: Transaction): string { t.id }
  function RecurringId(r: RecurringTransaction): string { r.id }
  function GoalId(g: Goal): string { g.id }
  function CategoryId(c: Category): string { c.id }
  function BudgetCategoryId(b: Budget): string { b.categoryId }
}
