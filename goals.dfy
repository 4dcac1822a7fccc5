/** The goal projector: the average monthly net over the months that have
    transactions, and for each goal the month count and date at which the
    balance would reach its target, optimistically and after budgets. */
module Goals {
  import opened Options
  import opened Dates
  import opened IsoText
  import opened Records
  import opened Sums
  import opened ListEdits
  import opened Grouping
  import opened Text
  import Balances

  // ---- Average monthly net ----

  /** The `YYYY-MM` month key of a transaction: the first seven characters of its
      date text. */
  function MonthKey(): Transaction -> Option<string> {
    (t: Transaction) => Some(Slice(t.date, 7))
  }

  /** The months that have transactions. */
  function Months(txs: seq<Transaction>): set<string> {
    KeysOf(txs, MonthKey())
  }

  /** A list with a transaction has a month. */
  lemma MonthsNonEmpty(txs: seq<Transaction>)
    requires txs != []
    ensures |Months(txs)| > 0
  {
    KeysOfMembers(txs, MonthKey(), Slice(txs[0].date, 7));
  }

  /** `avgMonthlyNet`: 0 without transactions, otherwise the total of all amounts
      over the number of distinct months that have transactions. */
  method AvgMonthlyNet(txs: seq<Transaction>) returns (avg: real)
    ensures txs == [] ==> avg == 0.0
    ensures txs != [] ==> |Months(txs)| > 0 && avg == Balances.Total(txs) as real / |Months(txs)| as real
  {
    if |txs| == 0 {
      return 0.0;
    }
    var txsByMonth: map<string, int> := map[];
    for i := 0 to |txs|
      invariant Grouped(txsByMonth, txs[..i], MonthKey(), Balances.Amount)
    {
      GroupedPrefixStep(txsByMonth, txs, i, MonthKey(), Balances.Amount);
      txsByMonth := AddToMonth(txsByMonth, txs[i]);
    }
    assert txs[..|txs|] == txs;
    var months := |txsByMonth.Keys|;
    if months == 0 {
      MonthsNonEmpty(txs);
      return 0.0;
    }
    var total := SumMap(txsByMonth);
    SumOfCongruent(txs, KeyedOnly(MonthKey(), Balances.Amount), Balances.Amount);
    MonthsNonEmpty(txs);
    avg := total as real / months as real;
  }

  /** The `forEach` callback: the amount is added to its month's entry. */
  method AddToMonth(txsByMonth: map<string, int>, tx: Transaction) returns (r: map<string, int>)
    ensures r == AddEntry(txsByMonth, tx, MonthKey(), Balances.Amount)
  {
    var ym := Slice(tx.date, 7);
    r := txsByMonth[ym := (if ym in txsByMonth then txsByMonth[ym] else 0) + tx.amount];
  }

  /** `Object.values(m).reduce((a, b) => a + b, 0)`, in whatever order the keys come. */
  method SumMap(m: map<string, int>) returns (total: int)
    ensures total == SumValues(m)
  {
    total := 0;
    var rest := m;
    while rest != map[]
      invariant total + SumValues(rest) == SumValues(m)
      decreases |rest.Keys|
    {
      var k :| k in rest;
      SumValuesRemove(rest, k);
      total := total + rest[k];
      rest := rest - {k};
    }
  }

  // ---- Month counts ----

  /** `Math.ceil`. */
  function Ceil(x: real): (k: int)
    ensures k as real - 1.0 < x <= k as real
  {
    var f := x.Floor;
    if f as real == x then f else f + 1
  }

  /** `Math.ceil(gap / net)` for a positive gap and net: the least number of months
      whose net covers the gap. */
  function MonthsNeeded(gap: int, net: real): (k: int)
    requires gap > 0 && net > 0.0
    ensures k >= 1
    ensures (k - 1) as real * net < gap as real <= k as real * net
  {
    var q := gap as real / net;
    var k := Ceil(q);
    CeilScaled(q, net, gap as real, k);
    k
  }

  lemma CeilScaled(q: real, net: real, gap: real, k: int)
    requires net > 0.0 && gap > 0.0 && q == gap / net
    requires k as real - 1.0 < q <= k as real
    ensures k >= 1
    ensures (k - 1) as real * net < gap <= k as real * net
  {
    assert q * net == gap;
    assert q > 0.0 by {
      if q <= 0.0 {
        ScaleAtMost(q, 0.0, net);
      }
    }
    ScaleLess(k as real - 1.0, q, net);
    ScaleAtMost(q, k as real, net);
  }

  lemma ScaleLess(a: real, b: real, c: real)
    requires a < b && c > 0.0
    ensures a * c < b * c
  {
    assert b * c - a * c == (b - a) * c;
  }

  lemma ScaleAtMost(a: real, b: real, c: real)
    requires a <= b && c > 0.0
    ensures a * c <= b * c
  {
    assert b * c - a * c == (b - a) * c;
  }

  // ---- Projections ----

  /** "Goal already reached!", a date some whole number of months ahead, or null. */
  datatype Projection = Reached | InMonths(months: int) | NoDate

  /** The date `monthsNeeded` months after today: `new Date(year, month + k, day)`. */
  function MonthsLater(today: Date, k: int): Date {
    JsDate(today.year, today.month - 1 + k, today.day)
  }

  /** One projection: reached when the target is within the balance (whatever the
      net), otherwise dated when the net is positive, otherwise null. */
  function Project(target: int, balance: int, net: real): (p: Projection)
    ensures p.Reached? <==> target <= balance
    ensures p.NoDate? <==> target > balance && net <= 0.0
    ensures p.InMonths? ==> p.months >= 1 && p.months == MonthsNeeded(target - balance, net)
  {
    if target <= balance then Reached
    else if net > 0.0 then InMonths(MonthsNeeded(target - balance, net))
    else NoDate
  }

  /** For a day that every month has, the projected date is that day k months
      ahead, so it is later than today and different for different k. */
  lemma MonthsLaterPlain(today: Date, k: int)
    requires Valid(today) && today.year >= 100 && today.day <= 28
    ensures var idx := today.month - 1 + k;
      MonthsLater(today, k) == Date(today.year + idx / 12, idx % 12 + 1, today.day)
    ensures k >= 1 ==> Before(today, MonthsLater(today, k))
  {
    var idx := today.month - 1 + k;
    JsDateNoCarry(today.year, idx, today.day);
    if k >= 1 && idx >= 12 {
      assert idx / 12 >= 1;
    }
  }

  /** Different month counts give different projected dates (for a day that
      every month has). */
  lemma MonthsLaterInjective(today: Date, j: int, k: int)
    requires Valid(today) && today.year >= 100 && today.day <= 28
    requires MonthsLater(today, j) == MonthsLater(today, k)
    ensures j == k
  {
    MonthsLaterPlain(today, j);
    MonthsLaterPlain(today, k);
    var a, b := today.month - 1 + j, today.month - 1 + k;
    assert a / 12 == b / 12 && a % 12 == b % 12;
    assert a == 12 * (a / 12) + a % 12 && b == 12 * (b / 12) + b % 12;
  }

  /** The conservative net: the average less the budgets spread over the months
      left in the year (at least one); never more than the average for budgets
      that are not negative. */
  function ConservativeNet(avg: real, remainingBudgets: int, monthsLeft: int): (r: real)
    ensures remainingBudgets >= 0 ==> r <= avg
    ensures 1 <= monthsLeft ==> r == avg - remainingBudgets as real / monthsLeft as real
  {
    var months := if monthsLeft > 0 then monthsLeft else 1;
    avg - remainingBudgets as real / months as real
  }

  datatype GoalDates = GoalDates(optimistic: Projection, conservative: Projection)

  /** Both projections of one goal target. */
  function GoalProjection(target: int, balanceToday: int, avg: real, remainingBudgets: int, monthsLeft: int): GoalDates
  {
    GoalDates(Project(target, balanceToday, avg),
              Project(target, balanceToday - remainingBudgets, ConservativeNet(avg, remainingBudgets, monthsLeft)))
  }

  /** The conservative projection is never ahead of the optimistic one: when the
      optimistic one is null so is the conservative one, when the conservative one
      is reached so is the optimistic one, and when both are dated the
      conservative one needs at least as many months. */
  lemma ConservativeNoEarlier(target: int, balanceToday: int, avg: real, remainingBudgets: int, monthsLeft: int)
    requires remainingBudgets >= 0
    ensures var g := GoalProjection(target, balanceToday, avg, remainingBudgets, monthsLeft);
      && (g.conservative.Reached? ==> g.optimistic.Reached?)
      && (g.optimistic.NoDate? ==> g.conservative.NoDate?)
      && (g.optimistic.InMonths? && g.conservative.InMonths? ==> g.optimistic.months <= g.conservative.months)
  {
    var g := GoalProjection(target, balanceToday, avg, remainingBudgets, monthsLeft);
    if g.optimistic.InMonths? && g.conservative.InMonths? {
      MonthsNeededMonotone(target - balanceToday, target - (balanceToday - remainingBudgets), avg,
                           ConservativeNet(avg, remainingBudgets, monthsLeft));
    }
  }

  /** A larger gap at a smaller net needs at least as many months. */
  lemma MonthsNeededMonotone(gap1: int, gap2: int, avg: real, net: real)
    requires 0 < gap1 <= gap2 && 0.0 < net <= avg
    ensures MonthsNeeded(gap1, avg) <= MonthsNeeded(gap2, net)
  {
    var k1, k2 := MonthsNeeded(gap1, avg), MonthsNeeded(gap2, net);
    var below, atNet, atAvg := (k1 - 1) as real * avg, k2 as real * net, k2 as real * avg;
    ScaleLeft(k2 as real, net, avg);
    LessChain(below, gap1 as real, gap2 as real, atNet, atAvg);
    UnscaleLess((k1 - 1) as real, k2 as real, avg, below, atAvg);
  }

  lemma ScaleLeft(c: real, a: real, b: real)
    requires a <= b && c >= 0.0
    ensures c * a <= c * b
  {
    assert c * b - c * a == c * (b - a);
  }

  lemma LessChain(a: real, b: real, c: real, d: real, e: real)
    requires a < b <= c <= d <= e
    ensures a < e
  {
  }

  lemma UnscaleLess(a: real, b: real, c: real, ac: real, bc: real)
    requires c > 0.0 && ac == a * c && bc == b * c && ac < bc
    ensures a < b
  {
    assert (b - a) * c == bc - ac;
  }

  /** One pass of the `goals.forEach` loop: the two `let` projections. */
  method ProjectGoal(goal: Goal, currentBalance: int, conservativeBalance: int, avg: real,
                     conservativeNet: real) returns (g: GoalDates)
    ensures g == GoalDates(Project(goal.target, currentBalance, avg),
                           Project(goal.target, conservativeBalance, conservativeNet))
  {
    var optimistic := NoDate;
    if goal.target <= currentBalance {
      optimistic := Reached;
    } else if avg > 0.0 {
      var monthsNeeded := MonthsNeeded(goal.target - currentBalance, avg);
      optimistic := InMonths(monthsNeeded);
    }
    var conservative := NoDate;
    if goal.target <= conservativeBalance {
      conservative := Reached;
    } else if conservativeNet > 0.0 {
      var monthsNeeded := MonthsNeeded(goal.target - conservativeBalance, conservativeNet);
      conservative := InMonths(monthsNeeded);
    }
    g := GoalDates(optimistic, conservative);
  }

  /** `projectedDates`: one entry per goal id; with ids repeated, the last goal
      with the id decides its entry. */
  method ProjectedDates(goals: seq<Goal>, balanceToday: int, avg: real, remainingBudgets: int, monthsLeft: int)
    returns (results: map<string, GoalDates>)
    ensures results.Keys == set g | g in goals :: g.id
    ensures forall i :: 0 <= i < |goals| && (forall j :: i < j < |goals| ==> goals[j].id != goals[i].id) ==>
      results[goals[i].id] == GoalProjection(goals[i].target, balanceToday, avg, remainingBudgets, monthsLeft)
  {
    var currentBalance := balanceToday;
    var conservativeBalance := balanceToday - remainingBudgets;
    var months := if monthsLeft > 0 then monthsLeft else 1;
    var conservativeNet := avg - remainingBudgets as real / months as real;
    results := map[];
    for i := 0 to |goals|
      invariant results.Keys == set g | g in goals[..i] :: g.id
      invariant forall j :: 0 <= j < i && (forall l :: j < l < i ==> goals[l].id != goals[j].id) ==>
        results[goals[j].id] == GoalProjection(goals[j].target, balanceToday, avg, remainingBudgets, monthsLeft)
    {
      var g := ProjectGoal(goals[i], currentBalance, conservativeBalance, avg, conservativeNet);
      assert goals[..i + 1] == goals[..i] + [goals[i]];
      results := results[goals[i].id := g];
    }
    assert goals[..|goals|] == goals;
  }

  // ---- What the goals tab shows ----

  /** The projection as the tab prints it: the projected date prints as
      `YYYY-MM-DD`. */
  function ProjectionText(p: Projection, today: Date): (r: Option<string>)
    requires p.InMonths? ==> Representable(MonthsLater(today, p.months))
    ensures r.None? <==> p.NoDate?
  {
    match p
    case Reached => Some("Goal already reached!")
    case InMonths(k) => Some(Iso(MonthsLater(today, k)))
    case NoDate => None
  }

  /** Projections differ exactly when their texts do (for a day that every month
      has), so comparing the values is comparing what the tab compares. */
  lemma ProjectionTextInjective(a: Projection, b: Projection, today: Date)
    requires Valid(today) && today.year >= 100 && today.day <= 28
    requires a.InMonths? ==> Representable(MonthsLater(today, a.months))
    requires b.InMonths? ==> Representable(MonthsLater(today, b.months))
    ensures ProjectionText(a, today) == ProjectionText(b, today) <==> a == b
  {
    if a.InMonths? && b.InMonths? {
      IsoOrder(MonthsLater(today, a.months), MonthsLater(today, b.months));
      if MonthsLater(today, a.months) == MonthsLater(today, b.months) {
        MonthsLaterInjective(today, a.months, b.months);
      }
    }
  }

  datatype Shown = InsufficientData | Shows(p: Projection)

  /** The "after budgets" line: the conservative projection, or "Insufficient data"
      when the goal has no entry or the projection is null. */
  function AfterBudgets(entry: Option<GoalDates>): (r: Shown)
    ensures r.InsufficientData? <==> entry.None? || entry.value.conservative.NoDate?
    ensures r.Shows? ==> r.p == entry.value.conservative
  {
    if entry.Some? && !entry.value.conservative.NoDate? then Shows(entry.value.conservative)
    else InsufficientData
  }

  /** The optimistic note: shown when the entry has an optimistic projection that
      differs from the conservative one. */
  function ShowsOptimisticNote(entry: Option<GoalDates>): (r: bool)
    ensures r ==> entry.Some? && !entry.value.optimistic.NoDate?
    ensures r ==> entry.value.optimistic != entry.value.conservative
  {
    entry.Some? && !entry.value.optimistic.NoDate? && entry.value.optimistic != entry.value.conservative
  }

  /** The tab compares the two projections as texts; for a day that every month
      has, the note shows exactly when the optimistic text is present and differs
      from the conservative text. */
  lemma OptimisticNoteByText(g: GoalDates, today: Date)
    requires Valid(today) && today.year >= 100 && today.day <= 28
    requires g.optimistic.InMonths? ==> Representable(MonthsLater(today, g.optimistic.months))
    requires g.conservative.InMonths? ==> Representable(MonthsLater(today, g.conservative.months))
    ensures ShowsOptimisticNote(Some(g)) <==>
      ProjectionText(g.optimistic, today).Some?
      && ProjectionText(g.optimistic, today) != ProjectionText(g.conservative, today)
  {
    ProjectionTextInjective(g.optimistic, g.conservative, today);
  }

  /** With no remaining budgets both projections agree, so no note is shown. */
  lemma NoBudgetsNoNote(target: int, balanceToday: int, avg: real, monthsLeft: int)
    requires 1 <= monthsLeft
    ensures !ShowsOptimisticNote(Some(GoalProjection(target, balanceToday, avg, 0, monthsLeft)))
  {
    assert ConservativeNet(avg, 0, monthsLeft) == avg;
    assert balanceToday - 0 == balanceToday;
  }

  /** The add-goal form: nothing for a blank name or an empty target text;
      otherwise one goal with the name as typed, the parsed target and the notes. */
  function AddGoal(goals: seq<Goal>, name: string, targetText: string, parsedTarget: int, notes: Option<string>,
                   freshId: string): (r: seq<Goal>)
    ensures Trim(name) == "" || targetText == "" ==> r == goals
    ensures Trim(name) != "" && targetText != "" ==>
      |r| == |goals| + 1 && r[..|goals|] == goals && r[|goals|] == Goal(freshId, name, parsedTarget, notes)
  {
    if Trim(name) == "" || targetText == "" then goals
    else Added(goals, Goal(freshId, name, parsedTarget, notes))
  }
}
