/** The recurrence expander of `addRecurringInstances`: every rule is turned
    into dated transaction instances that are appended after the stored
    one-off transactions. */
module Recurrence {
  import opened Options
  import opened Dates
  import opened IsoText
  import opened Records

  /** `parseISO(rt.startDate)`; None stands for an invalid date. */
  function StartOf(rt: RecurringTransaction): Option<Date> {
    ParseIso(rt.startDate)
  }

  /** `rt.endDate ? parseISO(rt.endDate) : endOfYear(today)`. */
  function EndOf(rt: RecurringTransaction, today: Date): (r: Option<Date>)
    ensures r.Some? ==> Representable(r.value) || !(0 <= today.year <= 9999)
  {
    if Truthy(rt.endDate) then ParseIso(rt.endDate.value) else Some(EndOfYear(today))
  }

  /** The monthly branch runs: the type is monthly and `dayOfMonth` is truthy. */
  predicate MonthlyFires(rt: RecurringTransaction) {
    rt.kind == Monthly && rt.dayOfMonth.Some? && rt.dayOfMonth.value != 0
  }

  /** The biweekly branch runs: the type is biweekly and `dayOfWeek` is defined. */
  predicate BiweeklyFires(rt: RecurringTransaction) {
    rt.kind == Biweekly && rt.dayOfWeek.Some?
  }

  /** The first candidate of the monthly loop: `new Date(start.year, start.month, dayOfMonth)`. */
  function FirstMonthly(start: Date, dom: int): Date {
    JsDate(start.year, start.month - 1, dom)
  }

  /** The step of the monthly loop: `new Date(d.year, d.month + 1, dayOfMonth)`
      with JavaScript's 0-based month, so the month index is d.month. */
  function NextMonthly(d: Date, dom: int): Date {
    JsDate(d.year, d.month, dom)
  }

  /** The rules for which the source's loops end. A negative `dayOfMonth` never
      moves the monthly candidate forward, so the loop ends only when its first
      candidate is already past the end; the weekday search ends only for a
      valid start date and a weekday between 0 and 6. */
  predicate Terminates(rt: RecurringTransaction, today: Date) {
    && (MonthlyFires(rt) && rt.dayOfMonth.value < 0
        && StartOf(rt).Some? && EndOf(rt, today).Some?
        ==> Before(EndOf(rt, today).value, FirstMonthly(StartOf(rt).value, rt.dayOfMonth.value)))
    && (BiweeklyFires(rt) ==> StartOf(rt).Some? && 0 <= rt.dayOfWeek.value <= 6)
  }

  lemma NextMonthlyAdvances(d: Date, dom: int)
    requires Valid(d) && dom >= 1
    ensures DayNumber(d) < DayNumber(NextMonthly(d, dom))
  {
    MonthIndexCarry(d.month);
    var y1 := JsYear(d.year);
    var plain := if d.month == 12 then Date(d.year + 1, 1, 1) else Date(d.year, d.month + 1, 1);
    var f := Date(plain.year + (y1 - d.year), plain.month, 1);
    assert f == Date(y1 + d.month / 12, d.month % 12 + 1, 1);
    FirstOfNextMonth(d);
    DayNumberOrder(plain, f);
  }

  /** The 0-based month index m of the month after month m carries into the year only for December. */
  lemma MonthIndexCarry(m: int)
    requires 1 <= m <= 12
    ensures m / 12 == (if m == 12 then 1 else 0)
    ensures m % 12 == (if m == 12 then 0 else m)
  {
  }

  /** Every day of a month comes before the first of the next month. */
  lemma FirstOfNextMonth(d: Date)
    requires Valid(d)
    ensures d.month == 12 ==> DayNumber(d) < DayNumber(Date(d.year + 1, 1, 1))
    ensures d.month < 12 ==> DayNumber(d) < DayNumber(Date(d.year, d.month + 1, 1))
  {
    MonthStep(d.year, d.month);
  }

  /** The monthly loop from candidate d: each candidate up to `end` is kept when
      it is not before `start`. */
  function MonthlyFrom(d: Date, dom: int, start: Date, end: Date): (r: seq<Date>)
    requires Valid(d) && Valid(end)
    requires dom >= 1 || Before(end, d)
    ensures forall x :: x in r ==> Valid(x) && OnOrBefore(start, x) && OnOrBefore(x, end)
    ensures forall x :: x in r ==> start.year <= x.year <= end.year
    ensures Representable(start) && Representable(end) ==> AllRepresentable(r)
    decreases DayNumber(end) - DayNumber(d)
  {
    if !OnOrBefore(d, end) then []
    else
      var next := NextMonthly(d, dom);
      NextMonthlyAdvances(d, dom);
      OnOrBeforeIsDayNumberOrder(d, end);
      (if OnOrBefore(start, d) then [d] else []) + MonthlyFrom(next, dom, start, end)
  }

  /** The monthly loop from its first candidate. */
  function MonthlyDates(dom: int, s: Date, e: Date): (r: seq<Date>)
    requires Valid(s) && Valid(e) && (dom >= 1 || Before(e, FirstMonthly(s, dom)))
  {
    MonthlyFrom(FirstMonthly(s, dom), dom, s, e)
  }

  /** The weekday search: the first date on or after d whose weekday is dow. */
  function FirstWeekday(d: Date, dow: int): (r: Date)
    requires Valid(d) && 0 <= dow <= 6
    ensures Valid(r) && Weekday(r) == dow
    decreases (dow - Weekday(d)) % 7
  {
    if Weekday(d) == dow then d
    else
      WeekdaySearchStep(d, dow);
      FirstWeekday(NextDay(d), dow)
  }

  lemma WeekdayDistanceStep(w: int, dow: int)
    requires 0 <= w <= 6 && 0 <= dow <= 6 && w != dow
    ensures (dow - (w + 1) % 7) % 7 == (dow - w) % 7 - 1
  {
  }

  /** A day's step brings the weekday one day closer to dow. */
  lemma WeekdaySearchStep(d: Date, dow: int)
    requires Valid(d) && 0 <= dow <= 6 && Weekday(d) != dow
    ensures (dow - Weekday(NextDay(d))) % 7 == (dow - Weekday(d)) % 7 - 1
  {
    WeekdayNext(d);
    WeekdayDistanceStep(Weekday(d), dow);
  }

  /** The biweekly loop from candidate d: a candidate every 14 days up to `end`. */
  function BiweeklyFrom(d: Date, start: Date, end: Date): (r: seq<Date>)
    requires Valid(d) && Valid(end)
    ensures forall x :: x in r ==> Valid(x) && OnOrBefore(start, x) && OnOrBefore(x, end)
    ensures forall x :: x in r ==> start.year <= x.year <= end.year
    ensures Representable(start) && Representable(end) ==> AllRepresentable(r)
    decreases DayNumber(end) - DayNumber(d)
  {
    if !OnOrBefore(d, end) then []
    else
      OnOrBeforeIsDayNumberOrder(d, end);
      (if OnOrBefore(start, d) then [d] else []) + BiweeklyFrom(AddDays(d, 14), start, end)
  }

  /** The dates on which one rule fires. An invalid start or end date compares
      false with everything, so the loop that needs it never runs. */
  function RuleDates(rt: RecurringTransaction, today: Date): (r: seq<Date>)
    requires Terminates(rt, today) && 0 <= today.year <= 9999
    ensures AllRepresentable(r)
  {
    var start, end := StartOf(rt), EndOf(rt, today);
    if MonthlyFires(rt) then
      if start.None? || end.None? then []
      else MonthlyDates(rt.dayOfMonth.value, start.value, end.value)
    else if BiweeklyFires(rt) then
      if end.None? then []
      else BiweeklyFrom(FirstWeekday(start.value, rt.dayOfWeek.value), start.value, end.value)
    else []
  }

  /** The transaction materialised for one firing date. */
  function Instance(rt: RecurringTransaction, d: Date): Transaction
    requires Representable(d)
  {
    Transaction("recurring-" + rt.id + "-" + Iso(d), Iso(d), rt.description, rt.amount,
                rt.category, true, rt.budgetId)
  }

  predicate AllRepresentable(ds: seq<Date>) {
    forall x :: x in ds ==> Representable(x)
  }

  function Instances(rt: RecurringTransaction, ds: seq<Date>): (r: seq<Transaction>)
    requires AllRepresentable(ds)
    ensures |r| == |ds|
    ensures forall k :: 0 <= k < |ds| ==> r[k] == Instance(rt, ds[k])
  {
    if ds == [] then [] else [Instance(rt, ds[0])] + Instances(rt, ds[1..])
  }

  function RuleInstances(rt: RecurringTransaction, today: Date): seq<Transaction>
    requires Terminates(rt, today) && 0 <= today.year <= 9999
  {
    Instances(rt, RuleDates(rt, today))
  }

  predicate AllTerminate(rs: seq<RecurringTransaction>, today: Date) {
    forall i :: 0 <= i < |rs| ==> Terminates(rs[i], today)
  }

  /** The instances of all rules, rule by rule in list order. */
  function ExpandAll(rs: seq<RecurringTransaction>, today: Date): (r: seq<Transaction>)
    requires AllTerminate(rs, today) && 0 <= today.year <= 9999
    ensures forall i :: 0 <= i < |r| ==> r[i].recurring
  {
    if rs == [] then []
    else ExpandAll(rs[..|rs| - 1], today) + RuleInstances(rs[|rs| - 1], today)
  }

  lemma InstancesAppend(rt: RecurringTransaction, a: seq<Date>, b: seq<Date>)
    requires AllRepresentable(a) && AllRepresentable(b)
    ensures Instances(rt, a + b) == Instances(rt, a) + Instances(rt, b)
  {
    var l, r1, r2 := Instances(rt, a + b), Instances(rt, a), Instances(rt, b);
    assert |l| == |r1 + r2|;
    forall k | 0 <= k < |l|
      ensures l[k] == (r1 + r2)[k]
    {
      if k < |a| {
        assert (a + b)[k] == a[k];
      } else {
        assert (a + b)[k] == b[k - |a|];
      }
    }
  }

  /** `addRecurringInstances(transactions, recurrings)` with "today" as a parameter. */
  method AddRecurringInstances(transactions: seq<Transaction>, recurrings: seq<RecurringTransaction>, today: Date)
    returns (all: seq<Transaction>)
    requires 0 <= today.year <= 9999
    requires AllTerminate(recurrings, today)
    ensures all == transactions + ExpandAll(recurrings, today)
  {
    all := transactions;
    var i := 0;
    while i < |recurrings|
      invariant 0 <= i <= |recurrings|
      invariant all == transactions + ExpandAll(recurrings[..i], today)
    {
      ExpandAllStep(recurrings, i, today);
      ConcatAssoc(transactions, ExpandAll(recurrings[..i], today), RuleInstances(recurrings[i], today));
      all := AppendRule(all, recurrings[i], today);
      i := i + 1;
    }
    assert recurrings[..i] == recurrings;
  }

  lemma ExpandAllStep(rs: seq<RecurringTransaction>, i: int, today: Date)
    requires 0 <= i < |rs| && AllTerminate(rs, today) && 0 <= today.year <= 9999
    ensures AllTerminate(rs[..i], today) && AllTerminate(rs[..i + 1], today)
    ensures ExpandAll(rs[..i + 1], today) == ExpandAll(rs[..i], today) + RuleInstances(rs[i], today)
  {
    assert rs[..i + 1][..i] == rs[..i];
  }

  /** The body of the loop over rules: one rule's instances are appended. */
  method AppendRule(acc: seq<Transaction>, rt: RecurringTransaction, today: Date)
    returns (all: seq<Transaction>)
    requires 0 <= today.year <= 9999 && Terminates(rt, today)
    ensures all == acc + RuleInstances(rt, today)
  {
    all := acc;
    var start := ParseIso(rt.startDate);
    var end := if Truthy(rt.endDate) then ParseIso(rt.endDate.value) else Some(EndOfYear(today));
    assert start == StartOf(rt) && end == EndOf(rt, today);
    if rt.kind == Monthly && rt.dayOfMonth.Some? && rt.dayOfMonth.value != 0 {
      if start.Some? && end.Some? {
        var dom := rt.dayOfMonth.value;
        MonthlyRuleDates(rt, today);
        all := AppendMonthly(all, rt, dom, start.value, end.value);
      } else {
        NoInstances(rt, today);
      }
    } else if rt.kind == Biweekly && rt.dayOfWeek.Some? {
      var d := FindWeekday(start.value, rt.dayOfWeek.value);
      if end.Some? {
        BiweeklyRuleDates(rt, today);
        all := AppendBiweekly(all, rt, d, start.value, end.value);
      } else {
        NoInstances(rt, today);
      }
    } else {
      NoInstances(rt, today);
    }
  }

  lemma MonthlyRuleDates(rt: RecurringTransaction, today: Date)
    requires 0 <= today.year <= 9999 && Terminates(rt, today) && MonthlyFires(rt)
    requires StartOf(rt).Some? && EndOf(rt, today).Some?
    ensures RuleDates(rt, today) == MonthlyDates(rt.dayOfMonth.value, StartOf(rt).value, EndOf(rt, today).value)
  {
  }

  lemma BiweeklyRuleDates(rt: RecurringTransaction, today: Date)
    requires 0 <= today.year <= 9999 && Terminates(rt, today) && !MonthlyFires(rt) && BiweeklyFires(rt)
    requires EndOf(rt, today).Some?
    ensures RuleDates(rt, today)
         == BiweeklyFrom(FirstWeekday(StartOf(rt).value, rt.dayOfWeek.value), StartOf(rt).value, EndOf(rt, today).value)
  {
  }

  /** A rule whose branch does not run, or runs without a valid date, adds nothing. */
  lemma NoInstances(rt: RecurringTransaction, today: Date)
    requires 0 <= today.year <= 9999 && Terminates(rt, today)
    requires MonthlyFires(rt) ==> StartOf(rt).None? || EndOf(rt, today).None?
    requires !MonthlyFires(rt) && BiweeklyFires(rt) ==> EndOf(rt, today).None?
    ensures RuleInstances(rt, today) == []
  {
  }

  lemma ConcatAssoc<T>(a: seq<T>, b: seq<T>, c: seq<T>)
    ensures a + (b + c) == a + b + c
  {
  }

  /** One pass of the monthly loop: the kept candidate, then the rest. */
  lemma MonthlyUnfold(rt: RecurringTransaction, d: Date, dom: int, s: Date, e: Date)
    requires Valid(d) && Representable(s) && Representable(e)
    requires dom >= 1 && OnOrBefore(d, e)
    ensures DayNumber(d) < DayNumber(NextMonthly(d, dom))
    ensures DayNumber(d) <= DayNumber(e)
    ensures OnOrBefore(s, d) ==>
              Representable(d) && Instances(rt, MonthlyFrom(d, dom, s, e)) == [Instance(rt, d)] + Instances(rt, MonthlyFrom(NextMonthly(d, dom), dom, s, e))
    ensures !OnOrBefore(s, d) ==> Instances(rt, MonthlyFrom(d, dom, s, e)) == Instances(rt, MonthlyFrom(NextMonthly(d, dom), dom, s, e))
  {
    NextMonthlyAdvances(d, dom);
    OnOrBeforeIsDayNumberOrder(d, e);
    var rest := MonthlyFrom(NextMonthly(d, dom), dom, s, e);
    var head := if OnOrBefore(s, d) then [d] else [];
    assert MonthlyFrom(d, dom, s, e) == head + rest;
    InstancesAppend(rt, head, rest);
    if !OnOrBefore(s, d) {
      assert head + rest == rest;
    }
  }

  /** The monthly loop of one rule, from its first candidate to its end date. */
  method AppendMonthly(acc: seq<Transaction>, rt: RecurringTransaction, dom: int, s: Date, e: Date)
    returns (all: seq<Transaction>)
    requires Representable(s) && Representable(e)
    requires dom >= 1 || Before(e, FirstMonthly(s, dom))
    ensures all == acc + Instances(rt, MonthlyDates(dom, s, e))
  {
    all := acc;
    var d := FirstMonthly(s, dom);
    ghost var goal := acc + Instances(rt, MonthlyFrom(d, dom, s, e));
    while OnOrBefore(d, e)
      invariant Valid(d) && (dom >= 1 || Before(e, d))
      invariant all + Instances(rt, MonthlyFrom(d, dom, s, e)) == goal
      decreases DayNumber(e) - DayNumber(d)
    {
      var next := NextMonthly(d, dom);
      MonthlyUnfold(rt, d, dom, s, e);
      if OnOrBefore(s, d) {
        var t := Instance(rt, d);
        ConcatAssoc(all, [t], Instances(rt, MonthlyFrom(next, dom, s, e)));
        all := all + [t];
      }
      d := next;
    }
    MonthlyDone(rt, d, dom, s, e);
  }

  lemma MonthlyDone(rt: RecurringTransaction, d: Date, dom: int, s: Date, e: Date)
    requires Valid(d) && Valid(e) && (dom >= 1 || Before(e, d)) && !OnOrBefore(d, e)
    ensures Instances(rt, MonthlyFrom(d, dom, s, e)) == []
  {
  }

  /** The weekday search of the biweekly branch: step a day at a time until
      the weekday is dow. */
  method FindWeekday(s: Date, dow: int) returns (d: Date)
    requires Valid(s) && 0 <= dow <= 6
    ensures d == FirstWeekday(s, dow)
  {
    d := s;
    while Weekday(d) != dow
      invariant Valid(d) && FirstWeekday(d, dow) == FirstWeekday(s, dow)
      decreases (dow - Weekday(d)) % 7
    {
      WeekdaySearchStep(d, dow);
      d := NextDay(d);
    }
  }

  /** One pass of the biweekly loop: the kept candidate, then the rest. */
  lemma BiweeklyUnfold(rt: RecurringTransaction, d: Date, s: Date, e: Date)
    requires Valid(d) && Representable(s) && Representable(e) && OnOrBefore(d, e)
    ensures DayNumber(AddDays(d, 14)) == DayNumber(d) + 14
    ensures DayNumber(d) <= DayNumber(e)
    ensures OnOrBefore(s, d) ==>
              Representable(d) && Instances(rt, BiweeklyFrom(d, s, e)) == [Instance(rt, d)] + Instances(rt, BiweeklyFrom(AddDays(d, 14), s, e))
    ensures !OnOrBefore(s, d) ==> Instances(rt, BiweeklyFrom(d, s, e)) == Instances(rt, BiweeklyFrom(AddDays(d, 14), s, e))
  {
    OnOrBeforeIsDayNumberOrder(d, e);
    var rest := BiweeklyFrom(AddDays(d, 14), s, e);
    var head := if OnOrBefore(s, d) then [d] else [];
    assert BiweeklyFrom(d, s, e) == head + rest;
    InstancesAppend(rt, head, rest);
    if !OnOrBefore(s, d) {
      assert head + rest == rest;
    }
  }

  /** The biweekly loop of one rule, every 14 days from its first candidate d0. */
  method AppendBiweekly(acc: seq<Transaction>, rt: RecurringTransaction, d0: Date, s: Date, e: Date)
    returns (all: seq<Transaction>)
    requires Valid(d0) && Representable(s) && Representable(e)
    ensures all == acc + Instances(rt, BiweeklyFrom(d0, s, e))
  {
    all := acc;
    var d := d0;
    while OnOrBefore(d, e)
      invariant Valid(d)
      invariant all + Instances(rt, BiweeklyFrom(d, s, e)) == acc + Instances(rt, BiweeklyFrom(d0, s, e))
      decreases DayNumber(e) - DayNumber(d)
    {
      var next := AddDays(d, 14);
      BiweeklyUnfold(rt, d, s, e);
      if OnOrBefore(s, d) {
        var t := Instance(rt, d);
        ConcatAssoc(all, [t], Instances(rt, BiweeklyFrom(next, s, e)));
        all := all + [t];
      }
      d := next;
    }
  }

  // ---- Properties of the expansion ----

  /** Every appended transaction is the instance of one rule on one of its firing dates. */
  lemma ExpandAllMembers(rs: seq<RecurringTransaction>, today: Date, t: Transaction)
    requires AllTerminate(rs, today) && 0 <= today.year <= 9999
    requires t in ExpandAll(rs, today)
    ensures exists k, d :: 0 <= k < |rs| && d in RuleDates(rs[k], today) && Representable(d) && t == Instance(rs[k], d)
  {
    var k, d := ExpandAllWitness(rs, today, t);
  }

  /** The rule and the date an expanded instance comes from. */
  lemma {:induction false} ExpandAllWitness(rs: seq<RecurringTransaction>, today: Date, t: Transaction) returns (k: int, d: Date)
    requires AllTerminate(rs, today) && 0 <= today.year <= 9999
    requires t in ExpandAll(rs, today)
    ensures 0 <= k < |rs| && d in RuleDates(rs[k], today) && Representable(d) && t == Instance(rs[k], d)
    decreases |rs|
  {
    var init := rs[..|rs| - 1];
    assert AllTerminate(init, today);
    if t in ExpandAll(init, today) {
      k, d := ExpandAllWitness(init, today, t);
      assert rs[k] == init[k];
    } else {
      k := |rs| - 1;
      d := RuleInstancesMember(rs[k], today, t);
    }
  }

  /** Every instance of one rule is the instance of one of its dates. */
  lemma RuleInstancesMember(rt: RecurringTransaction, today: Date, t: Transaction) returns (d: Date)
    requires Terminates(rt, today) && 0 <= today.year <= 9999
    requires t in RuleInstances(rt, today)
    ensures d in RuleDates(rt, today) && Representable(d) && t == Instance(rt, d)
  {
    var ds := RuleDates(rt, today);
    var j :| 0 <= j < |ds| && RuleInstances(rt, today)[j] == t;
    d := ds[j];
  }

  /** Every firing date lies between the rule's start date and its end date (or the
      end of today's year when the rule has none). */
  lemma RuleDatesInRange(rt: RecurringTransaction, today: Date, d: Date)
    requires Terminates(rt, today) && 0 <= today.year <= 9999
    requires d in RuleDates(rt, today)
    ensures StartOf(rt).Some? && EndOf(rt, today).Some?
    ensures Valid(d) && OnOrBefore(StartOf(rt).value, d) && OnOrBefore(d, EndOf(rt, today).value)
  {
  }

  /** A materialised instance: the rule's fields, the recurring flag, the date and
      the id built from the rule id and the date. */
  lemma InstanceFields(rt: RecurringTransaction, d: Date)
    requires Representable(d)
    ensures var t := Instance(rt, d);
      && t.id == "recurring-" + rt.id + "-" + t.date
      && ParseIso(t.date) == Some(d)
      && t.description == rt.description && t.amount == rt.amount
      && t.category == rt.category && t.budgetId == rt.budgetId && t.recurring
  {
    ParseIsoOfIso(d);
  }

  /** A rule whose branch does not fire contributes nothing. */
  lemma SilentRule(rt: RecurringTransaction, today: Date)
    requires Terminates(rt, today) && 0 <= today.year <= 9999
    requires (rt.kind == Monthly && (rt.dayOfMonth.None? || rt.dayOfMonth.value == 0))
          || (rt.kind == Biweekly && rt.dayOfWeek.None?)
    ensures RuleInstances(rt, today) == []
  {
  }

  // ---- Biweekly rules ----

  /** Past the start date, each pass of the biweekly loop keeps its candidate. */
  lemma BiweeklyCons(d: Date, s: Date, e: Date)
    requires Valid(d) && Valid(s) && Valid(e) && OnOrBefore(s, d) && OnOrBefore(d, e)
    ensures BiweeklyFrom(d, s, e) == [d] + BiweeklyFrom(AddDays(d, 14), s, e)
    ensures OnOrBefore(s, AddDays(d, 14))
    ensures DayNumber(e) - DayNumber(AddDays(d, 14)) < DayNumber(e) - DayNumber(d)
  {
    OnOrBeforeIsDayNumberOrder(d, e);
    OnOrBeforeStep(s, d, AddDays(d, 14));
  }

  /** Past the start date the biweekly loop keeps every candidate: d, d + 14, d + 28, ... */
  lemma BiweeklyOffsets(d: Date, s: Date, e: Date)
    requires Valid(d) && Valid(s) && Valid(e) && OnOrBefore(s, d)
    ensures var r := BiweeklyFrom(d, s, e);
      forall i :: 0 <= i < |r| ==> Valid(r[i]) && DayNumber(r[i]) == DayNumber(d) + 14 * i
  {
    var r := BiweeklyFrom(d, s, e);
    forall i | 0 <= i < |r|
      ensures Valid(r[i]) && DayNumber(r[i]) == DayNumber(d) + 14 * i
    {
      assert r[i] in r;
      BiweeklyAt(d, s, e, i);
    }
  }

  /** One step of the offset induction, on plain sequences. */
  lemma OffsetStep(d: Date, r: seq<Date>, rest: seq<Date>, i: nat)
    requires Valid(d) && forall x :: x in rest ==> Valid(x)
    requires 0 < i < |r| && r == [d] + rest
    requires DayNumber(rest[i - 1]) == DayNumber(AddDays(d, 14)) + 14 * (i - 1)
    ensures DayNumber(r[i]) == DayNumber(d) + 14 * i
  {
    assert r[i] == rest[i - 1];
  }

  lemma {:induction false} BiweeklyAt(d: Date, s: Date, e: Date, i: nat)
    requires Valid(d) && Valid(s) && Valid(e) && OnOrBefore(s, d)
    requires i < |BiweeklyFrom(d, s, e)|
    ensures DayNumber(BiweeklyFrom(d, s, e)[i]) == DayNumber(d) + 14 * i
    decreases i
  {
    assert OnOrBefore(d, e);
    BiweeklyCons(d, s, e);
    if i > 0 {
      var n := AddDays(d, 14);
      BiweeklyAt(n, s, e, i - 1);
      OffsetStep(d, BiweeklyFrom(d, s, e), BiweeklyFrom(n, s, e), i);
    }
  }

  /** The loop stops at the first candidate past the end, and runs at all iff d is not past it. */
  lemma {:induction false} BiweeklyLast(d: Date, s: Date, e: Date)
    requires Valid(d) && Valid(s) && Valid(e) && OnOrBefore(s, d)
    ensures var r := BiweeklyFrom(d, s, e);
      && (|r| == 0 <==> Before(e, d))
      && (|r| > 0 ==> Valid(r[|r| - 1]) && DayNumber(e) < DayNumber(r[|r| - 1]) + 14)
    decreases DayNumber(e) - DayNumber(d)
  {
    DayNumberOrder(e, d);
    if OnOrBefore(d, e) {
      var n := AddDays(d, 14);
      BiweeklyCons(d, s, e);
      BiweeklyLast(n, s, e);
      var r, rest := BiweeklyFrom(d, s, e), BiweeklyFrom(n, s, e);
      if rest == [] {
        DayNumberOrder(e, n);
      } else {
        assert r[|r| - 1] == rest[|rest| - 1];
      }
    }
  }

  /** All the dates d + 14 i share d's weekday. */
  lemma FortnightWeekday(d: Date, x: Date, i: int)
    requires Valid(d) && Valid(x) && DayNumber(x) == DayNumber(d) + 14 * i
    ensures Weekday(x) == Weekday(d)
  {
    ModMultiple(DayNumber(d) + 6, i);
  }

  lemma ModMultiple(n: int, i: int)
    ensures (n + 14 * i) % 7 == n % 7
  {
    assert n + 14 * i == n + 7 * (2 * i);
  }

  /** The shape of a biweekly run: dates every 14 days from `first`, all on weekday
      `dow`, none at all iff `first` is past `e`, and the last one less than 14 days
      before `e`. */
  predicate Fortnightly(r: seq<Date>, first: Date, e: Date, dow: int)
    requires Valid(first) && Valid(e)
  {
    && (forall i :: 0 <= i < |r| ==> Valid(r[i]) && DayNumber(r[i]) == DayNumber(first) + 14 * i && Weekday(r[i]) == dow)
    && (|r| == 0 <==> Before(e, first))
    && (|r| > 0 ==> Valid(r[|r| - 1]) && DayNumber(e) < DayNumber(r[|r| - 1]) + 14)
  }

  /** The biweekly loop from a first candidate on or after the start keeps the
      first candidate's weekday and runs every 14 days to the end. */
  lemma BiweeklyRun(first: Date, s: Date, e: Date)
    requires Valid(first) && Valid(s) && Valid(e) && OnOrBefore(s, first)
    ensures Fortnightly(BiweeklyFrom(first, s, e), first, e, Weekday(first))
  {
    BiweeklyOffsets(first, s, e);
    BiweeklyLast(first, s, e);
    var r := BiweeklyFrom(first, s, e);
    forall i | 0 <= i < |r|
      ensures Weekday(r[i]) == Weekday(first)
    {
      FortnightWeekday(first, r[i], i);
    }
  }

  /** A biweekly rule fires first on the first date on or after its start with the
      rule's weekday (less than a week after the start), then every 14 days, and
      stops only when the next one would be past the end. */
  lemma BiweeklyRule(rt: RecurringTransaction, today: Date)
    requires Terminates(rt, today) && 0 <= today.year <= 9999
    requires rt.kind == Biweekly && rt.dayOfWeek.Some? && EndOf(rt, today).Some?
    ensures var first := FirstWeekday(StartOf(rt).value, rt.dayOfWeek.value);
      && DayNumber(StartOf(rt).value) <= DayNumber(first) < DayNumber(StartOf(rt).value) + 7
      && Fortnightly(RuleDates(rt, today), first, EndOf(rt, today).value, rt.dayOfWeek.value)
  {
    var s, e := StartOf(rt).value, EndOf(rt, today).value;
    var first := FirstWeekday(s, rt.dayOfWeek.value);
    FirstWeekdayAfter(s, rt.dayOfWeek.value);
    OnOrBeforeIsDayNumberOrder(s, first);
    BiweeklyRuleDates(rt, today);
    BiweeklyRun(first, s, e);
  }

  /** The weekday search moves forward by less than a week and stops at the first match. */
  lemma {:induction false} FirstWeekdayAfter(d: Date, dow: int)
    requires Valid(d) && 0 <= dow <= 6
    ensures DayNumber(FirstWeekday(d, dow)) == DayNumber(d) + (dow - Weekday(d)) % 7
    decreases (dow - Weekday(d)) % 7
  {
    if Weekday(d) != dow {
      WeekdaySearchStep(d, dow);
      FirstWeekdayAfter(NextDay(d), dow);
    }
  }

  // ---- Monthly rules ----

  /** For a day of month that every month has, and a year that `new Date` does not
      reinterpret, the next candidate is the same day of the following month. */
  lemma NextMonthlyPlain(d: Date, dom: int)
    requires Valid(d) && 1 <= dom <= 28 && d.year >= 100
    ensures NextMonthly(d, dom) == if d.month == 12 then Date(d.year + 1, 1, dom) else Date(d.year, d.month + 1, dom)
  {
    MonthIndexCarry(d.month);
    JsDateNoCarry(d.year, d.month, dom);
  }

  /** The first candidate is that day in the start date's own month. */
  lemma FirstMonthlyPlain(s: Date, dom: int)
    requires Valid(s) && 1 <= dom <= 28 && s.year >= 100
    ensures FirstMonthly(s, dom) == Date(s.year, s.month, dom)
  {
    JsDateNoCarry(s.year, s.month - 1, dom);
  }

  /** Among dates on one day of the month, the ones from d on are d and the ones
      from the next month on. */
  lemma NextMonthOrder(d: Date, n: Date, x: Date)
    requires 1 <= d.month <= 12 && 1 <= x.month <= 12 && x.day == d.day
    requires n == if d.month == 12 then Date(d.year + 1, 1, d.day) else Date(d.year, d.month + 1, d.day)
    ensures OnOrBefore(d, x) <==> x == d || OnOrBefore(n, x)
  {
  }

  /** One pass of the monthly loop on the dates themselves. */
  lemma MonthlyCons(d: Date, dom: int, s: Date, e: Date)
    requires Valid(d) && Valid(e) && dom >= 1 && OnOrBefore(d, e)
    ensures 0 <= DayNumber(e) - DayNumber(d)
    ensures DayNumber(e) - DayNumber(NextMonthly(d, dom)) < DayNumber(e) - DayNumber(d)
    ensures Before(d, NextMonthly(d, dom))
    ensures OnOrBefore(s, d) ==> MonthlyFrom(d, dom, s, e) == [d] + MonthlyFrom(NextMonthly(d, dom), dom, s, e)
    ensures !OnOrBefore(s, d) ==> MonthlyFrom(d, dom, s, e) == MonthlyFrom(NextMonthly(d, dom), dom, s, e)
  {
    NextMonthlyAdvances(d, dom);
    OnOrBeforeIsDayNumberOrder(d, e);
    DayNumberOrder(d, NextMonthly(d, dom));
    var rest := MonthlyFrom(NextMonthly(d, dom), dom, s, e);
    var head := if OnOrBefore(s, d) then [d] else [];
    assert MonthlyFrom(d, dom, s, e) == head + rest;
    if !OnOrBefore(s, d) {
      assert head + rest == rest;
    }
  }

  /** The monthly loop from candidate d keeps exactly the dates on day dom from
      d's month on that lie between the start and the end. */
  lemma {:induction false} MonthlyMember(d: Date, dom: int, s: Date, e: Date, x: Date)
    requires Valid(d) && Valid(e) && 1 <= dom <= 28 && d.day == dom && d.year >= 100
    ensures x in MonthlyFrom(d, dom, s, e)
        <==> Valid(x) && x.day == dom && OnOrBefore(d, x) && OnOrBefore(s, x) && OnOrBefore(x, e)
    decreases DayNumber(e) - DayNumber(d)
  {
    if OnOrBefore(d, e) {
      var n := NextMonthly(d, dom);
      MonthlyCons(d, dom, s, e);
      NextMonthlyPlain(d, dom);
      MonthlyMember(n, dom, s, e, x);
      if Valid(x) && x.day == dom {
        NextMonthOrder(d, n, x);
      }
    } else {
      assert MonthlyFrom(d, dom, s, e) == [];
    }
  }

  /** Days of the month before 29, from year 100 on: a monthly rule fires on exactly
      the dates on its day of the month between its start and its end. */
  lemma MonthlyRule(rt: RecurringTransaction, today: Date)
    requires Terminates(rt, today) && 0 <= today.year <= 9999
    requires rt.kind == Monthly && rt.dayOfMonth.Some? && 1 <= rt.dayOfMonth.value <= 28
    requires StartOf(rt).Some? && EndOf(rt, today).Some? && StartOf(rt).value.year >= 100
    ensures forall x ::
              x in RuleDates(rt, today) <==>
              Valid(x) && x.day == rt.dayOfMonth.value && OnOrBefore(StartOf(rt).value, x) && OnOrBefore(x, EndOf(rt, today).value)
    ensures Chronological(RuleDates(rt, today))
  {
    var dom, s, e := rt.dayOfMonth.value, StartOf(rt).value, EndOf(rt, today).value;
    MonthlyRuleDates(rt, today);
    FirstMonthlyPlain(s, dom);
    MonthlyChronological(FirstMonthly(s, dom), dom, s, e);
    forall x
      ensures x in RuleDates(rt, today) <==> Valid(x) && x.day == dom && OnOrBefore(s, x) && OnOrBefore(x, e)
    {
      MonthlyMember(FirstMonthly(s, dom), dom, s, e, x);
    }
  }

  /** Strictly increasing dates. */
  predicate Chronological(r: seq<Date>) {
    forall i, j :: 0 <= i < j < |r| ==> Before(r[i], r[j])
  }

  lemma BeforeThenOnOrBefore(a: Date, b: Date, c: Date)
    requires Before(a, b) && OnOrBefore(b, c)
    ensures Before(a, c)
  {
  }

  lemma ChronologicalCons(d: Date, rest: seq<Date>)
    requires Chronological(rest) && forall x :: x in rest ==> Before(d, x)
    ensures Chronological([d] + rest)
  {
    var r := [d] + rest;
    forall i, j | 0 <= i < j < |r|
      ensures Before(r[i], r[j])
    {
      assert r[j] == rest[j - 1];
      if i > 0 {
        assert r[i] == rest[i - 1];
      } else {
        assert rest[j - 1] in rest;
      }
    }
  }

  /** Every candidate of the monthly loop from d is on or after d, and they come in
      chronological order (for every day of the month, overflowing ones included). */
  lemma {:induction false} MonthlyChronological(d: Date, dom: int, s: Date, e: Date)
    requires Valid(d) && Valid(e) && dom >= 1
    ensures forall x :: x in MonthlyFrom(d, dom, s, e) ==> OnOrBefore(d, x)
    ensures Chronological(MonthlyFrom(d, dom, s, e))
    decreases DayNumber(e) - DayNumber(d)
  {
    if OnOrBefore(d, e) {
      var n := NextMonthly(d, dom);
      MonthlyCons(d, dom, s, e);
      MonthlyChronological(n, dom, s, e);
      var rest := MonthlyFrom(n, dom, s, e);
      forall x | x in rest
        ensures Before(d, x)
      {
        BeforeThenOnOrBefore(d, n, x);
      }
      if OnOrBefore(s, d) {
        ChronologicalCons(d, rest);
      }
    } else {
      assert MonthlyFrom(d, dom, s, e) == [];
    }
  }
}
