/** The transaction form's submit handler: which record it builds from the form
    fields, and which callback receives it. */
module TransactionForm {
  import opened Options
  import opened Records

  /** The form's own state. */
  datatype Fields = Fields(
    desc: string,
    amountText: string,
    kind: RecurrenceType,
    dayOfMonth: int,
    dayOfWeek: int,
    startDate: string,
    endDate: string)

  /** What the parent passes in; the `has…` flags say which optional callbacks it
      supplies. */
  datatype Props = Props(
    selectedDay: Option<string>,
    isRecurring: bool,
    editingTx: Option<Transaction>,
    editingRecurring: Option<RecurringTransaction>,
    hasOnAdd: bool,
    hasOnEdit: bool,
    hasOnAddRecurring: bool,
    hasOnEditRecurring: bool)

  /** The callback a submit calls, with its record. */
  datatype Submission =
    | NoSubmission
    | AddTx(tx: Transaction)
    | EditTx(tx: Transaction)
    | AddRecurring(rt: RecurringTransaction)
    | EditRecurring(rt: RecurringTransaction)

  datatype Outcome = Outcome(submission: Submission, fields: Fields)

  /** `!desc || !amount || isNaN(Number(amount))`; `number` is `Number(amount)`,
      None when that is NaN. */
  predicate Rejected(f: Fields, number: Option<int>) {
    f.desc == "" || f.amountText == "" || number.None?
  }

  function RecurringRecord(f: Fields, p: Props, amount: int, freshId: string): RecurringTransaction {
    RecurringTransaction(
      if p.editingRecurring.Some? then p.editingRecurring.value.id else freshId,
      f.desc, amount, f.kind,
      if f.kind == Monthly then Some(f.dayOfMonth) else None,
      if f.kind == Biweekly then Some(f.dayOfWeek) else None,
      f.startDate,
      if f.endDate == "" then None else Some(f.endDate),
      None, None)
  }

  function OneOffRecord(f: Fields, p: Props, day: string, amount: int, freshId: string): Transaction {
    Transaction(if p.editingTx.Some? then p.editingTx.value.id else freshId, day, f.desc, amount, None, false, None)
  }

  /** `handleSubmit`: a rejected form, or a one-off entry without a selected day,
      changes nothing; otherwise the record goes to the edit callback when an item
      is being edited and that callback exists, else to the add callback if it
      exists, and the form is reset. */
  function Submit(f: Fields, p: Props, number: Option<int>, freshId: string): (r: Outcome)
    ensures r.submission.NoSubmission? <==>
      || Rejected(f, number)
      || (p.isRecurring && !p.hasOnAddRecurring && !(p.editingRecurring.Some? && p.hasOnEditRecurring))
      || (!p.isRecurring && (!Truthy(p.selectedDay) || (!p.hasOnAdd && !(p.editingTx.Some? && p.hasOnEdit))))
    ensures Rejected(f, number) ==> r == Outcome(NoSubmission, f)
    ensures !p.isRecurring && !Truthy(p.selectedDay) ==> r == Outcome(NoSubmission, f)
    ensures r.submission.AddTx? || r.submission.EditTx? ==> !p.isRecurring
    ensures r.submission.AddRecurring? || r.submission.EditRecurring? ==> p.isRecurring
  {
    if Rejected(f, number) then Outcome(NoSubmission, f)
    else if p.isRecurring then
      var rt := RecurringRecord(f, p, number.value, freshId);
      var s :=
        if p.editingRecurring.Some? && p.hasOnEditRecurring then EditRecurring(rt)
        else if p.hasOnAddRecurring then AddRecurring(rt)
        else NoSubmission;
      var start := if p.selectedDay.Some? then p.selectedDay.value else "";
      Outcome(s, f.(desc := "", amountText := "", startDate := start, endDate := "", dayOfMonth := 1, dayOfWeek := 0))
    else if !Truthy(p.selectedDay) then Outcome(NoSubmission, f)
    else
      var tx := OneOffRecord(f, p, p.selectedDay.value, number.value, freshId);
      var s :=
        if p.editingTx.Some? && p.hasOnEdit then EditTx(tx)
        else if p.hasOnAdd then AddTx(tx)
        else NoSubmission;
      Outcome(s, f.(desc := "", amountText := ""))
  }

  // ---- What a submitted record looks like ----

  /** A recurring record carries the day of the month exactly when it is monthly,
      the weekday exactly when it is biweekly, an end date only when one was
      typed, and the typed description, amount and start date. */
  lemma RecurringShape(f: Fields, p: Props, number: Option<int>, freshId: string)
    requires Submit(f, p, number, freshId).submission.AddRecurring? || Submit(f, p, number, freshId).submission.EditRecurring?
    ensures var rt := Submit(f, p, number, freshId).submission.rt;
      && (rt.dayOfMonth.Some? <==> f.kind == Monthly) && (rt.dayOfMonth.Some? ==> rt.dayOfMonth.value == f.dayOfMonth)
      && (rt.dayOfWeek.Some? <==> f.kind == Biweekly) && (rt.dayOfWeek.Some? ==> rt.dayOfWeek.value == f.dayOfWeek)
      && (rt.endDate.None? <==> f.endDate == "") && (rt.endDate.Some? ==> rt.endDate.value == f.endDate)
      && rt.description == f.desc != "" && number == Some(rt.amount) && rt.startDate == f.startDate
      && rt.kind == f.kind && rt.category.None? && rt.budgetId.None?
  {
  }

  /** A one-off record is dated the selected day, which is not empty, and has no
      category, no budget and no recurring flag. */
  lemma OneOffShape(f: Fields, p: Props, number: Option<int>, freshId: string)
    requires Submit(f, p, number, freshId).submission.AddTx? || Submit(f, p, number, freshId).submission.EditTx?
    ensures var tx := Submit(f, p, number, freshId).submission.tx;
      && p.selectedDay == Some(tx.date) && tx.date != ""
      && tx.description == f.desc != "" && number == Some(tx.amount)
      && tx.category.None? && tx.budgetId.None? && !tx.recurring
  {
  }

  /** An edit goes to the edit callback with the edited item's id; an item being
      edited keeps its id even when only the add callback exists, and a new item
      takes the fresh id. */
  lemma Routing(f: Fields, p: Props, number: Option<int>, freshId: string)
    ensures var s := Submit(f, p, number, freshId).submission;
      && (s.EditTx? <==> !Rejected(f, number) && !p.isRecurring && Truthy(p.selectedDay) && p.editingTx.Some? && p.hasOnEdit)
      && (s.EditTx? ==> s.tx.id == p.editingTx.value.id)
      && (s.AddTx? ==> s.tx.id == if p.editingTx.Some? then p.editingTx.value.id else freshId)
      && (s.EditRecurring? <==> !Rejected(f, number) && p.isRecurring && p.editingRecurring.Some? && p.hasOnEditRecurring)
      && (s.EditRecurring? ==> s.rt.id == p.editingRecurring.value.id)
      && (s.AddRecurring? ==> s.rt.id == if p.editingRecurring.Some? then p.editingRecurring.value.id else freshId)
  {
  }

  /** After a submit that passes the checks the description and amount are empty
      again, so submitting the reset form at once is rejected. */
  lemma ResetRejects(f: Fields, p: Props, number: Option<int>, freshId: string, number2: Option<int>, freshId2: string)
    requires !Rejected(f, number) && (p.isRecurring || Truthy(p.selectedDay))
    ensures Submit(Submit(f, p, number, freshId).fields, p, number2, freshId2).submission == NoSubmission
  {
  }
}
