/** The application's add, edit and delete handlers for transactions, recurring
    rules and goals are the list edits `Added`, `Replaced` and `RemoveKey` keyed by
    id. These lemmas follow a submitted form through them. */
module AppHandlers {
  import opened Options
  import opened Records
  import opened ListEdits
  import opened TransactionForm

  /** A new transaction from the form takes the fresh id; when that id is unused,
      deleting it again gives the list back. */
  lemma FormAddThenDelete(ts: seq<Transaction>, f: Fields, p: Props, number: Option<int>, freshId: string)
    requires Submit(f, p, number, freshId).submission.AddTx? && p.editingTx.None?
    requires forall t :: t in ts ==> t.id != freshId
    ensures var tx := Submit(f, p, number, freshId).submission.tx;
      tx.id == freshId && RemoveKey(Added(ts, tx), TransactionId, freshId) == ts
  {
    Routing(f, p, number, freshId);
    AddThenRemove(ts, TransactionId, Submit(f, p, number, freshId).submission.tx);
  }

  /** An edit from the form replaces the edited transaction wherever its id occurs,
      keeps every position's id and leaves the other transactions alone. */
  lemma FormEditReplaces(ts: seq<Transaction>, f: Fields, p: Props, number: Option<int>, freshId: string)
    requires Submit(f, p, number, freshId).submission.EditTx?
    ensures var tx := Submit(f, p, number, freshId).submission.tx;
      var r := Replaced(ts, TransactionId, tx);
      && tx.id == p.editingTx.value.id && |r| == |ts|
      && (forall i :: 0 <= i < |ts| ==> r[i].id == ts[i].id)
      && (forall i :: 0 <= i < |ts| && ts[i].id == p.editingTx.value.id ==> r[i] == tx)
      && (forall i :: 0 <= i < |ts| && ts[i].id != p.editingTx.value.id ==> r[i] == ts[i])
  {
    Routing(f, p, number, freshId);
    ReplacedKeys(ts, TransactionId, Submit(f, p, number, freshId).submission.tx);
  }

  /** A recurring rule edited from the form keeps its id, so the rules keep their
      ids too. */
  lemma FormEditRecurringKeepsIds(rs: seq<RecurringTransaction>, f: Fields, p: Props, number: Option<int>, freshId: string)
    requires Submit(f, p, number, freshId).submission.EditRecurring?
    ensures var rt := Submit(f, p, number, freshId).submission.rt;
      rt.id == p.editingRecurring.value.id
      && forall i :: 0 <= i < |rs| ==> Replaced(rs, RecurringId, rt)[i].id == rs[i].id
  {
    Routing(f, p, number, freshId);
    ReplacedKeys(rs, RecurringId, Submit(f, p, number, freshId).submission.rt);
  }

  /** Deleting a goal removes every goal with that id and keeps all the others. */
  lemma DeleteGoal(gs: seq<Goal>, id: string)
    ensures forall g :: g in RemoveKey(gs, GoalId, id) <==> g in gs && g.id != id
  {
    RemoveKeyAll(gs, GoalId, id);
  }
}
