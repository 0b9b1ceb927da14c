/** The history tab (app/components/HistoryTab.tsx): the month's entries,
    newest first, and the form that edits one of them. Dates are ISO
    "YYYY-MM-DD" strings, whose lexicographic order is their chronological
    order; the source compares them through `new Date(...)`. */
module History {
  import opened Wrappers
  import opened Lists
  import opened Budget

  /** Lexicographic order on strings: `a` is a prefix of `b`, or `a` has
      the smaller character at the first difference. */
  predicate LexLeq(a: string, b: string) {
    a == [] || (b != [] && (a[0] < b[0] || (a[0] == b[0] && LexLeq(a[1..], b[1..]))))
  }

  lemma {:induction false} LexTotal(a: string, b: string)
    ensures LexLeq(a, b) || LexLeq(b, a)
  {
    if a != [] && b != [] && a[0] == b[0] {
      LexTotal(a[1..], b[1..]);
    }
  }

  lemma {:induction false} LexTransitive(a: string, b: string, c: string)
    requires LexLeq(a, b) && LexLeq(b, c)
    ensures LexLeq(a, c)
  {
    if a != [] && a[0] == b[0] && b[0] == c[0] {
      LexTransitive(a[1..], b[1..], c[1..]);
    }
  }

  /** The comparator `(a, b) => date(b) - date(a)`: `a` may come first
      when it is not older than `b`. */
  predicate NewerOrSame(a: Transaction, b: Transaction) {
    LexLeq(b.date, a.date)
  }

  lemma NewestFirstOrder()
    ensures TotalPreorder(NewerOrSame)
  {
    forall a: Transaction, b: Transaction
      ensures NewerOrSame(a, b) || NewerOrSame(b, a)
    {
      LexTotal(a.date, b.date);
    }
    forall a: Transaction, b: Transaction, c: Transaction | NewerOrSame(a, b) && NewerOrSame(b, c)
      ensures NewerOrSame(a, c)
    {
      LexTransitive(c.date, b.date, a.date);
    }
  }

  /** `monthTransactions`: exactly the month's entries, each as often as
      in the list, newest date first. */
  function HistoryList(ts: seq<Transaction>, month: string): (r: seq<Transaction>)
    ensures multiset(r) == multiset(MonthTransactions(ts, month))
    ensures forall t :: t in r <==> t in ts && MonthOf(t.date) == month
    ensures forall i, j :: 0 <= i < j < |r| ==> LexLeq(r[j].date, r[i].date)
  {
    NewestFirstOrder();
    var r := SortDesc(MonthTransactions(ts, month), NewerOrSame);
    assert forall t :: t in r <==> t in multiset(r);
    r
  }

  /** The update `saveEdit` sends: the form's type, amount, date, category
      and description, never its id. */
  function FormPatch(f: Transaction): (u: TransactionPatch)
    ensures u.id.None?
    ensures forall t :: ApplyPatch(t, u) == f.(id := t.id)
  {
    TransactionPatch(None, Some(f.kind), Some(f.amount), Some(f.date), Some(f.category), Some(f.description))
  }

  /** Saving an edit turns the entries with the id into the form's contents
      under their own id; every id stays as it was. */
  lemma SavedEdit(ts: seq<Transaction>, id: string, f: Transaction)
    ensures var r := UpdateTransaction(ts, id, FormPatch(f));
      && |r| == |ts|
      && (forall i :: 0 <= i < |ts| ==> r[i].id == ts[i].id)
      && (forall i :: 0 <= i < |ts| ==> r[i] == if ts[i].id == id then f.(id := id) else ts[i])
  {
  }

  /** The edit state: the id being edited and the form's contents. */
  class HistoryEditor {
    var editingId: Option<string>
    var editForm: Option<Transaction>

    /** No edit in progress. */
    constructor ()
      ensures editingId == None && editForm == None
    {
      editingId := None;
      editForm := None;
    }

    /** `startEdit`: remembers the entry's id and copies it into the form. */
    method StartEdit(t: Transaction)
      modifies this
      ensures editingId == Some(t.id) && editForm == Some(t)
    {
      editingId := Some(t.id);
      editForm := Some(t);
    }

    /** The form's inputs: they change the type, amount, date, category and
        description of the form, never its id. */
    method ChangeForm(f: Transaction)
      modifies this`editForm
      ensures old(editForm).Some? ==> editForm == Some(f.(id := old(editForm).value.id))
      ensures old(editForm).None? ==> editForm == None
    {
      if editForm.Some? {
        editForm := Some(f.(id := editForm.value.id));
      }
    }

    /** `cancelEdit`: ends the edit without any update. */
    method CancelEdit()
      modifies this
      ensures editingId == None && editForm == None
    {
      editingId := None;
      editForm := None;
    }

    /** `saveEdit`: with a form and a non-empty id (the empty string is
        falsy) the list is updated with the form's fields and the edit ends;
        otherwise nothing happens. Either way no id changes. */
    method SaveEdit(ts: seq<Transaction>) returns (r: seq<Transaction>)
      modifies this
      ensures var ready := old(editForm).Some? && old(editingId).Some? && old(editingId).value != "";
        && (ready ==>
              && r == UpdateTransaction(ts, old(editingId).value, FormPatch(old(editForm).value))
              && editingId == None && editForm == None)
        && (!ready ==> r == ts && editingId == old(editingId) && editForm == old(editForm))
      ensures |r| == |ts| && forall i :: 0 <= i < |ts| ==> r[i].id == ts[i].id
    {
      r := ts;
      if editForm.Some? && editingId.Some? && editingId.value != "" {
        r := UpdateTransaction(ts, editingId.value, FormPatch(editForm.value));
        editingId := None;
        editForm := None;
      }
    }
  }
}
