/** The overview tab (app/components/OverviewTab.tsx): the month's
    statistics and the form that adds a transaction. */
module Overview {
  import opened Lists
  import opened Budget

  datatype MonthlyStats = MonthlyStats(
    income: int,
    expense: int,
    balance: int,
    incomeCount: nat,
    expenseCount: nat)

  /** The statistics of a list of entries: income and expense are the
      sums of its income and expense entries, the balance their difference,
      and the two counts split its entries between them. */
  function StatsOf(m: seq<Transaction>): (s: MonthlyStats)
    ensures s.balance == s.income - s.expense
    ensures s.incomeCount + s.expenseCount == |m|
    ensures s.income + s.expense == Total(m)
  {
    TypesPartition(m);
    var income := Total(OfType(m, Income));
    var expense := Total(OfType(m, Expense));
    MonthlyStats(income, expense, income - expense, |OfType(m, Income)|, |OfType(m, Expense)|)
  }

  /** `getMonthlyStats`: the statistics of the month's entries. */
  function GetMonthlyStats(ts: seq<Transaction>, month: string): (s: MonthlyStats)
    ensures s.balance == s.income - s.expense
    ensures s.incomeCount + s.expenseCount == |MonthTransactions(ts, month)|
    ensures s.income + s.expense == Total(MonthTransactions(ts, month))
  {
    StatsOf(MonthTransactions(ts, month))
  }

  /** One more entry raises the income or the expense by its amount, the
      matching count by one and the balance accordingly. */
  lemma StatsOfAppend(m: seq<Transaction>, t: Transaction)
    ensures var before, after := StatsOf(m), StatsOf(m + [t]);
      if t.kind == Income then
        after == before.(income := before.income + t.amount, balance := before.balance + t.amount,
                         incomeCount := before.incomeCount + 1)
      else
        after == before.(expense := before.expense + t.amount, balance := before.balance - t.amount,
                         expenseCount := before.expenseCount + 1)
  {
    var same, other := t.kind, if t.kind == Income then Expense else Income;
    assert OfType(m + [t], same) == OfType(m, same) + [t] by {
      KeepConcat(m, [t], KindIs(same));
      assert Keep([t], KindIs(same)) == [t];
    }
    assert OfType(m + [t], other) == OfType(m, other) by {
      KeepConcat(m, [t], KindIs(other));
      assert Keep([t], KindIs(other)) == [];
      assert OfType(m, other) + [] == OfType(m, other);
    }
    assert Total(OfType(m + [t], same)) == Total(OfType(m, same)) + t.amount by {
      SumOfConcat(OfType(m, same), [t], AmountOf);
      assert SumOf([t], AmountOf) == t.amount;
    }
  }

  /** Adding a transaction dated in the month updates the month's
      statistics as one more entry does; one dated in another month
      changes nothing. */
  lemma StatsAfterAdd(ts: seq<Transaction>, month: string, id: string, kind: TransactionType,
                      amount: int, date: string, category: Category, description: string)
    ensures var t := Transaction(id, kind, amount, date, category, description);
      GetMonthlyStats(AddTransaction(ts, id, kind, amount, date, category, description), month) ==
        if MonthOf(date) == month then StatsOf(MonthTransactions(ts, month) + [t])
        else GetMonthlyStats(ts, month)
  {
    var t := Transaction(id, kind, amount, date, category, description);
    MonthAfterAdd(ts, month, id, kind, amount, date, category, description);
    assert MonthTransactions(ts, month) + [] == MonthTransactions(ts, month);
  }

  predicate AllPositive(ts: seq<Transaction>) {
    forall t :: t in ts ==> t.amount > 0
  }

  /** The form's fields. `amount` holds the number `parseFloat` reads from
      the amount input. */
  class TransactionForm {
    var kind: TransactionType
    var amount: int
    var date: string
    var category: Category
    var description: string

    /** The initial `useState` values; `today` is the current ISO date. */
    constructor (today: string)
      ensures kind == Expense && amount == 0 && date == today && category == Other && description == ""
    {
      kind := Expense;
      amount := 0;
      date := today;
      category := Other;
      description := "";
    }

    /** `handleSubmit`: a positive amount adds a transaction with the
        form's fields and resets the amount to 0 and the description to
        the empty string, keeping type, date and category; any other amount
        changes nothing. So a list of positive amounts stays one. */
    method HandleSubmit(ts: seq<Transaction>, id: string) returns (r: seq<Transaction>)
      modifies this`amount, this`description
      ensures old(amount) > 0 ==>
        && r == AddTransaction(ts, id, kind, old(amount), date, category, old(description))
        && amount == 0 && description == ""
      ensures old(amount) <= 0 ==> r == ts && amount == old(amount) && description == old(description)
      ensures AllPositive(ts) ==> AllPositive(r)
    {
      r := ts;
      if amount > 0 {
        r := AddTransaction(ts, id, kind, amount, date, category, description);
        amount := 0;
        description := "";
      }
    }
  }
}
