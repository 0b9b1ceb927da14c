/** The household budget's data (app/types.ts) and its transaction list
    (app/components/BudgetApp.tsx): the three handlers that rebuild the
    list, and the month filter and sums the three tabs share. Amounts are
    whole yen; ids come from `Date.now()` in the source and are parameters
    here, not assumed to be unique. */
module Budget {
  import opened Wrappers
  import opened Lists
  import opened JsText

  datatype TransactionType = Income | Expense

  /** The nine categories: 食費, 交通費, 娯楽, 医療費, 住居費, 光熱費,
      通信費, 給与, その他. */
  datatype Category = Food | Transport | Entertainment | Medical | Housing | Utilities
                    | Communication | Salary | Other

  datatype Transaction = Transaction(
    id: string,
    kind: TransactionType,
    amount: int,
    date: string,
    category: Category,
    description: string)

  /** A `Partial<Transaction>`: the fields present in an update. */
  datatype TransactionPatch = TransactionPatch(
    id: Option<string>,
    kind: Option<TransactionType>,
    amount: Option<int>,
    date: Option<string>,
    category: Option<Category>,
    description: Option<string>)

  const NoChange := TransactionPatch(None, None, None, None, None, None)

  /** `{ ...t, ...updates }`: every field present in the patch replaces the
      transaction's, every absent one is kept. */
  function ApplyPatch(t: Transaction, u: TransactionPatch): Transaction {
    Transaction(
      u.id.GetOr(t.id),
      u.kind.GetOr(t.kind),
      u.amount.GetOr(t.amount),
      u.date.GetOr(t.date),
      u.category.GetOr(t.category),
      u.description.GetOr(t.description))
  }

  /** An empty patch is the identity, and applying a patch twice is
      applying it once. */
  lemma ApplyPatchLaws(t: Transaction, u: TransactionPatch)
    ensures ApplyPatch(t, NoChange) == t
    ensures ApplyPatch(ApplyPatch(t, u), u) == ApplyPatch(t, u)
    ensures u.id.None? ==> ApplyPatch(t, u).id == t.id
  {
  }

  function IdIs(id: string): Transaction -> bool {
    (t: Transaction) => t.id == id
  }

  function IdIsNot(id: string): Transaction -> bool {
    (t: Transaction) => t.id != id
  }

  function Patched(u: TransactionPatch): Transaction -> Transaction {
    (t: Transaction) => ApplyPatch(t, u)
  }

  /** `addTransaction`: the list grows by exactly one; the new last entry
      carries the given fields and the earlier entries are untouched. */
  function AddTransaction(ts: seq<Transaction>, id: string, kind: TransactionType, amount: int,
                          date: string, category: Category, description: string): (r: seq<Transaction>)
    ensures |r| == |ts| + 1
    ensures r[..|ts|] == ts
    ensures r[|ts|] == Transaction(id, kind, amount, date, category, description)
  {
    ts + [Transaction(id, kind, amount, date, category, description)]
  }

  /** `updateTransaction`: same length and order; entries with the id take
      the fields present in the patch, every other entry is untouched. */
  function UpdateTransaction(ts: seq<Transaction>, id: string, u: TransactionPatch): (r: seq<Transaction>)
    ensures |r| == |ts|
    ensures forall i :: 0 <= i < |ts| ==> r[i] == if ts[i].id == id then ApplyPatch(ts[i], u) else ts[i]
  {
    MapWhere(ts, IdIs(id), Patched(u))
  }

  /** Updating an id no entry has leaves the list as it was. */
  lemma UpdateAbsentTransaction(ts: seq<Transaction>, id: string, u: TransactionPatch)
    requires forall t :: t in ts ==> t.id != id
    ensures UpdateTransaction(ts, id, u) == ts
  {
    MapWhereNone(ts, IdIs(id), Patched(u));
  }

  /** A patch without an id keeps every entry's id. */
  lemma UpdateKeepsIds(ts: seq<Transaction>, id: string, u: TransactionPatch)
    requires u.id.None?
    ensures var r := UpdateTransaction(ts, id, u);
      forall i :: 0 <= i < |ts| ==> r[i].id == ts[i].id
  {
  }

  /** Updating twice with the same patch is updating once, even when the
      patch changes the id: an entry it moves to another id is not matched
      again, and one it leaves at `id` is patched to the same value. */
  lemma UpdateIdempotent(ts: seq<Transaction>, id: string, u: TransactionPatch)
    ensures UpdateTransaction(UpdateTransaction(ts, id, u), id, u) == UpdateTransaction(ts, id, u)
  {
    var once := UpdateTransaction(ts, id, u);
    var twice := UpdateTransaction(once, id, u);
    forall i | 0 <= i < |ts|
      ensures twice[i] == once[i]
    {
      ApplyPatchLaws(ts[i], u);
    }
  }

  /** `deleteTransaction`: exactly the entries with the id are gone. */
  function DeleteTransaction(ts: seq<Transaction>, id: string): (r: seq<Transaction>)
    ensures |r| <= |ts|
    ensures forall t :: t in r <==> t in ts && t.id != id
  {
    Keep(ts, IdIsNot(id))
  }

  /** The entries that survive a deletion keep their relative order. */
  lemma DeleteKeepsOrder(a: seq<Transaction>, b: seq<Transaction>, id: string)
    ensures DeleteTransaction(a + b, id) == DeleteTransaction(a, id) + DeleteTransaction(b, id)
  {
    KeepConcat(a, b, IdIsNot(id));
  }

  /** Deleting twice is deleting once. */
  lemma DeleteIdempotent(ts: seq<Transaction>, id: string)
    ensures DeleteTransaction(DeleteTransaction(ts, id), id) == DeleteTransaction(ts, id)
  {
    KeepIdempotent(ts, IdIsNot(id));
  }

  /** Deleting an entry just added under an id no other entry has restores
      the list. */
  lemma DeleteUndoesAdd(ts: seq<Transaction>, id: string, kind: TransactionType, amount: int,
                        date: string, category: Category, description: string)
    requires forall t :: t in ts ==> t.id != id
    ensures DeleteTransaction(AddTransaction(ts, id, kind, amount, date, category, description), id) == ts
  {
    var t := Transaction(id, kind, amount, date, category, description);
    DeleteKeepsOrder(ts, [t], id);
    KeepAll(ts, IdIsNot(id));
  }

  // The month filter and sums shared by the three tabs.

  /** `t.date.substring(0, 7)`: the "YYYY-MM" part of an ISO date. */
  function MonthOf(date: string): string {
    Prefix(date, 7)
  }

  function InMonth(month: string): Transaction -> bool {
    (t: Transaction) => MonthOf(t.date) == month
  }

  function KindIs(kind: TransactionType): Transaction -> bool {
    (t: Transaction) => t.kind == kind
  }

  function AmountOf(t: Transaction): int {
    t.amount
  }

  /** `transactions.filter(t => t.date.substring(0, 7) === selectedMonth)`:
      exactly the month's entries, in list order. */
  function MonthTransactions(ts: seq<Transaction>, month: string): (r: seq<Transaction>)
    ensures |r| <= |ts|
    ensures forall t :: t in r <==> t in ts && MonthOf(t.date) == month
  {
    Keep(ts, InMonth(month))
  }

  /** `filter(t => t.type === kind)` */
  function OfType(ts: seq<Transaction>, kind: TransactionType): (r: seq<Transaction>)
    ensures |r| <= |ts|
    ensures forall t :: t in r <==> t in ts && t.kind == kind
  {
    Keep(ts, KindIs(kind))
  }

  /** `reduce((sum, t) => sum + t.amount, 0)` */
  function Total(ts: seq<Transaction>): int {
    SumOf(ts, AmountOf)
  }

  /** Income and expense partition every list: the two counts add up to
      its length and the two sums to its total. */
  lemma {:induction false} TypesPartition(ts: seq<Transaction>)
    ensures |OfType(ts, Income)| + |OfType(ts, Expense)| == |ts|
    ensures Total(OfType(ts, Income)) + Total(OfType(ts, Expense)) == Total(ts)
  {
    if ts != [] {
      TypesPartition(ts[1..]);
    }
  }

  /** Adding an entry extends the month's list by that entry when its date
      is in the month, and leaves it unchanged otherwise. */
  lemma MonthAfterAdd(ts: seq<Transaction>, month: string, id: string, kind: TransactionType,
                      amount: int, date: string, category: Category, description: string)
    ensures var t := Transaction(id, kind, amount, date, category, description);
      MonthTransactions(AddTransaction(ts, id, kind, amount, date, category, description), month)
        == MonthTransactions(ts, month) + if MonthOf(date) == month then [t] else []
  {
    var t := Transaction(id, kind, amount, date, category, description);
    KeepConcat(ts, [t], InMonth(month));
  }

  /** `formatMonth`: the part before the first `-`, 年, the number
      `parseInt` reads from the part after it (NaN when there is none),
      月. */
  function FormatMonth(month: string): string {
    var parts := Split(month, '-');
    var monthNum := if |parts| >= 2 then ParseInt(parts[1]) else NaN;
    parts[0] + "年" + NumberToString(monthNum) + "月"
  }

  /** For a "YYYY-MM" month the result is the year, 年, the month number
      without a leading zero, 月. */
  lemma FormatMonthOfIso(year: string, d1: char, d2: char)
    requires '-' !in year
    requires '0' <= d1 <= '9' && '0' <= d2 <= '9'
    ensures FormatMonth(year + "-" + [d1, d2]) ==
      year + "年" + NatToString(10 * DigitValue(d1) + DigitValue(d2)) + "月"
  {
    DecimalDigitChar(d1);
    DecimalDigitChar(d2);
    SplitIso(year, [d1, d2]);
    ParseIntTwoDigits(d1, d2);
    FormatMonthOfParts(year + "-" + [d1, d2], year, [d1, d2], 10 * DigitValue(d1) + DigitValue(d2));
  }

  lemma DecimalDigitChar(c: char)
    requires '0' <= c <= '9'
    ensures DigitValue(c) < 10 && c != '-'
  {
  }

  /** A year and a month without `-`, joined by one, split back apart. */
  lemma SplitIso(year: string, mm: string)
    requires '-' !in year && '-' !in mm
    ensures Split(year + "-" + mm, '-') == [year, mm]
  {
    assert year + "-" + mm == year + ['-'] + mm;
    SplitTwo(year, mm, '-');
  }

  /** A month that splits into two parts, the second read as a natural
      number `n`, is formatted with the numeral of `n`. */
  lemma FormatMonthOfParts(month: string, year: string, mm: string, n: nat)
    requires Split(month, '-') == [year, mm]
    requires ParseInt(mm) == Num(n)
    ensures FormatMonth(month) == year + "年" + NatToString(n) + "月"
  {
  }
}
