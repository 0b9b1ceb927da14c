/** The category breakdown tab (app/components/BreakdownTab.tsx): per
    category sums of the month's income or expense entries, listed by
    amount, largest first. `categoryMap` is a JavaScript `Map`, whose
    entries keep the order in which their keys were first set; it is an
    association list here. */
module Breakdown {
  import opened Wrappers
  import opened Lists
  import opened Budget
  import opened Overview

  /** One entry of `categoryMap`. */
  datatype Entry = Entry(category: Category, amount: int)

  datatype CategoryBreakdown = CategoryBreakdown(category: Category, amount: int, percentage: real)

  function EntryCategory(e: Entry): Category {
    e.category
  }

  function EntryAmount(e: Entry): int {
    e.amount
  }

  function RowCategory(b: CategoryBreakdown): Category {
    b.category
  }

  function RowAmount(b: CategoryBreakdown): int {
    b.amount
  }

  /** `categoryMap.get(c)`: the amount stored under `c`, if any. */
  function Lookup(m: seq<Entry>, c: Category): Option<int> {
    if m == [] then None
    else if m[0].category == c then Some(m[0].amount)
    else Lookup(m[1..], c)
  }

  /** `get` finds nothing exactly when no entry has the key, and otherwise
      the amount of an entry with the key. */
  lemma {:induction false} LookupSpec(m: seq<Entry>, c: Category)
    ensures Lookup(m, c).None? <==> forall i :: 0 <= i < |m| ==> m[i].category != c
    ensures Lookup(m, c).Some? ==> exists i :: 0 <= i < |m| && m[i] == Entry(c, Lookup(m, c).value)
  {
    if m != [] && m[0].category != c {
      LookupSpec(m[1..], c);
      if Lookup(m, c).Some? {
        var i :| 0 <= i < |m[1..]| && m[1..][i] == Entry(c, Lookup(m, c).value);
        assert m[i + 1] == m[1..][i];
      }
      if Lookup(m, c).None? {
        forall i | 0 <= i < |m|
          ensures m[i].category != c
        {
          if i > 0 {
            assert m[i] == m[1..][i - 1];
          }
        }
      }
    } else if m != [] {
      assert m[0] == Entry(c, Lookup(m, c).value);
    }
  }

  /** In a map without repeated keys, the amount stored under a key is the
      amount of its one entry. */
  lemma LookupDistinct(m: seq<Entry>, k: nat)
    requires DistinctBy(m, EntryCategory) && k < |m|
    ensures Lookup(m, m[k].category) == Some(m[k].amount)
  {
    var r := Lookup(m, m[k].category);
    LookupSpec(m, m[k].category);
    var i :| 0 <= i < |m| && m[i] == Entry(m[k].category, r.value);
    assert EntryCategory(m[i]) == EntryCategory(m[k]);
  }

  /** `categoryMap.set(c, v)`: overwrites the amount of an existing key in
      place, or appends a new key at the end. */
  function Put(m: seq<Entry>, c: Category, v: int): (r: seq<Entry>)
    ensures |r| == if Lookup(m, c).Some? then |m| else |m| + 1
  {
    if m == [] then [Entry(c, v)]
    else if m[0].category == c then [Entry(c, v)] + m[1..]
    else [m[0]] + Put(m[1..], c, v)
  }

  /** After `set(c, v)`, `get(c)` is `v` and every other key keeps its
      amount. */
  lemma {:induction false} PutLookup(m: seq<Entry>, c: Category, v: int, d: Category)
    ensures Lookup(Put(m, c, v), d) == if d == c then Some(v) else Lookup(m, d)
  {
    if m != [] && m[0].category != c {
      PutLookup(m[1..], c, v, d);
      assert Put(m, c, v)[1..] == Put(m[1..], c, v);
    } else if m != [] {
      assert Put(m, c, v)[1..] == m[1..];
    }
  }

  /** The sum of the amounts changes by the difference between the new
      amount and the old one (0 for a new key). */
  lemma {:induction false} PutSum(m: seq<Entry>, c: Category, v: int)
    ensures SumOf(Put(m, c, v), EntryAmount) == SumOf(m, EntryAmount) - Lookup(m, c).GetOr(0) + v
  {
    if m != [] && m[0].category != c {
      PutSum(m[1..], c, v);
      assert Put(m, c, v)[1..] == Put(m[1..], c, v);
    } else if m != [] {
      assert Put(m, c, v)[1..] == m[1..];
    }
  }

  /** `set` never repeats a key. */
  lemma {:induction false} PutDistinct(m: seq<Entry>, c: Category, v: int)
    requires DistinctBy(m, EntryCategory)
    ensures DistinctBy(Put(m, c, v), EntryCategory)
  {
    var r := Put(m, c, v);
    if m == [] {
    } else if m[0].category == c {
      forall i, j | 0 <= i < j < |r|
        ensures EntryCategory(r[i]) != EntryCategory(r[j])
      {
        assert EntryCategory(m[i]) != EntryCategory(m[j]);
      }
    } else {
      var rest := Put(m[1..], c, v);
      assert DistinctBy(m[1..], EntryCategory);
      PutDistinct(m[1..], c, v);
      assert r[1..] == rest;
      var d := m[0].category;
      assert Lookup(m[1..], d).None? by {
        forall k | 0 <= k < |m[1..]|
          ensures m[1..][k].category != d
        {
          assert EntryCategory(m[0]) != EntryCategory(m[k + 1]);
        }
        LookupSpec(m[1..], d);
      }
      PutLookup(m[1..], c, v, d);
      LookupSpec(rest, d);
      forall i, j | 0 <= i < j < |r|
        ensures EntryCategory(r[i]) != EntryCategory(r[j])
      {
        if i == 0 {
          assert rest[j - 1] == r[j];
        } else {
          assert r[i] == rest[i - 1] && r[j] == rest[j - 1];
        }
      }
    }
  }

  function CategoryIs(c: Category): Transaction -> bool {
    (t: Transaction) => t.category == c
  }

  predicate HasCategory(xs: seq<Transaction>, c: Category) {
    exists t :: t in xs && t.category == c
  }

  /** The sum of the amounts of the entries with the category. */
  function CategoryTotal(xs: seq<Transaction>, c: Category): int {
    Total(Keep(xs, CategoryIs(c)))
  }

  /** The map after the `forEach` over `xs`: each entry adds its amount to
      the amount under its category (`get(c) || 0` reading a missing key
      as 0). */
  function Tally(xs: seq<Transaction>): seq<Entry> {
    if xs == [] then []
    else
      var m := Tally(xs[..|xs| - 1]);
      var t := xs[|xs| - 1];
      Put(m, t.category, Lookup(m, t.category).GetOr(0) + t.amount)
  }

  /** A category with no entry sums to 0. */
  lemma AbsentCategoryTotal(xs: seq<Transaction>, c: Category)
    requires !HasCategory(xs, c)
    ensures CategoryTotal(xs, c) == 0
  {
    KeepNone(xs, CategoryIs(c));
  }

  /** One more entry: its category's sum grows by its amount, every other
      category's sum and presence stay as they were. */
  lemma CategoryTotalAppend(p: seq<Transaction>, t: Transaction, c: Category)
    ensures HasCategory(p + [t], c) == (HasCategory(p, c) || c == t.category)
    ensures CategoryTotal(p + [t], c) ==
      CategoryTotal(p, c) + if c == t.category then t.amount else 0
  {
    KeepConcat(p, [t], CategoryIs(c));
    if c == t.category {
      assert Keep([t], CategoryIs(c)) == [t];
      SumOfConcat(Keep(p, CategoryIs(c)), [t], AmountOf);
      assert SumOf([t], AmountOf) == t.amount;
      assert t in p + [t];
    } else {
      assert Keep([t], CategoryIs(c)) == [];
      assert Keep(p, CategoryIs(c)) + [] == Keep(p, CategoryIs(c));
      if HasCategory(p + [t], c) {
        var u :| u in p + [t] && u.category == c;
        assert u in p;
      }
    }
    if HasCategory(p, c) {
      var u :| u in p && u.category == c;
      assert u in p + [t];
    }
  }

  /** The tally of one more entry of a list. */
  lemma TallyPrefix(xs: seq<Transaction>, i: nat, m: seq<Entry>, t: Transaction)
    requires i < |xs| && m == Tally(xs[..i]) && t == xs[i]
    ensures Tally(xs[..i + 1]) == Put(m, t.category, Lookup(m, t.category).GetOr(0) + t.amount)
  {
    var seen := xs[..i + 1];
    assert seen[..|seen| - 1] == xs[..i] && seen[|seen| - 1] == xs[i];
  }

  /** No category appears twice in the tally. */
  lemma {:induction false} TallyDistinct(xs: seq<Transaction>)
    ensures DistinctBy(Tally(xs), EntryCategory)
  {
    if xs != [] {
      var p, t := xs[..|xs| - 1], xs[|xs| - 1];
      TallyDistinct(p);
      PutDistinct(Tally(p), t.category, Lookup(Tally(p), t.category).GetOr(0) + t.amount);
    }
  }

  /** Reading a missing key as 0 gives the category's sum. */
  lemma LookupOrZero(m: seq<Entry>, xs: seq<Transaction>, c: Category)
    requires Lookup(m, c) == if HasCategory(xs, c) then Some(CategoryTotal(xs, c)) else None
    ensures Lookup(m, c).GetOr(0) == CategoryTotal(xs, c)
  {
    if !HasCategory(xs, c) {
      AbsentCategoryTotal(xs, c);
    }
  }

  /** The tally holds an entry for exactly the categories present, its
      amount the category's sum. */
  lemma {:induction false} TallyLookup(xs: seq<Transaction>, c: Category)
    ensures Lookup(Tally(xs), c) == if HasCategory(xs, c) then Some(CategoryTotal(xs, c)) else None
  {
    if xs != [] {
      var p, t := xs[..|xs| - 1], xs[|xs| - 1];
      assert xs == p + [t];
      TallyLookup(p, c);
      TallyLookup(p, t.category);
      TallyLookupStep(p, t, c);
    }
  }

  /** The induction step of `TallyLookup`: one more entry. */
  lemma TallyLookupStep(p: seq<Transaction>, t: Transaction, c: Category)
    requires Lookup(Tally(p), c) == if HasCategory(p, c) then Some(CategoryTotal(p, c)) else None
    requires Lookup(Tally(p), t.category) ==
      if HasCategory(p, t.category) then Some(CategoryTotal(p, t.category)) else None
    ensures Lookup(Tally(p + [t]), c) ==
      if HasCategory(p + [t], c) then Some(CategoryTotal(p + [t], c)) else None
  {
    if c == t.category {
      LookupOrZero(Tally(p), p, c);
      TallyLookupSame(p, t);
    } else {
      TallyLookupOther(p, t, c);
    }
  }

  /** The entry's own category: present, with the sum grown by its amount. */
  lemma TallyLookupSame(p: seq<Transaction>, t: Transaction)
    requires Lookup(Tally(p), t.category).GetOr(0) == CategoryTotal(p, t.category)
    ensures HasCategory(p + [t], t.category)
    ensures Lookup(Tally(p + [t]), t.category) == Some(CategoryTotal(p + [t], t.category))
  {
    var c, m := t.category, Tally(p);
    var v := Lookup(m, c).GetOr(0) + t.amount;
    TallyAppend(p, t, m, v);
    PutLookup(m, c, v, c);
    CategoryTotalAppend(p, t, c);
    assert v == CategoryTotal(p + [t], c);
  }

  /** Any other category: presence, sum and stored amount unchanged. */
  lemma TallyLookupOther(p: seq<Transaction>, t: Transaction, c: Category)
    requires c != t.category
    ensures HasCategory(p + [t], c) == HasCategory(p, c)
    ensures CategoryTotal(p + [t], c) == CategoryTotal(p, c)
    ensures Lookup(Tally(p + [t]), c) == Lookup(Tally(p), c)
  {
    var m := Tally(p);
    var v := Lookup(m, t.category).GetOr(0) + t.amount;
    TallyAppend(p, t, m, v);
    PutLookup(m, t.category, v, c);
    CategoryTotalAppend(p, t, c);
  }

  /** The tally of a list with one more entry at the end. */
  lemma TallyAppend(p: seq<Transaction>, t: Transaction, m: seq<Entry>, v: int)
    requires m == Tally(p) && v == Lookup(m, t.category).GetOr(0) + t.amount
    ensures Tally(p + [t]) == Put(m, t.category, v)
  {
    var xs := p + [t];
    assert xs[..|xs| - 1] == p && xs[|xs| - 1] == t;
  }

  /** The amounts of the tally add up to the total. */
  lemma {:induction false} TallySum(xs: seq<Transaction>)
    ensures SumOf(Tally(xs), EntryAmount) == Total(xs)
  {
    if xs != [] {
      var p, t := xs[..|xs| - 1], xs[|xs| - 1];
      assert xs == p + [t];
      TallySum(p);
      var m := Tally(p);
      var before := Lookup(m, t.category).GetOr(0);
      PutSum(m, t.category, before + t.amount);
      SumOfConcat(p, [t], AmountOf);
      assert SumOf([t], AmountOf) == t.amount;
    }
  }

  /** The percentage of a category in the total; 0 when the total is not
      positive. */
  function Percentage(amount: int, total: int): real {
    if total > 0 then (amount as real / total as real) * 100.0 else 0.0
  }

  /** `Array.from(categoryMap.entries()).map(...)`: one row per entry, in
      map order. */
  function Rows(m: seq<Entry>, total: int): (rows: seq<CategoryBreakdown>)
    ensures |rows| == |m|
    ensures forall i :: 0 <= i < |m| ==>
      rows[i] == CategoryBreakdown(m[i].category, m[i].amount, Percentage(m[i].amount, total))
  {
    seq(|m|, i requires 0 <= i < |m| => CategoryBreakdown(m[i].category, m[i].amount, Percentage(m[i].amount, total)))
  }

  lemma {:induction false} RowsSum(m: seq<Entry>, total: int)
    ensures SumOf(Rows(m, total), RowAmount) == SumOf(m, EntryAmount)
  {
    if m != [] {
      RowsSum(m[1..], total);
      assert Rows(m, total)[1..] == Rows(m[1..], total);
    }
  }

  /** `(a, b) => b.amount - a.amount`: `a` may come first when its amount is
      not smaller. */
  predicate AmountAtLeast(a: CategoryBreakdown, b: CategoryBreakdown) {
    a.amount >= b.amount
  }

  lemma AmountOrder()
    ensures TotalPreorder(AmountAtLeast)
  {
  }

  /** The entries aggregated: the month's entries of the given type. */
  function Filtered(ts: seq<Transaction>, month: string, kind: TransactionType): (r: seq<Transaction>)
    ensures forall t :: t in r <==> t in ts && MonthOf(t.date) == month && t.kind == kind
  {
    OfType(MonthTransactions(ts, month), kind)
  }

  /** `.sort((a, b) => b.amount - a.amount)` over the rows of a tally. */
  function SortedRows(m: seq<Entry>, total: int): (r: seq<CategoryBreakdown>)
    ensures forall i, j :: 0 <= i < j < |r| ==> r[i].amount >= r[j].amount
  {
    AmountOrder();
    SortDesc(Rows(m, total), AmountAtLeast)
  }

  /** `calculateBreakdown(kind)`, listed by amount, largest first. */
  function Breakdown(ts: seq<Transaction>, month: string, kind: TransactionType): (r: seq<CategoryBreakdown>)
    ensures forall i, j :: 0 <= i < j < |r| ==> r[i].amount >= r[j].amount
  {
    var filtered := Filtered(ts, month, kind);
    SortedRows(Tally(filtered), Total(filtered))
  }

  /** The `forEach` that fills `categoryMap`: for each entry, `get` its
      category's amount (a missing key read as 0) and `set` it to that plus
      the entry's amount. The map it leaves is the tally. */
  method FillCategoryMap(filtered: seq<Transaction>) returns (categoryMap: seq<Entry>)
    ensures categoryMap == Tally(filtered)
  {
    categoryMap := [];
    for i := 0 to |filtered|
      invariant categoryMap == Tally(filtered[..i])
    {
      var t := filtered[i];
      var current := Lookup(categoryMap, t.category).GetOr(0);
      TallyPrefix(filtered, i, categoryMap, t);
      categoryMap := Put(categoryMap, t.category, current + t.amount);
    }
    assert filtered[..|filtered|] == filtered;
  }

  /** `calculateBreakdown`: the filters and the sum, then the `forEach`
      that fills `categoryMap`, then the rows sorted by amount. */
  method CalculateBreakdown(ts: seq<Transaction>, month: string, kind: TransactionType)
    returns (r: seq<CategoryBreakdown>)
    ensures r == Breakdown(ts, month, kind)
  {
    var filtered := Filtered(ts, month, kind);
    var total := Total(filtered);
    var categoryMap := FillCategoryMap(filtered);
    r := SortedRows(categoryMap, total);
  }

  /** The breakdown lists each category present among the aggregated
      entries exactly once, with the sum of that category's amounts. */
  lemma BreakdownEntries(ts: seq<Transaction>, month: string, kind: TransactionType)
    ensures var r, xs := Breakdown(ts, month, kind), Filtered(ts, month, kind);
      && DistinctBy(r, RowCategory)
      && (forall i :: 0 <= i < |r| ==>
            HasCategory(xs, r[i].category) && r[i].amount == CategoryTotal(xs, r[i].category))
      && (forall c :: HasCategory(xs, c) ==> exists i :: 0 <= i < |r| && r[i].category == c)
  {
    var xs := Filtered(ts, month, kind);
    var m := Tally(xs);
    var rows := Rows(m, Total(xs));
    var r := Breakdown(ts, month, kind);
    AmountOrder();
    TallyDistinct(xs);
    assert DistinctBy(rows, RowCategory) by {
      forall i, j | 0 <= i < j < |rows|
        ensures RowCategory(rows[i]) != RowCategory(rows[j])
      {
        assert EntryCategory(m[i]) != EntryCategory(m[j]);
      }
    }
    SortDescDistinct(rows, AmountAtLeast, RowCategory);
    forall i | 0 <= i < |r|
      ensures HasCategory(xs, r[i].category) && r[i].amount == CategoryTotal(xs, r[i].category)
    {
      assert r[i] in multiset(rows);
      var k :| 0 <= k < |rows| && rows[k] == r[i];
      LookupDistinct(m, k);
      TallyLookup(xs, m[k].category);
    }
    forall c | HasCategory(xs, c)
      ensures exists i :: 0 <= i < |r| && r[i].category == c
    {
      TallyLookup(xs, c);
      LookupSpec(m, c);
      var k :| 0 <= k < |m| && m[k] == Entry(c, CategoryTotal(xs, c));
      assert rows[k] in multiset(r);
      var i :| 0 <= i < |r| && r[i] == rows[k];
    }
  }

  /** The amounts of the breakdown add up to the total of the aggregated
      entries. */
  lemma BreakdownSum(ts: seq<Transaction>, month: string, kind: TransactionType)
    ensures SumOf(Breakdown(ts, month, kind), RowAmount) == Total(Filtered(ts, month, kind))
  {
    var xs := Filtered(ts, month, kind);
    AmountOrder();
    TallySum(xs);
    RowsSum(Tally(xs), Total(xs));
    SortDescSum(Rows(Tally(xs), Total(xs)), AmountAtLeast, RowAmount);
  }

  /** `totalIncome` and `totalExpense`, the sums of the two breakdowns, are
      the month's income and expense of the overview. */
  lemma BreakdownTotalsMatchOverview(ts: seq<Transaction>, month: string)
    ensures SumOf(Breakdown(ts, month, Income), RowAmount) == GetMonthlyStats(ts, month).income
    ensures SumOf(Breakdown(ts, month, Expense), RowAmount) == GetMonthlyStats(ts, month).expense
  {
    BreakdownSum(ts, month, Income);
    BreakdownSum(ts, month, Expense);
  }

  /** When the aggregated total is not positive every percentage is 0, and
      no aggregated entry gives no row. */
  lemma BreakdownDegenerate(ts: seq<Transaction>, month: string, kind: TransactionType)
    ensures var r, xs := Breakdown(ts, month, kind), Filtered(ts, month, kind);
      && (Total(xs) <= 0 ==> forall i :: 0 <= i < |r| ==> r[i].percentage == 0.0)
      && (xs == [] ==> r == [])
  {
    var xs := Filtered(ts, month, kind);
    var rows := Rows(Tally(xs), Total(xs));
    var r := Breakdown(ts, month, kind);
    AmountOrder();
    forall i | 0 <= i < |r| && Total(xs) <= 0
      ensures r[i].percentage == 0.0
    {
      assert r[i] in multiset(rows);
    }
  }
}
