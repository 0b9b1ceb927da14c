/** The array expressions the applications rebuild their state with:
    `filter`, a `map` that replaces only the selected elements, and the
    `sort` used for display order. */
module Lists {

  /** `xs.filter(keep)`: the kept elements, in their original order. */
  function Keep<T(!new)>(xs: seq<T>, keep: T -> bool): (r: seq<T>)
    ensures |r| <= |xs|
    ensures forall x :: x in r <==> x in xs && keep(x)
  {
    if xs == [] then []
    else if keep(xs[0]) then [xs[0]] + Keep(xs[1..], keep)
    else Keep(xs[1..], keep)
  }

  /** Filtering distributes over concatenation: the relative order of the
      kept elements is the order they had in the input. */
  lemma {:induction false} KeepConcat<T(!new)>(a: seq<T>, b: seq<T>, keep: T -> bool)
    ensures Keep(a + b, keep) == Keep(a, keep) + Keep(b, keep)
  {
    if a == [] {
      assert a + b == b;
    } else {
      assert (a + b)[0] == a[0];
      assert (a + b)[1..] == a[1..] + b;
      KeepConcat(a[1..], b, keep);
    }
  }

  /** A filter that drops nothing returns its input unchanged. */
  lemma {:induction false} KeepAll<T(!new)>(xs: seq<T>, keep: T -> bool)
    requires forall x :: x in xs ==> keep(x)
    ensures Keep(xs, keep) == xs
  {
    if xs != [] {
      assert xs[0] in xs;
      assert forall x :: x in xs[1..] ==> x in xs;
      KeepAll(xs[1..], keep);
    }
  }

  /** A filter that keeps nothing returns the empty list. */
  lemma {:induction false} KeepNone<T(!new)>(xs: seq<T>, keep: T -> bool)
    requires forall x :: x in xs ==> !keep(x)
    ensures Keep(xs, keep) == []
  {
    if xs != [] {
      assert xs[0] in xs;
      assert forall x :: x in xs[1..] ==> x in xs;
      KeepNone(xs[1..], keep);
    }
  }

  /** Filtering twice with the same test is filtering once. */
  lemma KeepIdempotent<T(!new)>(xs: seq<T>, keep: T -> bool)
    ensures Keep(Keep(xs, keep), keep) == Keep(xs, keep)
  {
    KeepAll(Keep(xs, keep), keep);
  }

  /** `xs.map(x => sel(x) ? f(x) : x)`: same length, the selected elements
      transformed in place, every other element untouched. */
  function MapWhere<T>(xs: seq<T>, sel: T -> bool, f: T -> T): (r: seq<T>)
    ensures |r| == |xs|
    ensures forall i :: 0 <= i < |xs| ==> r[i] == if sel(xs[i]) then f(xs[i]) else xs[i]
  {
    if xs == [] then []
    else [if sel(xs[0]) then f(xs[0]) else xs[0]] + MapWhere(xs[1..], sel, f)
  }

  /** A map that selects nothing returns its input unchanged. */
  lemma MapWhereNone<T>(xs: seq<T>, sel: T -> bool, f: T -> T)
    requires forall i :: 0 <= i < |xs| ==> !sel(xs[i])
    ensures MapWhere(xs, sel, f) == xs
  {
  }

  /** `geq(a, b)`: `a` may be listed before `b`. A comparator usable for
      sorting is total and transitive. */
  ghost predicate TotalPreorder<T(!new)>(geq: (T, T) -> bool) {
    && (forall a, b :: geq(a, b) || geq(b, a))
    && (forall a, b, c :: geq(a, b) && geq(b, c) ==> geq(a, c))
  }

  ghost predicate SortedBy<T>(xs: seq<T>, geq: (T, T) -> bool) {
    forall i, j :: 0 <= i < j < |xs| ==> geq(xs[i], xs[j])
  }

  /** Inserts `x` in front of the first element it may precede; `x` stays
      in front of elements that compare equal. */
  function Insert<T(!new)>(x: T, s: seq<T>, geq: (T, T) -> bool): (r: seq<T>)
    requires TotalPreorder(geq)
    requires SortedBy(s, geq)
    ensures multiset(r) == multiset(s) + multiset{x}
    ensures SortedBy(r, geq)
  {
    if s == [] || geq(x, s[0]) then
      [x] + s
    else
      var rest := Insert(x, s[1..], geq);
      InsertBehindHead(x, s, rest, geq);
      [s[0]] + rest
  }

  /** The step of `Insert` that keeps the head in front: everything
      inserted behind it, `x` included, may follow it. */
  lemma InsertBehindHead<T(!new)>(x: T, s: seq<T>, rest: seq<T>, geq: (T, T) -> bool)
    requires TotalPreorder(geq) && SortedBy(s, geq)
    requires s != [] && !geq(x, s[0])
    requires multiset(rest) == multiset(s[1..]) + multiset{x} && SortedBy(rest, geq)
    ensures multiset([s[0]] + rest) == multiset(s) + multiset{x}
    ensures SortedBy([s[0]] + rest, geq)
  {
    assert s == [s[0]] + s[1..];
    forall i | 0 <= i < |rest|
      ensures geq(s[0], rest[i])
    {
      assert rest[i] in multiset(rest);
      if rest[i] != x {
        assert rest[i] in multiset(s[1..]);
        var j :| 0 <= j < |s[1..]| && s[1..][j] == rest[i];
        assert s[j + 1] == rest[i];
      }
    }
    var r := [s[0]] + rest;
    forall i, j | 0 <= i < j < |r|
      ensures geq(r[i], r[j])
    {
      if i > 0 {
        assert r[i] == rest[i - 1] && r[j] == rest[j - 1];
      } else {
        assert r[j] == rest[j - 1];
      }
    }
  }

  /** `Array.prototype.sort` with a comparator: a sort that lists
      the elements in non-increasing order under `geq`. */
  function SortDesc<T(!new)>(xs: seq<T>, geq: (T, T) -> bool): (r: seq<T>)
    requires TotalPreorder(geq)
    ensures multiset(r) == multiset(xs)
    ensures SortedBy(r, geq)
  {
    if xs == [] then []
    else
      assert xs == [xs[0]] + xs[1..];
      Insert(xs[0], SortDesc(xs[1..], geq), geq)
  }

  /** `xs.reduce((sum, x) => sum + f(x), 0)` over integers. */
  function SumOf<T>(xs: seq<T>, f: T -> int): int {
    if xs == [] then 0 else f(xs[0]) + SumOf(xs[1..], f)
  }

  lemma {:induction false} SumOfConcat<T>(a: seq<T>, b: seq<T>, f: T -> int)
    ensures SumOf(a + b, f) == SumOf(a, f) + SumOf(b, f)
  {
    if a == [] {
      assert a + b == b;
    } else {
      assert (a + b)[0] == a[0];
      assert (a + b)[1..] == a[1..] + b;
      SumOfConcat(a[1..], b, f);
    }
  }

  /** Inserting an element adds its value to the sum. */
  lemma {:induction false} InsertSum<T(!new)>(x: T, s: seq<T>, geq: (T, T) -> bool, f: T -> int)
    requires TotalPreorder(geq)
    requires SortedBy(s, geq)
    ensures SumOf(Insert(x, s, geq), f) == f(x) + SumOf(s, f)
  {
    if s == [] || geq(x, s[0]) {
      assert ([x] + s)[1..] == s;
    } else {
      assert SortedBy(s[1..], geq);
      InsertSum(x, s[1..], geq, f);
      assert ([s[0]] + Insert(x, s[1..], geq))[1..] == Insert(x, s[1..], geq);
    }
  }

  /** Sorting does not change the sum. */
  lemma {:induction false} SortDescSum<T(!new)>(xs: seq<T>, geq: (T, T) -> bool, f: T -> int)
    requires TotalPreorder(geq)
    ensures SumOf(SortDesc(xs, geq), f) == SumOf(xs, f)
  {
    if xs != [] {
      SortDescSum(xs[1..], geq, f);
      InsertSum(xs[0], SortDesc(xs[1..], geq), geq, f);
    }
  }

  /** No two elements share a key. */
  predicate DistinctBy<T, K(==)>(xs: seq<T>, key: T -> K) {
    forall i, j :: 0 <= i < j < |xs| ==> key(xs[i]) != key(xs[j])
  }

  /** Inserting an element whose key is new keeps the keys distinct. */
  lemma {:induction false} InsertDistinct<T(!new), K>(x: T, s: seq<T>, geq: (T, T) -> bool, key: T -> K)
    requires TotalPreorder(geq)
    requires SortedBy(s, geq)
    requires DistinctBy(s, key)
    requires forall y :: y in s ==> key(y) != key(x)
    ensures DistinctBy(Insert(x, s, geq), key)
  {
    if s == [] || geq(x, s[0]) {
      ConsDistinct(x, s, key);
    } else {
      var rest := Insert(x, s[1..], geq);
      assert SortedBy(s[1..], geq);
      assert forall y :: y in s[1..] ==> y in s;
      InsertDistinct(x, s[1..], geq, key);
      InsertMembers(x, s[1..], geq);
      forall y | y in rest
        ensures key(y) != key(s[0])
      {
        if y == x {
          assert s[0] in s;
        } else {
          var k :| 0 <= k < |s[1..]| && s[1..][k] == y;
          assert s[k + 1] == y;
        }
      }
      ConsDistinct(s[0], rest, key);
    }
  }

  /** The elements after insertion are `x` and those of `s`. */
  lemma InsertMembers<T(!new)>(x: T, s: seq<T>, geq: (T, T) -> bool)
    requires TotalPreorder(geq) && SortedBy(s, geq)
    ensures forall y :: y in Insert(x, s, geq) <==> y == x || y in s
  {
    var r := Insert(x, s, geq);
    assert forall y :: y in r <==> y in multiset(r);
    assert forall y :: y in s <==> y in multiset(s);
  }

  /** A key not among those of a distinct list keeps it distinct in front. */
  lemma ConsDistinct<T, K>(x: T, s: seq<T>, key: T -> K)
    requires DistinctBy(s, key)
    requires forall y :: y in s ==> key(y) != key(x)
    ensures DistinctBy([x] + s, key)
  {
    var r := [x] + s;
    forall i, j | 0 <= i < j < |r|
      ensures key(r[i]) != key(r[j])
    {
      assert r[j] == s[j - 1];
      if i == 0 {
        assert r[j] in s;
      } else {
        assert r[i] == s[i - 1];
      }
    }
  }

  /** Sorting keeps the keys distinct. */
  lemma {:induction false} SortDescDistinct<T(!new), K>(xs: seq<T>, geq: (T, T) -> bool, key: T -> K)
    requires TotalPreorder(geq)
    requires DistinctBy(xs, key)
    ensures DistinctBy(SortDesc(xs, geq), key)
  {
    if xs != [] {
      var tail := xs[1..];
      assert DistinctBy(tail, key);
      SortDescDistinct(tail, geq, key);
      var sorted := SortDesc(tail, geq);
      forall y | y in sorted
        ensures key(y) != key(xs[0])
      {
        assert y in multiset(sorted);
        assert y in tail;
        var k :| 0 <= k < |tail| && tail[k] == y;
        assert xs[k + 1] == y;
      }
      InsertDistinct(xs[0], sorted, geq, key);
    }
  }
}
