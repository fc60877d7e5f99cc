/** Array.prototype.sort on a copy, as the web client uses it: a stable
    sort (required of every engine since ECMAScript 2019) under a
    comparator that orders by a total preorder `le` ("a may come before b"). */
module Sorting {
  import opened Common

  /** `le` is a total preorder: any two elements compare, and comparing is
      transitive. */
  ghost predicate TotalPreorder<T(!new)>(le: (T, T) -> bool) {
    (forall a, b :: le(a, b) || le(b, a))
    && (forall a, b, c :: le(a, b) && le(b, c) ==> le(a, c))
  }

  ghost predicate SortedBy<T>(s: seq<T>, le: (T, T) -> bool) {
    forall i, j :: 0 <= i < j < |s| ==> le(s[i], s[j])
  }

  /** Places `x` before the first element it may precede. */
  function Insert<T>(x: T, s: seq<T>, le: (T, T) -> bool): (r: seq<T>)
    ensures multiset(r) == multiset(s) + multiset{x}
    ensures |r| == |s| + 1
  {
    if s == [] || le(x, s[0]) then [x] + s
    else
      assert s == [s[0]] + s[1..];
      [s[0]] + Insert(x, s[1..], le)
  }

  /** A stable sort: insertion from the back, each element going in front
      of every element it ties with. */
  function Sort<T>(s: seq<T>, le: (T, T) -> bool): (r: seq<T>)
    ensures multiset(r) == multiset(s)
    ensures |r| == |s|
  {
    if s == [] then []
    else
      assert s == [s[0]] + s[1..];
      Insert(s[0], Sort(s[1..], le), le)
  }

  lemma {:induction false} InsertSorted<T(!new)>(x: T, s: seq<T>, le: (T, T) -> bool)
    requires TotalPreorder(le) && SortedBy(s, le)
    ensures SortedBy(Insert(x, s, le), le)
  {
    if s != [] && !le(x, s[0]) {
      InsertSorted(x, s[1..], le);
      var r := Insert(x, s, le);
      var rest := Insert(x, s[1..], le);
      assert r == [s[0]] + rest;
      forall j | 1 <= j < |r| ensures le(s[0], r[j]) {
        assert r[j] in multiset(rest);
        assert r[j] in multiset(s[1..]) + multiset{x};
        if r[j] != x {
          assert r[j] in s[1..];
        }
      }
    }
  }

  /** The result is ordered by `le` and holds the same elements. */
  lemma {:induction false} SortSorted<T(!new)>(s: seq<T>, le: (T, T) -> bool)
    requires TotalPreorder(le)
    ensures SortedBy(Sort(s, le), le)
  {
    if s != [] {
      SortSorted(s[1..], le);
      InsertSorted(s[0], Sort(s[1..], le), le);
    }
  }

  /** The elements that tie with `k`. */
  function TieFn<T>(le: (T, T) -> bool, k: T): T -> bool {
    (y: T) => le(y, k) && le(k, y)
  }

  /** Ties keep their input order: for every element `k`, the elements that
      tie with `k` appear in the output in the order they had in the input. */
  lemma {:induction false} SortStable<T(!new)>(s: seq<T>, le: (T, T) -> bool, k: T)
    requires TotalPreorder(le)
    ensures Filter(Sort(s, le), TieFn(le, k)) == Filter(s, TieFn(le, k))
  {
    if s != [] {
      SortStable(s[1..], le, k);
      SortSorted(s[1..], le);
      InsertTies(s[0], Sort(s[1..], le), le, k);
      assert s == [s[0]] + s[1..];
      FilterAppend([s[0]], s[1..], TieFn(le, k));
    }
  }

  /** Inserting `x` puts it ahead of everything it ties with. */
  lemma {:induction false} InsertTies<T(!new)>(x: T, s: seq<T>, le: (T, T) -> bool, k: T)
    requires TotalPreorder(le) && SortedBy(s, le)
    ensures Filter(Insert(x, s, le), TieFn(le, k)) == Filter([x], TieFn(le, k)) + Filter(s, TieFn(le, k))
  {
    var tie := TieFn(le, k);
    if s == [] || le(x, s[0]) {
      FilterAppend([x], s, tie);
    } else {
      InsertTies(x, s[1..], le, k);
      assert s == [s[0]] + s[1..];
      FilterAppend([s[0]], Insert(x, s[1..], le), tie);
      FilterAppend([s[0]], s[1..], tie);
      if tie(x) {
        // s[0] comes strictly before x, so it cannot tie with k
        assert !tie(s[0]);
      }
    }
  }
}
