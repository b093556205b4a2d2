/**
 * Ordering of query results.  The source orders rows with the database's
 * `ORDER BY` (`Team::orderBy('points', 'desc')`, `orderBy('start_time')`) and
 * with LINQ's `OrderByDescending`; all of them are modelled by one insertion
 * sort parameterised by a "may come before" relation `le`.
 */
module Sorting {

  /** Every two elements are comparable one way or the other. */
  ghost predicate Total<T(!new)>(le: (T, T) -> bool) {
    forall x, y :: le(x, y) || le(y, x)
  }

  /** Neighbouring elements are in order. */
  ghost predicate SortedBy<T>(s: seq<T>, le: (T, T) -> bool) {
    forall i :: 0 < i < |s| ==> le(s[i - 1], s[i])
  }

  /** Inserts `x` in front of the first element it may precede. */
  function Insert<T>(x: T, s: seq<T>, le: (T, T) -> bool): (r: seq<T>)
    ensures |r| == |s| + 1
    ensures multiset(r) == multiset(s) + multiset{x}
  {
    if s == [] || le(x, s[0]) then [x] + s
    else
      assert s == [s[0]] + s[1..];
      [s[0]] + Insert(x, s[1..], le)
  }

  /** Insertion sort: the result is a permutation of `s`. */
  function SortBy<T>(s: seq<T>, le: (T, T) -> bool): (r: seq<T>)
    ensures |r| == |s|
    ensures multiset(r) == multiset(s)
  {
    if s == [] then []
    else
      assert s == [s[0]] + s[1..];
      Insert(s[0], SortBy(s[1..], le), le)
  }

  lemma {:induction false} InsertSorted<T(!new)>(x: T, s: seq<T>, le: (T, T) -> bool)
    requires Total(le)
    requires SortedBy(s, le)
    ensures SortedBy(Insert(x, s, le), le)
    ensures Insert(x, s, le)[0] == x || (s != [] && Insert(x, s, le)[0] == s[0])
  {
    if s == [] || le(x, s[0]) {
    } else {
      InsertSorted(x, s[1..], le);
      var r := Insert(x, s[1..], le);
      assert le(s[0], x);
      assert s[1..] != [] ==> le(s[0], s[1..][0]);
      assert Insert(x, s, le) == [s[0]] + r;
    }
  }

  /** With a total relation, the sort's result is in order. */
  lemma {:induction false} SortBySorted<T(!new)>(s: seq<T>, le: (T, T) -> bool)
    requires Total(le)
    ensures SortedBy(SortBy(s, le), le)
  {
    if s != [] {
      SortBySorted(s[1..], le);
      InsertSorted(s[0], SortBy(s[1..], le), le);
    }
  }

  /** Maps every element of `s` through `f`. */
  function MapSeq<T, U>(f: T -> U, s: seq<T>): (r: seq<U>)
    ensures |r| == |s|
    ensures forall i :: 0 <= i < |s| ==> r[i] == f(s[i])
  {
    if s == [] then [] else [f(s[0])] + MapSeq(f, s[1..])
  }

  /**
   * Sorting commutes with a projection that keeps the sort key: projecting
   * and then sorting gives the same sequence as sorting and then projecting.
   */
  lemma {:induction false} SortByMap<T, U>(s: seq<T>, f: T -> U, leT: (T, T) -> bool, leU: (U, U) -> bool)
    requires forall x, y :: leT(x, y) == leU(f(x), f(y))
    ensures SortBy(MapSeq(f, s), leU) == MapSeq(f, SortBy(s, leT))
  {
    if s != [] {
      SortByMap(s[1..], f, leT, leU);
      assert MapSeq(f, s)[1..] == MapSeq(f, s[1..]);
      InsertMap(s[0], SortBy(s[1..], leT), f, leT, leU);
    }
  }

  lemma {:induction false} InsertMap<T, U>(x: T, s: seq<T>, f: T -> U, leT: (T, T) -> bool, leU: (U, U) -> bool)
    requires forall x, y :: leT(x, y) == leU(f(x), f(y))
    ensures Insert(f(x), MapSeq(f, s), leU) == MapSeq(f, Insert(x, s, leT))
  {
    if s != [] && !leT(x, s[0]) {
      InsertMap(x, s[1..], f, leT, leU);
      assert MapSeq(f, s)[1..] == MapSeq(f, s[1..]);
      assert MapSeq(f, [s[0]] + Insert(x, s[1..], leT)) == [f(s[0])] + MapSeq(f, Insert(x, s[1..], leT));
    }
  }
}
