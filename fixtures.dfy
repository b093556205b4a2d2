/**
 * The fixture list of a single round robin: the pairs the scheduler's
 * nested loop over the team list emits, in emission order.
 */
module Fixtures {

  /** Ids appear at most once. */
  ghost predicate Distinct(s: seq<int>) {
    forall i, j :: 0 <= i < j < |s| ==> s[i] != s[j]
  }

  /** A list of distinct ids stays distinct when an id not in it is appended. */
  lemma DistinctSnoc(s: seq<int>, x: int)
    requires Distinct(s) && x !in s
    ensures Distinct(s + [x])
  {
    var s' := s + [x];
    forall i, j | 0 <= i < j < |s'|
      ensures s'[i] != s'[j]
    {
      assert s'[i] == s[i];
    }
  }

  /**
   * The pairs the inner loop emits for outer team `a` while it walks over
   * `bs`: `(a, b)` for every `b` with a larger id, in the order of `bs`.
   */
  function Row(a: int, bs: seq<int>): (r: seq<(int, int)>)
    ensures |r| <= |bs|
    ensures forall i :: 0 <= i < |r| ==> r[i].0 == a < r[i].1
  {
    if bs == [] then []
    else
      var b := bs[|bs| - 1];
      Row(a, bs[..|bs| - 1]) + (if a < b then [(a, b)] else [])
  }

  /** The pairs both loops emit while the outer loop walks over `outer` and the inner over `all`. */
  function Pairs(outer: seq<int>, all: seq<int>): (r: seq<(int, int)>)
    ensures forall i :: 0 <= i < |r| ==> r[i].0 < r[i].1
  {
    if outer == [] then []
    else Pairs(outer[..|outer| - 1], all) + Row(outer[|outer| - 1], all)
  }

  /** The complete fixture list for the teams in `ids`, listed in that order. */
  function FixturePairs(ids: seq<int>): (r: seq<(int, int)>)
    ensures forall i :: 0 <= i < |r| ==> r[i].0 < r[i].1
  {
    Pairs(ids, ids)
  }

  /** Number of entries of `s` below `x`. */
  function CountBelow(x: int, s: seq<int>): (r: nat)
    ensures r <= |s|
  {
    if s == [] then 0 else CountBelow(x, s[..|s| - 1]) + (if s[|s| - 1] < x then 1 else 0)
  }

  /** Every emitted pair is ordered strictly by id and made of listed teams. */
  lemma {:induction false} PairsMembers(outer: seq<int>, all: seq<int>)
    ensures forall k :: 0 <= k < |Pairs(outer, all)| ==>
      var p := Pairs(outer, all)[k]; p.0 < p.1 && p.0 in outer && p.1 in all
  {
    if outer != [] {
      var init := outer[..|outer| - 1];
      PairsMembers(init, all);
      RowMembers(outer[|outer| - 1], all);
      assert forall x :: x in init ==> x in outer;
    }
  }

  lemma {:induction false} RowMembers(a: int, bs: seq<int>)
    ensures forall k :: 0 <= k < |Row(a, bs)| ==> Row(a, bs)[k].0 == a && a < Row(a, bs)[k].1 && Row(a, bs)[k].1 in bs
  {
    if bs != [] {
      var init := bs[..|bs| - 1];
      RowMembers(a, init);
      assert forall x :: x in init ==> x in bs;
    }
  }

  /** How often the inner loop emits `(a, b)` for outer team `x`. */
  lemma {:induction false} RowCount(x: int, all: seq<int>, a: int, b: int)
    requires Distinct(all)
    ensures multiset(Row(x, all))[(a, b)] == if x == a && a < b && b in all then 1 else 0
  {
    if all != [] {
      var init := all[..|all| - 1];
      var last := all[|all| - 1];
      assert all == init + [last];
      RowCount(x, init, a, b);
      assert b in all <==> b in init || b == last;
      assert last !in init;
    }
  }

  /** Every ordered pair of listed teams is emitted once if its ids ascend and never otherwise. */
  lemma {:induction false} PairsCount(outer: seq<int>, all: seq<int>, a: int, b: int)
    requires Distinct(outer) && Distinct(all)
    ensures multiset(Pairs(outer, all))[(a, b)] == if a in outer && b in all && a < b then 1 else 0
  {
    if outer != [] {
      var init := outer[..|outer| - 1];
      var last := outer[|outer| - 1];
      assert outer == init + [last];
      PairsCount(init, all, a, b);
      RowCount(last, all, a, b);
      assert a in outer <==> a in init || a == last;
      assert last !in init;
    }
  }

  /**
   * Round-robin completeness: for distinct ids, the fixture list holds each
   * unordered pair of teams exactly once, with the smaller id first, and
   * nothing else (so no team plays itself and no pair repeats).
   */
  lemma FixturesOncePerPair(ids: seq<int>, a: int, b: int)
    requires Distinct(ids)
    ensures multiset(FixturePairs(ids))[(a, b)] == if a in ids && b in ids && a < b then 1 else 0
  {
    PairsCount(ids, ids, a, b);
  }

  /** Walking over one more team `x` gives outer team `a` one more match when `a < x`. */
  lemma RowSnoc(a: int, bs: seq<int>, x: int)
    ensures |Row(a, bs + [x])| == |Row(a, bs)| + (if a < x then 1 else 0)
  {
    assert (bs + [x])[..|bs|] == bs;
  }

  /** Growing the inner list by `x` adds one pair for every outer team below `x`. */
  lemma {:induction false} PairsInnerSnoc(outer: seq<int>, all: seq<int>, x: int)
    ensures |Pairs(outer, all + [x])| == |Pairs(outer, all)| + CountBelow(x, outer)
  {
    if outer != [] {
      var init := outer[..|outer| - 1];
      PairsInnerSnoc(init, all, x);
      RowSnoc(outer[|outer| - 1], all, x);
    }
  }

  /** An id not in `s` is either above or below each of its entries. */
  lemma {:induction false} BelowPlusAbove(x: int, s: seq<int>)
    requires x !in s
    ensures CountBelow(x, s) + |Row(x, s)| == |s|
  {
    if s != [] {
      var init := s[..|s| - 1];
      assert forall y :: y in init ==> y in s;
      BelowPlusAbove(x, init);
    }
  }

  /** One more team `x` adds one fixture against each team already listed. */
  lemma FixtureSnoc(init: seq<int>, x: int)
    requires x !in init
    ensures |FixturePairs(init + [x])| == |FixturePairs(init)| + |init|
  {
    var ids := init + [x];
    assert ids[..|ids| - 1] == init;
    assert FixturePairs(ids) == Pairs(init, ids) + Row(x, ids);
    PairsInnerSnoc(init, init, x);
    RowSnoc(x, init, x);
    BelowPlusAbove(x, init);
  }

  /** Round-robin size without division: twice the fixture count is n(n-1). */
  lemma {:induction false} FixtureCountTwice(ids: seq<int>)
    requires Distinct(ids)
    ensures 2 * |FixturePairs(ids)| == |ids| * (|ids| - 1)
  {
    if ids != [] {
      var init := ids[..|ids| - 1];
      var x := ids[|ids| - 1];
      assert ids == init + [x];
      assert Distinct(init);
      assert x !in init;
      FixtureCountTwice(init);
      FixtureSnoc(init, x);
      var n := |init|;
      assert (n + 1) * n == n * (n - 1) + 2 * n;
    }
  }

  /** Round-robin size: n distinct teams give n(n-1)/2 fixtures. */
  lemma FixtureCount(ids: seq<int>)
    requires Distinct(ids)
    ensures |FixturePairs(ids)| == |ids| * (|ids| - 1) / 2
  {
    FixtureCountTwice(ids);
  }

  /** Row of outer team `a` over the ids 1, 2, 3, 4, one inner step at a time. */
  lemma RowOneToFour(a: int)
    ensures Row(a, [1, 2, 3, 4]) ==
      (if a < 1 then [(a, 1)] else []) + (if a < 2 then [(a, 2)] else []) +
      (if a < 3 then [(a, 3)] else []) + (if a < 4 then [(a, 4)] else [])
  {
    assert [1, 2, 3, 4][..3] == [1, 2, 3];
    assert [1, 2, 3][..2] == [1, 2];
    assert [1, 2][..1] == [1];
    assert [1][..0] == [];
    assert Row(a, [1]) == (if a < 1 then [(a, 1)] else []);
    assert Row(a, [1, 2]) == Row(a, [1]) + (if a < 2 then [(a, 2)] else []);
    assert Row(a, [1, 2, 3]) == Row(a, [1, 2]) + (if a < 3 then [(a, 3)] else []);
  }

  /** The concrete four-team case: ids 1 < 2 < 3 < 4 give the six pairs in this order. */
  lemma FourTeams()
    ensures FixturePairs([1, 2, 3, 4]) == [(1, 2), (1, 3), (1, 4), (2, 3), (2, 4), (3, 4)]
  {
    var ids := [1, 2, 3, 4];
    RowOneToFour(1);
    RowOneToFour(2);
    RowOneToFour(3);
    RowOneToFour(4);
    assert ids[..3] == [1, 2, 3] && [1, 2, 3][..2] == [1, 2] && [1, 2][..1] == [1] && [1][..0] == [];
    assert Row(4, ids) == [];
    assert Pairs([1], ids) == Row(1, ids) == [(1, 2), (1, 3), (1, 4)];
    assert Pairs([1, 2], ids) == Pairs([1], ids) + Row(2, ids) == [(1, 2), (1, 3), (1, 4), (2, 3), (2, 4)];
    assert Pairs([1, 2, 3], ids) == Pairs([1, 2], ids) + Row(3, ids)
        == [(1, 2), (1, 3), (1, 4), (2, 3), (2, 4), (3, 4)];
    assert Pairs(ids, ids) == Pairs([1, 2, 3], ids) + Row(4, ids);
  }

  /** Euclidean division recovers the slot number and the field offset of the k-th fixture. */
  lemma DivModOf(k: int, f: int, q: int, r: int)
    requires f >= 1 && q >= 0 && 0 <= r < f && k == q * f + r
    ensures k / f == q && k % f == r
  {
    var q', r' := k / f, k % f;
    assert k == q' * f + r';
    var d := q - q';
    assert d * f == r' - r by {
      assert d * f == q * f - q' * f;
    }
  }
}
