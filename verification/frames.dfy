/** The two pandas merges the pages use, on one key column computed from each side. */
module Frames {
  import opened Wrappers
  import opened Seqs

  /** The rows of `right` whose key is `k`, in order. */
  function MatchesOf<R(!new), K(==)>(right: seq<R>, rk: R -> K, k: K): (r: seq<R>)
    ensures forall y :: y in r <==> y in right && rk(y) == k
  {
    Filter(right, HasKey(rk, k))
  }

  function HasKey<R, K(==)>(rk: R -> K, k: K): R -> bool {
    y => rk(y) == k
  }

  /** A matching right row occurs among the matches as often as in `right`. */
  lemma MatchesMultiplicity<R(!new), K>(right: seq<R>, rk: R -> K, k: K, y: R)
    ensures multiset(MatchesOf(right, rk, k))[y] == if rk(y) == k then multiset(right)[y] else 0
  {
    FilterMultiplicity(right, HasKey(rk, k), y);
  }

  /** The merged rows for one left row: one per matching right row, or a single
      row with the right side missing when nothing matches. */
  function MergeRow<L, R(!new), K(==)>(l: L, right: seq<R>, lk: L -> K, rk: R -> K): (r: seq<(L, Option<R>)>)
    ensures |r| >= 1
    ensures |r| == if |MatchesOf(right, rk, lk(l))| == 0 then 1 else |MatchesOf(right, rk, lk(l))|
    ensures forall p :: p in r ==> p.0 == l
    ensures forall p :: p in r && p.1.Some? ==> p.1.value in right && rk(p.1.value) == lk(l)
    ensures forall p :: p in r && p.1.None? ==> forall y :: y in right ==> rk(y) != lk(l)
    ensures forall y :: y in right && rk(y) == lk(l) ==> (l, Some(y)) in r
    ensures (forall y :: y in right ==> rk(y) != lk(l)) ==> r == [(l, None)]
  {
    var m := MatchesOf(right, rk, lk(l));
    if |m| == 0 then [(l, None)]
    else
      SomePairs(l, right, rk, lk(l));
      assert m[0] in right && rk(m[0]) == lk(l);
      Map(m, SomeWith(l))
  }

  function SomeWith<L, R>(l: L): R -> (L, Option<R>) {
    y => (l, Some(y))
  }

  lemma SomePairs<L, R(!new), K>(l: L, right: seq<R>, rk: R -> K, k: K)
    ensures forall y :: y in right && rk(y) == k ==> (l, Some(y)) in Map(MatchesOf(right, rk, k), SomeWith(l))
    ensures forall p :: p in Map(MatchesOf(right, rk, k), SomeWith(l)) ==> p.0 == l && p.1.Some? && p.1.value in right && rk(p.1.value) == k
  {
    var m := MatchesOf(right, rk, k);
    forall y | y in right && rk(y) == k
      ensures (l, Some(y)) in Map(m, SomeWith(l))
    {
      MapMembership(m, SomeWith(l), (l, Some(y)));
    }
    forall p | p in Map(m, SomeWith(l))
      ensures p.0 == l && p.1.Some? && p.1.value in right && rk(p.1.value) == k
    {
      MapMembership(m, SomeWith(l), p);
    }
  }

  /** What a left merge of `left` with `right` promises about its rows `r`: each row
      comes from a left row; a present right side is a right row with the same key; a
      missing one means no right row has that key; every matching pair is there; and
      every unmatched left row is kept with its right side missing. */
  ghost predicate MergeFacts<L(!new), R(!new), K>(left: seq<L>, right: seq<R>, lk: L -> K, rk: R -> K, r: seq<(L, Option<R>)>) {
    && (forall p :: p in r ==> p.0 in left)
    && (forall p :: p in r && p.1.Some? ==> p.1.value in right && rk(p.1.value) == lk(p.0))
    && (forall p :: p in r && p.1.None? ==> forall y :: y in right ==> rk(y) != lk(p.0))
    && (forall l, y :: l in left && y in right && rk(y) == lk(l) ==> (l, Some(y)) in r)
    && (forall l :: l in left && (forall y :: y in right ==> rk(y) != lk(l)) ==> (l, None) in r)
  }

  lemma RowFacts<L(!new), R(!new), K>(l: L, right: seq<R>, lk: L -> K, rk: R -> K)
    ensures MergeFacts([l], right, lk, rk, MergeRow(l, right, lk, rk))
  {
  }

  /** The merge facts of two blocks of left rows carry over to their concatenation. */
  lemma ConcatFacts<L(!new), R(!new), K>(a: seq<L>, b: seq<L>, right: seq<R>, lk: L -> K, rk: R -> K,
                                              ra: seq<(L, Option<R>)>, rb: seq<(L, Option<R>)>)
    requires MergeFacts(a, right, lk, rk, ra) && MergeFacts(b, right, lk, rk, rb)
    ensures MergeFacts(a + b, right, lk, rk, ra + rb)
  {
    assert forall p :: p in ra + rb <==> p in ra || p in rb;
    assert forall l :: l in a + b <==> l in a || l in b;
  }

  /** pandas `left.merge(right, how="left")`: left rows in order, each repeated once per
      matching right row, or kept once with a missing right side. */
  function LeftMerge<L(!new), R(!new), K(==)>(left: seq<L>, right: seq<R>, lk: L -> K, rk: R -> K): (r: seq<(L, Option<R>)>)
    ensures |r| >= |left|
    ensures MergeFacts(left, right, lk, rk, r)
    decreases |left|
  {
    if |left| == 0 then []
    else
      var head := MergeRow(left[0], right, lk, rk);
      var tail := LeftMerge(left[1..], right, lk, rk);
      RowFacts(left[0], right, lk, rk);
      ConcatFacts([left[0]], left[1..], right, lk, rk, head, tail);
      assert [left[0]] + left[1..] == left;
      head + tail
  }

  /** With unique right keys at most one right row matches a given key. */
  lemma {:induction false} UniqueKeyMatches<R(!new), K>(right: seq<R>, rk: R -> K, k: K)
    requires forall i, j :: 0 <= i < j < |right| ==> rk(right[i]) != rk(right[j])
    ensures |MatchesOf(right, rk, k)| <= 1
  {
    if |right| > 0 {
      UniqueKeyMatches(right[1..], rk, k);
      assert right == [right[0]] + right[1..];
      if rk(right[0]) == k {
        assert forall y :: y in right[1..] ==> rk(y) != k;
        assert |MatchesOf(right[1..], rk, k)| == 0;
      }
    }
  }

  /** With unique right keys a left merge keeps exactly the left rows, in order. */
  lemma {:induction false} LeftMergeUniqueKeys<L(!new), R(!new), K>(left: seq<L>, right: seq<R>, lk: L -> K, rk: R -> K)
    requires forall i, j :: 0 <= i < j < |right| ==> rk(right[i]) != rk(right[j])
    ensures |LeftMerge(left, right, lk, rk)| == |left|
    ensures forall i :: 0 <= i < |left| ==> LeftMerge(left, right, lk, rk)[i].0 == left[i]
  {
    if |left| > 0 {
      UniqueKeyMatches(right, rk, lk(left[0]));
      LeftMergeUniqueKeys(left[1..], right, lk, rk);
      var head := MergeRow(left[0], right, lk, rk);
      var tail := LeftMerge(left[1..], right, lk, rk);
      assert |head| == 1 && head[0].0 == left[0];
      assert LeftMerge(left, right, lk, rk) == head + tail;
      forall i | 0 <= i < |left|
        ensures (head + tail)[i].0 == left[i]
      {
        if i > 0 {
          assert (head + tail)[i] == tail[i - 1];
          assert left[1..][i - 1] == left[i];
        }
      }
    }
  }

  function PairWith<L, R>(l: L): R -> (L, R) {
    y => (l, y)
  }

  /** pandas `merge(left, right)` (inner): every pair of rows with equal keys, in left order. */
  function InnerMerge<L(!new), R(!new), K(==)>(left: seq<L>, right: seq<R>, lk: L -> K, rk: R -> K): (r: seq<(L, R)>)
    ensures forall p :: p in r <==> p.0 in left && p.1 in right && lk(p.0) == rk(p.1)
    decreases |left|
  {
    if |left| == 0 then []
    else
      var head := Map(MatchesOf(right, rk, lk(left[0])), PairWith(left[0]));
      var tail := InnerMerge(left[1..], right, lk, rk);
      HeadPairs(left[0], right, rk, lk(left[0]));
      InnerStep(left, right, lk, rk, head, tail);
      head + tail
  }

  lemma InnerStep<L, R, K>(left: seq<L>, right: seq<R>, lk: L -> K, rk: R -> K, head: seq<(L, R)>, tail: seq<(L, R)>)
    requires |left| != 0
    requires forall p :: p in head <==> p.0 == left[0] && p.1 in right && rk(p.1) == lk(left[0])
    requires forall p :: p in tail <==> p.0 in left[1..] && p.1 in right && lk(p.0) == rk(p.1)
    ensures forall p :: p in head + tail <==> p.0 in left && p.1 in right && lk(p.0) == rk(p.1)
  {
    assert left == [left[0]] + left[1..];
    forall p
      ensures p in head + tail <==> p.0 in left && p.1 in right && lk(p.0) == rk(p.1)
    {
      assert p in head + tail <==> p in head || p in tail;
      assert p.0 in left <==> p.0 == left[0] || p.0 in left[1..];
    }
  }

  lemma HeadPairs<L, R(!new), K>(l: L, right: seq<R>, rk: R -> K, k: K)
    ensures forall p :: p in Map(MatchesOf(right, rk, k), PairWith(l)) <==> p.0 == l && p.1 in right && rk(p.1) == k
  {
    var m := MatchesOf(right, rk, k);
    forall p
      ensures p in Map(m, PairWith(l)) <==> p.0 == l && p.1 in right && rk(p.1) == k
    {
      MapMembership(m, PairWith(l), p);
    }
  }

  /** The inner merge has one row per matching pair: a pair with equal keys occurs as
      often as its left row times as often as its right row, any other pair never. */
  lemma {:induction false} InnerMergeMultiplicity<L(!new), R(!new), K>(left: seq<L>, right: seq<R>, lk: L -> K, rk: R -> K, p: (L, R))
    ensures multiset(InnerMerge(left, right, lk, rk))[p]
         == if lk(p.0) == rk(p.1) then multiset(left)[p.0] * multiset(right)[p.1] else 0
    decreases |left|
  {
    if |left| != 0 {
      var l := left[0];
      var head := Map(MatchesOf(right, rk, lk(l)), PairWith(l));
      var tail := InnerMerge(left[1..], right, lk, rk);
      InnerMergeCons(left, right, lk, rk);
      InnerMergeMultiplicity(left[1..], right, lk, rk, p);
      HeadMultiplicity(l, right, lk, rk, p);
      FirstCount(left, p.0);
      ConcatCount(head, tail, p);
      CountArith(lk(p.0) == rk(p.1), p.0 == l, multiset(left[1..])[p.0], multiset(right)[p.1],
                 multiset(head)[p], multiset(tail)[p], multiset(left)[p.0]);
    }
  }

  lemma InnerMergeCons<L(!new), R(!new), K>(left: seq<L>, right: seq<R>, lk: L -> K, rk: R -> K)
    requires |left| != 0
    ensures InnerMerge(left, right, lk, rk)
         == Map(MatchesOf(right, rk, lk(left[0])), PairWith(left[0])) + InnerMerge(left[1..], right, lk, rk)
  {
  }

  /** The counting step of the merge: the head block adds the right multiplicity once
      more when the pair's left row is the head row. */
  lemma CountArith(matching: bool, same: bool, a: int, n: int, h: int, t: int, total: int)
    requires h == (if same && matching then n else 0)
    requires t == (if matching then a * n else 0)
    requires total == a + (if same then 1 else 0)
    ensures h + t == if matching then total * n else 0
  {
    if matching && same {
      Distribute(a, 1, n);
    }
  }

  /** The rows one left row contributes to the inner merge. */
  lemma HeadMultiplicity<L, R(!new), K>(l: L, right: seq<R>, lk: L -> K, rk: R -> K, p: (L, R))
    ensures multiset(Map(MatchesOf(right, rk, lk(l)), PairWith(l)))[p]
         == if p.0 == l && lk(l) == rk(p.1) then multiset(right)[p.1] else 0
  {
    var m := MatchesOf(right, rk, lk(l));
    if p.0 == l {
      MapInjectiveMultiplicity(m, PairWith(l), p.1);
      assert PairWith(l)(p.1) == p;
      MatchesMultiplicity(right, rk, lk(l), p.1);
    } else {
      MapMembership(m, PairWith(l), p);
    }
  }

  lemma FirstCount<T>(s: seq<T>, y: T)
    requires |s| != 0
    ensures multiset(s)[y] == multiset(s[1..])[y] + if s[0] == y then 1 else 0
  {
    assert s == [s[0]] + s[1..];
  }

  lemma ConcatCount<T>(a: seq<T>, b: seq<T>, y: T)
    ensures multiset(a + b)[y] == multiset(a)[y] + multiset(b)[y]
  {
  }

  lemma Distribute(a: int, d: int, n: int)
    ensures (a + d) * n == a * n + d * n
  {
  }
}
