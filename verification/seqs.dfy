/** Sequence helpers shared by the pages: duplicate removal (SQL `DISTINCT`),
    filtering (SQL `WHERE`) and per-element counts. */
module Seqs {

  /** No element occurs twice. */
  ghost predicate NoDup<T>(s: seq<T>) {
    forall i, j :: 0 <= i < j < |s| ==> s[i] != s[j]
  }

  /** Removes repeated elements, keeping the first occurrence of each. */
  function Dedup<T(==,!new)>(s: seq<T>): (r: seq<T>)
    ensures forall x :: x in r <==> x in s
    ensures NoDup(r)
    ensures |r| <= |s|
  {
    if |s| == 0 then []
    else
      var init := s[..|s| - 1];
      assert s == init + [s[|s| - 1]];
      var r' := Dedup(init);
      if s[|s| - 1] in r' then r' else r' + [s[|s| - 1]]
  }

  /** The elements of `s` that satisfy `p`, in order and with their multiplicity. */
  function Filter<T(!new)>(s: seq<T>, p: T -> bool): (r: seq<T>)
    ensures |r| <= |s|
    ensures forall x :: x in r <==> x in s && p(x)
    ensures NoDup(s) ==> NoDup(r)
    ensures (forall x :: x in s ==> !p(x)) ==> r == []
  {
    if |s| == 0 then []
    else
      assert s == [s[0]] + s[1..];
      (if p(s[0]) then [s[0]] else []) + Filter(s[1..], p)
  }

  /** A filter every element passes keeps the whole sequence. */
  lemma {:induction false} FilterAll<T(!new)>(s: seq<T>, p: T -> bool)
    requires forall x :: x in s ==> p(x)
    ensures Filter(s, p) == s
  {
    if |s| > 0 {
      assert s == [s[0]] + s[1..];
      FilterAll(s[1..], p);
    }
  }

  /** Filtering distributes over concatenation: it never merges rows from different inputs. */
  lemma {:induction false} FilterAppend<T(!new)>(a: seq<T>, b: seq<T>, p: T -> bool)
    ensures Filter(a + b, p) == Filter(a, p) + Filter(b, p)
  {
    if |a| == 0 {
      assert a + b == b;
    } else {
      assert (a + b)[1..] == a[1..] + b;
      FilterAppend(a[1..], b, p);
    }
  }

  /** Filtering keeps every accepted element as often as it occurs. */
  lemma {:induction false} FilterMultiplicity<T(!new)>(s: seq<T>, p: T -> bool, x: T)
    ensures multiset(Filter(s, p))[x] == if p(x) then multiset(s)[x] else 0
  {
    if |s| != 0 {
      assert s == [s[0]] + s[1..];
      FilterMultiplicity(s[1..], p, x);
    }
  }

  /** Applies `f` to every element, keeping order and length. */
  function Map<T, U>(s: seq<T>, f: T -> U): (r: seq<U>)
    ensures |r| == |s|
    ensures forall i :: 0 <= i < |s| ==> r[i] == f(s[i])
  {
    if |s| == 0 then [] else [f(s[0])] + Map(s[1..], f)
  }

  /** An element of a mapped sequence is the image of some element of the input. */
  lemma MapMembership<T, U>(s: seq<T>, f: T -> U, x: U)
    ensures x in Map(s, f) <==> exists y :: y in s && x == f(y)
  {
    var r := Map(s, f);
    if x in r {
      var i :| 0 <= i < |r| && r[i] == x;
      assert s[i] in s;
    }
  }

  lemma {:induction false} MapAppend<T, U>(a: seq<T>, b: seq<T>, f: T -> U)
    ensures Map(a + b, f) == Map(a, f) + Map(b, f)
  {
    if |a| == 0 {
      assert a + b == b;
    } else {
      assert (a + b)[1..] == a[1..] + b;
      MapAppend(a[1..], b, f);
    }
  }

  /** An image that only `x` has among the elements occurs as often as `x` does. */
  lemma {:induction false} MapInjectiveMultiplicity<T, U>(s: seq<T>, f: T -> U, x: T)
    requires forall y :: y in s && f(y) == f(x) ==> y == x
    ensures multiset(Map(s, f))[f(x)] == multiset(s)[x]
  {
    if |s| != 0 {
      assert s == [s[0]] + s[1..];
      assert Map(s, f) == [f(s[0])] + Map(s[1..], f);
      MapInjectiveMultiplicity(s[1..], f, x);
    }
  }

  /** A duplicate-free sequence has as many distinct elements as it has positions. */
  lemma {:induction false} DistinctCard<T>(s: seq<T>)
    requires NoDup(s)
    ensures |set x | x in s| == |s|
  {
    if |s| > 0 {
      var init := s[..|s| - 1];
      assert s == init + [s[|s| - 1]];
      DistinctCard(init);
      assert (set x | x in s) == (set x | x in init) + {s[|s| - 1]};
    }
  }

  /** No element occurs twice exactly when every element occurs at most once. */
  lemma {:induction false} NoDupMultiset<T>(s: seq<T>)
    ensures NoDup(s) <==> forall x :: multiset(s)[x] <= 1
  {
    if |s| > 0 {
      var init := s[..|s| - 1];
      var last := s[|s| - 1];
      assert s == init + [last];
      assert forall x :: multiset(s)[x] == multiset(init)[x] + (if x == last then 1 else 0);
      NoDupMultiset(init);
      if NoDup(s) {
        assert NoDup(init) by {
          forall i, j | 0 <= i < j < |init|
            ensures init[i] != init[j]
          {
            assert init[i] == s[i] && init[j] == s[j];
          }
        }
        assert last !in multiset(init) by {
          forall i | 0 <= i < |init|
            ensures init[i] != last
          {
            assert init[i] == s[i];
          }
        }
      }
      if forall x :: multiset(s)[x] <= 1 {
        assert forall x :: multiset(init)[x] <= 1 by {
          forall x
            ensures multiset(init)[x] <= 1
          {
            assert multiset(s)[x] <= 1;
          }
        }
        assert multiset(s)[last] <= 1;
        forall i, j | 0 <= i < j < |s|
          ensures s[i] != s[j]
        {
          assert s[i] == init[i];
          if j < |init| {
            assert s[j] == init[j];
          } else {
            assert init[i] in multiset(init);
          }
        }
      }
    }
  }

  /** A permutation of a duplicate-free sequence is duplicate-free. */
  lemma PermutationNoDup<T>(a: seq<T>, b: seq<T>)
    requires multiset(a) == multiset(b) && NoDup(a)
    ensures NoDup(b)
  {
    NoDupMultiset(a);
    NoDupMultiset(b);
  }

  /** The positions `0 .. n-1` of a sequence of length `n`, as a set. */
  function Positions(n: nat): (r: set<int>)
    ensures forall i :: i in r <==> 0 <= i < n
    ensures |r| == n
  {
    if n == 0 then {} else
      var r' := Positions(n - 1);
      assert n - 1 !in r';
      r' + {n - 1}
  }
}
