/** A stable insertion sort by a real-valued key: pandas `sort_values` on one column,
    with ties kept in their original row order. */
module Sorting {

  ghost predicate SortedBy<T>(s: seq<T>, key: T -> real) {
    forall i, j :: 0 <= i < j < |s| ==> key(s[i]) <= key(s[j])
  }

  /** Elements with equal keys appear in increasing `pos` order. */
  ghost predicate TiesOrdered<T>(s: seq<T>, key: T -> real, pos: T -> int) {
    forall i, j :: 0 <= i < j < |s| && key(s[i]) == key(s[j]) ==> pos(s[i]) < pos(s[j])
  }

  /** Puts `x` after every element whose key is at most its own. */
  function Insert<T>(x: T, s: seq<T>, key: T -> real): (r: seq<T>)
    requires SortedBy(s, key)
    ensures SortedBy(r, key)
    ensures multiset(r) == multiset(s) + multiset{x}
    ensures forall i :: 0 <= i < |r| ==> r[i] == x || r[i] in s
  {
    if |s| == 0 then [x]
    else if key(x) < key(s[0]) then [x] + s
    else
      var r' := Insert(x, s[1..], key);
      assert s == [s[0]] + s[1..];
      forall i | 0 <= i < |r'|
        ensures key(s[0]) <= key(r'[i])
      {
        if r'[i] != x {
          var k :| 0 <= k < |s| - 1 && s[1..][k] == r'[i];
          assert s[k + 1] == r'[i];
        }
      }
      ConsSorted(s[0], r', key);
      [s[0]] + r'
  }

  lemma ConsSorted<T>(x: T, s: seq<T>, key: T -> real)
    requires SortedBy(s, key)
    requires forall i :: 0 <= i < |s| ==> key(x) <= key(s[i])
    ensures SortedBy([x] + s, key)
  {
    var r := [x] + s;
    forall i, j | 0 <= i < j < |r|
      ensures key(r[i]) <= key(r[j])
    {
      assert r[j] == s[j - 1];
      if i > 0 {
        assert r[i] == s[i - 1];
      }
    }
  }

  /** Sorts by `key`, inserting the elements one by one from the front. */
  function SortBy<T>(s: seq<T>, key: T -> real): (r: seq<T>)
    ensures SortedBy(r, key)
    ensures multiset(r) == multiset(s)
    ensures |r| == |s|
  {
    if |s| == 0 then []
    else
      var init := s[..|s| - 1];
      assert s == init + [s[|s| - 1]];
      var r := Insert(s[|s| - 1], SortBy(init, key), key);
      assert |r| == |multiset(r)|;
      r
  }

  lemma {:induction false} InsertKeepsTies<T>(x: T, s: seq<T>, key: T -> real, pos: T -> int)
    requires SortedBy(s, key) && TiesOrdered(s, key, pos)
    requires forall y :: y in s ==> pos(y) < pos(x)
    ensures TiesOrdered(Insert(x, s, key), key, pos)
  {
    if |s| == 0 {
    } else if key(x) < key(s[0]) {
      FrontKeepsTies(x, s, key, pos);
    } else {
      var r' := Insert(x, s[1..], key);
      assert TiesOrdered(s[1..], key, pos) by {
        assert forall i, j :: 0 <= i < j < |s[1..]| ==> s[1..][i] == s[i + 1] && s[1..][j] == s[j + 1];
      }
      InsertKeepsTies(x, s[1..], key, pos);
      ConsKeepsTies(x, s, r', key, pos);
    }
  }

  lemma FrontKeepsTies<T>(x: T, s: seq<T>, key: T -> real, pos: T -> int)
    requires SortedBy(s, key) && TiesOrdered(s, key, pos)
    requires |s| > 0 && key(x) < key(s[0])
    ensures TiesOrdered([x] + s, key, pos)
  {
    var r := [x] + s;
    forall i, j | 0 <= i < j < |r| && key(r[i]) == key(r[j])
      ensures pos(r[i]) < pos(r[j])
    {
      assert r[j] == s[j - 1] && key(s[0]) <= key(r[j]);
      assert r[i] == s[i - 1];
    }
  }

  lemma ConsKeepsTies<T>(x: T, s: seq<T>, r': seq<T>, key: T -> real, pos: T -> int)
    requires |s| > 0 && TiesOrdered(s, key, pos) && TiesOrdered(r', key, pos)
    requires forall y :: y in s ==> pos(y) < pos(x)
    requires forall i :: 0 <= i < |r'| ==> r'[i] == x || r'[i] in s[1..]
    ensures TiesOrdered([s[0]] + r', key, pos)
  {
    var r := [s[0]] + r';
    forall i, j | 0 <= i < j < |r| && key(r[i]) == key(r[j])
      ensures pos(r[i]) < pos(r[j])
    {
      if i == 0 {
        HeadBeforeRest(x, s, r', key, pos, j - 1);
      } else {
        assert r[i] == r'[i - 1] && r[j] == r'[j - 1];
      }
    }
  }

  lemma HeadBeforeRest<T>(x: T, s: seq<T>, r': seq<T>, key: T -> real, pos: T -> int, k: int)
    requires |s| > 0 && TiesOrdered(s, key, pos)
    requires forall y :: y in s ==> pos(y) < pos(x)
    requires forall i :: 0 <= i < |r'| ==> r'[i] == x || r'[i] in s[1..]
    requires 0 <= k < |r'| && key(s[0]) == key(r'[k])
    ensures pos(s[0]) < pos(r'[k])
  {
    if r'[k] != x {
      var m :| 0 <= m < |s[1..]| && s[1..][m] == r'[k];
      assert s[m + 1] == r'[k];
    }
  }

  /** The sort is stable: when the input lists its elements in increasing `pos`
      order, elements with equal keys keep that order. */
  lemma {:induction false} SortByStable<T>(s: seq<T>, key: T -> real, pos: T -> int)
    requires forall i, j :: 0 <= i < j < |s| ==> pos(s[i]) < pos(s[j])
    ensures TiesOrdered(SortBy(s, key), key, pos)
  {
    if |s| > 0 {
      var init := s[..|s| - 1];
      var x := s[|s| - 1];
      SortByStable(init, key, pos);
      var r := SortBy(init, key);
      forall y | y in r
        ensures pos(y) < pos(x)
      {
        assert y in multiset(r);
        assert y in init;
      }
      InsertKeepsTies(x, r, key, pos);
    }
  }
}
