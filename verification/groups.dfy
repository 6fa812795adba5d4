/** SQL `GROUP BY key` with `SUM(value)` over integer values. Groups appear in order
    of first occurrence; the order of a SQL result is not specified. */
module Groups {
  import opened Seqs

  function KeyOf<K>(row: (K, int)): K {
    row.0
  }

  /** The key column. */
  function Keys<K>(rows: seq<(K, int)>): (r: seq<K>)
    ensures |r| == |rows| && forall i :: 0 <= i < |rows| ==> r[i] == rows[i].0
  {
    Map(rows, KeyOf)
  }

  /** The sum of all values. */
  function Total<K>(rows: seq<(K, int)>): int {
    if |rows| == 0 then 0 else Total(rows[..|rows| - 1]) + rows[|rows| - 1].1
  }

  /** The sum of the values whose key is `k`. */
  function SumFor<K(==)>(rows: seq<(K, int)>, k: K): int {
    if |rows| == 0 then 0
    else SumFor(rows[..|rows| - 1], k) + (if rows[|rows| - 1].0 == k then rows[|rows| - 1].1 else 0)
  }

  /** A key that does not occur contributes nothing. */
  lemma {:induction false} SumForAbsent<K>(rows: seq<(K, int)>, k: K)
    requires forall i :: 0 <= i < |rows| ==> rows[i].0 != k
    ensures SumFor(rows, k) == 0
  {
    if |rows| > 0 {
      SumForAbsent(rows[..|rows| - 1], k);
    }
  }

  /** `SELECT key, SUM(value) ... GROUP BY key`: one row per distinct key, carrying the
      sum of that key's values. */
  function GroupSum<K(==,!new)>(rows: seq<(K, int)>): (r: seq<(K, int)>)
    ensures NoDup(Keys(r))
    ensures forall k :: k in Keys(r) <==> k in Keys(rows)
    ensures forall i :: 0 <= i < |r| ==> r[i].1 == SumFor(rows, r[i].0)
  {
    var keys := Dedup(Keys(rows));
    var r := Groups(keys, rows);
    assert Keys(r) == keys;
    r
  }

  /** One group per key of `keys`. */
  function Groups<K(==)>(keys: seq<K>, rows: seq<(K, int)>): (r: seq<(K, int)>)
    ensures |r| == |keys|
    ensures forall i :: 0 <= i < |keys| ==> r[i] == (keys[i], SumFor(rows, keys[i]))
  {
    seq(|keys|, i requires 0 <= i < |keys| => (keys[i], SumFor(rows, keys[i])))
  }

  /** The sum over `keys` of each key's group sum. */
  function SumOver<K(==)>(keys: seq<K>, rows: seq<(K, int)>): int {
    if |keys| == 0 then 0 else SumOver(keys[..|keys| - 1], rows) + SumFor(rows, keys[|keys| - 1])
  }

  lemma {:induction false} TotalGroups<K>(keys: seq<K>, rows: seq<(K, int)>)
    ensures Total(Groups(keys, rows)) == SumOver(keys, rows)
  {
    if |keys| > 0 {
      var init := keys[..|keys| - 1];
      assert Groups(keys, rows)[..|keys| - 1] == Groups(init, rows);
      TotalGroups(init, rows);
    }
  }

  lemma {:induction false} SumOverEmpty<K>(keys: seq<K>)
    ensures SumOver(keys, []) == 0
  {
    if |keys| > 0 {
      SumOverEmpty(keys[..|keys| - 1]);
    }
  }

  /** Appending one row adds its value to the sum over distinct keys that include its key. */
  lemma {:induction false} SumOverStep<K>(keys: seq<K>, rows: seq<(K, int)>, x: (K, int))
    requires NoDup(keys)
    ensures SumOver(keys, rows + [x]) == SumOver(keys, rows) + (if x.0 in keys then x.1 else 0)
  {
    if |keys| > 0 {
      var init := keys[..|keys| - 1];
      var last := keys[|keys| - 1];
      assert keys == init + [last];
      assert (rows + [x])[..|rows|] == rows;
      assert NoDup(init);
      assert last !in init;
      SumOverStep(init, rows, x);
    }
  }

  /** Summing the group sums over distinct keys covering every row gives the total. */
  lemma {:induction false} SumOverTotal<K>(keys: seq<K>, rows: seq<(K, int)>)
    requires NoDup(keys)
    requires forall i :: 0 <= i < |rows| ==> rows[i].0 in keys
    ensures SumOver(keys, rows) == Total(rows)
  {
    if |rows| == 0 {
      SumOverEmpty(keys);
    } else {
      var init := rows[..|rows| - 1];
      var x := rows[|rows| - 1];
      assert rows == init + [x];
      SumOverTotal(keys, init);
      SumOverStep(keys, init, x);
    }
  }

  /** Grouping neither loses nor invents any amount: the group sums add up to the total. */
  lemma GroupSumTotal<K(!new)>(rows: seq<(K, int)>)
    ensures Total(GroupSum(rows)) == Total(rows)
  {
    var keys := Dedup(Keys(rows));
    assert forall i :: 0 <= i < |rows| ==> rows[i].0 == Keys(rows)[i];
    TotalGroups(keys, rows);
    SumOverTotal(keys, rows);
  }

  /** `GROUP BY` over no rows returns no rows, and over some rows at least one. */
  lemma GroupSumEmpty<K(!new)>(rows: seq<(K, int)>)
    ensures |GroupSum(rows)| == 0 <==> |rows| == 0
  {
    var r := GroupSum(rows);
    if |rows| != 0 {
      assert Keys(rows)[0] in Keys(rows);
    }
    if |r| != 0 {
      assert Keys(r)[0] in Keys(r);
    }
  }

  /** A row of a result with distinct keys occurs in it once. */
  lemma GroupOnce<K>(rows: seq<(K, int)>, x: (K, int))
    requires NoDup(Keys(rows))
    ensures multiset(rows)[x] == if x in rows then 1 else 0
  {
    assert NoDup(rows) by {
      forall i, j | 0 <= i < j < |rows|
        ensures rows[i] != rows[j]
      {
        assert Keys(rows)[i] != Keys(rows)[j];
      }
    }
    NoDupMultiset(rows);
  }
}
