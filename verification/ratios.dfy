/** The numbers of the derived columns. A missing value in a float column is NaN, so
    "null" and "not a number" are one value here. The sums MySQL returns are
    `decimal.Decimal` values, whose division by zero raises instead of giving an
    infinity or NaN; the mean and the order below are stated for every float all the same. */
module Ratios {
  import opened Wrappers
  import opened Errors

  datatype Float = NaN | PosInf | NegInf | Finite(v: real)

  /** `pd.notnull`. */
  predicate NotNull(x: Float) {
    !x.NaN?
  }

  /** Division of two `decimal.Decimal` values under the default context, which traps
      both zero divisions: a nonzero dividend raises `DivisionByZero`, a zero one
      `InvalidOperation`. The quotient is exact here. */
  function DecimalDiv(x: real, y: real): (r: Fallible<real>)
    ensures r.Ok? <==> y != 0.0
    ensures r.Ok? ==> r.value * y == x
    ensures r.Raised? ==> r.error == (if x == 0.0 then InvalidOperation else DivisionByZero)
  {
    if y != 0.0 then Ok(x / y)
    else if x == 0.0 then Raised(InvalidOperation)
    else Raised(DivisionByZero)
  }

  /** Python's `x < c` for a float `x`: always false for NaN. */
  predicate LessThan(x: Float, c: real) {
    match x
    case NaN => false
    case PosInf => false
    case NegInf => true
    case Finite(a) => a < c
  }

  /** The order of the non-NaN floats. */
  ghost predicate AtMost(x: Float, y: Float) {
    match (x, y)
    case (NaN, _) => false
    case (_, NaN) => false
    case (NegInf, _) => true
    case (_, PosInf) => true
    case (Finite(a), Finite(b)) => a <= b
    case (_, _) => false
  }

  /** The sum of the finite entries. */
  function FiniteSum(xs: seq<Float>): real {
    if |xs| == 0 then 0.0
    else FiniteSum(xs[..|xs| - 1]) + (if xs[|xs| - 1].Finite? then xs[|xs| - 1].v else 0.0)
  }

  /** The number of finite entries. */
  function FiniteCount(xs: seq<Float>): (n: nat)
    ensures n == 0 <==> forall i :: 0 <= i < |xs| ==> !xs[i].Finite?
    ensures n <= |xs|
  {
    if |xs| == 0 then 0
    else FiniteCount(xs[..|xs| - 1]) + (if xs[|xs| - 1].Finite? then 1 else 0)
  }

  /** pandas `mean()`, which skips NaN: opposite infinities give NaN, one infinity wins
      over every finite value, and nothing left to average gives NaN. */
  function Mean(xs: seq<Float>): (r: Float)
    ensures r.NaN? <==> (PosInf in xs && NegInf in xs) || forall i :: 0 <= i < |xs| ==> xs[i].NaN?
    ensures r.PosInf? <==> PosInf in xs && NegInf !in xs
    ensures r.NegInf? <==> NegInf in xs && PosInf !in xs
    ensures r.Finite? ==> FiniteCount(xs) > 0 && r.v * FiniteCount(xs) as real == FiniteSum(xs)
  {
    if PosInf in xs && NegInf in xs then NaN
    else if PosInf in xs then PosInf
    else if NegInf in xs then NegInf
    else if FiniteCount(xs) == 0 then
      assert forall i :: 0 <= i < |xs| ==> xs[i].NaN? by {
        forall i | 0 <= i < |xs|
          ensures xs[i].NaN?
        {
          assert xs[i] != PosInf && xs[i] != NegInf;
        }
      }
      NaN
    else
      assert !forall i :: 0 <= i < |xs| ==> xs[i].NaN?;
      Finite(FiniteSum(xs) / FiniteCount(xs) as real)
  }

  lemma {:induction false} FiniteAppend(a: seq<Float>, b: seq<Float>)
    ensures FiniteSum(a + b) == FiniteSum(a) + FiniteSum(b)
    ensures FiniteCount(a + b) == FiniteCount(a) + FiniteCount(b)
  {
    if |b| == 0 {
      assert a + b == a;
    } else {
      var init := b[..|b| - 1];
      assert (a + b)[..|a + b| - 1] == a + init;
      assert (a + b)[|a + b| - 1] == b[|b| - 1];
      FiniteAppend(a, init);
    }
  }

  /** `mean()` skips NaN: removing a NaN entry does not change the mean. */
  lemma MeanSkipsNaN(a: seq<Float>, b: seq<Float>)
    ensures Mean(a + [NaN] + b) == Mean(a + b)
  {
    FiniteAppend(a, [NaN]);
    FiniteAppend(a + [NaN], b);
    FiniteAppend(a, b);
    assert FiniteSum([NaN]) == 0.0 && FiniteCount([NaN]) == 0;
    assert forall x :: x != NaN ==> (x in a + [NaN] + b <==> x in a + b);
    if forall i :: 0 <= i < |a + b| ==> (a + b)[i].NaN? {
      forall i | 0 <= i < |a + [NaN] + b|
        ensures (a + [NaN] + b)[i].NaN?
      {
        if i > |a| {
          assert (a + [NaN] + b)[i] == (a + b)[i - 1];
        } else if i < |a| {
          assert (a + [NaN] + b)[i] == (a + b)[i];
        }
      }
    }
  }
}
