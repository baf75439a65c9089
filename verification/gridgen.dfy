/** The one pure check of the Gridgen constructor: the turning values
    beta at the boundary vertices must sum to four (grid.py, Gridgen). */
module Gridgen {
  import opened Results

  function Sum(s: seq<real>): real {
    if |s| == 0 then 0.0 else Sum(s[..|s| - 1]) + s[|s| - 1]
  }

  /** `numpy.isclose(a, 4.0)` with its default tolerances: the absolute
      tolerance 1e-8 plus the relative tolerance 1e-5 times |4.0|. */
  const BetaTolerance: real := 0.00000001 + 0.00001 * 4.0

  predicate CloseToFour(a: real) {
    -BetaTolerance <= a - 4.0 <= BetaTolerance
  }

  /** Stores beta if its sum is close to 4.0, else raises ValueError. */
  function CheckBeta(beta: seq<real>): (res: Result<seq<real>>)
    ensures res.Ok? <==> 4.0 - BetaTolerance <= Sum(beta) <= 4.0 + BetaTolerance
    ensures res.Ok? ==> res.value == beta
    ensures res.Err? ==> res.error == BetaSumNotFour && IsValueError(res.error)
  {
    if CloseToFour(Sum(beta)) then Ok(beta) else Err(BetaSumNotFour)
  }

  function IntSum(s: seq<int>): int {
    if |s| == 0 then 0 else IntSum(s[..|s| - 1]) + s[|s| - 1]
  }

  function AsReals(s: seq<int>): (t: seq<real>)
    ensures |t| == |s| && forall k :: 0 <= k < |s| ==> t[k] == s[k] as real
  {
    seq(|s|, k requires 0 <= k < |s| => s[k] as real)
  }

  lemma {:induction false} SumOfIntegers(s: seq<int>)
    ensures Sum(AsReals(s)) == IntSum(s) as real
  {
    if |s| > 0 {
      SumOfIntegers(s[..|s| - 1]);
      assert AsReals(s)[..|s| - 1] == AsReals(s[..|s| - 1]);
    }
  }

  /** For whole-number turning values, as gridgen uses them (1 for a convex
      corner, -1 for a concave one), the check passes exactly when they
      sum to four. */
  lemma IntegerBetas(s: seq<int>)
    ensures CheckBeta(AsReals(s)).Ok? <==> IntSum(s) == 4
  {
    SumOfIntegers(s);
    var k := IntSum(s);
    if k >= 5 {
      assert (k as real) >= 5.0;
    } else if k <= 3 {
      assert (k as real) <= 3.0;
    }
  }

  /** The tolerance is not zero: a sum off by 1e-5 still passes, one off
      by 1e-4 does not. */
  lemma ToleranceExamples()
    ensures CheckBeta([1.0, 1.0, 1.0, 1.00001]).Ok?
    ensures CheckBeta([1.0, 1.0, 1.0, 1.0001]).Err?
  {
    assert Sum([1.0, 1.0, 1.0, 1.00001]) == 4.00001 by {
      assert [1.0, 1.0, 1.0, 1.00001][..3] == [1.0, 1.0, 1.0];
      assert [1.0, 1.0, 1.0][..2] == [1.0, 1.0];
      assert [1.0, 1.0][..1] == [1.0];
      assert [1.0][..0] == [];
    }
    assert Sum([1.0, 1.0, 1.0, 1.0001]) == 4.0001 by {
      assert [1.0, 1.0, 1.0, 1.0001][..3] == [1.0, 1.0, 1.0];
      assert [1.0, 1.0, 1.0][..2] == [1.0, 1.0];
      assert [1.0, 1.0][..1] == [1.0];
      assert [1.0][..0] == [];
    }
  }
}
