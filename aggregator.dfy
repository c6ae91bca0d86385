/** `get_average_salary`: the truncated mean of the collected estimates and their count. */
module Aggregator {
  import opened Wrappers

  /** Python's `sum`, folding from the left. */
  function Sum(s: seq<real>): real
    decreases |s|
  {
    if s == [] then 0.0 else Sum(s[..|s| - 1]) + s[|s| - 1]
  }

  /** `n` is `x` with its fractional part cut off (rounded toward zero). */
  predicate TruncatesTo(x: real, n: int) {
    (x >= 0.0 ==> n as real <= x < n as real + 1.0) &&
    (x < 0.0 ==> n as real - 1.0 < x <= n as real)
  }

  /** Python's `int(x)` on a float: truncation toward zero, not floor. */
  function Trunc(x: real): (n: int)
    ensures TruncatesTo(x, n)
    ensures x >= 0.0 ==> n >= 0
    ensures x <= 0.0 ==> n <= 0
  {
    if x >= 0.0 then x.Floor else -((-x).Floor)
  }

  /**
   * `get_average_salary(salaries)`: `(None, 0)` for an empty list, otherwise
   * the mean truncated to an integer, and the list's length.
   */
  function AverageSalary(salaries: seq<real>): (r: (Option<int>, nat))
    ensures r.1 == |salaries|
    ensures r.0.None? <==> salaries == []
    ensures r.0.Some? ==> TruncatesTo(Sum(salaries) / |salaries| as real, r.0.value)
  {
    if salaries == [] then (None, 0)
    else (Some(Trunc(Sum(salaries) / |salaries| as real)), |salaries|)
  }

  lemma AverageSalaryExamples()
    ensures AverageSalary([]) == (None, 0)
    ensures AverageSalary([100000.0, 200000.0]) == (Some(150000), 2)
  {
    assert Sum([100000.0, 200000.0]) == 300000.0 by {
      assert [100000.0, 200000.0][..1] == [100000.0];
      assert [100000.0][..0] == [];
    }
  }

  /** Every element between `lo` and `hi` puts the sum between `n * lo` and `n * hi`. */
  lemma {:induction false} SumBounds(s: seq<real>, lo: real, hi: real)
    requires forall i :: 0 <= i < |s| ==> lo <= s[i] <= hi
    ensures |s| as real * lo <= Sum(s) <= |s| as real * hi
    decreases |s|
  {
    if s != [] {
      SumBounds(s[..|s| - 1], lo, hi);
    }
  }

  /**
   * The truncated mean of non-negative estimates that all lie in `[lo, hi]` is
   * itself between the integer parts of `lo` and `hi`.
   */
  lemma AverageWithinRange(salaries: seq<real>, lo: real, hi: real)
    requires salaries != []
    requires 0.0 <= lo
    requires forall i :: 0 <= i < |salaries| ==> lo <= salaries[i] <= hi
    ensures AverageSalary(salaries).0.Some?
    ensures lo.Floor <= AverageSalary(salaries).0.value <= hi.Floor
  {
    var n := |salaries| as real;
    SumBounds(salaries, lo, hi);
    var mean := Sum(salaries) / n;
    assert lo <= mean by {
      assert mean - lo == (Sum(salaries) - n * lo) / n;
    }
    assert mean <= hi by {
      assert hi - mean == (n * hi - Sum(salaries)) / n;
    }
  }
}
