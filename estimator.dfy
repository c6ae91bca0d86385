/**
 * The salary estimator `predict_salary` and the per-item filter the two
 * collectors apply to its result.
 *
 * Bounds are optional numbers read from the vacancy JSON. The source tests
 * them with Python truthiness, so a bound of `0` is treated exactly like a
 * missing one, and an estimate of `0` is dropped like a missing one.
 * Arithmetic is exact (`real`), not IEEE floating point.
 */
module Estimator {
  import opened Wrappers

  /** Python truthiness of an optional number: `None` and `0` are both false. */
  predicate Truthy(x: Option<real>) {
    x.Some? && x.value != 0.0
  }

  /**
   * `predict_salary(salary_from, salary_to)`: the mean of two truthy bounds,
   * 1.2 times a lone lower bound, 0.8 times a lone upper bound, else `None`.
   */
  function PredictSalary(salaryFrom: Option<real>, salaryTo: Option<real>): (r: Option<real>)
    ensures r.None? <==> !Truthy(salaryFrom) && !Truthy(salaryTo)
    // both bounds: the estimate lies exactly half-way between them
    ensures Truthy(salaryFrom) && Truthy(salaryTo) ==>
              r.value - salaryFrom.value == salaryTo.value - r.value
    // lower bound only: twenty percent above it
    ensures Truthy(salaryFrom) && !Truthy(salaryTo) ==> 5.0 * r.value == 6.0 * salaryFrom.value
    // upper bound only: twenty percent below it
    ensures !Truthy(salaryFrom) && Truthy(salaryTo) ==> 5.0 * r.value == 4.0 * salaryTo.value
  {
    if Truthy(salaryFrom) && Truthy(salaryTo) then
      Some((salaryFrom.value + salaryTo.value) / 2.0)
    else if Truthy(salaryFrom) then
      Some(salaryFrom.value * 1.2)
    else if Truthy(salaryTo) then
      Some(salaryTo.value * 0.8)
    else
      None
  }

  /** A bound of zero is indistinguishable from a missing bound. */
  lemma ZeroBoundIsAbsent(salaryFrom: Option<real>, salaryTo: Option<real>)
    ensures PredictSalary(Some(0.0), salaryTo) == PredictSalary(None, salaryTo)
    ensures PredictSalary(salaryFrom, Some(0.0)) == PredictSalary(salaryFrom, None)
    ensures PredictSalary(Some(0.0), Some(0.0)) == PredictSalary(None, None) == None
  {
  }

  /**
   * With non-negative bounds the estimate is kept exactly when some bound is
   * non-zero, and it lies within the range the bounds span (stretched by the
   * 1.2 / 0.8 factors when only one bound is given).
   */
  lemma NonNegativeBoundsEstimate(salaryFrom: Option<real>, salaryTo: Option<real>)
    requires salaryFrom.Some? ==> salaryFrom.value >= 0.0
    requires salaryTo.Some? ==> salaryTo.value >= 0.0
    ensures Truthy(PredictSalary(salaryFrom, salaryTo)) <==> Truthy(salaryFrom) || Truthy(salaryTo)
    ensures Truthy(salaryFrom) && Truthy(salaryTo) ==>
              var r := PredictSalary(salaryFrom, salaryTo).value;
              (salaryFrom.value <= r <= salaryTo.value) || (salaryTo.value <= r <= salaryFrom.value)
    ensures Truthy(salaryFrom) && !Truthy(salaryTo) ==>
              PredictSalary(salaryFrom, salaryTo).value > salaryFrom.value
    ensures !Truthy(salaryFrom) && Truthy(salaryTo) ==>
              0.0 < PredictSalary(salaryFrom, salaryTo).value < salaryTo.value
  {
  }

  /** Two truthy bounds of opposite sign give an estimate of zero, which the collectors drop. */
  lemma OppositeBoundsGiveDroppedEstimate(x: real)
    requires x != 0.0
    ensures PredictSalary(Some(-x), Some(x)) == Some(0.0)
    ensures !Truthy(PredictSalary(Some(-x), Some(x)))
  {
  }

  /** The entries one item appends: its estimate when that is truthy, else nothing. */
  function Kept(estimate: Option<real>): (r: seq<real>)
    ensures |r| <= 1
    ensures |r| == 1 <==> Truthy(estimate)
    ensures Truthy(estimate) ==> r[0] == estimate.value
  {
    if Truthy(estimate) then [estimate.value] else []
  }

  /**
   * The estimates a run of items appends, in item order. `estimate` gives, per
   * item, the value passed to the truthiness test (`None` for an item the
   * collector skips before estimating).
   */
  function Harvest<V>(items: seq<V>, estimate: V -> Option<real>): (r: seq<real>)
    ensures |r| <= |items|
    decreases |items|
  {
    if items == [] then []
    else Harvest(items[..|items| - 1], estimate) + Kept(estimate(items[|items| - 1]))
  }

  /** Every collected entry is non-zero: a zero estimate is falsy and dropped. */
  lemma {:induction false} HarvestHasNoZero<V>(items: seq<V>, estimate: V -> Option<real>)
    ensures forall x :: x in Harvest(items, estimate) ==> x != 0.0
    decreases |items|
  {
    if items != [] {
      HarvestHasNoZero(items[..|items| - 1], estimate);
    }
  }

  /** Taking one more item of a run appends exactly that item's entries. */
  lemma HarvestExtend<V>(items: seq<V>, k: nat, estimate: V -> Option<real>)
    requires k < |items|
    ensures Harvest(items[..k + 1], estimate) == Harvest(items[..k], estimate) + Kept(estimate(items[k]))
  {
    assert items[..k + 1][..k] == items[..k];
  }

  /** Harvesting two runs of items one after the other keeps both halves, in order. */
  lemma {:induction false} HarvestConcat<V>(a: seq<V>, b: seq<V>, estimate: V -> Option<real>)
    ensures Harvest(a + b, estimate) == Harvest(a, estimate) + Harvest(b, estimate)
    decreases |b|
  {
    if b == [] {
      assert a + b == a;
    } else {
      var b' := b[..|b| - 1];
      assert (a + b)[..|a + b| - 1] == a + b';
      assert (a + b)[|a + b| - 1] == b[|b| - 1];
      HarvestConcat(a, b', estimate);
    }
  }

  /** A single item contributes exactly one entry when its estimate is truthy, none otherwise. */
  lemma HarvestSingle<V>(v: V, estimate: V -> Option<real>)
    ensures Harvest([v], estimate) == Kept(estimate(v))
  {
    assert [v][..0] == [];
  }

  /** An item whose estimate is not truthy can be removed without changing what is collected. */
  lemma SkippedItemIgnored<V>(a: seq<V>, v: V, b: seq<V>, estimate: V -> Option<real>)
    requires !Truthy(estimate(v))
    ensures Harvest(a + [v] + b, estimate) == Harvest(a + b, estimate)
  {
    HarvestConcat(a + [v], b, estimate);
    HarvestConcat(a, [v], estimate);
    HarvestSingle(v, estimate);
    HarvestConcat(a, b, estimate);
  }
}
