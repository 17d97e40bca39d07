/** The axis-label spacing helper of the 3-D plot (frontend/src/utils/graph.js). */
module Graph {

  /** `getLabelStep`: the spacing between axis labels for a plot spanning `distance`.
      The code starts from 0.1 and runs ten independent `if`s in increasing order of
      threshold, each overriding the previous ones. */
  function LabelStep(distance: real): (step: real)
    ensures step in StepValues
    ensures step > 0.0
  {
    var step := 0.1;
    var step := if distance > 5.0 then 0.3 else step;
    var step := if distance > 10.0 then 0.7 else step;
    var step := if distance > 15.0 then 1.0 else step;
    var step := if distance > 20.0 then 2.0 else step;
    var step := if distance > 50.0 then 5.0 else step;
    var step := if distance > 100.0 then 10.0 else step;
    var step := if distance > 300.0 then 30.0 else step;
    var step := if distance > 500.0 then 50.0 else step;
    var step := if distance > 700.0 then 70.0 else step;
    var step := if distance > 1000.0 then 100.0 else step;
    step
  }

  /** The eleven spacings the helper can produce. */
  const StepValues: set<real> := {0.1, 0.3, 0.7, 1.0, 2.0, 5.0, 10.0, 30.0, 50.0, 70.0, 100.0}

  /** The thresholds of graph.js:4-13 with the step each one selects, in source order. */
  const Thresholds: seq<(real, real)> :=
    [(5.0, 0.3), (10.0, 0.7), (15.0, 1.0), (20.0, 2.0), (50.0, 5.0),
     (100.0, 10.0), (300.0, 30.0), (500.0, 50.0), (700.0, 70.0), (1000.0, 100.0)]

  /** The overriding reading of a threshold table from entry `i` on: walk it in order,
      and let every threshold that `distance` strictly exceeds replace the current step. */
  function Override(distance: real, table: seq<(real, real)>, i: nat, step: real): real
    requires i <= |table|
    decreases |table| - i
  {
    if i == |table| then step
    else Override(distance, table, i + 1, if distance > table[i].0 then table[i].1 else step)
  }

  /** Entry `k` holds the largest threshold of the table that `distance` strictly
      exceeds (the thresholds being increasing). */
  predicate LargestExceeded(distance: real, table: seq<(real, real)>, k: int)
  {
    0 <= k < |table| && table[k].0 < distance && (k + 1 == |table| || distance <= table[k + 1].0)
  }

  /** In a table of increasing thresholds, overriding selects the step of the largest
      threshold that `distance` strictly exceeds, and keeps the initial step when it
      exceeds none. */
  lemma {:induction false} OverrideSelectsLargestExceeded(distance: real, table: seq<(real, real)>, i: nat, step: real)
    requires i <= |table|
    requires forall a, b :: 0 <= a < b < |table| ==> table[a].0 < table[b].0
    decreases |table| - i
    ensures (forall k :: i <= k < |table| ==> distance <= table[k].0) ==>
      Override(distance, table, i, step) == step
    ensures forall k :: i <= k && LargestExceeded(distance, table, k) ==> Override(distance, table, i, step) == table[k].1
  {
    if i < |table| {
      var next := if distance > table[i].0 then table[i].1 else step;
      OverrideSelectsLargestExceeded(distance, table, i + 1, next);
      assert Override(distance, table, i, step) == Override(distance, table, i + 1, next);
      forall k | i <= k && LargestExceeded(distance, table, k)
        ensures Override(distance, table, i, step) == table[k].1
      {
        if k == i {
          forall m | i + 1 <= m < |table| ensures distance <= table[m].0 {
            assert m > i + 1 ==> table[i + 1].0 < table[m].0;
          }
          assert next == table[i].1;
          assert Override(distance, table, i + 1, next) == next;
        } else {
          assert i + 1 <= k;
          assert Override(distance, table, i + 1, next) == table[k].1;
        }
      }
    }
  }

  /** `getLabelStep` is exactly the overriding reading of its threshold table from 0.1,
      so it answers the step of the largest threshold exceeded. */
  lemma {:induction false} LabelStepIsLastMatch(distance: real)
    ensures LabelStep(distance) == Override(distance, Thresholds, 0, 0.1)
    ensures forall k :: LargestExceeded(distance, Thresholds, k) ==> LabelStep(distance) == Thresholds[k].1
  {
    ghost var s := 0.1;
    assert Override(distance, Thresholds, 0, s) == Override(distance, Thresholds, 1, if distance > 5.0 then 0.3 else s);
    s := if distance > 5.0 then 0.3 else s;
    assert Override(distance, Thresholds, 1, s) == Override(distance, Thresholds, 2, if distance > 10.0 then 0.7 else s);
    s := if distance > 10.0 then 0.7 else s;
    assert Override(distance, Thresholds, 2, s) == Override(distance, Thresholds, 3, if distance > 15.0 then 1.0 else s);
    s := if distance > 15.0 then 1.0 else s;
    assert Override(distance, Thresholds, 3, s) == Override(distance, Thresholds, 4, if distance > 20.0 then 2.0 else s);
    s := if distance > 20.0 then 2.0 else s;
    assert Override(distance, Thresholds, 4, s) == Override(distance, Thresholds, 5, if distance > 50.0 then 5.0 else s);
    s := if distance > 50.0 then 5.0 else s;
    assert Override(distance, Thresholds, 5, s) == Override(distance, Thresholds, 6, if distance > 100.0 then 10.0 else s);
    s := if distance > 100.0 then 10.0 else s;
    assert Override(distance, Thresholds, 6, s) == Override(distance, Thresholds, 7, if distance > 300.0 then 30.0 else s);
    s := if distance > 300.0 then 30.0 else s;
    assert Override(distance, Thresholds, 7, s) == Override(distance, Thresholds, 8, if distance > 500.0 then 50.0 else s);
    s := if distance > 500.0 then 50.0 else s;
    assert Override(distance, Thresholds, 8, s) == Override(distance, Thresholds, 9, if distance > 700.0 then 70.0 else s);
    s := if distance > 700.0 then 70.0 else s;
    assert Override(distance, Thresholds, 9, s) == Override(distance, Thresholds, 10, if distance > 1000.0 then 100.0 else s);
    s := if distance > 1000.0 then 100.0 else s;
    OverrideSelectsLargestExceeded(distance, Thresholds, 0, 0.1);
  }

  /** Up to 5 the spacing is 0.1. */
  lemma SmallDistances(distance: real)
    requires distance <= 5.0
    ensures LabelStep(distance) == 0.1
  {
  }

  /** Beyond 1000 the spacing is 100, the largest value. */
  lemma LargeDistances(distance: real)
    requires distance > 1000.0
    ensures LabelStep(distance) == 100.0
    ensures forall s :: s in StepValues ==> s <= LabelStep(distance)
  {
  }

  /** A wider plot never gets denser labels. */
  lemma LabelStepMonotone(d1: real, d2: real)
    requires d1 <= d2
    ensures LabelStep(d1) <= LabelStep(d2)
  {
  }
}
