/** The shared optimisation engine of backend-go/algos/Algo.go: request
    validation, default bounds, initial sampling and the initial global best,
    plus what every strategy shares (bounds geometry, snapshots, the sink). */
module Engine {
  import opened Values
  import opened Random

  // ---------------------------------------------------------------------
  // Bounds geometry
  // ---------------------------------------------------------------------

  /** Dimensions 0..n-1 each have a bound row with at least a minimum and a maximum. */
  predicate Covers(bounds: seq<seq<real>>, n: int)
  {
    0 <= n <= |bounds| && forall j :: 0 <= j < n ==> |bounds[j]| >= 2
  }

  /** Every dimension is covered and has min <= max (nothing in the code checks the order). */
  predicate Ordered(bounds: seq<seq<real>>, n: int)
  {
    Covers(bounds, n) && forall j :: 0 <= j < n ==> bounds[j][0] <= bounds[j][1]
  }

  /** The vector `randomSolution` and the initial sampling draw from the uniform stream
      `src` starting at position `p`: coordinate j from bound row j. */
  function SampledRow(bounds: seq<seq<real>>, n: nat, src: nat -> Unit, p: nat): (x: seq<real>)
    requires Covers(bounds, n)
    ensures |x| == n
  {
    seq(n, j requires 0 <= j < n => Sample(bounds[j][0], bounds[j][1], src(p + j)))
  }

  /** `size` rows sampled one after the other from position `p` of the stream. */
  function SampledRows(bounds: seq<seq<real>>, n: nat, src: nat -> Unit, p: nat, size: nat): (rows: seq<seq<real>>)
    requires size == 0 || Covers(bounds, n)
    ensures |rows| == size
  {
    seq(size, i requires 0 <= i < size => SampledRow(bounds, n, src, p + i * n))
  }

  /** Sampling within well-ordered bounds lands within them. */
  lemma SampledRowInBounds(bounds: seq<seq<real>>, n: nat, src: nat -> Unit, p: nat)
    requires Ordered(bounds, n)
    ensures InBounds(SampledRow(bounds, n, src, p), bounds)
  {
  }

  /** Every coordinate of `x` lies within its dimension's bound row. */
  predicate InBounds(x: seq<real>, bounds: seq<seq<real>>)
  {
    Covers(bounds, |x|) && forall j :: 0 <= j < |x| ==> bounds[j][0] <= x[j] <= bounds[j][1]
  }

  /** `u * (max - min) + min`, the sampling formula of every random coordinate. */
  function Sample(lo: real, hi: real, u: Unit): (x: real)
    ensures lo <= hi ==> lo <= x <= hi
    ensures lo < hi ==> x < hi
    ensures lo == hi ==> x == lo
  {
    var x := u * (hi - lo) + lo;
    SampleStaysInside(lo, hi, u, x);
    x
  }

  lemma SampleStaysInside(lo: real, hi: real, u: Unit, x: real)
    requires x == u * (hi - lo) + lo
    ensures lo <= hi ==> lo <= x <= hi
    ensures lo < hi ==> x < hi
    ensures lo == hi ==> x == lo
  {
    if lo == hi {
      assert hi - lo == 0.0;
    }
    assert hi - x == (1.0 - u) * (hi - lo);
    if lo <= hi {
      MulNonNegative(u, hi - lo);
      MulNonNegative(1.0 - u, hi - lo);
    }
    if lo < hi {
      MulPositive(1.0 - u, hi - lo);
    }
  }

  lemma MulNonNegative(a: real, b: real)
    requires 0.0 <= a && 0.0 <= b
    ensures 0.0 <= a * b
  {
  }

  lemma MulPositive(a: real, b: real)
    requires 0.0 < a && 0.0 < b
    ensures 0.0 < a * b
  {
  }

  /** One clamped coordinate of a step from `a` toward `b` by the fraction `r`. */
  function Step(lo: real, hi: real, a: real, b: real, r: real): real
  {
    Clamp(lo, hi, a + r * (b - a))
  }

  /** A step from `x` toward `target` by the fraction `r`, clamped per dimension:
      the move shared by AFSA's chase, swarm and search behaviours and SFLA's frog leaps. */
  function Toward(x: seq<real>, target: seq<real>, r: real, bounds: seq<seq<real>>): (y: seq<real>)
    requires |target| == |x| && Covers(bounds, |x|)
    ensures |y| == |x|
    ensures forall k :: 0 <= k < |x| ==> y[k] == Step(bounds[k][0], bounds[k][1], x[k], target[k], r)
  {
    seq(|x|, k requires 0 <= k < |x| => Step(bounds[k][0], bounds[k][1], x[k], target[k], r))
  }

  /** Every step lands within well-ordered bounds, wherever it starts. */
  lemma TowardInBounds(x: seq<real>, target: seq<real>, r: real, bounds: seq<seq<real>>)
    requires |target| == |x| && Covers(bounds, |x|) && Ordered(bounds, |x|)
    ensures InBounds(Toward(x, target, r, bounds), bounds)
  {
  }

  /** Between two in-bounds points a step by a fraction in [0, 1] is never clamped:
      it is exactly the convex combination `x + r * (target - x)`. */
  lemma {:induction false} TowardIsConvexInsideBounds(x: seq<real>, target: seq<real>, r: real, bounds: seq<seq<real>>)
    requires |target| == |x| && InBounds(x, bounds) && InBounds(target, bounds)
    requires 0.0 <= r <= 1.0
    ensures forall k :: 0 <= k < |x| ==> Toward(x, target, r, bounds)[k] == x[k] + r * (target[k] - x[k])
  {
    forall k | 0 <= k < |x|
      ensures Toward(x, target, r, bounds)[k] == x[k] + r * (target[k] - x[k])
    {
      var lo, hi := bounds[k][0], bounds[k][1];
      ConvexStep(lo, hi, x[k], target[k], r);
    }
  }

  lemma ConvexStep(lo: real, hi: real, a: real, b: real, r: real)
    requires lo <= a <= hi && lo <= b <= hi && 0.0 <= r <= 1.0
    ensures lo <= a + r * (b - a) <= hi
  {
    assert a + r * (b - a) == lo + (1.0 - r) * (a - lo) + r * (b - lo);
    MulNonNegative(1.0 - r, a - lo);
    MulNonNegative(r, b - lo);
    assert a + r * (b - a) == hi - (1.0 - r) * (hi - a) - r * (hi - b);
    MulNonNegative(1.0 - r, hi - a);
    MulNonNegative(r, hi - b);
  }

  // ---------------------------------------------------------------------
  // Best scans
  // ---------------------------------------------------------------------

  /** The objective value of every row, in order. */
  function Scores(f: Objective, rows: seq<seq<real>>): (s: seq<Value>)
    ensures |s| == |rows| && forall i :: 0 <= i < |rows| ==> s[i] == f(rows[i])
  {
    seq(|rows|, i requires 0 <= i < |rows| => f(rows[i]))
  }

  /** The scan `if value < best { best = value; index = i }` over `vals`, started
      from `start` (an index and a value). */
  function ScanMin(vals: seq<Value>, start: (int, Value)): (int, Value)
  {
    if vals == [] then start
    else
      var prev := ScanMin(vals[..|vals| - 1], start);
      if Less(vals[|vals| - 1], prev.1) then (|vals| - 1, vals[|vals| - 1]) else prev
  }

  /** The strict-`<` scan keeps the first index of a least value: nothing is strictly
      below the result, the result is below the start or is the start, and no earlier
      index carries the same value. */
  lemma {:induction false} ScanMinFindsFirstLeast(vals: seq<Value>, start: (int, Value))
    ensures var r := ScanMin(vals, start);
      && (forall k :: 0 <= k < |vals| ==> !Less(vals[k], r.1))
      && NotAbove(r.1, start.1)
      && (r == start <==> forall k :: 0 <= k < |vals| ==> !Less(vals[k], start.1))
      && (r != start ==> 0 <= r.0 < |vals| && vals[r.0] == r.1 && Less(r.1, start.1)
                         && forall k :: 0 <= k < r.0 ==> vals[k] != r.1)
  {
    if vals != [] {
      var n := |vals| - 1;
      var init, last := vals[..n], vals[n];
      ScanMinFindsFirstLeast(init, start);
      var prev := ScanMin(init, start);
      var r := ScanMin(vals, start);
      assert forall k :: 0 <= k < n ==> vals[k] == init[k];
      if Less(last, prev.1) {
        assert r == (n, last);
        forall k | 0 <= k < |vals| ensures !Less(vals[k], r.1) {
          LessIsStrictOrder(vals[k], last, prev.1);
        }
        LessIsStrictOrder(last, prev.1, start.1);
        assert Less(last, start.1);
        assert r != start;
        forall k | 0 <= k < n ensures vals[k] != r.1 {
          assert !Less(init[k], prev.1);
        }
      } else {
        assert r == prev;
        LessIsStrictOrder(last, prev.1, start.1);
        if prev != start {
          assert vals[prev.0] == prev.1 && Less(vals[prev.0], start.1);
        }
      }
    }
  }

  /** The scan `if value > worst { worst = value; index = i }`. */
  function ScanMax(vals: seq<Value>, start: (int, Value)): (int, Value)
  {
    if vals == [] then start
    else
      var prev := ScanMax(vals[..|vals| - 1], start);
      if Less(prev.1, vals[|vals| - 1]) then (|vals| - 1, vals[|vals| - 1]) else prev
  }

  /** The strict-`>` scan keeps the first index of a greatest value. */
  lemma {:induction false} ScanMaxFindsFirstGreatest(vals: seq<Value>, start: (int, Value))
    ensures var r := ScanMax(vals, start);
      && (forall k :: 0 <= k < |vals| ==> !Less(r.1, vals[k]))
      && (r == start <==> forall k :: 0 <= k < |vals| ==> !Less(start.1, vals[k]))
      && (r != start ==> 0 <= r.0 < |vals| && vals[r.0] == r.1 && Less(start.1, r.1)
                         && forall k :: 0 <= k < r.0 ==> vals[k] != r.1)
  {
    if vals != [] {
      var n := |vals| - 1;
      var init, last := vals[..n], vals[n];
      ScanMaxFindsFirstGreatest(init, start);
      var prev := ScanMax(init, start);
      var r := ScanMax(vals, start);
      assert forall k :: 0 <= k < n ==> vals[k] == init[k];
      if Less(prev.1, last) {
        assert r == (n, last);
        forall k | 0 <= k < |vals| ensures !Less(r.1, vals[k]) {
          LessIsStrictOrder(prev.1, last, vals[k]);
          LessIsStrictOrder(last, vals[k], last);
        }
        assert Less(start.1, last) by {
          if prev != start { LessIsStrictOrder(start.1, prev.1, last); }
        }
        LessIsStrictOrder(last, start.1, last);
        assert r != start;
        forall k | 0 <= k < n ensures vals[k] != r.1 {
          assert !Less(prev.1, init[k]);
        }
      } else {
        assert r == prev;
        LessIsStrictOrder(start.1, prev.1, last);
        if prev != start {
          assert vals[prev.0] == prev.1 && Less(start.1, vals[prev.0]);
        }
      }
    }
  }

  /** The global best is the value of the best position, and +Inf while there is none. */
  predicate Honest(f: Objective, bestPos: Option<seq<real>>, bestVal: Value)
  {
    && (bestPos.None? ==> bestVal == PosInf)
    && (bestPos.Some? ==> f(bestPos.value) == bestVal)
  }

  /** Every member and the best position lie within the bounds. */
  predicate Inside(rows: seq<seq<real>>, bestPos: Option<seq<real>>, bounds: seq<seq<real>>)
  {
    && (forall k :: 0 <= k < |rows| ==> InBounds(rows[k], bounds))
    && (bestPos.Some? ==> InBounds(bestPos.value, bounds))
  }

  // ---------------------------------------------------------------------
  // Snapshots and the progress sink
  // ---------------------------------------------------------------------

  /** A `Response`: what one call of `send` carries, as values. */
  datatype Snapshot = Snapshot(positions: seq<seq<real>>, bestPosition: Option<seq<real>>, bestValue: Value, iteration: int)

  /** The `send` callback. Whether the n-th call over the sink's life succeeds is an
      input (`accepts(n)`); the transport behind it is not modelled. */
  class Sink {
    const accepts: nat -> bool
    var log: seq<Snapshot>

    constructor (accepts: nat -> bool)
      ensures this.accepts == accepts && log == []
    {
      this.accepts := accepts;
      log := [];
    }

    method Send(s: Snapshot) returns (ok: bool)
      modifies this
      ensures log == old(log) + [s]
      ensures ok == accepts(|old(log)|)
    {
      ok := accepts(|log|);
      log := log + [s];
    }
  }

  function Max0(n: int): nat
  {
    if n < 0 then 0 else n
  }

  /** The emission protocol of every `Run`: snapshots tagged 0, 1, 2, ... in order,
      one before the first iteration and one after each, and the run stops right
      after the first refused `send` (or after the last iteration). */
  ghost predicate RunLog(e: seq<Snapshot>, accepts: nat -> bool, start: nat, iterations: int)
  {
    && 1 <= |e| <= Max0(iterations) + 1
    && (forall k :: 0 <= k < |e| ==> e[k].iteration == k)
    && (forall n :: start <= n < start + |e| - 1 ==> accepts(n))
    && (|e| < Max0(iterations) + 1 ==> !accepts(start + |e| - 1))
  }

  /** The reported best value never rises: no snapshot reports a larger best than an
      earlier one. */
  ghost predicate BestNeverRises(e: seq<Snapshot>)
  {
    forall i, j :: 0 <= i <= j < |e| ==> NotAbove(e[j].bestValue, e[i].bestValue)
  }

  /** From entry `start` on, no snapshot reports a larger best than the one before it. */
  ghost predicate StepsNeverRise(log: seq<Snapshot>, start: nat)
  {
    |log| <= start + 1 ||
    (NotAbove(log[|log| - 1].bestValue, log[|log| - 2].bestValue) && StepsNeverRise(log[..|log| - 1], start))
  }

  /** A best that never rises from one snapshot to the next never rises at all. */
  lemma {:induction false} StepsNeverRiseAll(log: seq<Snapshot>, start: nat)
    requires start <= |log| && StepsNeverRise(log, start)
    ensures BestNeverRises(log[start..])
  {
    if |log| > start + 1 {
      var p := log[..|log| - 1];
      StepsNeverRiseAll(p, start);
      var e, q := log[start..], p[start..];
      assert e == q + [log[|log| - 1]];
      forall i, j | 0 <= i <= j < |e|
        ensures NotAbove(e[j].bestValue, e[i].bestValue)
      {
        if j == |e| - 1 && i < j {
          NotAboveTransitive(e[j].bestValue, q[|q| - 1].bestValue, q[i].bestValue);
        }
      }
    }
  }

  /** The log after the first `t + 1` snapshots of a run that began at `start`: tagged
      0 to `t` in order, the best never rising, every send but the last accepted. */
  ghost predicate Emitted(log: seq<Snapshot>, accepts: nat -> bool, start: nat, t: nat)
  {
    && |log| == start + t + 1
    && (forall k :: start <= k < |log| ==> log[k].iteration == k - start)
    && (forall n :: start <= n < |log| - 1 ==> accepts(n))
    && StepsNeverRise(log, start)
  }

  lemma EmittedFirst(log: seq<Snapshot>, accepts: nat -> bool, s: Snapshot)
    requires s.iteration == 0
    ensures Emitted(log + [s], accepts, |log|, 0)
  {
  }

  /** An accepted send followed by a snapshot of the next iteration whose best is not
      larger extends the log. */
  lemma EmittedNext(log: seq<Snapshot>, accepts: nat -> bool, start: nat, t: nat, s: Snapshot)
    requires Emitted(log, accepts, start, t) && accepts(|log| - 1)
    requires s.iteration == t + 1 && NotAbove(s.bestValue, log[|log| - 1].bestValue)
    ensures Emitted(log + [s], accepts, start, t + 1)
  {
  }

  /** What a `Run` leaves in the sink's log: the earlier entries untouched, then a
      log that follows the emission protocol with a best that never rises. */
  ghost predicate Reported(log: seq<Snapshot>, before: seq<Snapshot>, accepts: nat -> bool, iterations: int)
  {
    Logged(log, before, accepts, iterations) && BestNeverRises(log[|before|..])
  }

  /** The earlier entries untouched, then a log that follows the emission protocol. */
  ghost predicate Logged(log: seq<Snapshot>, before: seq<Snapshot>, accepts: nat -> bool, iterations: int)
  {
    && |before| < |log| && log[..|before|] == before
    && RunLog(log[|before|..], accepts, |before|, iterations)
  }

  /** Two logs that agree up to and including entry `n` agree before it and at it. */
  lemma PrefixAgrees(log: seq<Snapshot>, other: seq<Snapshot>, n: nat)
    requires n < |log| && n < |other| && log[..n + 1] == other[..n + 1]
    ensures log[..n] == other[..n] && log[n] == other[n]
  {
    assert log[n] == log[..n + 1][n] && other[n] == other[..n + 1][n];
    assert log[..n] == log[..n + 1][..n] && other[..n] == other[..n + 1][..n];
  }

  /** A run that stops after its last iteration or at a refused send has the log the
      emission protocol describes. */
  lemma EmittedRun(log: seq<Snapshot>, before: seq<Snapshot>, accepts: nat -> bool, t: nat, iterations: int)
    requires Emitted(log, accepts, |before|, t) && log[..|before|] == before && t <= Max0(iterations)
    requires t == Max0(iterations) || !accepts(|log| - 1)
    ensures Reported(log, before, accepts, iterations)
  {
    StepsNeverRiseAll(log, |before|);
  }

  /** What a run that panics in the middle of an iteration leaves in the sink's log:
      the earlier entries untouched, then snapshots tagged 0, 1, 2, ... in order, every
      one of them accepted, at most one per iteration, with a best that never rises. */
  ghost predicate Interrupted(log: seq<Snapshot>, before: seq<Snapshot>, accepts: nat -> bool, iterations: int)
  {
    Halted(log, before, accepts, iterations) && BestNeverRises(log[|before|..])
  }

  /** The earlier entries untouched, then snapshots tagged 0, 1, 2, ... in order, every
      one of them accepted, at most one per iteration. */
  ghost predicate Halted(log: seq<Snapshot>, before: seq<Snapshot>, accepts: nat -> bool, iterations: int)
  {
    && |before| < |log| <= |before| + Max0(iterations) && log[..|before|] == before
    && (forall k :: |before| <= k < |log| ==> log[k].iteration == k - |before|)
    && (forall n :: |before| <= n < |log| ==> accepts(n))
  }

  /** A run that panics during iteration `t + 1`, after its `t + 1`-th snapshot was
      accepted, has the log of an interrupted run. */
  lemma EmittedInterrupted(log: seq<Snapshot>, before: seq<Snapshot>, accepts: nat -> bool, t: nat, iterations: int)
    requires Emitted(log, accepts, |before|, t) && log[..|before|] == before
    requires t < Max0(iterations) && accepts(|log| - 1)
    ensures Interrupted(log, before, accepts, iterations)
  {
    StepsNeverRiseAll(log, |before|);
  }

  /** What a run that panics right after an accepted snapshot leaves in the sink's log:
      the earlier entries untouched, then at least two snapshots tagged 0, 1, 2, ... in
      order, at most one per iteration plus the first, every one of them accepted, with
      a best that never rises. */
  ghost predicate Crashed(log: seq<Snapshot>, before: seq<Snapshot>, accepts: nat -> bool, iterations: int)
  {
    && |before| + 1 < |log| <= |before| + Max0(iterations) + 1 && log[..|before|] == before
    && (forall k :: |before| <= k < |log| ==> log[k].iteration == k - |before|)
    && (forall n :: |before| <= n < |log| ==> accepts(n))
    && BestNeverRises(log[|before|..])
  }

  /** A run that panics during iteration `t`, right after its `t + 1`-th snapshot was
      accepted, has the log of a crashed run. */
  lemma EmittedCrashed(log: seq<Snapshot>, before: seq<Snapshot>, accepts: nat -> bool, t: nat, iterations: int)
    requires Emitted(log, accepts, |before|, t) && log[..|before|] == before
    requires 1 <= t <= Max0(iterations) && accepts(|log| - 1)
    ensures Crashed(log, before, accepts, iterations)
  {
    StepsNeverRiseAll(log, |before|);
  }

  /** The log after the first `t + 1` snapshots of a run that began at `start`, for a
      strategy whose best may rise: tagged 0 to `t` in order, every send but the last
      accepted. */
  ghost predicate Sent(log: seq<Snapshot>, accepts: nat -> bool, start: nat, t: nat)
  {
    && |log| == start + t + 1
    && (forall k :: start <= k < |log| ==> log[k].iteration == k - start)
    && (forall n :: start <= n < |log| - 1 ==> accepts(n))
  }

  lemma SentNext(log: seq<Snapshot>, accepts: nat -> bool, start: nat, t: nat, s: Snapshot)
    requires Sent(log, accepts, start, t) && accepts(|log| - 1) && s.iteration == t + 1
    ensures Sent(log + [s], accepts, start, t + 1)
  {
  }

  /** A run that stops after its last iteration or at a refused send follows the
      emission protocol. */
  lemma SentRun(log: seq<Snapshot>, before: seq<Snapshot>, accepts: nat -> bool, t: nat, iterations: int)
    requires Sent(log, accepts, |before|, t) && log[..|before|] == before && t <= Max0(iterations)
    requires t == Max0(iterations) || !accepts(|log| - 1)
    ensures Logged(log, before, accepts, iterations)
  {
  }

  /** A run that panics during iteration `t + 1`, after its `t + 1`-th snapshot was
      accepted, leaves only accepted snapshots. */
  lemma SentHalted(log: seq<Snapshot>, before: seq<Snapshot>, accepts: nat -> bool, t: nat, iterations: int)
    requires Sent(log, accepts, |before|, t) && log[..|before|] == before
    requires t < Max0(iterations) && accepts(|log| - 1)
    ensures Halted(log, before, accepts, iterations)
  {
  }

  /** The contents of a list of rows. */
  function RowValues(rows: seq<array<real>>): (s: seq<seq<real>>)
    reads set r | r in rows
    ensures |s| == |rows| && forall i :: 0 <= i < |rows| ==> s[i] == rows[i][..]
  {
    if rows == [] then [] else RowValues(rows[..|rows| - 1]) + [rows[|rows| - 1][..]]
  }

  // ---------------------------------------------------------------------
  // The engine state
  // ---------------------------------------------------------------------

  /** The shared state `Algo`. Rows are arrays so that a row can be shared: the
      global best position is a reference to a row, not a copy. */
  class Algo {
    const f: Objective
    const rng: Rng
    var iterations: int
    var bounds: seq<seq<real>>
    var population: array<array<real>>
    var populationSize: int
    var numDimensions: int
    var bestPos: array?<real>
    var bestVal: Value

    /** `&Algo{Func: function, Iterations: ..., GlobalBestPosition: nil, GlobalBestValue: +Inf}`:
        every other field at its zero value. */
    constructor Init(f: Objective, rng: Rng, iterations: int)
      ensures this.f == f && this.rng == rng && this.iterations == iterations
      ensures bounds == [] && population.Length == 0 && populationSize == 0 && numDimensions == 0
      ensures bestPos == null && bestVal == PosInf
      ensures fresh(population)
    {
      this.f := f;
      this.rng := rng;
      this.iterations := iterations;
      bounds := [];
      population := new array<real>[0];
      populationSize := 0;
      numDimensions := 0;
      bestPos := null;
      bestVal := PosInf;
    }

    ghost function Rows(): set<array<real>>
      reads this, population
    {
      set i | 0 <= i < population.Length :: population[i]
    }

    function Contents(): (c: seq<seq<real>>)
      reads this`population, population, population[..]
      ensures |c| == population.Length
      ensures forall i :: 0 <= i < population.Length ==> c[i] == population[i][..]
    {
      RowValues(population[..])
    }

    function BestView(): Option<seq<real>>
      reads this, bestPos
    {
      if bestPos == null then None else Some(bestPos[..])
    }

    function Snap(t: int): Snapshot
      reads this, population, population[..], bestPos
    {
      Snapshot(Contents(), BestView(), bestVal, t)
    }

    /** The shape every strategy relies on: one row per member, every row and the best
        position of length `numDimensions`, a bound row for each dimension. The Go code
        panics on an index out of range when this fails (an explicit population is only
        checked on row 0). */
    predicate Shaped()
      reads this, population
    {
      && populationSize == population.Length
      && Covers(bounds, numDimensions)
      && (forall i :: 0 <= i < population.Length ==> population[i].Length == numDimensions)
      && (bestPos != null ==> bestPos.Length == numDimensions)
    }

    /** No two members share a row. */
    predicate DistinctRows()
      reads this, population
    {
      forall i, k :: 0 <= i < k < population.Length ==> population[i] != population[k]
    }

    /** Every member lies within the bounds. */
    predicate AllInBounds()
      reads this`population, this`bounds, population, population[..]
    {
      forall i :: 0 <= i < population.Length ==> InBounds(population[i][..], bounds)
    }

    /** Emits the current state tagged `t`. */
    method Emit(sink: Sink, t: int) returns (ok: bool)
      modifies sink
      ensures sink.log == old(sink.log) + [Snap(t)]
      ensures ok == sink.accepts(|old(sink.log)|)
    {
      ok := sink.Send(Snap(t));
    }

    /** The snapshot a run sends before its first iteration. */
    method EmitFirst(sink: Sink) returns (ok: bool)
      modifies sink
      ensures sink.log == old(sink.log) + [Snap(0)]
      ensures Emitted(sink.log, sink.accepts, |old(sink.log)|, 0)
      ensures ok == sink.accepts(|old(sink.log)|)
    {
      ok := sink.Send(Snap(0));
      EmittedFirst(old(sink.log), sink.accepts, Snap(0));
    }

    /** The snapshot a run sends after iteration `t + 1`, once the previous send was
        accepted and the best has not risen since. */
    method EmitNext(sink: Sink, ghost start: nat, t: nat) returns (ok: bool)
      requires Emitted(sink.log, sink.accepts, start, t) && sink.accepts(start + t)
      requires NotAbove(bestVal, sink.log[start + t].bestValue)
      modifies sink
      ensures sink.log == old(sink.log) + [Snap(t + 1)]
      ensures Emitted(sink.log, sink.accepts, start, t + 1)
      ensures ok == sink.accepts(start + t + 1)
    {
      ok := sink.Send(Snap(t + 1));
      EmittedNext(old(sink.log), sink.accepts, start, t, Snap(t + 1));
    }

    /** A fresh vector, coordinate j drawn uniformly from bound row j
        (Algo.go:111-114; ABC's `randomSolution` draws the same way). */
    method SampleVector() returns (v: array<real>)
      requires Covers(bounds, numDimensions)
      modifies rng
      ensures fresh(v) && v.Length == numDimensions
      ensures rng.pos == old(rng.pos) + numDimensions
      ensures v[..] == SampledRow(bounds, numDimensions, rng.src, old(rng.pos))
    {
      v := new real[numDimensions];
      var j := 0;
      while j < numDimensions
        invariant 0 <= j <= numDimensions
        invariant rng.pos == old(rng.pos) + j
        invariant forall k :: 0 <= k < j ==> v[k] == Sample(bounds[k][0], bounds[k][1], rng.src(old(rng.pos) + k))
      {
        var u := rng.Float64();
        v[j] := Sample(bounds[j][0], bounds[j][1], u);
        j := j + 1;
      }
    }

    /** Algo.go:98-101: one `[-100, 100]` row per dimension. */
    method SetDefaultBounds()
      requires numDimensions >= 0
      modifies this
      ensures numDimensions == old(numDimensions) && iterations == old(iterations)
      ensures bounds == DefaultBounds(numDimensions)
      ensures population == old(population) && populationSize == old(populationSize)
      ensures bestPos == old(bestPos) && bestVal == old(bestVal)
    {
      var b: seq<seq<real>> := [];
      while |b| < numDimensions
        invariant |b| <= numDimensions
        invariant forall j :: 0 <= j < |b| ==> b[j] == [-100.0, 100.0]
      {
        b := b + [[-100.0, 100.0]];
      }
      bounds := b;
    }

    /** Algo.go:108-115: `size` fresh rows, sampled row after row. */
    method SamplePopulation(size: nat)
      requires numDimensions >= 0 && (size == 0 || Covers(bounds, numDimensions))
      modifies this, rng
      ensures bounds == old(bounds) && numDimensions == old(numDimensions)
      ensures iterations == old(iterations) && bestPos == old(bestPos) && bestVal == old(bestVal)
      ensures populationSize == size && fresh(population) && population.Length == size
      ensures DistinctRows()
      ensures rng.pos == old(rng.pos) + size * numDimensions
      ensures forall i :: 0 <= i < size ==> fresh(population[i]) && population[i].Length == numDimensions
      ensures forall i :: 0 <= i < size ==>
        population[i][..] == SampledRows(bounds, numDimensions, rng.src, old(rng.pos), size)[i]
    {
      ghost var want := SampledRows(bounds, numDimensions, rng.src, rng.pos, size);
      var dummy := new real[0];
      var rows := new array<real>[size](_ => dummy);
      var i := 0;
      while i < size
        modifies rng, rows
        invariant 0 <= i <= size
        invariant rng.pos == old(rng.pos) + i * numDimensions
        invariant forall k :: 0 <= k < i ==> fresh(rows[k]) && rows[k].Length == numDimensions
        invariant forall k, l :: 0 <= k < l < i ==> rows[k] != rows[l]
        invariant forall k :: 0 <= k < i ==> rows[k][..] == want[k]
      {
        assert want[i] == SampledRow(bounds, numDimensions, rng.src, rng.pos);
        var row := SampleVector();
        rows[i] := row;
        assert (i + 1) * numDimensions == i * numDimensions + numDimensions;
        i := i + 1;
      }
      population := rows;
      populationSize := size;
    }

    /** Algo.go:117-118: the request's rows become the population, by reference. */
    method Adopt(rows: seq<array<real>>)
      modifies this
      ensures population[..] == rows && populationSize == |rows| && fresh(population)
      ensures bounds == old(bounds) && numDimensions == old(numDimensions) && iterations == old(iterations)
      ensures bestPos == old(bestPos) && bestVal == old(bestVal)
    {
      population := new array<real>[|rows|](k requires 0 <= k < |rows| => rows[k]);
      populationSize := |rows|;
    }

    /** Algo.go:121-127: the strict-`<` scan over the population from the current best,
        as the index of the row that wins (or -1) and the value it reaches. */
    method ScanBest() returns (idx: int, val: Value)
      requires populationSize == population.Length
      ensures (idx, val) == ScanMin(Scores(f, Contents()), (-1, bestVal))
      ensures -1 <= idx < population.Length
    {
      idx, val := -1, bestVal;
      var i := 0;
      while i < populationSize
        invariant 0 <= i <= populationSize
        invariant (idx, val) == ScanMin(Scores(f, Contents())[..i], (-1, bestVal))
        invariant -1 <= idx < i
      {
        var value := f(population[i][..]);
        assert Scores(f, Contents())[..i + 1][..i] == Scores(f, Contents())[..i];
        if Less(value, val) {
          idx, val := i, value;
        }
        i := i + 1;
      }
      assert Scores(f, Contents())[..populationSize] == Scores(f, Contents());
    }

    /** The population and the initial best `NewAlgo` leaves behind, given the stream
        position `p0` it started sampling from. */
    ghost predicate Populated(req: Request, p0: nat)
      reads this, rng, population, population[..]
    {
      && populationSize == population.Length
      // an explicit population is adopted row by row, unchecked against the bounds
      && (req.population.Some? ==> population[..] == req.population.value && rng.pos == p0)
      // otherwise every coordinate is sampled, row by row, dimension by dimension
      && (req.population.None? ==>
            && req.populationSize.Some? && populationSize == req.populationSize.value && numDimensions >= 0
            && (populationSize > 0 ==> Shaped()) && DistinctRows()
            && rng.pos == p0 + populationSize * numDimensions
            && (forall i :: 0 <= i < populationSize ==>
                  population[i][..] == SampledRows(bounds, numDimensions, rng.src, p0, populationSize)[i]))
      // the initial best: a strict-< scan from +Inf, keeping a reference to the first least row
      && var r := ScanMin(Scores(f, Contents()), (-1, PosInf));
         && bestVal == r.1
         && (r.0 < 0 ==> bestPos == null)
         && (r.0 >= 0 ==> 0 <= r.0 < population.Length && bestPos == population[r.0])
    }

    /** Algo.go:107-127: the population (sampled or adopted) and the initial best. */
    method Populate(req: Request)
      requires Validate(req).None?
      requires numDimensions == InitialDimensions(req) && bounds == InitialBounds(req)
      requires bestPos == null && bestVal == PosInf
      requires req.population.None? ==>
        req.populationSize.value >= 0 && !SamplingPanics(req.populationSize.value, numDimensions, bounds)
      modifies this, rng
      ensures numDimensions == old(numDimensions) && bounds == old(bounds) && iterations == old(iterations)
      ensures fresh(population) && populationSize == population.Length
      ensures req.population.None? ==> forall i :: 0 <= i < populationSize ==> fresh(population[i])
      ensures Populated(req, old(rng.pos))
    {
      if req.population.None? {
        SamplePopulation(req.populationSize.value);
      } else {
        Adopt(req.population.value);
      }
      UpdateBest();
    }

    /** Algo.go:121-127 (and SFLA's `updateBest`, the same scan from the stored best):
        only the best position and value move; the value never rises and the position
        becomes a reference to the first row reaching it. */
    method UpdateBest()
      requires populationSize == population.Length
      modifies this`bestPos, this`bestVal
      ensures var r := ScanMin(Scores(f, Contents()), (-1, old(bestVal)));
        && bestVal == r.1
        && (r.0 < 0 ==> bestPos == old(bestPos))
        && (r.0 >= 0 ==> 0 <= r.0 < population.Length && bestPos == population[r.0])
      ensures NotAbove(bestVal, old(bestVal))
    {
      var idx, val := ScanBest();
      ScanMinFindsFirstLeast(Scores(f, Contents()), (-1, bestVal));
      if idx >= 0 {
        bestPos, bestVal := population[idx], val;
      }
    }
  }

  // ---------------------------------------------------------------------
  // Construction
  // ---------------------------------------------------------------------

  /** The part of `AlgoRequest` the engine validates. The formula is compiled outside
      the model (its outcome is a parameter of `NewAlgo`) and the seed only selects
      the random stream, which is itself a parameter. */
  datatype Request = Request(
    iterations: int,
    bounds: Option<seq<seq<real>>>,
    population: Option<seq<array<real>>>,
    populationSize: Option<int>,
    numDimensions: Option<int>)

  datatype Failure =
    | InvalidBounds
    | EmptyPopulation
    | MissingPopulation
    | MissingDimensions
    | BoundsPopulationMismatch
    | BoundsDimensionsMismatch
    | PopulationDimensionsMismatch
    | CompileFailed
    /** the Go code panics: `make` with a negative size, a missing bound entry while sampling,
        or an index past the end of a short slice */
    | Panicked

  /** `len(request.Population)`, 0 for a nil population. */
  function PopulationLength(req: Request): nat
  {
    if req.population.Some? then |req.population.value| else 0
  }

  /** The dimension counts a request states agree pairwise. */
  predicate DimensionsAgree(req: Request)
    requires req.bounds.Some? ==> |req.bounds.value| >= 1
    requires req.population.Some? ==> |req.population.value| >= 1
  {
    && (req.bounds.Some? && req.population.Some? ==> |req.bounds.value[0]| == req.population.value[0].Length)
    && (req.bounds.Some? && req.numDimensions.Some? ==> |req.bounds.value[0]| == req.numDimensions.value)
    && (req.numDimensions.Some? && req.population.Some? ==> req.numDimensions.value == req.population.value[0].Length)
  }

  /** The validation checks of `NewAlgo`, in the order the code makes them. */
  function Validate(req: Request): (err: Option<Failure>)
    ensures req.bounds.Some? && |req.bounds.value| != 2 ==> err == Some(InvalidBounds)
    ensures req.population.Some? && |req.population.value| == 0 ==>
      err == Some(InvalidBounds) || err == Some(EmptyPopulation)
    ensures req.population.None? && req.populationSize.None? ==>
      err == Some(InvalidBounds) || err == Some(MissingPopulation)
    ensures err == Some(MissingDimensions) <==>
      && (req.bounds.None? && req.population.None? && req.numDimensions.None?)
      && req.populationSize.Some?
    ensures err.None? <==>
      && (req.bounds.Some? ==> |req.bounds.value| == 2)
      && (req.population.Some? ==> |req.population.value| >= 1)
      && (req.population.Some? || req.populationSize.Some?)
      && (req.bounds.Some? || req.population.Some? || req.numDimensions.Some?)
      && DimensionsAgree(req)
  {
    if req.bounds.Some? && |req.bounds.value| != 2 then Some(InvalidBounds)
    else if req.population.Some? && |req.population.value| < 1 then Some(EmptyPopulation)
    else if req.population.None? && req.populationSize.None? then Some(MissingPopulation)
    else if req.numDimensions.None? && PopulationLength(req) < 1 && req.bounds.None? then Some(MissingDimensions)
    else if req.bounds.Some? && req.population.Some?
            && |req.bounds.value[0]| != req.population.value[0].Length then Some(BoundsPopulationMismatch)
    else if req.bounds.Some? && req.numDimensions.Some?
            && |req.bounds.value[0]| != req.numDimensions.value then Some(BoundsDimensionsMismatch)
    else if req.numDimensions.Some? && req.population.Some?
            && req.numDimensions.value != req.population.value[0].Length then Some(PopulationDimensionsMismatch)
    else None
  }

  /** `NumDimensions` after construction: bound row 0's length when bounds are given;
      otherwise population row 0's length, but only when no dimension count was given. */
  function InitialDimensions(req: Request): nat
    requires Validate(req).None?
  {
    if req.bounds.None? then
      if req.numDimensions.None? then req.population.value[0].Length else 0
    else |req.bounds.value[0]|
  }

  /** The default bounds: `[-100, 100]` for each of n dimensions. */
  function DefaultBounds(n: nat): (b: seq<seq<real>>)
    ensures |b| == n && forall j :: 0 <= j < n ==> b[j] == [-100.0, 100.0]
  {
    seq(n, _ => [-100.0, 100.0])
  }

  function InitialBounds(req: Request): seq<seq<real>>
    requires Validate(req).None?
  {
    if req.bounds.None? then DefaultBounds(InitialDimensions(req)) else req.bounds.value
  }

  /** Given a dimension count but no bounds, the engine forgets the count: it ends up
      with zero dimensions and no bound rows, so sampled rows are empty. */
  lemma DeclaredDimensionsDroppedWithoutBounds(req: Request)
    requires Validate(req).None? && req.bounds.None? && req.numDimensions.Some?
    ensures InitialDimensions(req) == 0 && InitialBounds(req) == []
  {
  }

  /** Without bounds, every dimension gets the default bounds, which are well ordered and cover it. */
  lemma DefaultBoundsCoverDimensions(req: Request)
    requires Validate(req).None? && req.bounds.None?
    ensures Covers(InitialBounds(req), InitialDimensions(req))
    ensures Ordered(InitialBounds(req), InitialDimensions(req))
    ensures forall j :: 0 <= j < InitialDimensions(req) ==> InitialBounds(req)[j] == [-100.0, 100.0]
  {
  }

  /** Whether sampling a population would index past a bound row (and so panic). */
  predicate SamplingPanics(size: int, n: int, bounds: seq<seq<real>>)
  {
    size > 0 && n > 0 && !Covers(bounds, n)
  }

  /** With request bounds, a population can only be sampled (size and dimensions
      positive) when both bound rows are pairs: the two-row shape check makes the
      whole engine two-dimensional. */
  lemma {:induction false} RequestBoundsMeanTwoDimensions(req: Request, size: int)
    requires Validate(req).None? && req.bounds.Some?
    requires size > 0 && InitialDimensions(req) > 0
    requires !SamplingPanics(size, InitialDimensions(req), InitialBounds(req))
    ensures InitialDimensions(req) == 2
  {
    var b := req.bounds.value;
    assert |b| == 2 && InitialDimensions(req) == |b[0]|;
    assert Covers(b, |b[0]|);
    assert |b[0]| >= 2;
  }

  /** What `NewAlgo` returns, as a function of the request and the draws it consumes. */
  method NewAlgo(req: Request, compiled: Option<Objective>, rng: Rng) returns (algo: Algo?, err: Option<Failure>)
    modifies rng
    ensures (algo != null) <==> err.None?
    // all validation comes first: a rejected request consumes no draw and evaluates nothing
    ensures Validate(req).Some? ==> err == Validate(req) && rng.pos == old(rng.pos)
    ensures Validate(req).None? && compiled.None? ==> err == Some(CompileFailed) && rng.pos == old(rng.pos)
    ensures Validate(req).None? && compiled.Some? ==> err == None || err == Some(Panicked)
    ensures Validate(req).None? && compiled.Some? ==>
      (err == Some(Panicked) <==>
         req.population.None? &&
         (req.populationSize.value < 0 ||
          SamplingPanics(req.populationSize.value, InitialDimensions(req), InitialBounds(req))))
    ensures algo != null ==>
      && fresh(algo) && Validate(req).None? && compiled == Some(algo.f)
      && algo.rng == rng && algo.iterations == req.iterations
      && algo.numDimensions == InitialDimensions(req) && algo.bounds == InitialBounds(req)
      && fresh(algo.population) && algo.Populated(req, old(rng.pos))
      && (req.population.None? ==> forall i :: 0 <= i < algo.populationSize ==> fresh(algo.population[i]))
  {
    err := Validate(req);
    if err.Some? {
      return null, err;
    }
    if compiled.None? {
      return null, Some(CompileFailed);
    }
    var a := new Algo.Init(compiled.value, rng, req.iterations);

    if req.bounds.None? {
      if req.numDimensions.None? {
        a.numDimensions := req.population.value[0].Length;
      }
      a.SetDefaultBounds();
    } else if |req.bounds.value| > 0 {
      a.bounds := req.bounds.value;
      a.numDimensions := |req.bounds.value[0]|;
    }
    assert a.numDimensions == InitialDimensions(req);
    assert a.bounds == InitialBounds(req);

    if req.population.None? {
      var size := req.populationSize.value;
      if size < 0 || SamplingPanics(size, a.numDimensions, a.bounds) {
        return null, Some(Panicked);
      }
    }
    a.Populate(req);
    return a, None;
  }
}
