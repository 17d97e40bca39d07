/** The firefly algorithm of backend-go/algos/FA.go: every firefly moves toward each
    brighter one (lower objective value) in index order, attracted less the farther it
    is, plus a small random step, and the global best follows the fireflies. */
module Fa {
  import opened Values
  import opened Random
  import opened Engine
  import opened General
  import opened Metric

  // ---------------------------------------------------------------------
  // The farthest firefly
  // ---------------------------------------------------------------------

  /** FA.go:50-63 over the first `n` rows: the largest distance from firefly `i` to
      another firefly, kept by a strict `>` from 0. */
  function Farthest(m: Math, rows: seq<seq<real>>, i: int, n: int): real
    requires 0 <= i < |rows| && 0 <= n <= |rows| && Grid(rows, |rows[i]|)
  {
    if n == 0 then 0.0
    else
      var prev := Farthest(m, rows, i, n - 1);
      if n - 1 != i && Spread(m, rows[i], rows[n - 1]) > prev then Spread(m, rows[i], rows[n - 1]) else prev
  }

  /** The scan answers the largest distance to another firefly among the first `n`
      rows, or 0 when there is none, or when every distance is below 0. */
  lemma {:induction false} FarthestIsLargest(m: Math, rows: seq<seq<real>>, i: int, n: int)
    requires 0 <= i < |rows| && 0 <= n <= |rows| && Grid(rows, |rows[i]|)
    ensures forall j :: 0 <= j < n && j != i ==> Spread(m, rows[i], rows[j]) <= Farthest(m, rows, i, n)
    ensures 0.0 <= Farthest(m, rows, i, n)
    ensures Farthest(m, rows, i, n) == 0.0 ||
      exists j :: 0 <= j < n && j != i && Farthest(m, rows, i, n) == Spread(m, rows[i], rows[j])
  {
    if n > 0 {
      FarthestIsLargest(m, rows, i, n - 1);
    }
  }

  /** With a genuine square root the farthest distance is zero exactly when every other
      firefly sits where firefly `i` is; in particular it is zero for a single firefly. */
  lemma {:induction false} FarthestZeroIffCoincide(m: Math, rows: seq<seq<real>>, i: int)
    requires 0 <= i < |rows| && Grid(rows, |rows[i]|) && m.Sound()
    ensures Farthest(m, rows, i, |rows|) == 0.0 <==> forall j :: 0 <= j < |rows| && j != i ==> rows[j] == rows[i]
  {
    FarthestIsLargest(m, rows, i, |rows|);
    var far := Farthest(m, rows, i, |rows|);
    if far == 0.0 {
      forall j | 0 <= j < |rows| && j != i
        ensures rows[j] == rows[i]
      {
        SquaredDistanceZero(m.pow2, rows[i], rows[j]);
      }
    } else {
      var j :| 0 <= j < |rows| && j != i && far == Spread(m, rows[i], rows[j]);
      SquaredDistanceZero(m.pow2, rows[i], rows[j]);
    }
  }

  // ---------------------------------------------------------------------
  // One move
  // ---------------------------------------------------------------------

  /** `Beta0 * exp(-gammaI * r * r)` with `gammaI = Gamma / maxDistance`: the attraction
      at distance `r`. */
  function Attraction(m: Math, beta0: real, gammaI: real, r: real): real
  {
    beta0 * m.exp(-gammaI * r * r)
  }

  /** One coordinate of `UpdatePosition` (FA.go:100-103): attraction `beta` toward `b`,
      a random step `alpha * (u - 0.5)`, then the clamp. */
  function Coordinate(lo: real, hi: real, a: real, b: real, beta: real, alpha: real, u: real): real
  {
    Clamp(lo, hi, a + beta * (b - a) + alpha * (u - 0.5))
  }

  /** The coordinates of a move with attraction factor `beta`, coordinate k drawing
      `src(p + k)` and clamped to bound row k. */
  function Drift(bounds: seq<seq<real>>, x: seq<real>, xj: seq<real>, beta: real, alpha: real,
                 src: nat -> Unit, p: nat): (y: seq<real>)
    requires |xj| == |x| && Covers(bounds, |x|)
    ensures |y| == |x|
    ensures Ordered(bounds, |x|) ==> InBounds(y, bounds)
  {
    seq(|x|, k requires 0 <= k < |x| => Coordinate(bounds[k][0], bounds[k][1], x[k], xj[k], beta, alpha, src(p + k)))
  }

  /** `UpdatePosition(x, xj, maxDistance)` reading draws from position `p`: a fresh
      vector, coordinate k from draw `p + k`, each one clamped to its bound row. */
  function Moved(m: Math, alpha: real, beta0: real, gamma: real, x: seq<real>, xj: seq<real>, maxDistance: real,
                 bounds: seq<seq<real>>, src: nat -> Unit, p: nat): (y: seq<real>)
    requires |xj| == |x| && Covers(bounds, |x|) && maxDistance != 0.0
    ensures |y| == |x|
    ensures Ordered(bounds, |x|) ==> InBounds(y, bounds)
  {
    Drift(bounds, x, xj, Attraction(m, beta0, gamma / maxDistance, Distance(m, x, xj)), alpha, src, p)
  }

  /** Coordinate k of a drift, for the loop that builds one entry at a time. */
  lemma DriftAt(bounds: seq<seq<real>>, x: seq<real>, xj: seq<real>, beta: real, alpha: real, src: nat -> Unit, p: nat, k: nat)
    requires |xj| == |x| && Covers(bounds, |x|) && k < |x|
    ensures Drift(bounds, x, xj, beta, alpha, src, p)[k] == Coordinate(bounds[k][0], bounds[k][1], x[k], xj[k], beta, alpha, src(p + k))
  {
  }

  /** Without the random step (`Alpha` 0) and with an attraction in [0, 1], a move
      between two in-bounds fireflies is never clamped: it is the exact convex step
      toward the brighter one, the same step the other strategies take. */
  lemma {:induction false} NoiselessMoveIsConvex(m: Math, beta0: real, gamma: real, x: seq<real>, xj: seq<real>,
                                                 maxDistance: real, bounds: seq<seq<real>>, src: nat -> Unit, p: nat)
    requires |xj| == |x| && InBounds(x, bounds) && InBounds(xj, bounds) && maxDistance != 0.0
    requires 0.0 <= Attraction(m, beta0, gamma / maxDistance, Distance(m, x, xj)) <= 1.0
    ensures var beta := Attraction(m, beta0, gamma / maxDistance, Distance(m, x, xj));
      && Moved(m, 0.0, beta0, gamma, x, xj, maxDistance, bounds, src, p) == Toward(x, xj, beta, bounds)
      && forall k :: 0 <= k < |x| ==> Moved(m, 0.0, beta0, gamma, x, xj, maxDistance, bounds, src, p)[k] == x[k] + beta * (xj[k] - x[k])
  {
    var beta := Attraction(m, beta0, gamma / maxDistance, Distance(m, x, xj));
    var y := Moved(m, 0.0, beta0, gamma, x, xj, maxDistance, bounds, src, p);
    assert y == Drift(bounds, x, xj, beta, 0.0, src, p);
    forall k | 0 <= k < |x|
      ensures y[k] == Toward(x, xj, beta, bounds)[k]
    {
      DriftAt(bounds, x, xj, beta, 0.0, src, p, k);
      assert 0.0 * (src(p + k) - 0.5) == 0.0;
    }
    assert y == Toward(x, xj, beta, bounds);
    TowardIsConvexInsideBounds(x, xj, beta, bounds);
  }

  // ---------------------------------------------------------------------
  // One iteration, as values
  // ---------------------------------------------------------------------

  /** What one iteration depends on besides the fireflies: the objective, `Alpha`,
      `Beta0`, `Gamma`, the two library functions, the bounds, the dimension count and
      the random stream. */
  datatype Rules = Rules(f: Objective, alpha: real, beta0: real, gamma: real, math: Math,
                         bounds: seq<seq<real>>, n: nat, src: nat -> Unit)
  {
    /** The shape an iteration relies on: a bound row per dimension and a genuine square root. */
    ghost predicate Sound()
    {
      Covers(bounds, n) && math.Sound()
    }
  }

  /** FA.go:65-72 for firefly `i`, from index `j` on, with `x` its current position and
      `p` the stream position: it moves toward `rows[k]` whenever that firefly is
      strictly brighter than its current position, re-evaluated after every move.
      Answers the final position and stream position. When the farthest distance
      `maxDistance` is zero every other firefly sits on `x`, so no move divides by it. */
  function Pursuit(r: Rules, rows: seq<seq<real>>, i: int, j: int, x: seq<real>, maxDistance: real, p: nat): (out: (seq<real>, nat))
    requires r.Sound() && 0 <= i < |rows| && 0 <= j <= |rows| && Grid(rows, r.n) && |x| == r.n
    requires maxDistance == 0.0 ==> forall k :: j <= k < |rows| && k != i ==> rows[k] == x
    decreases |rows| - j
    ensures |out.0| == r.n && p <= out.1
    ensures Ordered(r.bounds, r.n) && InBounds(x, r.bounds) ==> InBounds(out.0, r.bounds)
  {
    if j == |rows| then (x, p)
    else if j == i || !Less(r.f(rows[j]), r.f(x)) then Pursuit(r, rows, i, j + 1, x, maxDistance, p)
    else
      LessIsStrictOrder(r.f(x), r.f(x), r.f(x));
      var y := Moved(r.math, r.alpha, r.beta0, r.gamma, x, rows[j], maxDistance, r.bounds, r.src, p);
      Pursuit(r, rows, i, j + 1, y, maxDistance, p + r.n)
  }

  /** One step of a pursuit: firefly `j` is skipped or moved toward. */
  lemma PursuitStep(r: Rules, rows: seq<seq<real>>, i: int, j: int, x: seq<real>, maxDistance: real, p: nat)
    requires r.Sound() && 0 <= i < |rows| && 0 <= j < |rows| && Grid(rows, r.n) && |x| == r.n
    requires maxDistance == 0.0 ==> forall k :: j <= k < |rows| && k != i ==> rows[k] == x
    ensures j == i || !Less(r.f(rows[j]), r.f(x)) ==>
      Pursuit(r, rows, i, j, x, maxDistance, p) == Pursuit(r, rows, i, j + 1, x, maxDistance, p)
    ensures j != i && Less(r.f(rows[j]), r.f(x)) ==> maxDistance != 0.0
    ensures j != i && Less(r.f(rows[j]), r.f(x)) ==>
      Pursuit(r, rows, i, j, x, maxDistance, p) ==
      Pursuit(r, rows, i, j + 1, Moved(r.math, r.alpha, r.beta0, r.gamma, x, rows[j], maxDistance, r.bounds, r.src, p),
              maxDistance, p + r.n)
  {
    if j != i && Less(r.f(rows[j]), r.f(x)) {
      LessIsStrictOrder(r.f(x), r.f(x), r.f(x));
    }
  }

  /** In a space with at least one dimension, a firefly consumes no draw exactly when
      no later firefly is strictly brighter than it, and then it does not move. */
  lemma {:induction false} PursuitStaysIffNoneBrighter(r: Rules, rows: seq<seq<real>>, i: int, j: int, x: seq<real>,
                                                       maxDistance: real, p: nat)
    requires r.Sound() && 0 <= i < |rows| && 0 <= j <= |rows| && Grid(rows, r.n) && |x| == r.n
    requires maxDistance == 0.0 ==> forall k :: j <= k < |rows| && k != i ==> rows[k] == x
    requires r.n > 0
    decreases |rows| - j
    ensures Pursuit(r, rows, i, j, x, maxDistance, p).1 == p <==>
      forall k :: j <= k < |rows| && k != i ==> !Less(r.f(rows[k]), r.f(x))
    ensures (forall k :: j <= k < |rows| && k != i ==> !Less(r.f(rows[k]), r.f(x))) ==>
      Pursuit(r, rows, i, j, x, maxDistance, p) == (x, p)
  {
    if j < |rows| {
      if j == i || !Less(r.f(rows[j]), r.f(x)) {
        PursuitStaysIffNoneBrighter(r, rows, i, j + 1, x, maxDistance, p);
      } else {
        LessIsStrictOrder(r.f(x), r.f(x), r.f(x));
        var y := Moved(r.math, r.alpha, r.beta0, r.gamma, x, rows[j], maxDistance, r.bounds, r.src, p);
        assert Pursuit(r, rows, i, j, x, maxDistance, p) == Pursuit(r, rows, i, j + 1, y, maxDistance, p + r.n);
      }
    }
  }

  /** Firefly `i`'s pursuit over the whole population (FA.go:50-72): from the stream
      position `p`, with the farthest distance computed first. */
  function Pursued(r: Rules, rows: seq<seq<real>>, i: int, p: nat): (out: (seq<real>, nat))
    requires r.Sound() && 0 <= i < |rows| && Grid(rows, r.n)
    ensures |out.0| == r.n && p <= out.1
    ensures Ordered(r.bounds, r.n) && InBounds(rows[i], r.bounds) ==> InBounds(out.0, r.bounds)
  {
    FarthestZeroIffCoincide(r.math, rows, i);
    Pursuit(r, rows, i, 0, rows[i], Farthest(r.math, rows, i, |rows|), p)
  }

  /** The fireflies, the global best as a value, and the stream position. */
  datatype Swarm = Swarm(rows: seq<seq<real>>, bestPos: Option<seq<real>>, bestVal: Value, pos: nat)

  /** The turn of firefly `i` (FA.go:50-76): the farthest distance, the pursuit, then
      the global best takes the firefly's new position if it is strictly better. The
      best position is that very row, a reference in the code. */
  function Turn(r: Rules, s: Swarm, i: int): (t: Swarm)
    requires r.Sound() && 0 <= i < |s.rows| && Grid(s.rows, r.n)
    ensures |t.rows| == |s.rows| && Grid(t.rows, r.n)
    ensures NotAbove(t.bestVal, s.bestVal)
    ensures Honest(r.f, s.bestPos, s.bestVal) ==> Honest(r.f, t.bestPos, t.bestVal)
    ensures Ordered(r.bounds, r.n) && Inside(s.rows, s.bestPos, r.bounds) ==> Inside(t.rows, t.bestPos, r.bounds)
  {
    var out := Pursued(r, s.rows, i, s.pos);
    var x := out.0;
    if Less(r.f(x), s.bestVal) then Swarm(s.rows[i := x], Some(x), r.f(x), out.1)
    else Swarm(s.rows[i := x], s.bestPos, s.bestVal, out.1)
  }

  /** The turns of fireflies `i`, `i + 1`, ... of one iteration (FA.go:49-77). */
  function Flight(r: Rules, s: Swarm, i: int): (t: Swarm)
    requires r.Sound() && 0 <= i <= |s.rows| && Grid(s.rows, r.n)
    decreases |s.rows| - i
    ensures |t.rows| == |s.rows| && Grid(t.rows, r.n)
  {
    if i == |s.rows| then s else Flight(r, Turn(r, s, i), i + 1)
  }

  /** One turn of a flight. */
  lemma FlightStep(r: Rules, s: Swarm, i: int)
    requires r.Sound() && 0 <= i < |s.rows| && Grid(s.rows, r.n)
    ensures Flight(r, s, i) == Flight(r, Turn(r, s, i), i + 1)
  {
  }

  /** Over an iteration the global best never rises and stays the value of its
      position, and fireflies and best stay within well-ordered bounds. */
  lemma {:induction false} FlightKeepsInvariants(r: Rules, s: Swarm, i: int)
    requires r.Sound() && 0 <= i <= |s.rows| && Grid(s.rows, r.n)
    decreases |s.rows| - i
    ensures NotAbove(Flight(r, s, i).bestVal, s.bestVal)
    ensures Honest(r.f, s.bestPos, s.bestVal) ==> Honest(r.f, Flight(r, s, i).bestPos, Flight(r, s, i).bestVal)
    ensures Ordered(r.bounds, r.n) && Inside(s.rows, s.bestPos, r.bounds) ==>
      Inside(Flight(r, s, i).rows, Flight(r, s, i).bestPos, r.bounds)
  {
    if i < |s.rows| {
      var t := Turn(r, s, i);
      FlightKeepsInvariants(r, t, i + 1);
      NotAboveTransitive(Flight(r, t, i + 1).bestVal, t.bestVal, s.bestVal);
    }
  }

  // ---------------------------------------------------------------------
  // The algorithm
  // ---------------------------------------------------------------------

  datatype FaRequest = FaRequest(base: Request, beta0: Option<real>, gamma: Option<real>, alpha: Option<real>)

  class Fireflies {
    const algo: Algo
    const alpha: real
    const beta0: real
    const gamma: real
    const math: Math

    /** `req` and `p0` only carry the construction of `algo` through. */
    constructor (algo: Algo, alpha: real, beta0: real, gamma: real, math: Math, ghost req: Request, ghost p0: nat)
      requires algo.Populated(req, p0)
      ensures this.algo == algo && this.alpha == alpha && this.beta0 == beta0 && this.gamma == gamma
      ensures this.math == math
      ensures algo.Populated(req, p0)
    {
      this.algo := algo;
      this.alpha := alpha;
      this.beta0 := beta0;
      this.gamma := gamma;
      this.math := math;
    }

    /** The engine's shape and a genuine square root. */
    ghost predicate Valid()
      reads algo, algo.population
    {
      algo.Shaped() && math.Sound()
    }

    /** The constants of an iteration. */
    function Law(): Rules
      reads algo`bounds, algo`numDimensions
      requires 0 <= algo.numDimensions
    {
      Rules(algo.f, alpha, beta0, gamma, math, algo.bounds, algo.numDimensions, algo.rng.src)
    }

    /** The fireflies, the global best and the stream position, as values. */
    function State(): Swarm
      reads algo, algo.population, algo.population[..], algo.bestPos, algo.rng
    {
      Swarm(algo.Contents(), algo.BestView(), algo.bestVal, algo.rng.pos)
    }

    /** Every firefly and the best position lie within well-ordered bounds. */
    ghost predicate Confined()
      reads algo, algo.population, algo.population[..], algo.bestPos
    {
      Ordered(algo.bounds, algo.numDimensions) && Inside(algo.Contents(), algo.BestView(), algo.bounds)
    }

    /** The global best is the value of the best position. */
    ghost predicate Truthful()
      reads algo, algo.bestPos
    {
      Honest(algo.f, algo.BestView(), algo.bestVal)
    }

    /** The running sum of squared differences, squaring with `sq`: `math.Pow(d, 2)`
        in the distance scan, `d * d` in `calculateDistance`. */
    method SumOfSquares(a: array<real>, b: array<real>, sq: real -> real) returns (s: real)
      requires a.Length == b.Length
      ensures s == SquaredDistance(sq, a[..], b[..])
    {
      s := 0.0;
      var k := 0;
      while k < a.Length
        invariant 0 <= k <= a.Length
        invariant s == SquaredDistance(sq, a[..k], b[..k])
      {
        assert a[..k + 1][..k] == a[..k] && b[..k + 1][..k] == b[..k];
        s := s + sq(a[k] - b[k]);
        k := k + 1;
      }
      assert a[..] == a[..a.Length] && b[..] == b[..b.Length];
    }

    /** `calculateDistance` (FA.go:109-115). */
    method CalculateDistance(a: array<real>, b: array<real>) returns (d: real)
      requires a.Length == b.Length
      ensures d == Distance(math, a[..], b[..])
    {
      var s := SumOfSquares(a, b, Times);
      d := math.sqrt(s);
    }

    /** FA.go:50-63: the largest distance from firefly `i` to another one, 0 if none. */
    method MaxDistance(i: int) returns (maxDistance: real)
      requires Valid() && 0 <= i < algo.populationSize
      ensures maxDistance == Farthest(math, algo.Contents(), i, algo.populationSize)
    {
      ghost var rows := algo.Contents();
      assert Grid(rows, |rows[i]|);
      maxDistance := 0.0;
      var j := 0;
      while j < algo.populationSize
        invariant 0 <= j <= algo.populationSize
        invariant maxDistance == Farthest(math, rows, i, j)
      {
        if i != j {
          assert rows[i] == algo.population[i][..] && rows[j] == algo.population[j][..];
          var rij := SumOfSquares(algo.population[i], algo.population[j], math.pow2);
          rij := math.sqrt(rij);
          if rij > maxDistance {
            maxDistance := rij;
          }
        }
        j := j + 1;
      }
    }

    /** `UpdatePosition` (FA.go:92-107): a fresh vector, one draw per coordinate. */
    method UpdatePosition(xi: array<real>, xj: array<real>, maxDistance: real) returns (x: array<real>)
      requires xi.Length == xj.Length && Covers(algo.bounds, xi.Length) && maxDistance != 0.0
      modifies algo.rng
      ensures fresh(x)
      ensures x[..] == Moved(math, alpha, beta0, gamma, xi[..], xj[..], maxDistance, algo.bounds, algo.rng.src, old(algo.rng.pos))
      ensures algo.rng.pos == old(algo.rng.pos) + xi.Length
    {
      x := new real[xi.Length];
      var rij := CalculateDistance(xi, xj);
      var gammaI := gamma / maxDistance;
      // the factor `Beta0 * exp(-gamma_i * rij * rij)` of FA.go:100, the same for every coordinate
      var beta := Attraction(math, beta0, gammaI, rij);
      ghost var p0 := algo.rng.pos;
      ghost var a, b := xi[..], xj[..];
      assert beta == Attraction(math, beta0, gamma / maxDistance, Distance(math, a, b));
      var bounds := algo.bounds;
      ghost var want := Drift(bounds, a, b, beta, alpha, algo.rng.src, p0);
      var k := 0;
      while k < xi.Length
        invariant 0 <= k <= xi.Length
        invariant algo.rng.pos == p0 + k
        invariant x[..k] == want[..k]
      {
        var randValue := algo.rng.Float64();
        DriftAt(bounds, a, b, beta, alpha, algo.rng.src, p0, k);
        x[k] := Coordinate(bounds[k][0], bounds[k][1], xi[k], xj[k], beta, alpha, randValue);
        k := k + 1;
      }
      assert x[..] == x[..xi.Length];
    }

    /** `Population[i] = fa.UpdatePosition(Population[i], Population[j], maxDistance)`
        (FA.go:69): row `i` is replaced by the fresh moved vector. */
    method Relocate(i: int, j: int, maxDistance: real)
      requires Valid() && 0 <= i < algo.populationSize && 0 <= j < algo.populationSize && maxDistance != 0.0
      modifies algo.population, algo.rng
      ensures Valid()
      ensures forall k :: 0 <= k < algo.population.Length && k != i ==> algo.population[k] == old(algo.population[k])
      ensures fresh(algo.population[i])
      ensures algo.population[i][..] == Moved(math, alpha, beta0, gamma, old(algo.population[i][..]), old(algo.population[j][..]),
                                              maxDistance, algo.bounds, algo.rng.src, old(algo.rng.pos))
      ensures algo.rng.pos == old(algo.rng.pos) + algo.numDimensions
    {
      var moved := UpdatePosition(algo.population[i], algo.population[j], maxDistance);
      ghost var y := moved[..];
      algo.population[i] := moved;
      assert algo.population[i][..] == y;
    }

    /** One pass of the loop at FA.go:65-72: firefly `i` moves toward firefly `j` when
        that one is strictly brighter than `i`'s current position. */
    method Approach(i: int, j: int, maxDistance: real, ghost rows: seq<seq<real>>, ghost law: Rules)
      requires Valid() && 0 <= i < algo.populationSize && 0 <= j < algo.populationSize
      requires law == Law() && |rows| == algo.populationSize && Grid(rows, law.n)
      requires j != i ==> algo.population[j][..] == rows[j]
      requires maxDistance == 0.0 ==> forall k :: j <= k < |rows| && k != i ==> rows[k] == algo.population[i][..]
      modifies algo.population, algo.rng
      ensures Valid()
      ensures forall k :: 0 <= k < algo.population.Length && k != i ==> algo.population[k] == old(algo.population[k])
      ensures algo.population[i] == old(algo.population[i]) || fresh(algo.population[i])
      ensures maxDistance == 0.0 ==> algo.population[i][..] == old(algo.population[i][..])
      ensures Pursuit(law, rows, i, j + 1, algo.population[i][..], maxDistance, algo.rng.pos) ==
        Pursuit(law, rows, i, j, old(algo.population[i][..]), maxDistance, old(algo.rng.pos))
    {
      ghost var x, p := algo.population[i][..], algo.rng.pos;
      PursuitStep(law, rows, i, j, x, maxDistance, p);
      if i != j && Less(algo.f(algo.population[j][..]), algo.f(algo.population[i][..])) {
        assert Less(law.f(rows[j]), law.f(x));
        Relocate(i, j, maxDistance);
      }
    }

    /** What the pursuit loop of `Chase` keeps after the passes before `j`: only slot `i`
        holds another array, no row is written, and the rest of the pursuit from the
        current row and stream position ends where the whole pursuit from `p0` does. */
    ghost predicate Chasing(i: int, j: int, maxDistance: real, rows: seq<seq<real>>, law: Rules,
                            arrays0: seq<array<real>>, p0: nat)
      reads this, algo, algo.population, algo.population[..], algo.rng
    {
      && Valid() && law == Law() && law.Sound() && |rows| == algo.populationSize && Grid(rows, law.n)
      && 0 <= i < |rows| && 0 <= j <= |rows| && |arrays0| == algo.population.Length
      && (forall k :: 0 <= k < algo.population.Length && k != i ==> algo.population[k] == arrays0[k])
      && (forall k :: 0 <= k < |rows| && k != i ==> algo.population[k][..] == rows[k])
      && (maxDistance == 0.0 ==> algo.population[i][..] == rows[i])
      && (maxDistance == 0.0 ==> forall k :: 0 <= k < |rows| && k != i ==> rows[k] == rows[i])
      && Pursuit(law, rows, i, j, algo.population[i][..], maxDistance, algo.rng.pos) ==
         Pursuit(law, rows, i, 0, rows[i], maxDistance, p0)
    }

    /** One pass of the pursuit loop keeps `Chasing`. */
    method ChaseStep(i: int, j: int, maxDistance: real, ghost rows: seq<seq<real>>, ghost law: Rules,
                     ghost arrays0: seq<array<real>>, ghost p0: nat)
      requires Chasing(i, j, maxDistance, rows, law, arrays0, p0) && j < |rows|
      modifies algo.population, algo.rng
      ensures Chasing(i, j + 1, maxDistance, rows, law, arrays0, p0)
      ensures algo.population[i] == old(algo.population[i]) || fresh(algo.population[i])
    {
      Approach(i, j, maxDistance, rows, law);
    }

    /** FA.go:65-72: firefly `i` moves toward every strictly brighter firefly in index
        order; each move puts a fresh row in its slot, so no row is written in place.
        `rows` is the population's contents on entry. */
    method Chase(i: int, maxDistance: real, ghost rows: seq<seq<real>>)
      requires Valid() && 0 <= i < algo.populationSize && rows == algo.Contents()
      requires maxDistance == Farthest(math, rows, i, algo.populationSize)
      modifies algo.population, algo.rng
      ensures Valid()
      ensures forall k :: 0 <= k < algo.population.Length && k != i ==> algo.population[k] == old(algo.population[k])
      ensures algo.population[i] == old(algo.population[i]) || fresh(algo.population[i])
      ensures (algo.population[i][..], algo.rng.pos) == Pursued(Law(), rows, i, old(algo.rng.pos))
    {
      FarthestZeroIffCoincide(math, rows, i);
      ghost var law, arrays0 := Law(), algo.population[..];
      assert law.Sound() && Grid(rows, law.n);
      ChaseAll(i, maxDistance, rows, law, arrays0, old(algo.rng.pos));
      assert Pursuit(law, rows, i, |rows|, algo.population[i][..], maxDistance, algo.rng.pos) ==
        (algo.population[i][..], algo.rng.pos);
    }

    /** The pursuit loop of `Chase` (FA.go:65-72), every firefly in index order. */
    method ChaseAll(i: int, maxDistance: real, ghost rows: seq<seq<real>>, ghost law: Rules,
                    ghost arrays0: seq<array<real>>, ghost p0: nat)
      requires Chasing(i, 0, maxDistance, rows, law, arrays0, p0)
      modifies algo.population, algo.rng
      ensures Chasing(i, |rows|, maxDistance, rows, law, arrays0, p0)
      ensures algo.population[i] == old(algo.population[i]) || fresh(algo.population[i])
    {
      var j := 0;
      while j < algo.populationSize
        invariant Chasing(i, j, maxDistance, rows, law, arrays0, p0)
        invariant algo.population[i] == old(algo.population[i]) || fresh(algo.population[i])
      {
        ChaseStep(i, j, maxDistance, rows, law, arrays0, p0);
        j := j + 1;
      }
    }

    /** FA.go:50-72 for firefly `i`: the farthest distance, then the pursuit. Only row
        `i` changes, to the pursuit's final position. */
    method Pursue(i: int)
      requires Valid() && 0 <= i < algo.populationSize
      modifies algo.population, algo.rng
      ensures Valid()
      ensures var out := Pursued(Law(), old(algo.Contents()), i, old(algo.rng.pos));
        algo.Contents() == old(algo.Contents())[i := out.0] && algo.rng.pos == out.1
    {
      ghost var rows := algo.Contents();
      var maxDistance := MaxDistance(i);
      Chase(i, maxDistance, rows);
      ghost var after := algo.Contents();
      ghost var x := algo.population[i][..];
      forall k | 0 <= k < |rows|
        ensures after[k] == rows[i := x][k]
      {
      }
      assert after == rows[i := x];
    }

    /** FA.go:73-76: the global best takes row `i`, by reference, when its value is
        strictly better than the best so far. */
    method Remember(i: int)
      requires Valid() && 0 <= i < algo.populationSize
      modifies algo`bestPos, algo`bestVal
      ensures Valid() && algo.Contents() == old(algo.Contents())
      ensures Less(algo.f(algo.population[i][..]), old(algo.bestVal)) ==>
        algo.bestVal == algo.f(algo.population[i][..]) && algo.BestView() == Some(algo.population[i][..])
      ensures !Less(algo.f(algo.population[i][..]), old(algo.bestVal)) ==>
        algo.bestVal == old(algo.bestVal) && algo.bestPos == old(algo.bestPos)
    {
      var value := algo.f(algo.population[i][..]);
      if Less(value, algo.bestVal) {
        algo.bestVal := value;
        algo.bestPos := algo.population[i];
      }
    }

    /** The turn of firefly `i` (FA.go:50-76). */
    method TakeTurn(i: int)
      requires Valid() && 0 <= i < algo.populationSize
      modifies algo.population, algo.rng, algo`bestPos, algo`bestVal
      ensures Valid()
      ensures State() == Turn(Law(), old(State()), i)
    {
      ghost var s, law := State(), Law();
      Pursue(i);
      ghost var t := Turn(law, s, i);
      assert algo.Contents() == t.rows && algo.rng.pos == t.pos;
      Remember(i);
      assert algo.BestView() == t.bestPos && algo.bestVal == t.bestVal;
      assert State() == t;
    }

    /** One iteration's turns, fireflies in index order (FA.go:49-77). */
    method Sweep()
      requires Valid()
      modifies algo.population, algo.rng, algo`bestPos, algo`bestVal
      ensures Valid()
      ensures State() == Flight(Law(), old(State()), 0)
    {
      ghost var law := Law();
      ghost var cur := State();
      var i := 0;
      while i < algo.populationSize
        invariant 0 <= i <= algo.populationSize
        invariant Valid() && cur == State()
        invariant |cur.rows| == algo.populationSize && Grid(cur.rows, law.n)
        invariant Flight(law, cur, i) == Flight(law, old(State()), 0)
      {
        TakeTurn(i);
        FlightStep(law, cur, i);
        cur := Turn(law, cur, i);
        i := i + 1;
      }
    }

    /** The state change of one iteration: the best never rises, stays the value of its
        position, and fireflies and best stay within well-ordered bounds. */
    method Advance()
      requires Valid()
      modifies algo.population, algo.rng, algo`bestPos, algo`bestVal
      ensures Valid()
      ensures State() == Flight(Law(), old(State()), 0)
      ensures NotAbove(algo.bestVal, old(algo.bestVal))
      ensures old(Truthful()) ==> Truthful()
      ensures old(Confined()) ==> Confined()
    {
      ghost var s, law := State(), Law();
      Sweep();
      FlightKeepsInvariants(law, s, 0);
    }

    /** One iteration of `Run` (FA.go:49-87): the turns, then the snapshot. */
    method Round(sink: Sink, ghost start: nat, t: nat) returns (ok: bool)
      requires Valid()
      requires Emitted(sink.log, sink.accepts, start, t) && sink.accepts(start + t)
      requires sink.log[start + t].bestValue == algo.bestVal
      modifies algo.population, algo.rng, algo`bestPos, algo`bestVal, sink
      ensures Valid()
      ensures |sink.log| == |old(sink.log)| + 1 && sink.log[..|old(sink.log)|] == old(sink.log)
      ensures sink.log[|sink.log| - 1].bestValue == algo.bestVal
      ensures Emitted(sink.log, sink.accepts, start, t + 1)
      ensures ok == sink.accepts(start + t + 1)
      ensures NotAbove(algo.bestVal, old(algo.bestVal))
      ensures old(Truthful()) ==> Truthful()
      ensures old(Confined()) ==> Confined()
    {
      Advance();
      ok := algo.EmitNext(sink, start, t);
    }

    /** `Run` (FA.go:37-90): a snapshot before the first iteration and one after each
        iteration, stopping at the first refused `send`; the answer is the best row (by
        reference) and the best value. */
    method Run(sink: Sink) returns (bestPos: array?<real>, bestVal: Value)
      requires Valid()
      modifies algo.population, algo.rng, algo`bestPos, algo`bestVal, sink
      ensures Valid()
      ensures Reported(sink.log, old(sink.log), sink.accepts, algo.iterations)
      ensures sink.log[|sink.log| - 1].bestValue == bestVal
      ensures bestPos == algo.bestPos && bestVal == algo.bestVal
      ensures NotAbove(bestVal, old(algo.bestVal))
      ensures old(Truthful()) ==> Truthful()
      ensures old(Confined()) ==> Confined()
    {
      ghost var truthful, confined := Truthful(), Confined();
      var ok := algo.EmitFirst(sink);
      assert truthful == Truthful() && confined == Confined();
      var t := Iterations(sink, old(sink.log), ok);
      EmittedRun(sink.log, old(sink.log), sink.accepts, t, algo.iterations);
      bestPos, bestVal := algo.bestPos, algo.bestVal;
    }

    /** The iterations of `Run` after its first snapshot: `t` of them complete, and the
        run ends after the last one or at a refused send. */
    method Iterations(sink: Sink, ghost before: seq<Snapshot>, ok: bool) returns (t: nat)
      requires Valid()
      requires Emitted(sink.log, sink.accepts, |before|, 0) && sink.log[..|before|] == before
      requires ok == sink.accepts(|before|) && sink.log[|before|].bestValue == algo.bestVal
      modifies algo.population, algo.rng, algo`bestPos, algo`bestVal, sink
      ensures Valid()
      ensures Emitted(sink.log, sink.accepts, |before|, t) && sink.log[..|before|] == before
      ensures t <= Max0(algo.iterations) && (t == Max0(algo.iterations) || !sink.accepts(|sink.log| - 1))
      ensures sink.log[|sink.log| - 1].bestValue == algo.bestVal
      ensures NotAbove(algo.bestVal, old(algo.bestVal))
      ensures old(Truthful()) ==> Truthful()
      ensures old(Confined()) ==> Confined()
    {
      ghost var start := |before|;
      ghost var truthful, confined := Truthful(), Confined();
      var go := ok;
      t := 0;
      while go && t < algo.iterations
        invariant 0 <= t <= Max0(algo.iterations)
        invariant Valid()
        invariant Emitted(sink.log, sink.accepts, start, t) && sink.log[..start] == before
        invariant go == sink.accepts(start + t)
        invariant sink.log[start + t].bestValue == algo.bestVal
        invariant NotAbove(algo.bestVal, old(algo.bestVal))
        invariant truthful ==> Truthful()
        invariant confined ==> Confined()
      {
        ghost var best := algo.bestVal;
        go := Round(sink, start, t);
        NotAboveTransitive(algo.bestVal, best, old(algo.bestVal));
        t := t + 1;
      }
    }
  }

  /** `NewFA` (FA.go:23-35): the engine's construction, then `Alpha` 0.01, `Beta0` 1.0
      and `Gamma` 0.8 unless the request says otherwise. `math` stands for Go's `math`
      package. */
  method NewFA(req: FaRequest, compiled: Option<Objective>, rng: Rng, math: Math) returns (fa: Fireflies?, err: Option<Failure>)
    modifies rng
    ensures (fa != null) <==> err.None?
    ensures Validate(req.base).Some? ==> err == Validate(req.base) && rng.pos == old(rng.pos)
    ensures Validate(req.base).None? && compiled.None? ==> err == Some(CompileFailed)
    ensures fa != null ==>
      && fresh(fa) && fresh(fa.algo)
      && fa.algo.rng == rng && compiled == Some(fa.algo.f) && fa.math == math
      && fa.algo.Populated(req.base, old(rng.pos))
      && fa.algo.numDimensions == InitialDimensions(req.base)
      && fa.alpha == SetDefault(req.alpha, 0.01)
      && fa.beta0 == SetDefault(req.beta0, 1.0)
      && fa.gamma == SetDefault(req.gamma, 0.8)
  {
    var algo;
    algo, err := NewAlgo(req.base, compiled, rng);
    if err.Some? {
      return null, err;
    }
    fa := new Fireflies(algo, SetDefault(req.alpha, 0.01), SetDefault(req.beta0, 1.0), SetDefault(req.gamma, 0.8),
                        math, req.base, old(rng.pos));
  }
}
