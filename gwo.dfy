/** The grey wolf optimiser of backend-go/algos/GWO.go: the pack is led by three
    wolves (alpha, the engine's global best, then beta and delta); every wolf hunts
    toward all three and keeps its new position only when it is strictly better. */
module Gwo {
  import opened Values
  import opened Random
  import opened Engine
  import opened General

  // ---------------------------------------------------------------------
  // The leaders and their update
  // ---------------------------------------------------------------------

  /** The three leaders: a position (a row reference in the code) and its value each. */
  datatype Leaders<P> = Leaders(alpha: P, alphaValue: Value, beta: P, betaValue: Value, delta: P, deltaValue: Value)

  /** One wolf of `updateBestWolves`. The code's first two branches are the same
      shift (delta takes beta, beta takes alpha, alpha takes the wolf); only the
      third replaces delta alone. */
  function Rank<P>(l: Leaders<P>, wolf: P, value: Value): Leaders<P>
  {
    if Less(value, l.alphaValue) || Less(value, l.betaValue) then
      Leaders(wolf, value, l.alpha, l.alphaValue, l.beta, l.betaValue)
    else if Less(value, l.deltaValue) then
      l.(delta := wolf, deltaValue := value)
    else l
  }

  /** `updateBestWolves`: every wolf in order, from the leaders as they stand (they
      are never reset). */
  function RankAll<P>(wolves: seq<P>, values: seq<Value>, l: Leaders<P>): Leaders<P>
    requires |wolves| == |values|
  {
    if wolves == [] then l
    else Rank(RankAll(wolves[..|wolves| - 1], values[..|values| - 1], l), wolves[|wolves| - 1], values[|values| - 1])
  }

  /** The alpha value rises exactly when the wolf lies strictly between alpha and
      beta: the second branch hands the lead to a wolf worse than the current alpha. */
  lemma AlphaRisesBetweenAlphaAndBeta<P>(l: Leaders<P>, wolf: P, value: Value)
    ensures Less(l.alphaValue, Rank(l, wolf, value).alphaValue) <==>
      Less(l.alphaValue, value) && Less(value, l.betaValue)
  {
    LessIsStrictOrder(value, l.alphaValue, value);
  }

  /** Leaders whose values are in order (alpha, then beta, then delta). */
  predicate InOrder<P>(l: Leaders<P>)
  {
    NotAbove(l.alphaValue, l.betaValue) && NotAbove(l.betaValue, l.deltaValue)
  }

  /** A wolf keeps the leaders in order unless it lies in [alpha, beta), which is
      exactly where the shift puts the old alpha below the new one. */
  lemma RankKeepsOrderOutsideAlphaBeta<P>(l: Leaders<P>, wolf: P, value: Value)
    requires InOrder(l)
    ensures !(NotAbove(l.alphaValue, value) && Less(value, l.betaValue)) ==> InOrder(Rank(l, wolf, value))
    ensures NotAbove(l.alphaValue, value) && Less(value, l.betaValue) && l.alphaValue != value ==>
      !InOrder(Rank(l, wolf, value))
  {
    LessIsStrictOrder(value, l.alphaValue, l.betaValue);
    LessIsStrictOrder(l.alphaValue, value, l.betaValue);
    LessIsStrictOrder(l.betaValue, value, l.deltaValue);
    LessIsStrictOrder(value, l.betaValue, l.deltaValue);
  }

  /** A wolf in [beta, delta) (and not below alpha) replaces delta and nothing else. */
  lemma OnlyDeltaBetweenBetaAndDelta<P>(l: Leaders<P>, wolf: P, value: Value)
    requires AtLeast(value, l.alphaValue) && AtLeast(value, l.betaValue) && Less(value, l.deltaValue)
    ensures var r := Rank(l, wolf, value);
      && r.alpha == l.alpha && r.alphaValue == l.alphaValue && r.beta == l.beta && r.betaValue == l.betaValue
      && r.delta == wolf && r.deltaValue == value
  {
    LessIsStrictOrder(value, l.alphaValue, value);
    LessIsStrictOrder(value, l.betaValue, value);
  }

  /** `q` is one of the leaders of `l` or one of `wolves`. */
  predicate Among<P(==)>(q: P, l: Leaders<P>, wolves: seq<P>)
  {
    q == l.alpha || q == l.beta || q == l.delta || q in wolves
  }

  /** An update only ever appoints former leaders and wolves. */
  lemma {:induction false} RankAllChoosesAmong<P>(wolves: seq<P>, values: seq<Value>, l: Leaders<P>)
    requires |wolves| == |values|
    ensures var r := RankAll(wolves, values, l);
      Among(r.alpha, l, wolves) && Among(r.beta, l, wolves) && Among(r.delta, l, wolves)
  {
    if wolves != [] {
      var init := wolves[..|wolves| - 1];
      RankAllChoosesAmong(init, values[..|values| - 1], l);
      assert forall q :: q in init ==> q in wolves;
    }
  }

  /** A whole update can end with a worse alpha than it started from, and with beta
      below alpha: leaders (5, 10, +Inf) and wolves valued 6, 1, 5.5 end as
      (5.5, 1, 6). */
  lemma UpdateCanRaiseAlpha()
    ensures var r := RankAll([0, 1, 2], [Finite(6.0), Finite(1.0), Finite(5.5)],
                             Leaders(9, Finite(5.0), 8, Finite(10.0), 7, PosInf));
      && r == Leaders(2, Finite(5.5), 1, Finite(1.0), 0, Finite(6.0))
      && Less(Finite(5.0), r.alphaValue) && Less(r.betaValue, r.alphaValue)
  {
    var l0 := Leaders(9, Finite(5.0), 8, Finite(10.0), 7, PosInf);
    var ws, vs := [0, 1, 2], [Finite(6.0), Finite(1.0), Finite(5.5)];
    assert ws[..2] == [0, 1] && vs[..2] == [Finite(6.0), Finite(1.0)];
    assert ws[..2][..1] == [0] && vs[..2][..1] == [Finite(6.0)];
    var l1 := RankAll([0], [Finite(6.0)], l0);
    assert l1 == Leaders(0, Finite(6.0), 9, Finite(5.0), 8, Finite(10.0));
    var l2 := RankAll([0, 1], [Finite(6.0), Finite(1.0)], l0);
    assert l2 == Leaders(1, Finite(1.0), 0, Finite(6.0), 9, Finite(5.0));
  }

  /** A pack of one: from the construction's leaders (beta and delta `none`, both at
      +Inf), ranking the single wolf leaves delta `none` whatever its value, since a
      value below +Inf takes one of the first two branches, which hand delta the old
      beta. So the first iteration's hunt reads a nil delta. */
  lemma LoneWolfLeavesNoDelta<P>(alpha: P, alphaValue: Value, none: P, wolf: P, value: Value)
    ensures RankAll([wolf], [value], Leaders(alpha, alphaValue, none, PosInf, none, PosInf)).delta == none
  {
  }

  // ---------------------------------------------------------------------
  // Hunting
  // ---------------------------------------------------------------------

  function RealAbs(x: real): (r: real)
    ensures r >= 0.0 && (r == x || r == -x)
  {
    if x < 0.0 then -x else x
  }

  /** `hunting`: the wolf's coordinate pulled toward (or pushed past) the prey's, with
      `A = a(2 r1 - 1)` and `C = c r2`. */
  function Hunt(prey: real, wolf: real, a: real, c: real, r1: Unit, r2: Unit): real
  {
    prey - a * (2.0 * r1 - 1.0) * RealAbs(c * r2 * prey - wolf)
  }

  /** For a non-negative `a`, the coefficient `A` lies in [-a, a] (|A| <= a), so a
      hunt lands within `a` times the distance `D` of the prey. */
  lemma {:induction false} HuntWithinReach(prey: real, wolf: real, a: real, c: real, r1: Unit, r2: Unit)
    requires a >= 0.0
    ensures -a <= a * (2.0 * r1 - 1.0) <= a
    ensures RealAbs(Hunt(prey, wolf, a, c, r1, r2) - prey) <= a * RealAbs(c * r2 * prey - wolf)
  {
    var k := 2.0 * r1 - 1.0;
    var d := RealAbs(c * r2 * prey - wolf);
    MulNonNegative(a, 1.0 - k);
    MulNonNegative(a, 1.0 + k);
    assert a - a * k == a * (1.0 - k) && a + a * k == a * (1.0 + k);
    MulNonNegative(a - a * k, d);
    MulNonNegative(a + a * k, d);
    assert Hunt(prey, wolf, a, c, r1, r2) - prey == -(a * k * d);
    assert a * d - a * k * d == (a - a * k) * d;
    assert a * d + a * k * d == (a + a * k) * d;
  }

  /** The exploration coefficient of iteration `t`: `a - a t / iterations`. */
  function Decay(a: real, t: nat, iterations: int): real
    requires iterations > 0
  {
    a - (a * t as real) / iterations as real
  }

  /** From a non-negative `a`, the coefficient starts at `a`, falls linearly and stays
      positive (non-negative when `a` is 0) over the iterations of a run. */
  lemma {:induction false} DecayFalls(a: real, t1: nat, t2: nat, iterations: int)
    requires a >= 0.0 && t1 <= t2 < iterations
    ensures Decay(a, 0, iterations) == a
    ensures 0.0 <= Decay(a, t2, iterations) <= Decay(a, t1, iterations) <= a
    ensures a > 0.0 ==> Decay(a, t2, iterations) > 0.0
  {
    DecayStart(a, iterations);
    DecayOrder(a, 0, t1, iterations);
    DecayOrder(a, t1, t2, iterations);
    DecayOrder(a, t2, iterations, iterations);
    if a > 0.0 {
      DecayPositive(a, t2, iterations);
    }
  }

  /** The coefficient of the first iteration is `a`, and after the last one it is 0. */
  lemma DecayStart(a: real, iterations: int)
    requires iterations > 0
    ensures Decay(a, 0, iterations) == a && Decay(a, iterations, iterations) == 0.0
  {
    Cancel(a, iterations as real);
  }

  /** With a non-negative `a` the coefficient does not rise from one iteration to a later one. */
  lemma DecayOrder(a: real, t1: nat, t2: nat, iterations: int)
    requires a >= 0.0 && t1 <= t2 && iterations > 0
    ensures Decay(a, t2, iterations) <= Decay(a, t1, iterations)
  {
    MulMonotone(a, t1 as real, t2 as real);
    DivMonotone(a * t1 as real, a * t2 as real, iterations as real);
  }

  /** With a positive `a` the coefficient stays positive before the last iteration. */
  lemma DecayPositive(a: real, t: nat, iterations: int)
    requires a > 0.0 && t < iterations
    ensures Decay(a, t, iterations) > 0.0
  {
    var n := iterations as real;
    MulMonotone(a, t as real, n);
    DivMonotone(a * t as real, a * n, n);
    Cancel(a, n);
  }

  /** Multiplying by a non-negative number keeps order, strictly when it is positive. */
  lemma MulMonotone(a: real, x: real, y: real)
    requires a >= 0.0 && x <= y
    ensures a * x <= a * y
    ensures a > 0.0 && x < y ==> a * x < a * y
  {
    MulNonNegative(a, y - x);
    assert a * (y - x) == a * y - a * x;
    if a > 0.0 && x < y {
      MulPositive(a, y - x);
    }
  }

  /** Multiplying then dividing by the same positive number. */
  lemma Cancel(a: real, n: real)
    requires n > 0.0
    ensures (a * n) / n == a && (a * 0.0) / n == 0.0
  {
  }

  /** Division by a positive number keeps order. */
  lemma DivMonotone(x: real, y: real, n: real)
    requires 0.0 < n && x <= y
    ensures x / n <= y / n
    ensures x < y ==> x / n < y / n
  {
    var d := y / n - x / n;
    assert d * n == y - x;
    if d < 0.0 {
      MulPositive(-d, n);
    }
    if x < y && d <= 0.0 {
      MulNonNegative(-d, n);
    }
  }

  /** One coordinate of a hunted vector (GWO.go:64-70): the mean of the hunts toward
      alpha, beta and delta, with draws `q` to `q + 5` in that order, clamped. */
  function Blend(alpha: real, beta: real, delta: real, wolf: real, a: real, c: real,
                 lo: real, hi: real, src: nat -> Unit, q: nat): real
  {
    Clamp(lo, hi,
      (Hunt(alpha, wolf, a, c, src(q), src(q + 1))
       + Hunt(beta, wolf, a, c, src(q + 2), src(q + 3))
       + Hunt(delta, wolf, a, c, src(q + 4), src(q + 5))) / 3.0)
  }

  /** The hunted vector of one wolf `w` (GWO.go:62-72): six draws per dimension. */
  ghost function Hunted(w: seq<real>, aim: Prey, a: real, c: real,
                        bounds: seq<seq<real>>, src: nat -> Unit, p: nat): (x: seq<real>)
    requires |aim.alpha| == |w| && |aim.beta| == |w| && |aim.delta| == |w| && Covers(bounds, |w|)
    ensures |x| == |w|
  {
    seq(|w|, j requires 0 <= j < |w| =>
      Blend(aim.alpha[j], aim.beta[j], aim.delta[j], w[j], a, c, bounds[j][0], bounds[j][1], src, p + 6 * j))
  }

  /** What one wolf becomes (GWO.go:61-76): the hunted vector when it is strictly
      better, the wolf itself otherwise. */
  ghost function Moved(w: seq<real>, aim: Prey, a: real, c: real,
                       f: Objective, bounds: seq<seq<real>>, src: nat -> Unit, p: nat): seq<real>
    requires |aim.alpha| == |w| && |aim.beta| == |w| && |aim.delta| == |w| && Covers(bounds, |w|)
  {
    var x := Hunted(w, aim, a, c, bounds, src, p);
    if Less(f(x), f(w)) then x else w
  }

  /** A wolf never gets worse, changes only to a strictly better position, and stays
      within well-ordered bounds. */
  lemma MoveNeverWorsens(w: seq<real>, aim: Prey, a: real, c: real,
                         f: Objective, bounds: seq<seq<real>>, src: nat -> Unit, p: nat)
    requires |aim.alpha| == |w| && |aim.beta| == |w| && |aim.delta| == |w| && Covers(bounds, |w|)
    ensures var m := Moved(w, aim, a, c, f, bounds, src, p);
      && |m| == |w|
      && NotAbove(f(m), f(w))
      && (m != w ==> Less(f(m), f(w)))
      && (InBounds(w, bounds) && Ordered(bounds, |w|) ==> InBounds(m, bounds))
  {
    var x := Hunted(w, aim, a, c, bounds, src, p);
    if Ordered(bounds, |w|) {
      forall j | 0 <= j < |x| ensures bounds[j][0] <= x[j] <= bounds[j][1] {
      }
    }
  }

  /** Every member's value in `now` is not larger than in `before`. */
  ghost predicate NoWorse(now: seq<Value>, before: seq<Value>)
  {
    |now| == |before| && forall k :: 0 <= k < |now| ==> NotAbove(now[k], before[k])
  }

  lemma NoWorseTransitive(a: seq<Value>, b: seq<Value>, c: seq<Value>)
    requires NoWorse(a, b) && NoWorse(b, c)
    ensures NoWorse(a, c)
  {
    forall k | 0 <= k < |a| ensures NotAbove(a[k], c[k]) {
      NotAboveTransitive(a[k], b[k], c[k]);
    }
  }

  /** A leader seen as its coordinates (nil as no coordinates). */
  function Coords(p: array?<real>): seq<real>
    reads p
  {
    if p == null then [] else p[..]
  }

  // ---------------------------------------------------------------------
  // The optimiser
  // ---------------------------------------------------------------------

  datatype GwoRequest = GwoRequest(base: Request, initialA: Option<real>, initialC: Option<real>)

  class Pack {
    const algo: Algo
    const a: real
    const c: real
    var beta: array?<real>
    var betaValue: Value
    var delta: array?<real>
    var deltaValue: Value

    constructor (algo: Algo, a: real, c: real, ghost req: Request, ghost p0: nat)
      requires algo.Populated(req, p0)
      ensures this.algo == algo && this.a == a && this.c == c
      ensures beta == null && betaValue == PosInf && delta == null && deltaValue == PosInf
      ensures algo.Populated(req, p0)
    {
      this.algo := algo;
      this.a := a;
      this.c := c;
      beta, betaValue := null, PosInf;
      delta, deltaValue := null, PosInf;
    }

    /** The leaders, alpha being the engine's global best. */
    function Pack(): Leaders<array?<real>>
      reads this, algo
    {
      Leaders(algo.bestPos, algo.bestVal, beta, betaValue, delta, deltaValue)
    }

    /** The engine's shape, with beta and delta of the same length as every row. */
    predicate Valid()
      reads this, algo, algo.population
    {
      && algo.Shaped()
      && Fits(beta, algo.numDimensions) && Fits(delta, algo.numDimensions)
    }


    /** Bounds are well ordered and every wolf lies within them. */
    predicate Confined()
      reads algo`population, algo`bounds, algo`numDimensions, algo.population, algo.population[..]
    {
      Ordered(algo.bounds, algo.numDimensions) && algo.AllInBounds()
    }

    /** Hunting within an iteration needs all three leaders once there is a dimension
        (the code indexes them, and a nil leader is a panic). */
    predicate Leaderless()
      reads this, algo
    {
      algo.numDimensions > 0 && (algo.bestPos == null || beta == null || delta == null)
    }

    /** `updateBestWolves` (GWO.go:91-106): only the leaders move, as the update of
        the pack over the population in order says; every leader is a former leader
        or a member. */
    method UpdateBestWolves()
      requires Valid()
      modifies this, algo`bestPos, algo`bestVal
      ensures Valid()
      ensures Pack() == RankAll(algo.population[..], Scores(algo.f, algo.Contents()), old(Pack()))
      ensures algo.Contents() == old(algo.Contents())
      ensures old(Confined()) ==> Confined()
    {
      Regroup();
      RankAllChoosesAmong(algo.population[..], Scores(algo.f, algo.Contents()), old(Pack()));
      AppointedKeepShape();
    }

    /** Leaders drawn from the former leaders and the members keep the shape and
        the bounds invariant. */
    twostate lemma AppointedKeepShape()
      requires old(Valid())
      requires algo.population == old(algo.population) && algo.bounds == old(algo.bounds)
      requires algo.numDimensions == old(algo.numDimensions) && algo.populationSize == old(algo.populationSize)
      requires forall k :: 0 <= k < algo.population.Length ==> algo.population[k] == old(algo.population[k])
      requires forall k :: 0 <= k < algo.population.Length ==> algo.population[k][..] == old(algo.population[k][..])
      requires Among(algo.bestPos, old(Pack()), algo.population[..])
      requires Among(beta, old(Pack()), algo.population[..])
      requires Among(delta, old(Pack()), algo.population[..])
      ensures Valid()
      ensures old(Confined()) ==> Confined()
    {
      forall q | Among(q, old(Pack()), algo.population[..])
        ensures Fits(q, algo.numDimensions)
      {
        if q in algo.population[..] {
          var k :| 0 <= k < algo.population.Length && algo.population[k] == q;
        }
      }
    }

    /** The loop of `updateBestWolves`. */
    method Regroup()
      requires algo.populationSize == algo.population.Length
      modifies this, algo`bestPos, algo`bestVal
      ensures Pack() == RankAll(algo.population[..], Scores(algo.f, algo.Contents()), old(Pack()))
    {
      ghost var wolves := algo.population[..];
      ghost var rows := algo.Contents();
      ghost var values := Scores(algo.f, rows);
      var i := 0;
      while i < algo.populationSize
        invariant 0 <= i <= algo.populationSize
        invariant Pack() == RankAll(wolves[..i], values[..i], old(Pack()))
      {
        var wolf := algo.population[i];
        var value := algo.f(wolf[..]);
        assert values[i] == value by {
          assert rows[i] == wolf[..];
        }
        assert wolves[..i + 1][..i] == wolves[..i] && values[..i + 1][..i] == values[..i];
        assert RankAll(wolves[..i + 1], values[..i + 1], old(Pack())) == Rank(Pack(), wolf, value);
        if Less(value, algo.bestVal) {
          delta, deltaValue := beta, betaValue;
          beta, betaValue := algo.bestPos, algo.bestVal;
          algo.bestPos, algo.bestVal := wolf, value;
        } else if Less(value, betaValue) {
          delta, deltaValue := beta, betaValue;
          beta, betaValue := algo.bestPos, algo.bestVal;
          algo.bestPos, algo.bestVal := wolf, value;
        } else if Less(value, deltaValue) {
          delta, deltaValue := wolf, value;
        }
        i := i + 1;
      }
      assert wolves[..i] == wolves && values[..i] == values;
      assert algo.Contents() == rows;
    }

    /** `hunting` (GWO.go:108-114): two draws, then the hunt. */
    method Hunting(prey: real, wolf: real, at: real) returns (x: real)
      modifies algo.rng
      ensures algo.rng.pos == old(algo.rng.pos) + 2
      ensures x == Hunt(prey, wolf, at, c, algo.rng.src(old(algo.rng.pos)), algo.rng.src(old(algo.rng.pos) + 1))
    {
      var r1 := algo.rng.Float64();
      var r2 := algo.rng.Float64();
      x := Hunt(prey, wolf, at, c, r1, r2);
    }

    /** The new position of wolf `w` (GWO.go:62-72), a fresh row. */
    method HuntVector(w: array<real>, at: real) returns (x: array<real>)
      requires Armed() && w.Length == algo.numDimensions
      modifies algo.rng
      ensures fresh(x)
      ensures algo.rng.pos == old(algo.rng.pos) + 6 * algo.numDimensions
      ensures x[..] == Hunted(w[..], Aim(), at, c, algo.bounds, algo.rng.src, old(algo.rng.pos))
    {
      var n := algo.numDimensions;
      ghost var p0 := algo.rng.pos;
      ghost var aim := Aim();
      ghost var want := Hunted(w[..], aim, at, c, algo.bounds, algo.rng.src, p0);
      x := new real[n];
      var j := 0;
      while j < n
        invariant 0 <= j <= n
        invariant algo.rng.pos == p0 + 6 * j
        invariant x[..j] == want[..j]
      {
        assert want[j] == Blend(aim.alpha[j], aim.beta[j], aim.delta[j], w[j], at, c,
                                algo.bounds[j][0], algo.bounds[j][1], algo.rng.src, algo.rng.pos);
        x[j] := HuntCoordinate(algo.bestPos[j], beta[j], delta[j], w[j], at, algo.bounds[j][0], algo.bounds[j][1]);
        assert x[..j + 1] == x[..j] + [x[j]] && want[..j + 1] == want[..j] + [want[j]];
        j := j + 1;
      }
      assert x[..] == x[..n] && want == want[..n];
    }

    /** The inner loop body (GWO.go:64-70): three hunts, six draws, then the clamp. */
    method HuntCoordinate(alpha: real, beta: real, delta: real, wolf: real, at: real, lo: real, hi: real) returns (v: real)
      modifies algo.rng
      ensures algo.rng.pos == old(algo.rng.pos) + 6
      ensures v == Blend(alpha, beta, delta, wolf, at, c, lo, hi, algo.rng.src, old(algo.rng.pos))
    {
      var x1 := Hunting(alpha, wolf, at);
      var x2 := Hunting(beta, wolf, at);
      var x3 := Hunting(delta, wolf, at);
      v := Clamp(lo, hi, (x1 + x2 + x3) / 3.0);
    }

    /** The coordinates of the three leaders the wolves hunt toward. */
    function Aim(): Prey
      reads this, algo, algo.bestPos, beta, delta
    {
      Prey(Coords(algo.bestPos), Coords(beta), Coords(delta))
    }

    /** What hunting needs: a bound row per dimension and three leaders of the full
        dimension (no leaders at all needed when there is no dimension). */
    predicate Armed()
      reads this, algo, algo.bestPos, beta, delta
    {
      && Covers(algo.bounds, algo.numDimensions)
      && |Aim().alpha| == algo.numDimensions && |Aim().beta| == algo.numDimensions
      && |Aim().delta| == algo.numDimensions
    }

    /** A valid pack whose leaders all exist (or that has no dimension) is armed. */
    lemma ValidLeadersAreArmed()
      requires Valid() && !Leaderless()
      ensures Armed()
    {
    }

    /** One wolf of an iteration (GWO.go:61-76): it moves to its hunted vector only
        when that is strictly better. */
    method Prowl(i: nat, at: real)
      requires Armed() && i < algo.population.Length && algo.population[i].Length == algo.numDimensions
      modifies algo.population, algo.rng
      ensures algo.rng.pos == old(algo.rng.pos) + 6 * algo.numDimensions
      ensures algo.population[i].Length == algo.numDimensions
      ensures algo.population[i][..] ==
        Moved(old(algo.population[i][..]), Aim(), at, c, algo.f, algo.bounds, algo.rng.src, old(algo.rng.pos))
      ensures forall k :: 0 <= k < algo.population.Length && k != i ==> algo.population[k] == old(algo.population[k])
    {
      var w := algo.population[i];
      var x := HuntVector(w, at);
      if Less(algo.f(x[..]), algo.f(w[..])) {
        algo.population[i] := x;
      }
    }

    /** The wolves of one iteration (GWO.go:60-77), every one hunting the same
        leaders with its own draws. */
    method Pass(at: real)
      requires Valid() && !(algo.populationSize > 0 && Leaderless())
      modifies algo.population, algo.rng
      ensures Valid()
      ensures algo.rng.pos == FirstDraw(old(algo.rng.pos), algo.numDimensions, algo.populationSize)
      ensures Swept(algo.Contents(), old(algo.Contents()), Aim(), at, c, algo.f, algo.bounds, algo.rng.src, old(algo.rng.pos))
      ensures old(Confined()) ==> Confined()
    {
      if algo.populationSize == 0 {
        return;
      }
      ValidLeadersAreArmed();
      ghost var before := algo.Contents();
      Sweep(at);
      ghost var after := algo.Contents();
      forall k | 0 <= k < |before|
        ensures |before[k]| == algo.numDimensions
        ensures after[k] == Moved(before[k], Aim(), at, c, algo.f, algo.bounds, algo.rng.src,
                                  FirstDraw(old(algo.rng.pos), |before[k]|, k))
      {
        assert after[k] == algo.population[k][..];
      }
      SweptNeverWorsens(after, before, Aim(), at, c, algo.f, algo.bounds, algo.rng.src, old(algo.rng.pos));
    }

    /** The loop of one iteration over the wolves. */
    method Sweep(at: real)
      requires Armed() && forall k :: 0 <= k < algo.population.Length ==> algo.population[k].Length == algo.numDimensions
      modifies algo.population, algo.rng
      ensures algo.rng.pos == FirstDraw(old(algo.rng.pos), algo.numDimensions, algo.population.Length)
      ensures forall k :: 0 <= k < algo.population.Length ==> algo.population[k].Length == algo.numDimensions
      ensures forall k :: 0 <= k < algo.population.Length ==>
        algo.population[k][..] ==
          Moved(old(algo.population[k][..]), Aim(), at, c, algo.f, algo.bounds, algo.rng.src,
                FirstDraw(old(algo.rng.pos), algo.numDimensions, k))
    {
      var n := algo.numDimensions;
      ghost var p0 := algo.rng.pos;
      var i := 0;
      while i < algo.population.Length
        invariant 0 <= i <= algo.population.Length
        invariant algo.rng.pos == FirstDraw(p0, n, i)
        invariant forall k :: 0 <= k < algo.population.Length ==> algo.population[k].Length == n
        invariant forall k :: i <= k < algo.population.Length ==> algo.population[k] == old(algo.population[k])
        invariant forall k :: 0 <= k < i ==>
          algo.population[k][..] ==
            Moved(old(algo.population[k][..]), Aim(), at, c, algo.f, algo.bounds, algo.rng.src, FirstDraw(p0, n, k))
      {
        Prowl(i, at);
        FirstDrawNext(p0, n, i);
        i := i + 1;
      }
    }

    /** The state change of iteration `t` (GWO.go:58-78): the wolves hunt with the
        coefficient of that iteration, then the leaders are updated, unless a
        missing leader makes the hunt panic (which changes nothing). */
    method Advance(t: nat) returns (panicked: bool)
      requires Valid() && t < algo.iterations
      modifies algo.population, algo.rng, this, algo`bestPos, algo`bestVal
      ensures Valid()
      ensures panicked <==> old(algo.populationSize > 0 && Leaderless())
      ensures panicked ==> algo.population[..] == old(algo.population[..]) && Pack() == old(Pack())
      ensures !panicked ==>
        && Swept(algo.Contents(), old(algo.Contents()), old(Aim()), Decay(a, t, algo.iterations), c,
                 algo.f, algo.bounds, algo.rng.src, old(algo.rng.pos))
        && algo.rng.pos == FirstDraw(old(algo.rng.pos), algo.numDimensions, algo.populationSize)
        && Pack() == RankAll(algo.population[..], Scores(algo.f, algo.Contents()), old(Pack()))
      ensures old(Confined()) ==> Confined()
    {
      if algo.populationSize > 0 && Leaderless() {
        return true;
      }
      panicked := false;
      var at := Decay(a, t, algo.iterations);
      ghost var aim, before := Aim(), algo.Contents();
      Pass(at);
      ghost var after := algo.Contents();
      assert Aim() == aim;
      assert Swept(after, before, aim, at, c, algo.f, algo.bounds, algo.rng.src, old(algo.rng.pos));
      UpdateBestWolves();
    }

    /** `Advance` as the run relies on it: the shape and the bounds invariant survive. */
    method Iterate(t: nat) returns (panicked: bool)
      requires Valid() && t < algo.iterations
      modifies algo.population, algo.rng, this, algo`bestPos, algo`bestVal
      ensures Valid()
      ensures panicked <==> old(algo.populationSize > 0 && Leaderless())
      ensures old(Confined()) ==> Confined()
    {
      panicked := Advance(t);
    }

    /** One iteration of `Run` (GWO.go:57-87): the state change, then the snapshot.
        A panic stops before the snapshot. */
    method Round(sink: Sink, ghost start: nat, t: nat) returns (ok: bool, panicked: bool)
      requires Valid() && t < algo.iterations
      requires Sent(sink.log, sink.accepts, start, t) && sink.accepts(start + t)
      modifies algo.population, algo.rng, this, algo`bestPos, algo`bestVal, sink
      ensures Valid()
      ensures panicked ==> sink.log == old(sink.log)
      ensures !panicked ==>
        && Sent(sink.log, sink.accepts, start, t + 1)
        && sink.log == old(sink.log) + [sink.log[|sink.log| - 1]]
        && sink.log[|sink.log| - 1].positions == algo.Contents()
        && sink.log[|sink.log| - 1].bestValue == algo.bestVal
        && ok == sink.accepts(|sink.log| - 1)
      ensures old(Confined()) ==> Confined()
    {
      panicked := Iterate(t);
      if panicked {
        return false, true;
      }
      ok := algo.Emit(sink, t + 1);
      SentNext(old(sink.log), sink.accepts, start, t, algo.Snap(t + 1));
    }

    /** `Run` (GWO.go:42-89): the leaders are updated once before the first snapshot,
        then each iteration sends one, stopping at the first refused `send`; the
        answer is alpha (by reference) and its value. `panicked` says the run ended
        in a Go panic instead, after the snapshots in the log were all accepted.
        The reported best may rise from one snapshot to the next. */
    method Run(sink: Sink) returns (bestPos: array?<real>, bestVal: Value, panicked: bool)
      requires Valid()
      modifies algo.population, algo.rng, this, algo`bestPos, algo`bestVal, sink
      ensures Valid()
      ensures !panicked ==> Logged(sink.log, old(sink.log), sink.accepts, algo.iterations)
      ensures panicked ==> Halted(sink.log, old(sink.log), sink.accepts, algo.iterations)
      ensures sink.log[|old(sink.log)|].bestValue ==
        RankAll(old(algo.population[..]), old(Scores(algo.f, algo.Contents())), old(Pack())).alphaValue
      ensures !panicked ==> sink.log[|sink.log| - 1].bestValue == bestVal
      ensures bestPos == algo.bestPos && bestVal == algo.bestVal
      ensures old(Confined()) ==> Confined()
    {
      ghost var confined := Confined();
      ghost var opening := RankAll(algo.population[..], Scores(algo.f, algo.Contents()), Pack()).alphaValue;
      var ok := Open(sink);
      assert confined ==> Confined();
      assert sink.log[|old(sink.log)|].bestValue == opening;
      ghost var openLog := sink.log;
      var t;
      t, panicked := Iterations(sink, old(sink.log), ok);
      PrefixAgrees(sink.log, openLog, |old(sink.log)|);
      if panicked {
        SentHalted(sink.log, old(sink.log), sink.accepts, t, algo.iterations);
      } else {
        SentRun(sink.log, old(sink.log), sink.accepts, t, algo.iterations);
      }
      bestPos, bestVal := algo.bestPos, algo.bestVal;
    }

    /** The opening of `Run` (GWO.go:43-55): the leaders are updated, then the
        snapshot of iteration 0 is sent, showing the new alpha. */
    method Open(sink: Sink) returns (ok: bool)
      requires Valid()
      modifies this, algo`bestPos, algo`bestVal, sink
      ensures Valid()
      ensures Sent(sink.log, sink.accepts, |old(sink.log)|, 0) && sink.log[..|old(sink.log)|] == old(sink.log)
      ensures sink.log[|old(sink.log)|].bestValue ==
        RankAll(old(algo.population[..]), old(Scores(algo.f, algo.Contents())), old(Pack())).alphaValue
      ensures ok == sink.accepts(|old(sink.log)|)
      ensures sink.log[|old(sink.log)|].bestValue == algo.bestVal
      ensures old(Confined()) ==> Confined()
    {
      UpdateBestWolves();
      ghost var inside := Confined();
      ok := algo.Emit(sink, 0);
      assert inside ==> Confined();
    }

    /** The iterations of `Run` after its first snapshot: `t` of them complete; the run
        ends after the last one, at a refused send, or in a panic during iteration `t + 1`. */
    method Iterations(sink: Sink, ghost before: seq<Snapshot>, ok: bool) returns (t: nat, panicked: bool)
      requires Valid()
      requires Sent(sink.log, sink.accepts, |before|, 0) && sink.log[..|before|] == before
      requires ok == sink.accepts(|before|) && sink.log[|before|].bestValue == algo.bestVal
      modifies algo.population, algo.rng, this, algo`bestPos, algo`bestVal, sink
      ensures Valid()
      ensures Sent(sink.log, sink.accepts, |before|, t) && sink.log[..|before| + 1] == old(sink.log)[..|before| + 1]
      ensures !panicked ==> t <= Max0(algo.iterations) && (t == Max0(algo.iterations) || !sink.accepts(|sink.log| - 1))
      ensures panicked ==> t < Max0(algo.iterations) && sink.accepts(|sink.log| - 1)
      ensures !panicked ==> sink.log[|sink.log| - 1].bestValue == algo.bestVal
      ensures old(Confined()) ==> Confined()
    {
      ghost var start := |before|;
      var go := ok;
      t, panicked := 0, false;
      while go && t < algo.iterations
        invariant 0 <= t <= Max0(algo.iterations)
        invariant Valid()
        invariant Sent(sink.log, sink.accepts, start, t) && sink.log[..start + 1] == old(sink.log)[..start + 1]
        invariant go == sink.accepts(|sink.log| - 1)
        invariant sink.log[start + t].bestValue == algo.bestVal
        invariant old(Confined()) ==> Confined()
      {
        go, panicked := Round(sink, start, t);
        if panicked {
          return;
        }
        t := t + 1;
      }
    }
  }

  /** A leader that exists has `n` coordinates. */
  predicate Fits(p: array?<real>, n: int)
  {
    p != null ==> p.Length == n
  }

  /** The coordinates of alpha, beta and delta. */
  datatype Prey = Prey(alpha: seq<real>, beta: seq<real>, delta: seq<real>)

  /** The first draw of member `k` in a pass that starts at draw `p`: six draws per
      dimension for each earlier member. */
  function FirstDraw(p: nat, n: nat, k: nat): nat
  {
    p + 6 * n * k
  }

  lemma FirstDrawNext(p: nat, n: nat, k: nat)
    ensures FirstDraw(p, n, k + 1) == FirstDraw(p, n, k) + 6 * n
  {
    assert 6 * n * (k + 1) == 6 * n * k + 6 * n;
  }

  /** Every member of `before` became what `Moved` says in `after`, member `k`
      hunting with the six draws per dimension that follow its predecessors'. */
  ghost predicate Swept(after: seq<seq<real>>, before: seq<seq<real>>, aim: Prey, a: real, c: real,
                        f: Objective, bounds: seq<seq<real>>, src: nat -> Unit, p: nat)
  {
    && |after| == |before|
    && forall k :: 0 <= k < |before| ==>
         && |aim.alpha| == |before[k]| && |aim.beta| == |before[k]| && |aim.delta| == |before[k]|
         && Covers(bounds, |before[k]|)
         && after[k] == Moved(before[k], aim, a, c, f, bounds, src, FirstDraw(p, |before[k]|, k))
  }

  /** Over a whole pass no member gets worse, and members within well-ordered
      bounds stay within them. */
  lemma SweptNeverWorsens(after: seq<seq<real>>, before: seq<seq<real>>, aim: Prey, a: real, c: real,
                          f: Objective, bounds: seq<seq<real>>, src: nat -> Unit, p: nat)
    requires Swept(after, before, aim, a, c, f, bounds, src, p)
    ensures NoWorse(Scores(f, after), Scores(f, before))
    ensures Ordered(bounds, |aim.alpha|) && (forall k :: 0 <= k < |before| ==> InBounds(before[k], bounds)) ==>
      forall k :: 0 <= k < |after| ==> InBounds(after[k], bounds)
  {
    forall k | 0 <= k < |before|
      ensures NotAbove(f(after[k]), f(before[k]))
      ensures Ordered(bounds, |aim.alpha|) && InBounds(before[k], bounds) ==> InBounds(after[k], bounds)
    {
      MoveNeverWorsens(before[k], aim, a, c, f, bounds, src, FirstDraw(p, |before[k]|, k));
    }
  }

  /** `NewGWO` (GWO.go:25-40): the engine's construction, then `a` and `C` (2 unless
      the request says otherwise) and no beta or delta yet, both valued +Inf. */
  method NewGWO(req: GwoRequest, compiled: Option<Objective>, rng: Rng) returns (pack: Pack?, err: Option<Failure>)
    modifies rng
    ensures (pack != null) <==> err.None?
    ensures Validate(req.base).Some? ==> err == Validate(req.base) && rng.pos == old(rng.pos)
    ensures Validate(req.base).None? && compiled.None? ==> err == Some(CompileFailed)
    ensures pack != null ==>
      && fresh(pack) && fresh(pack.algo)
      && pack.algo.rng == rng && compiled == Some(pack.algo.f)
      && pack.algo.Populated(req.base, old(rng.pos))
      && pack.algo.numDimensions == InitialDimensions(req.base)
      && pack.a == SetDefault(req.initialA, 2.0) && pack.c == SetDefault(req.initialC, 2.0)
      && pack.beta == null && pack.betaValue == PosInf && pack.delta == null && pack.deltaValue == PosInf
  {
    var algo;
    algo, err := NewAlgo(req.base, compiled, rng);
    if err.Some? {
      return null, err;
    }
    pack := new Pack(algo, SetDefault(req.initialA, 2.0), SetDefault(req.initialC, 2.0), req.base, old(rng.pos));
  }
}
