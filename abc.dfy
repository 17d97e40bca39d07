/** The artificial bee colony of backend-go/algos/ABC.go: foragers exploit their
    food sources, observers pick foragers by a roulette over the objective values,
    and foragers that stall for more than `Limit` trials become scouts. */
module Abc {
  import opened Values
  import opened Random
  import opened Engine
  import opened General

  // ---------------------------------------------------------------------
  // Specification functions
  // ---------------------------------------------------------------------

  /** `mutate`: the source `x` with coordinate `s` moved by `r` times its difference
      to the partner, then clamped into bound row `s`. */
  function Mutated(x: seq<real>, other: seq<real>, s: int, r: real, bounds: seq<seq<real>>): seq<real>
    requires 0 <= s < |x| <= |other| && Covers(bounds, |x|)
  {
    x[s := Perturb(bounds[s][0], bounds[s][1], x[s], other[s], r)]
  }

  /** One mutated coordinate: `x` moved by `r` times its difference to `o`, clamped. */
  function Perturb(lo: real, hi: real, x: real, o: real, r: real): real
  {
    Clamp(lo, hi, x + r * (x - o))
  }

  /** `Rng.Float64()*2 - 1`: the mutation factor, uniform in [-1, 1). */
  function Factor(u: Unit): (r: real)
    ensures -1.0 <= r < 1.0
  {
    (u as real) * 2.0 - 1.0
  }

  /** A mutation changes at most one coordinate, which lands at or above its minimum and,
      for a well-ordered bound row, at or below its maximum; so it keeps a source in
      well-ordered bounds in bounds. */
  lemma MutationTouchesOneCoordinate(x: seq<real>, other: seq<real>, s: int, r: real, bounds: seq<seq<real>>)
    requires 0 <= s < |x| <= |other| && Covers(bounds, |x|)
    ensures var y := Mutated(x, other, s, r, bounds);
      && |y| == |x|
      && (forall k :: 0 <= k < |x| && k != s ==> y[k] == x[k])
      && bounds[s][0] <= y[s]
      && (bounds[s][0] <= bounds[s][1] ==> y[s] <= bounds[s][1])
      && (InBounds(x, bounds) ==> InBounds(y, bounds))
  {
  }

  /** The running sum `sum += v` from 0, in IEEE arithmetic. */
  function Total(vals: seq<Value>): Value
  {
    if vals == [] then Finite(0.0) else Add(Total(vals[..|vals| - 1]), vals[|vals| - 1])
  }

  /** One more step of the running sum. */
  lemma TotalExtends(vals: seq<Value>, i: nat)
    requires i < |vals|
    ensures Total(vals[..i + 1]) == Add(Total(vals[..i]), vals[i])
  {
    assert vals[..i + 1][..i] == vals[..i];
  }

  /** The running sum after the first `i + 1` values. */
  function RunningSum(vals: seq<Value>, i: nat): Value
    requires i < |vals|
  {
    Total(vals[..i + 1])
  }

  /** `sum >= threshold` at index `i` of the second loop. */
  predicate Reaches(vals: seq<Value>, i: nat, threshold: Value)
    requires i < |vals|
  {
    AtLeast(RunningSum(vals, i), threshold)
  }

  /** The first index from `i` on whose running sum reaches `threshold`, and 0 when none does. */
  function FirstReaching(vals: seq<Value>, threshold: Value, i: nat): (j: nat)
    requires i <= |vals|
    decreases |vals| - i
  {
    if i == |vals| then 0
    else if Reaches(vals, i, threshold) then i
    else FirstReaching(vals, threshold, i + 1)
  }

  /** `selectForagerByFitness` given the foragers' values and the uniform draw `u`. */
  function Roulette(vals: seq<Value>, u: Unit): nat
  {
    FirstReaching(vals, Scale(u, Total(vals)), 0)
  }

  /** The roulette answers the first index whose running sum is at least the threshold
      `u * total`, and 0 when no running sum is (an empty list, or NaN sums): an index of
      a forager whenever there is one. */
  lemma {:induction false} RouletteIsFirstReaching(vals: seq<Value>, u: Unit)
    ensures var j := Roulette(vals, u);
      var t := Scale(u, Total(vals));
      && (j < |vals| || j == 0)
      && ((exists i :: 0 <= i < |vals| && Reaches(vals, i, t)) ==>
            j < |vals| && Reaches(vals, j, t) && forall i :: 0 <= i < j ==> !Reaches(vals, i, t))
      && ((forall i :: 0 <= i < |vals| ==> !Reaches(vals, i, t)) ==> j == 0)
  {
    FirstReachingFrom(vals, Scale(u, Total(vals)), 0);
  }

  lemma {:induction false} FirstReachingFrom(vals: seq<Value>, t: Value, i: nat)
    requires i <= |vals|
    decreases |vals| - i
    ensures var j := FirstReaching(vals, t, i);
      && (j == 0 || i <= j < |vals|)
      && ((exists k :: i <= k < |vals| && Reaches(vals, k, t)) ==>
            i <= j < |vals| && Reaches(vals, j, t) && forall k :: i <= k < j ==> !Reaches(vals, k, t))
      && ((forall k :: i <= k < |vals| ==> !Reaches(vals, k, t)) ==> j == 0)
  {
    if i < |vals| && !Reaches(vals, i, t) {
      FirstReachingFrom(vals, t, i + 1);
    }
  }

  /** The total of finite non-negative values is finite, non-negative and at least every
      running sum. */
  lemma {:induction false} TotalOfNonNegative(vals: seq<Value>)
    requires forall k :: 0 <= k < |vals| ==> vals[k].Finite? && vals[k].x >= 0.0
    ensures Total(vals).Finite? && Total(vals).x >= 0.0
    ensures forall i :: 0 <= i < |vals| ==> RunningSum(vals, i).Finite? && RunningSum(vals, i).x <= Total(vals).x
  {
    if vals != [] {
      var init := vals[..|vals| - 1];
      TotalOfNonNegative(init);
      forall i | 0 <= i < |vals|
        ensures RunningSum(vals, i).Finite? && RunningSum(vals, i).x <= Total(vals).x
      {
        if i < |vals| - 1 {
          assert vals[..i + 1] == init[..i + 1];
          assert RunningSum(init, i) == RunningSum(vals, i);
        } else {
          assert vals[..i + 1] == vals;
        }
      }
    }
  }

  /** With finite non-negative values the last running sum (the total) always reaches
      `u * total`, so the roulette never falls back for lack of a winner. */
  lemma NonNegativeValuesAlwaysSelect(vals: seq<Value>, u: Unit)
    requires |vals| > 0
    requires forall k :: 0 <= k < |vals| ==> vals[k].Finite? && vals[k].x >= 0.0
    ensures Roulette(vals, u) < |vals|
    ensures Reaches(vals, Roulette(vals, u), Scale(u, Total(vals)))
  {
    var last := |vals| - 1;
    var t := Scale(u, Total(vals));
    assert RunningSum(vals, last) == Total(vals) by {
      assert vals[..last + 1] == vals;
    }
    TotalOfNonNegative(vals);
    FractionNotAbove(u, Total(vals));
    assert Reaches(vals, last, t);
    FirstReachingFrom(vals, t, 0);
  }

  /** A non-negative finite total is at least any fraction of itself. */
  lemma FractionNotAbove(u: Unit, total: Value)
    requires total.Finite? && total.x >= 0.0
    ensures AtLeast(total, Scale(u, total))
  {
    MulNonNegative(1.0 - u, total.x);
    assert total.x - u * total.x == (1.0 - u) * total.x;
  }

  /** `NewABC`'s defaults: half the population forages (Go integer division) and the
      rest observes; a stall limit of half of population times dimensions. */
  function DefaultForagers(populationSize: nat): nat
  {
    populationSize / 2
  }

  function DefaultLimit(populationSize: nat, numDimensions: nat): nat
  {
    populationSize * numDimensions / 2
  }

  /** With the default split, foragers never outnumber observers and every member has a
      role; there are two foragers to pair up (as the partner loop needs) exactly when the
      population has at least four members. */
  lemma DefaultSplit(populationSize: nat)
    ensures var f := DefaultForagers(populationSize);
      && f <= populationSize - f <= f + 1
      && (2 <= f <==> 4 <= populationSize)
  {
  }

  /** One exploitation of a forager (ABC.go:73-85 for a forager, 91-104 for an
      observer's pick): the exploited forager, its partner, the two rows as they were,
      the mutated coordinate `s` and factor `r`, the candidate, and whether it was taken. */
  datatype Exploitation = Exploitation(forager: int, partner: int, source: seq<real>, other: seq<real>,
                                       s: int, r: real, candidate: seq<real>, accepted: bool)

  /** What every exploitation satisfies: the partner is another forager, the candidate is
      the source mutated at one coordinate by a factor in [-1, 1), and it is taken
      exactly when its value is strictly below the source's. */
  ghost predicate Sound(e: Exploitation, f: Objective, bounds: seq<seq<real>>, foragers: int, dims: int)
  {
    && 0 <= e.forager < foragers && 0 <= e.partner < foragers && e.partner != e.forager
    && |e.source| == dims && |e.other| == dims && 0 <= e.s < dims && -1.0 <= e.r < 1.0
    && Covers(bounds, dims)
    && e.candidate == Mutated(e.source, e.other, e.s, e.r, bounds)
    && (e.accepted <==> Less(f(e.candidate), f(e.source)))
  }

  /** Every exploitation in `turns` is sound, and the `i`-th is of forager `i` when
      `inOrder`. */
  ghost predicate AllSound(turns: seq<Exploitation>, f: Objective, bounds: seq<seq<real>>, foragers: int, dims: int, inOrder: bool)
  {
    forall t :: 0 <= t < |turns| ==> Sound(turns[t], f, bounds, foragers, dims) && (inOrder ==> turns[t].forager == t)
  }

  /** A sound exploitation, in its place, extends a sound sequence of them. */
  lemma AllSoundExtends(turns: seq<Exploitation>, e: Exploitation, f: Objective, bounds: seq<seq<real>>, foragers: int, dims: int, inOrder: bool)
    requires AllSound(turns, f, bounds, foragers, dims, inOrder)
    requires Sound(e, f, bounds, foragers, dims) && (inOrder ==> e.forager == |turns|)
    ensures AllSound(turns + [e], f, bounds, foragers, dims, inOrder)
  {
  }

  /** The candidate of the last exploitation of forager `i` in `turns` that was taken. */
  function Latest(turns: seq<Exploitation>, i: int): Option<seq<real>>
  {
    if turns == [] then None
    else
      var e := turns[|turns| - 1];
      if e.forager == i && e.accepted then Some(e.candidate) else Latest(turns[..|turns| - 1], i)
  }

  /** The exploitations of forager `i` in `turns` after the last one that was taken (all
      of them when none was): the trials they add to its counter. */
  function Rejections(turns: seq<Exploitation>, i: int): nat
  {
    if turns == [] then 0
    else
      var e := turns[|turns| - 1];
      var before := Rejections(turns[..|turns| - 1], i);
      if e.forager != i then before else if e.accepted then 0 else before + 1
  }

  /** `Latest` finds a candidate exactly when some exploitation of `i` was taken, and it
      is the candidate of the last such one. */
  lemma {:induction false} LatestIsLastTaken(turns: seq<Exploitation>, i: int)
    ensures Latest(turns, i).None? <==> forall t :: 0 <= t < |turns| ==> !(turns[t].forager == i && turns[t].accepted)
    ensures Latest(turns, i).Some? ==> exists t :: (
      && 0 <= t < |turns| && turns[t].forager == i && turns[t].accepted
      && Latest(turns, i).value == turns[t].candidate
      && forall u :: t < u < |turns| ==> !(turns[u].forager == i && turns[u].accepted))
  {
    if turns != [] {
      var n := |turns| - 1;
      var init := turns[..n];
      LatestIsLastTaken(init, i);
      assert forall t :: 0 <= t < n ==> turns[t] == init[t];
      if !(turns[n].forager == i && turns[n].accepted) && Latest(init, i).Some? {
        var t :| 0 <= t < |init| && init[t].forager == i && init[t].accepted
          && Latest(init, i).value == init[t].candidate
          && (forall u :: t < u < |init| ==> !(init[u].forager == i && init[u].accepted));
        assert turns[t] == init[t];
      }
    }
  }

  /** `copy(dst, src)`: the first min(len(dst), len(src)) elements of `src` into `dst`;
      a nil destination takes nothing. */
  method CopyInto(dst: array?<real>, src: array<real>)
    modifies dst
    ensures dst != null ==> |dst[..]| == |old(dst[..])|
    ensures dst != null && dst.Length <= src.Length ==> dst[..] == old(src[..])[..dst.Length]
    ensures dst != null && src.Length < dst.Length ==> dst[..] == old(src[..]) + old(dst[..])[src.Length..]
  {
    if dst == null {
      return;
    }
    var n := if dst.Length <= src.Length then dst.Length else src.Length;
    ghost var from := src[..];
    ghost var before := dst[..];
    var k := 0;
    while k < n
      invariant 0 <= k <= n
      invariant src == dst ==> src[..] == from
      invariant forall m :: 0 <= m < k ==> dst[m] == from[m]
      invariant forall m :: k <= m < dst.Length ==> dst[m] == before[m]
      invariant src != dst ==> src[..] == from
    {
      dst[k] := src[k];
      k := k + 1;
    }
  }

  // ---------------------------------------------------------------------
  // The colony
  // ---------------------------------------------------------------------

  datatype AbcRequest = AbcRequest(base: Request, limit: Option<int>, foragerSize: Option<int>)

  class Colony {
    const algo: Algo
    const limit: int
    const foragerSize: int
    const observerSize: int
    const trials: array<int>

    /** `req` and `p0` only carry the construction of `algo` through. */
    constructor (algo: Algo, limit: int, foragerSize: int, ghost req: Request, ghost p0: nat)
      requires algo.populationSize >= 0 && algo.Populated(req, p0)
      ensures algo.Populated(req, p0)
      ensures this.algo == algo && this.limit == limit && this.foragerSize == foragerSize
      ensures observerSize == algo.populationSize - foragerSize
      ensures fresh(trials) && trials.Length == algo.populationSize
      ensures forall i :: 0 <= i < trials.Length ==> trials[i] == 0
    {
      this.algo := algo;
      this.limit := limit;
      this.foragerSize := foragerSize;
      observerSize := algo.populationSize - foragerSize;
      trials := new int[algo.populationSize](_ => 0);
    }

    /** The shape the colony keeps: the engine's shape and one trial counter per member. */
    predicate Valid()
      reads this, algo, algo.population
    {
      && algo.Shaped()
      && trials.Length == algo.populationSize
      && observerSize == algo.populationSize - foragerSize
    }

    /** What an iteration needs to neither panic nor loop forever: at least two foragers,
        all within the population, at least one dimension (`Intn(len(solution))`), and a
        stream on which the partner rejection loop ends. */
    ghost predicate Ready()
      reads this, algo, algo.rng
    {
      && 2 <= foragerSize <= algo.populationSize
      && algo.numDimensions >= 1
      && Fair(algo.rng.src, foragerSize)
    }

    /** A single forager: its partner loop (ABC.go:73-76) draws `Intn(1) == 0` forever. */
    predicate Stuck()
      reads this
    {
      foragerSize == 1
    }

    /** The first iteration panics in `Intn(0)`: with no foragers but some observers at
        the observer's partner draw (ABC.go:92), and with foragers but no dimension at the
        coordinate draw of `mutate` (ABC.go:121). */
    predicate Doomed()
      reads this, algo
    {
      || (foragerSize <= 0 && observerSize > 0)
      || (foragerSize >= 2 && algo.numDimensions == 0)
    }

    /** No forager and no observer: an iteration does nothing. */
    predicate Idle()
      reads this
    {
      foragerSize <= 0 && observerSize <= 0
    }

    /** Every member and the buffer of the best position lie within well-ordered bounds. */
    predicate InBoundsInv()
      reads this, algo, algo.population, algo.population[..], algo.bestPos
    {
      && Ordered(algo.bounds, algo.numDimensions)
      && algo.AllInBounds()
      && (algo.bestPos != null ==> InBounds(algo.bestPos[..], algo.bounds))
    }

    /** `updateGlobalBest(i)`: on a strict improvement the value is taken and the row is
        copied into the existing best buffer, so a row that shares that buffer is
        overwritten too. */
    method UpdateGlobalBest(i: int)
      requires Valid() && 0 <= i < algo.populationSize
      modifies algo`bestVal, algo.bestPos
      ensures var v := algo.f(old(algo.population[i][..]));
        && (Less(v, old(algo.bestVal)) ==>
              algo.bestVal == v && (algo.bestPos != null ==> algo.bestPos[..] == old(algo.population[i][..])))
        && (!Less(v, old(algo.bestVal)) ==>
              algo.bestVal == old(algo.bestVal) && (algo.bestPos != null ==> algo.bestPos[..] == old(algo.bestPos[..])))
      ensures NotAbove(algo.bestVal, old(algo.bestVal))
      ensures forall m :: (0 <= m < algo.populationSize && algo.population[m] == algo.bestPos &&
        Less(algo.f(old(algo.population[i][..])), old(algo.bestVal))) ==>
        algo.population[m][..] == old(algo.population[i][..])
    {
      var value := algo.f(algo.population[i][..]);
      if Less(value, algo.bestVal) {
        algo.bestVal := value;
        CopyInto(algo.bestPos, algo.population[i]);
      }
    }

    /** `mutate(solution, other)`: a fresh copy of `solution` with one coordinate moved,
        drawing the coordinate and then the factor `r = 2u - 1`. */
    method Mutate(solution: array<real>, other: array<real>) returns (candidate: array<real>)
      requires 1 <= solution.Length <= other.Length && Covers(algo.bounds, solution.Length)
      modifies algo.rng
      ensures fresh(candidate)
      ensures algo.rng.pos == old(algo.rng.pos) + 2
      ensures candidate[..] == Mutated(solution[..], other[..],
        IntDraw(algo.rng.src(old(algo.rng.pos)), solution.Length),
        Factor(algo.rng.src(old(algo.rng.pos) + 1)), algo.bounds)
    {
      candidate := new real[solution.Length];
      CopyInto(candidate, solution);
      ghost var copied := candidate[..];
      assert copied == solution[..];
      var s := algo.rng.Intn(solution.Length);
      var u := algo.rng.Float64();
      var r := Factor(u);
      candidate[s] := Perturb(algo.bounds[s][0], algo.bounds[s][1], solution[s], other[s], r);
      assert candidate[..] == copied[s := candidate[s]];
    }

    /** The partner draw `k := Intn(F); for k == avoid { k = Intn(F) }`: the first draw
        that differs from `avoid`. */
    method Partner(avoid: int) returns (k: int)
      requires 2 <= foragerSize && 0 <= avoid < foragerSize && Fair(algo.rng.src, foragerSize)
      modifies algo.rng
      ensures 0 <= k < foragerSize && k != avoid
      ensures old(algo.rng.pos) < algo.rng.pos
      ensures k == IntDraw(algo.rng.src(algo.rng.pos - 1), foragerSize)
      ensures forall q :: old(algo.rng.pos) <= q < algo.rng.pos - 1 ==> IntDraw(algo.rng.src(q), foragerSize) == avoid
    {
      ghost var p0 := algo.rng.pos;
      assert Avoids(algo.rng.src, foragerSize, avoid, p0);
      ghost var w: nat :| p0 <= w && IntDraw(algo.rng.src(w), foragerSize) != avoid;
      k := algo.rng.Intn(foragerSize);
      while k == avoid
        invariant p0 < algo.rng.pos
        invariant k == IntDraw(algo.rng.src(algo.rng.pos - 1), foragerSize) && 0 <= k < foragerSize
        invariant forall q :: p0 <= q < algo.rng.pos - 1 ==> IntDraw(algo.rng.src(q), foragerSize) == avoid
        invariant k == avoid ==> algo.rng.pos <= w
        decreases w - algo.rng.pos
      {
        k := algo.rng.Intn(foragerSize);
      }
    }

    /** One exploitation of forager `j` (the body of both the forager and the observer
        loops): the partner is the first draw of `Intn(ForagerSize)` that is not `j`, the
        next two draws give the mutated coordinate and the factor, and the candidate
        replaces the source exactly when strictly better, which resets the source's trial
        counter; otherwise the counter goes up by exactly one. */
    method Exploit(j: int) returns (accepted: bool, ghost e: Exploitation)
      requires Valid() && Ready() && 0 <= j < foragerSize
      modifies algo.population, algo`bestVal, algo.bestPos, trials, algo.rng
      ensures Valid()
      ensures e.forager == j && e.accepted == accepted
      ensures Sound(e, algo.f, algo.bounds, foragerSize, algo.numDimensions)
      ensures e.source == old(algo.population[j][..]) && e.other == old(algo.population[e.partner][..])
      ensures var p := algo.rng.pos;
        && old(algo.rng.pos) + 3 <= p
        && e.partner == IntDraw(algo.rng.src(p - 3), foragerSize)
        && (forall q :: old(algo.rng.pos) <= q < p - 3 ==> IntDraw(algo.rng.src(q), foragerSize) == j)
        && e.s == IntDraw(algo.rng.src(p - 2), algo.numDimensions)
        && e.r == Factor(algo.rng.src(p - 1))
      ensures forall m :: 0 <= m < algo.populationSize && m != j ==>
        algo.population[m] == old(algo.population[m]) && trials[m] == old(trials[m])
      ensures forall m :: 0 <= m < algo.populationSize && m != j && algo.population[m] != algo.bestPos ==>
        algo.population[m][..] == old(algo.population[m][..])
      ensures accepted ==>
        && fresh(algo.population[j]) && algo.population[j] != algo.bestPos
        && algo.population[j][..] == e.candidate && trials[j] == 0
      ensures !accepted ==> algo.population[j] == old(algo.population[j]) && trials[j] == old(trials[j]) + 1
      ensures NotAbove(algo.bestVal, old(algo.bestVal))
      ensures old(InBoundsInv()) ==> InBoundsInv()
    {
      var candidate;
      candidate, e := Propose(j);
      accepted := Settle(j, candidate);
      e := e.(accepted := accepted);
    }

    /** The candidate of an exploitation of forager `j` (ABC.go:73-77): the partner draw,
        then the mutation of the source toward or away from the partner; the record's
        `accepted` is left false. */
    method Propose(j: int) returns (candidate: array<real>, ghost e: Exploitation)
      requires Valid() && Ready() && 0 <= j < foragerSize
      modifies algo.rng
      ensures Ready()
      ensures fresh(candidate) && candidate.Length == algo.numDimensions && e.candidate == candidate[..]
      ensures e.forager == j && !e.accepted
      ensures 0 <= e.partner < foragerSize && e.partner != j && 0 <= e.s < algo.numDimensions && -1.0 <= e.r < 1.0
      ensures e.source == algo.population[j][..] && e.other == algo.population[e.partner][..]
      ensures e.candidate == Mutated(e.source, e.other, e.s, e.r, algo.bounds)
      ensures var p := algo.rng.pos;
        && old(algo.rng.pos) + 3 <= p
        && e.partner == IntDraw(algo.rng.src(p - 3), foragerSize)
        && (forall q :: old(algo.rng.pos) <= q < p - 3 ==> IntDraw(algo.rng.src(q), foragerSize) == j)
        && e.s == IntDraw(algo.rng.src(p - 2), algo.numDimensions)
        && e.r == Factor(algo.rng.src(p - 1))
      ensures InBoundsInv() ==> InBounds(candidate[..], algo.bounds)
    {
      var k := Partner(j);
      ghost var s := IntDraw(algo.rng.src(algo.rng.pos), algo.numDimensions);
      ghost var r := Factor(algo.rng.src(algo.rng.pos + 1));
      candidate := Mutate(algo.population[j], algo.population[k]);
      MutationTouchesOneCoordinate(algo.population[j][..], algo.population[k][..], s, r, algo.bounds);
      e := Exploitation(j, k, algo.population[j][..], algo.population[k][..], s, r, candidate[..], false);
    }

    /** The acceptance test and its bookkeeping (ABC.go:79-85). */
    method Settle(j: int, candidate: array<real>) returns (accepted: bool)
      requires Valid() && 0 <= j < algo.populationSize
      requires candidate.Length == algo.numDimensions
      requires candidate != algo.bestPos && forall m :: 0 <= m < algo.populationSize ==> algo.population[m] != candidate
      modifies algo.population, algo`bestVal, algo.bestPos, trials
      ensures Valid()
      ensures accepted <==> Less(algo.f(old(candidate[..])), algo.f(old(algo.population[j][..])))
      ensures forall m :: 0 <= m < algo.populationSize && m != j ==>
        algo.population[m] == old(algo.population[m]) && trials[m] == old(trials[m])
      ensures accepted ==> algo.population[j] == candidate && candidate[..] == old(candidate[..]) && trials[j] == 0
      ensures !accepted ==> algo.population[j] == old(algo.population[j]) && trials[j] == old(trials[j]) + 1
      ensures NotAbove(algo.bestVal, old(algo.bestVal))
      ensures old(InBoundsInv()) && old(InBounds(candidate[..], algo.bounds)) ==> InBoundsInv()
    {
      if Less(algo.f(candidate[..]), algo.f(algo.population[j][..])) {
        accepted := true;
        Install(j, candidate);
      } else {
        accepted := false;
        trials[j] := trials[j] + 1;
      }
    }

    /** `Population[i] = row; Trials[i] = 0; updateGlobalBest(i)`, the common tail of an
        accepted candidate and of a scout. */
    method Install(i: int, row: array<real>)
      requires Valid() && 0 <= i < algo.populationSize
      requires row.Length == algo.numDimensions
      requires row != algo.bestPos && forall m :: 0 <= m < algo.populationSize ==> algo.population[m] != row
      modifies algo.population, algo`bestVal, algo.bestPos, trials
      ensures Valid()
      ensures forall m :: 0 <= m < algo.populationSize && m != i ==>
        algo.population[m] == old(algo.population[m]) && trials[m] == old(trials[m])
      ensures algo.population[i] == row && row[..] == old(row[..]) && trials[i] == 0
      ensures NotAbove(algo.bestVal, old(algo.bestVal))
      ensures Less(algo.f(row[..]), old(algo.bestVal)) ==> algo.bestVal == algo.f(row[..])
      ensures old(InBoundsInv()) && old(InBounds(row[..], algo.bounds)) ==> InBoundsInv()
    {
      algo.population[i] := row;
      trials[i] := 0;
      UpdateGlobalBest(i);
    }

    /** The foragers' objective values, in index order. */
    function ForagerValues(): (vals: seq<Value>)
      requires 0 <= foragerSize <= algo.population.Length
      reads this, algo, algo.population, algo.population[..]
      ensures |vals| == foragerSize
    {
      Scores(algo.f, algo.Contents()[..foragerSize])
    }

    /** The first loop of `selectForagerByFitness`: the sum of the foragers' values. */
    method SumFitness() returns (sum: Value)
      requires 0 <= foragerSize <= algo.population.Length
      ensures sum == Total(ForagerValues())
    {
      ghost var vals := ForagerValues();
      sum := Finite(0.0);
      var i := 0;
      while i < foragerSize
        invariant 0 <= i <= foragerSize
        invariant sum == Total(vals[..i])
      {
        var value := algo.f(algo.population[i][..]);
        assert vals[i] == value;
        TotalExtends(vals, i);
        sum := Add(sum, value);
        i := i + 1;
      }
      assert vals[..foragerSize] == vals;
    }

    /** `selectForagerByFitness`: the roulette over the foragers' objective values with
        one uniform draw (the objective is evaluated twice per forager, with equal
        results). */
    method SelectForager(ghost vals: seq<Value>) returns (j: int)
      requires 0 <= foragerSize <= algo.population.Length
      requires vals == ForagerValues()
      modifies algo.rng
      ensures algo.rng.pos == old(algo.rng.pos) + 1
      ensures j == Roulette(vals, algo.rng.src(old(algo.rng.pos)))
      ensures 0 <= j < foragerSize || j == 0
    {
      var sumFitness := SumFitness();
      var u := algo.rng.Float64();
      j := FirstToReach(vals, Scale(u, sumFitness));
    }

    /** The second loop of `selectForagerByFitness`: the first forager whose running sum
        reaches `threshold`, and 0 when none does. */
    method FirstToReach(ghost vals: seq<Value>, threshold: Value) returns (j: int)
      requires 0 <= foragerSize <= algo.population.Length
      requires vals == ForagerValues()
      ensures j == FirstReaching(vals, threshold, 0)
      ensures 0 <= j < foragerSize || j == 0
    {
      var sum := Finite(0.0);
      var i := 0;
      while i < foragerSize
        invariant 0 <= i <= foragerSize
        invariant sum == Total(vals[..i])
        invariant FirstReaching(vals, threshold, 0) == FirstReaching(vals, threshold, i)
      {
        var value := algo.f(algo.population[i][..]);
        assert vals[i] == value;
        TotalExtends(vals, i);
        sum := Add(sum, value);
        if AtLeast(sum, threshold) {
          assert Reaches(vals, i, threshold);
          return i;
        }
        i := i + 1;
      }
      return 0;
    }

    /** `foragerPhase`: every forager is exploited once, in index order; `turns[i]` is the
        exploitation of forager `i`. A source that is not the best buffer is exploited as
        it was before the phase (the best buffer itself may have been overwritten by an
        earlier forager's improvement). */
    method ForagerPhase() returns (ghost turns: seq<Exploitation>)
      requires Valid() && (Ready() || foragerSize <= 0)
      modifies algo.population, algo`bestVal, algo.bestPos, trials, algo.rng
      ensures Valid()
      ensures |turns| == Max0(foragerSize)
      ensures AllSound(turns, algo.f, algo.bounds, foragerSize, algo.numDimensions, true)
      ensures forall i :: 0 <= i < |turns| && old(algo.population[i]) != algo.bestPos ==>
        turns[i].source == old(algo.population[i][..])
      ensures forall i :: 0 <= i < |turns| ==>
        if turns[i].accepted then
          fresh(algo.population[i]) && algo.population[i][..] == turns[i].candidate && trials[i] == 0
        else algo.population[i] == old(algo.population[i]) && trials[i] == old(trials[i]) + 1
      ensures forall m :: Max0(foragerSize) <= m < algo.populationSize ==>
        algo.population[m] == old(algo.population[m]) && trials[m] == old(trials[m])
      ensures NotAbove(algo.bestVal, old(algo.bestVal))
      ensures old(InBoundsInv()) ==> InBoundsInv()
    {
      ghost var rows0, contents0, trials0 := algo.population[..], algo.Contents(), trials[..];
      turns := [];
      var i := 0;
      while i < foragerSize
        invariant 0 <= i <= Max0(foragerSize) && |turns| == i
        invariant Valid() && (Ready() || foragerSize <= 0)
        invariant Foraged(turns, rows0, contents0, trials0)
        invariant forall m :: 0 <= m < i && turns[m].accepted ==> fresh(algo.population[m])
        invariant NotAbove(algo.bestVal, old(algo.bestVal))
        invariant old(InBoundsInv()) ==> InBoundsInv()
      {
        ghost var before := algo.bestVal;
        turns := Forage(i, turns, rows0, contents0, trials0);
        NotAboveTransitive(algo.bestVal, before, old(algo.bestVal));
        i := i + 1;
      }
    }

    /** The state after the foragers before `|turns|` have had their exploitations
        `turns`, from rows `rows0` holding `contents0` and counters `trials0`. */
    ghost predicate Foraged(turns: seq<Exploitation>, rows0: seq<array<real>>, contents0: seq<seq<real>>, trials0: seq<int>)
      reads this, algo, algo.population, algo.population[..], trials
    {
      && |rows0| == |contents0| == |trials0| == algo.populationSize == algo.population.Length == trials.Length
      && |turns| <= algo.populationSize
      && AllSound(turns, algo.f, algo.bounds, foragerSize, algo.numDimensions, true)
      && (forall m :: 0 <= m < |turns| && rows0[m] != algo.bestPos ==> turns[m].source == contents0[m])
      && (forall m :: 0 <= m < |turns| && turns[m].accepted ==>
            algo.population[m] != algo.bestPos && algo.population[m][..] == turns[m].candidate && trials[m] == 0)
      && (forall m :: 0 <= m < |turns| && !turns[m].accepted ==>
            algo.population[m] == rows0[m] && trials[m] == trials0[m] + 1)
      && (forall m :: |turns| <= m < algo.populationSize ==> algo.population[m] == rows0[m] && trials[m] == trials0[m])
      && (forall m :: |turns| <= m < algo.populationSize && rows0[m] != algo.bestPos ==>
            algo.population[m][..] == contents0[m])
    }

    /** The exploitation of the next forager, `|turns|`. */
    method Forage(i: int, ghost turns: seq<Exploitation>, ghost rows0: seq<array<real>>, ghost contents0: seq<seq<real>>, ghost trials0: seq<int>)
      returns (ghost after: seq<Exploitation>)
      requires Valid() && Ready() && i == |turns| < foragerSize
      requires Foraged(turns, rows0, contents0, trials0)
      modifies algo.population, algo`bestVal, algo.bestPos, trials, algo.rng
      ensures Valid() && Ready()
      ensures Foraged(after, rows0, contents0, trials0) && |after| == |turns| + 1 && after[..|turns|] == turns
      ensures forall m :: 0 <= m < algo.populationSize && m != |turns| ==> algo.population[m] == old(algo.population[m])
      ensures after[|turns|].accepted ==> fresh(algo.population[|turns|])
      ensures NotAbove(algo.bestVal, old(algo.bestVal))
      ensures old(InBoundsInv()) ==> InBoundsInv()
    {
      var accepted;
      ghost var e;
      accepted, e := Exploit(i);
      AllSoundExtends(turns, e, algo.f, algo.bounds, foragerSize, algo.numDimensions, true);
      after := turns + [e];
    }

    /** `observerPhase`: `ObserverSize` roulette picks, each followed by an exploitation of
        the picked forager (`turns`, in order). A forager ends with the candidate of its
        last taken exploitation and a counter of the exploitations after it, or, when none
        was taken, with its row and its counter raised by every exploitation; members from
        `ForagerSize` on are never touched. */
    method ObserverPhase() returns (ghost turns: seq<Exploitation>)
      requires Valid() && (Ready() || observerSize <= 0)
      modifies algo.population, algo`bestVal, algo.bestPos, trials, algo.rng
      ensures Valid()
      ensures |turns| == Max0(observerSize)
      ensures AllSound(turns, algo.f, algo.bounds, foragerSize, algo.numDimensions, false)
      ensures forall i :: 0 <= i < foragerSize && i < algo.populationSize ==>
        match Latest(turns, i)
        case Some(y) => fresh(algo.population[i]) && algo.population[i][..] == y && trials[i] == Rejections(turns, i)
        case None => algo.population[i] == old(algo.population[i]) && trials[i] == old(trials[i]) + Rejections(turns, i)
      ensures forall m :: Max0(foragerSize) <= m < algo.populationSize ==>
        algo.population[m] == old(algo.population[m]) && trials[m] == old(trials[m])
      ensures NotAbove(algo.bestVal, old(algo.bestVal))
      ensures old(InBoundsInv()) ==> InBoundsInv()
    {
      ghost var rows0, trials0 := algo.population[..], trials[..];
      turns := [];
      var i := foragerSize;
      while i < foragerSize + observerSize
        invariant foragerSize <= i <= foragerSize + Max0(observerSize) && |turns| == i - foragerSize
        invariant Valid() && (Ready() || observerSize <= 0)
        invariant Observed(turns, rows0, trials0)
        invariant forall m :: 0 <= m < foragerSize && m < algo.populationSize && Latest(turns, m).Some? ==>
          fresh(algo.population[m])
        invariant NotAbove(algo.bestVal, old(algo.bestVal))
        invariant old(InBoundsInv()) ==> InBoundsInv()
      {
        ghost var before := algo.bestVal;
        turns := ObserveNext(turns, rows0, trials0);
        NotAboveTransitive(algo.bestVal, before, old(algo.bestVal));
        i := i + 1;
      }
    }

    /** The state after the observers' exploitations `turns`, from rows `rows0` and
        counters `trials0`. */
    ghost predicate Observed(turns: seq<Exploitation>, rows0: seq<array<real>>, trials0: seq<int>)
      reads this, algo, algo.population, algo.population[..], trials
    {
      && |rows0| == |trials0| == algo.populationSize == algo.population.Length == trials.Length
      && AllSound(turns, algo.f, algo.bounds, foragerSize, algo.numDimensions, false)
      && (forall m :: 0 <= m < foragerSize && m < algo.populationSize ==>
            match Latest(turns, m)
            case Some(y) => algo.population[m] != algo.bestPos && algo.population[m][..] == y && trials[m] == Rejections(turns, m)
            case None => algo.population[m] == rows0[m] && trials[m] == trials0[m] + Rejections(turns, m))
      && (forall m :: Max0(foragerSize) <= m < algo.populationSize ==>
            algo.population[m] == rows0[m] && trials[m] == trials0[m])
    }

    /** The next observer. */
    method ObserveNext(ghost turns: seq<Exploitation>, ghost rows0: seq<array<real>>, ghost trials0: seq<int>)
      returns (ghost after: seq<Exploitation>)
      requires Valid() && Ready() && Observed(turns, rows0, trials0)
      modifies algo.population, algo`bestVal, algo.bestPos, trials, algo.rng
      ensures Valid() && Ready() && Observed(after, rows0, trials0) && |after| == |turns| + 1
      ensures forall m :: 0 <= m < foragerSize && m < algo.populationSize && Latest(after, m).Some? ==>
        (Latest(turns, m).Some? && algo.population[m] == old(algo.population[m])) || fresh(algo.population[m])
      ensures NotAbove(algo.bestVal, old(algo.bestVal))
      ensures old(InBoundsInv()) ==> InBoundsInv()
    {
      ghost var e := Observe();
      AllSoundExtends(turns, e, algo.f, algo.bounds, foragerSize, algo.numDimensions, false);
      after := turns + [e];
      assert after[..|turns|] == turns;
    }

    /** One observer: a roulette pick among the foragers over their current values, then
        the same exploitation a forager performs. */
    method Observe() returns (ghost e: Exploitation)
      requires Valid() && Ready()
      modifies algo.population, algo`bestVal, algo.bestPos, trials, algo.rng
      ensures Valid() && Ready()
      ensures e.forager == Roulette(old(ForagerValues()), algo.rng.src(old(algo.rng.pos)))
      ensures Sound(e, algo.f, algo.bounds, foragerSize, algo.numDimensions)
      ensures forall m :: 0 <= m < algo.populationSize && m != e.forager ==>
        algo.population[m] == old(algo.population[m]) && trials[m] == old(trials[m])
      ensures e.accepted ==>
        && fresh(algo.population[e.forager]) && algo.population[e.forager] != algo.bestPos
        && algo.population[e.forager][..] == e.candidate && trials[e.forager] == 0
      ensures !e.accepted ==>
        algo.population[e.forager] == old(algo.population[e.forager]) && trials[e.forager] == old(trials[e.forager]) + 1
      ensures NotAbove(algo.bestVal, old(algo.bestVal))
      ensures old(InBoundsInv()) ==> InBoundsInv()
    {
      ghost var inBounds := InBoundsInv();
      var j := SelectForager(ForagerValues());
      assert inBounds ==> InBoundsInv();
      var accepted;
      accepted, e := Exploit(j);
    }

    /** `scoutPhase`: exactly the foragers whose counter exceeds `Limit` are re-sampled
        (with the counter reset); everyone else is left alone. */
    method ScoutPhase()
      requires Valid() && 0 <= foragerSize <= algo.populationSize
      modifies algo.population, algo`bestVal, algo.bestPos, trials, algo.rng
      ensures Valid()
      ensures forall m :: foragerSize <= m < algo.populationSize ==>
        algo.population[m] == old(algo.population[m]) && trials[m] == old(trials[m])
      ensures forall i :: 0 <= i < foragerSize ==>
        if old(trials[i]) > limit then trials[i] == 0 && fresh(algo.population[i])
        else trials[i] == old(trials[i]) && algo.population[i] == old(algo.population[i])
      ensures NotAbove(algo.bestVal, old(algo.bestVal))
      ensures old(InBoundsInv()) ==> InBoundsInv()
    {
      var i := 0;
      while i < foragerSize
        invariant 0 <= i <= foragerSize
        invariant Valid()
        invariant forall m :: i <= m < algo.populationSize ==>
          algo.population[m] == old(algo.population[m]) && trials[m] == old(trials[m])
        invariant forall m :: 0 <= m < i ==>
          if old(trials[m]) > limit then trials[m] == 0 && fresh(algo.population[m])
          else trials[m] == old(trials[m]) && algo.population[m] == old(algo.population[m])
        invariant NotAbove(algo.bestVal, old(algo.bestVal))
        invariant old(InBoundsInv()) ==> InBoundsInv()
      {
        if trials[i] > limit {
          ghost var before := algo.bestVal;
          Scout(i);
          NotAboveTransitive(algo.bestVal, before, old(algo.bestVal));
        }
        i := i + 1;
      }
    }

    /** Member `i` becomes a scout: a fresh `randomSolution`, a zero counter, and the
        global best updated from it. */
    method Scout(i: int)
      requires Valid() && 0 <= i < algo.populationSize
      modifies algo.population, algo`bestVal, algo.bestPos, trials, algo.rng
      ensures Valid()
      ensures forall m :: 0 <= m < algo.populationSize && m != i ==>
        algo.population[m] == old(algo.population[m]) && trials[m] == old(trials[m])
      ensures trials[i] == 0 && fresh(algo.population[i])
      ensures algo.population[i][..] == SampledRow(algo.bounds, algo.numDimensions, algo.rng.src, old(algo.rng.pos))
      ensures NotAbove(algo.bestVal, old(algo.bestVal))
      ensures old(InBoundsInv()) ==> InBoundsInv()
    {
      var row := algo.SampleVector();
      if Ordered(algo.bounds, algo.numDimensions) {
        SampledRowInBounds(algo.bounds, algo.numDimensions, algo.rng.src, old(algo.rng.pos));
      }
      Install(i, row);
    }

    /** One iteration of `Run`: forager, observer and scout phases in that order. The
        records of the two exploiting phases come back: one sound exploitation per forager
        in order, then one per observer. The observers' own rows and counters are never
        touched, and after the scouts no forager's counter is above the limit. */
    method Iterate() returns (ghost foraged: seq<Exploitation>, ghost observed: seq<Exploitation>)
      requires Valid() && (Ready() || Idle())
      modifies algo.population, algo`bestVal, algo.bestPos, trials, algo.rng
      ensures Valid() && (Ready() || Idle())
      ensures |foraged| == Max0(foragerSize) && AllSound(foraged, algo.f, algo.bounds, foragerSize, algo.numDimensions, true)
      ensures |observed| == Max0(observerSize) && AllSound(observed, algo.f, algo.bounds, foragerSize, algo.numDimensions, false)
      ensures forall m :: Max0(foragerSize) <= m < algo.populationSize ==>
        algo.population[m] == old(algo.population[m]) && trials[m] == old(trials[m])
      ensures forall i :: 0 <= i < foragerSize ==> trials[i] <= limit || trials[i] == 0
      ensures NotAbove(algo.bestVal, old(algo.bestVal))
      ensures old(InBoundsInv()) ==> InBoundsInv()
    {
      ghost var before := algo.bestVal;
      foraged := ForagerPhase();
      NotAboveTransitive(algo.bestVal, before, old(algo.bestVal));
      before := algo.bestVal;
      observed := ObserverPhase();
      NotAboveTransitive(algo.bestVal, before, old(algo.bestVal));
      before := algo.bestVal;
      ScoutPhase();
      NotAboveTransitive(algo.bestVal, before, old(algo.bestVal));
    }

    /** One iteration followed by its snapshot. */
    method Round(sink: Sink, ghost start: nat, t: nat) returns (ok: bool)
      requires Valid() && (Ready() || Idle())
      requires Emitted(sink.log, sink.accepts, start, t) && sink.accepts(start + t)
      requires sink.log[start + t].bestValue == algo.bestVal
      modifies algo.population, algo`bestVal, algo.bestPos, trials, algo.rng, sink
      ensures Valid() && (Ready() || Idle())
      ensures |sink.log| == |old(sink.log)| + 1 && sink.log[..|old(sink.log)|] == old(sink.log)
      ensures sink.log[|sink.log| - 1].bestValue == algo.bestVal
      ensures Emitted(sink.log, sink.accepts, start, t + 1)
      ensures ok == sink.accepts(start + t + 1)
      ensures NotAbove(algo.bestVal, old(algo.bestVal))
      ensures old(InBoundsInv()) ==> InBoundsInv()
    {
      ghost var _, _ := Iterate();
      ok := algo.EmitNext(sink, start, t);
    }

    /** `Run`: a snapshot before the first iteration and one after each iteration of
        forager, observer and scout phases, stopping at the first refused `send`; the
        answer is the live best buffer and the best value. When the first snapshot is
        accepted and there is an iteration to run, a single forager makes the run loop
        forever in its partner draw (`hangs`) and an `Intn(0)` makes it panic
        (`panicked`); either way the log holds the first snapshot only. */
    method Run(sink: Sink) returns (bestPos: array?<real>, bestVal: Value, hangs: bool, panicked: bool)
      requires Valid()
      requires algo.iterations > 0 ==>
        foragerSize <= algo.populationSize && (foragerSize >= 2 ==> Fair(algo.rng.src, foragerSize))
      modifies algo.population, algo`bestVal, algo.bestPos, trials, algo.rng, sink
      ensures Valid()
      ensures var going := algo.iterations > 0 && sink.accepts(|old(sink.log)|);
        && (hangs <==> going && Stuck())
        && (panicked <==> going && Doomed())
      ensures !hangs && !panicked ==> Reported(sink.log, old(sink.log), sink.accepts, algo.iterations)
      ensures !hangs && !panicked ==> sink.log[|sink.log| - 1].bestValue == bestVal
      ensures hangs || panicked ==>
        Interrupted(sink.log, old(sink.log), sink.accepts, algo.iterations) && |sink.log| == |old(sink.log)| + 1
      ensures bestPos == algo.bestPos && bestVal == algo.bestVal
      ensures NotAbove(bestVal, old(algo.bestVal))
      ensures old(InBoundsInv()) ==> InBoundsInv()
    {
      var ok := algo.EmitFirst(sink);
      hangs, panicked := Proceed(sink, old(sink.log), ok);
      bestPos, bestVal := algo.bestPos, algo.bestVal;
    }

    /** `Run` after its first snapshot `ok`: the start of the first iteration, which
        may hang or panic, then the iterations. */
    method Proceed(sink: Sink, ghost before: seq<Snapshot>, ok: bool) returns (hangs: bool, panicked: bool)
      requires Valid()
      requires algo.iterations > 0 ==>
        foragerSize <= algo.populationSize && (foragerSize >= 2 ==> Fair(algo.rng.src, foragerSize))
      requires Emitted(sink.log, sink.accepts, |before|, 0) && sink.log[..|before|] == before
      requires ok == sink.accepts(|before|) && sink.log[|before|].bestValue == algo.bestVal
      modifies algo.population, algo`bestVal, algo.bestPos, trials, algo.rng, sink
      ensures Valid()
      ensures hangs <==> ok && algo.iterations > 0 && Stuck()
      ensures panicked <==> ok && algo.iterations > 0 && Doomed()
      ensures !hangs && !panicked ==> Reported(sink.log, before, sink.accepts, algo.iterations)
      ensures !hangs && !panicked ==> sink.log[|sink.log| - 1].bestValue == algo.bestVal
      ensures hangs || panicked ==>
        Interrupted(sink.log, before, sink.accepts, algo.iterations) && |sink.log| == |before| + 1
      ensures NotAbove(algo.bestVal, old(algo.bestVal))
      ensures old(InBoundsInv()) ==> InBoundsInv()
    {
      hangs, panicked := Launch(ok && algo.iterations > 0);
      if hangs || panicked {
        EmittedInterrupted(sink.log, before, sink.accepts, 0, algo.iterations);
      } else {
        var t := Iterations(sink, before, ok);
        EmittedRun(sink.log, before, sink.accepts, t, algo.iterations);
      }
    }

    /** The start of the first iteration when `going`: a single forager hangs, an
        `Intn(0)` panics (after the draws that come before it), and otherwise the colony
        is ready for its iterations or has nobody to move. */
    method Launch(going: bool) returns (hangs: bool, panicked: bool)
      requires Valid()
      requires going ==> foragerSize <= algo.populationSize && (foragerSize >= 2 ==> Fair(algo.rng.src, foragerSize))
      modifies algo.rng
      ensures hangs <==> going && Stuck()
      ensures panicked <==> going && Doomed()
      ensures going && !hangs && !panicked ==> Ready() || Idle()
    {
      hangs, panicked := false, false;
      if going {
        if foragerSize == 1 {
          hangs := true;
        } else if foragerSize <= 0 && observerSize > 0 {
          var _ := algo.rng.Float64();
          panicked := true;
        } else if foragerSize >= 2 && algo.numDimensions == 0 {
          var _ := Partner(0);
          panicked := true;
        }
      }
    }

    /** The iterations of `Run` after its first snapshot: `t` of them complete before the
        run ends, either after the last one or at a refused send. */
    method Iterations(sink: Sink, ghost before: seq<Snapshot>, ok: bool) returns (t: nat)
      requires Valid() && (ok && algo.iterations > 0 ==> Ready() || Idle())
      requires Emitted(sink.log, sink.accepts, |before|, 0) && sink.log[..|before|] == before
      requires ok == sink.accepts(|before|) && sink.log[|before|].bestValue == algo.bestVal
      modifies algo.population, algo`bestVal, algo.bestPos, trials, algo.rng, sink
      ensures Valid()
      ensures Emitted(sink.log, sink.accepts, |before|, t) && sink.log[..|before|] == before
      ensures t <= Max0(algo.iterations) && (t == Max0(algo.iterations) || !sink.accepts(|sink.log| - 1))
      ensures sink.log[|sink.log| - 1].bestValue == algo.bestVal
      ensures NotAbove(algo.bestVal, old(algo.bestVal))
      ensures old(InBoundsInv()) ==> InBoundsInv()
    {
      ghost var start := |before|;
      var go := ok;
      t := 0;
      while go && t < algo.iterations
        invariant 0 <= t <= Max0(algo.iterations)
        invariant Valid() && (go && t < algo.iterations ==> Ready() || Idle())
        invariant Emitted(sink.log, sink.accepts, start, t) && sink.log[..start] == before
        invariant go == sink.accepts(start + t)
        invariant sink.log[start + t].bestValue == algo.bestVal
        invariant NotAbove(algo.bestVal, old(algo.bestVal))
        invariant old(InBoundsInv()) ==> InBoundsInv()
      {
        ghost var best := algo.bestVal;
        go := Round(sink, start, t);
        NotAboveTransitive(algo.bestVal, best, old(algo.bestVal));
        t := t + 1;
      }
    }
  }

  /** `NewABC`: the engine's construction, then the forager count (half the population
      by default), the observers as the rest, the trial limit (`P * N / 2` by default)
      and one zero counter per member. */
  method NewABC(req: AbcRequest, compiled: Option<Objective>, rng: Rng) returns (colony: Colony?, err: Option<Failure>)
    modifies rng
    ensures (colony != null) <==> err.None?
    ensures Validate(req.base).Some? ==> err == Validate(req.base) && rng.pos == old(rng.pos)
    ensures Validate(req.base).None? && compiled.None? ==> err == Some(CompileFailed)
    ensures colony != null ==>
      && fresh(colony) && fresh(colony.algo) && fresh(colony.trials)
      && colony.algo.rng == rng && compiled == Some(colony.algo.f)
      && colony.algo.Populated(req.base, old(rng.pos))
      && colony.algo.numDimensions == InitialDimensions(req.base)
      && colony.foragerSize == SetDefault(req.foragerSize, DefaultForagers(colony.algo.populationSize))
      && colony.observerSize == colony.algo.populationSize - colony.foragerSize
      && colony.limit == SetDefault(req.limit, DefaultLimit(colony.algo.populationSize, colony.algo.numDimensions))
      && colony.trials.Length == colony.algo.populationSize
      && (forall i :: 0 <= i < colony.trials.Length ==> colony.trials[i] == 0)
  {
    var algo;
    algo, err := NewAlgo(req.base, compiled, rng);
    if err.Some? {
      return null, err;
    }
    var foragerSize := SetDefault(req.foragerSize, DefaultForagers(algo.populationSize));
    var limit := SetDefault(req.limit, DefaultLimit(algo.populationSize, algo.numDimensions));
    colony := new Colony(algo, limit, foragerSize, req.base, old(rng.pos));
  }
}
