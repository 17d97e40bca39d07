/** The shuffled frog-leaping algorithm of backend-go/algos/SFLA.go: the population
    is cut into memeplexes, the worst frog of a memeplex leaps toward the memeplex
    best, then toward the global best, then to a random position, and the frogs are
    shuffled after every round of memeplexes. */
module Sfla {
  import opened Values
  import opened Random
  import opened Engine
  import opened General

  // ---------------------------------------------------------------------
  // Memeplexes
  // ---------------------------------------------------------------------

  lemma MulMonotone(a: int, b: int, s: int)
    requires 0 <= a <= b && 0 <= s
    ensures 0 <= a * s <= b * s
  {
    assert b * s == a * s + (b - a) * s;
  }

  /** Memeplex `i` is the index range `[i * s, (i + 1) * s)` with
      `s = PopulationSize / SubpopulationsCount`: it lies within the population, and
      the rows from `count * s` on, fewer than `count` of them, belong to no memeplex. */
  lemma {:induction false} MemeplexWithinPopulation(size: nat, count: int, i: int)
    requires 0 <= i < count
    ensures var s := size / count;
      && 0 <= i * s <= (i + 1) * s <= count * s <= size
      && size - count * s < count
  {
    var s := size / count;
    assert size == count * s + size % count;
    MulMonotone(i, i + 1, s);
    MulMonotone(i + 1, count, s);
  }

  /** With more memeplexes than frogs every memeplex is empty. */
  lemma TooManyMemeplexesAreEmpty(size: nat, count: int)
    requires count > size
    ensures size / count == 0
  {
  }

  /** A scan result over a block starting at `lo`, as a population index (or -1). */
  function Located(lo: int, r: (int, Value)): int
  {
    if r.0 < 0 then -1 else lo + r.0
  }

  /** The block scan finds no worst frog exactly when every value in the block is -Inf
      or NaN (in particular when the block is empty), and no best frog exactly when
      every value is +Inf or NaN: the two situations in which SFLA.go:93 indexes row -1. */
  lemma {:induction false} BlockScanMisses(vals: seq<Value>)
    ensures ScanMax(vals, (-1, NegInf)).0 < 0 <==> forall k :: 0 <= k < |vals| ==> vals[k] in {NegInf, NaN}
    ensures ScanMin(vals, (-1, PosInf)).0 < 0 <==> forall k :: 0 <= k < |vals| ==> vals[k] in {PosInf, NaN}
  {
    ScanMaxFindsFirstGreatest(vals, (-1, NegInf));
    ScanMinFindsFirstLeast(vals, (-1, PosInf));
    assert forall v :: !Less(NegInf, v) <==> v in {NegInf, NaN};
    assert forall v :: !Less(v, PosInf) <==> v in {PosInf, NaN};
  }

  /** In a block whose frogs all have the same finite value, the best and the worst
      frog are both the first of the block. */
  lemma {:induction false} EqualBlockPicksStart(vals: seq<Value>, v: Value)
    requires |vals| > 0 && v.Finite?
    requires forall k :: 0 <= k < |vals| ==> vals[k] == v
    ensures ScanMin(vals, (-1, PosInf)) == (0, v)
    ensures ScanMax(vals, (-1, NegInf)) == (0, v)
  {
    ScanMinFindsFirstLeast(vals, (-1, PosInf));
    ScanMaxFindsFirstGreatest(vals, (-1, NegInf));
    assert Less(vals[0], PosInf) && Less(NegInf, vals[0]);
  }

  // ---------------------------------------------------------------------
  // The leap of the worst frog
  // ---------------------------------------------------------------------

  /** One leap of the worst frog `x` of a memeplex (SFLA.go:91-108), reading the draws
      from position `p`: a move toward the memeplex best `b`, then the fallbacks of
      `Retry`. The answer is the new row and the number of draws consumed, or `None`
      where the code indexes a nil global best. */
  ghost function Leap(x: seq<real>, b: seq<real>, g: Option<seq<real>>, aliased: bool, f: Objective,
                      worst: Value, bounds: seq<seq<real>>, src: nat -> Unit, p: nat): Option<(seq<real>, nat)>
    requires |b| == |x| && Covers(bounds, |x|) && (g.Some? ==> |g.value| == |x|)
  {
    var rest := Retry(Toward(x, b, src(p), bounds), g, aliased, f, worst, bounds, src, p + 1);
    if rest.None? then None else Some((rest.value.0, rest.value.1 + 1))
  }

  /** SFLA.go:97-108, from the frog `x1` left by the first move: it stays if its value
      is not at or above `worst`; otherwise it moves toward the global best `g` (`aliased`
      says the global best is this very row, so the target is `x1` itself), and if that
      is still not below, it jumps to a random position. */
  ghost function Retry(x1: seq<real>, g: Option<seq<real>>, aliased: bool, f: Objective,
                       worst: Value, bounds: seq<seq<real>>, src: nat -> Unit, p: nat): Option<(seq<real>, nat)>
    requires Covers(bounds, |x1|) && (g.Some? ==> |g.value| == |x1|)
  {
    if !AtLeast(f(x1), worst) then Some((x1, 0))
    else if !aliased && g.None? && |x1| > 0 then None
    else
      var target := if aliased then x1 else if g.Some? then g.value else x1;
      var x2 := Toward(x1, target, src(p), bounds);
      if !AtLeast(f(x2), worst) then Some((x2, 1))
      else Some((SampledRow(bounds, |x1|, src, p + 1), 1 + |x1|))
  }

  /** A leap is its first move followed by `Retry`, whichever global best `g1` is seen
      after the first move, as long as it is `g` unless the global best is the moved row. */
  lemma LeapThenRetry(x: seq<real>, b: seq<real>, g: Option<seq<real>>, g1: Option<seq<real>>, aliased: bool,
                      f: Objective, worst: Value, bounds: seq<seq<real>>, src: nat -> Unit, p: nat)
    requires |b| == |x| && Covers(bounds, |x|) && (g.Some? ==> |g.value| == |x|) && (g1.Some? ==> |g1.value| == |x|)
    requires aliased || g1 == g
    ensures var out := Retry(Toward(x, b, src(p), bounds), g1, aliased, f, worst, bounds, src, p + 1);
      Leap(x, b, g, aliased, f, worst, bounds, src, p) == if out.None? then None else Some((out.value.0, out.value.1 + 1))
  {
  }

  /** A leap lands within well-ordered bounds. */
  lemma LeapStaysInBounds(x: seq<real>, b: seq<real>, g: Option<seq<real>>, aliased: bool, f: Objective,
                          worst: Value, bounds: seq<seq<real>>, src: nat -> Unit, p: nat)
    requires |b| == |x| && Ordered(bounds, |x|) && (g.Some? ==> |g.value| == |x|)
    ensures var out := Leap(x, b, g, aliased, f, worst, bounds, src, p);
      out.Some? ==> |out.value.0| == |x| && InBounds(out.value.0, bounds)
  {
    var x1 := Toward(x, b, src(p), bounds);
    TowardInBounds(x, b, src(p), bounds);
    var target := if aliased then x1 else if g.Some? then g.value else x1;
    TowardInBounds(x1, target, src(p + 1), bounds);
    SampledRowInBounds(bounds, |x|, src, p + 2);
  }

  /** The fallback order: a leap ends on a position whose value is not at or above the
      memeplex's worst value (strictly below it, or incomparable), unless it ends on a
      fresh random position after both moves failed; it consumes one draw, two, or two
      plus one per dimension. */
  lemma LeapImprovesOrResamples(x: seq<real>, b: seq<real>, g: Option<seq<real>>, aliased: bool, f: Objective,
                                worst: Value, bounds: seq<seq<real>>, src: nat -> Unit, p: nat)
    requires |b| == |x| && Covers(bounds, |x|) && (g.Some? ==> |g.value| == |x|)
    ensures var out := Leap(x, b, g, aliased, f, worst, bounds, src, p);
      out.Some? ==>
        || (out.value.1 in {1, 2} && !AtLeast(f(out.value.0), worst))
        || (out.value.1 == 2 + |x| && out.value.0 == SampledRow(bounds, |x|, src, p + 2))
  {
  }

  /** The only panic of a leap: both the first move failed and the global best is nil,
      in a space of at least one dimension. */
  lemma LeapPanicsOnlyOnNilBest(x: seq<real>, b: seq<real>, g: Option<seq<real>>, aliased: bool, f: Objective,
                                worst: Value, bounds: seq<seq<real>>, src: nat -> Unit, p: nat)
    requires |b| == |x| && Covers(bounds, |x|) && (g.Some? ==> |g.value| == |x|)
    ensures Leap(x, b, g, aliased, f, worst, bounds, src, p).None? ==> g.None? && !aliased && |x| > 0
    ensures g.Some? || aliased || |x| == 0 ==> Leap(x, b, g, aliased, f, worst, bounds, src, p).Some?
  {
  }

  // ---------------------------------------------------------------------
  // The shuffle
  // ---------------------------------------------------------------------

  /** `Rng.Shuffle(n, swap)` from step `i` down: Fisher-Yates from the top, swapping
      position `i` with an index drawn in `[0, i]`, for `i` down to 1. */
  function ShuffleFrom<T>(rows: seq<T>, i: int, src: nat -> Unit, p: nat): seq<T>
    requires i < |rows|
    decreases i
  {
    if i <= 0 then rows
    else
      var j := IntDraw(src(p), i + 1);
      ShuffleFrom(rows[i := rows[j]][j := rows[i]], i - 1, src, p + 1)
  }

  /** `shufflePopulation`: the shuffle of every row, from position `p` of the stream. */
  function Shuffled<T>(rows: seq<T>, src: nat -> Unit, p: nat): seq<T>
  {
    ShuffleFrom(rows, |rows| - 1, src, p)
  }

  lemma SwapKeepsMultiset<T>(rows: seq<T>, i: int, j: int)
    requires 0 <= i < |rows| && 0 <= j < |rows|
    ensures multiset(rows[i := rows[j]][j := rows[i]]) == multiset(rows)
  {
    var s1 := rows[i := rows[j]];
    assert multiset(s1) == multiset(rows) - multiset{rows[i]} + multiset{rows[j]};
    assert s1[j] == rows[j];
    assert multiset(s1[j := rows[i]]) == multiset(s1) - multiset{rows[j]} + multiset{rows[i]};
  }

  /** The shuffle is a permutation: same length, same multiset of rows. */
  lemma {:induction false} ShuffleIsPermutation<T>(rows: seq<T>, i: int, src: nat -> Unit, p: nat)
    requires i < |rows|
    decreases i
    ensures |ShuffleFrom(rows, i, src, p)| == |rows|
    ensures multiset(ShuffleFrom(rows, i, src, p)) == multiset(rows)
  {
    if i > 0 {
      var j := IntDraw(src(p), i + 1);
      SwapKeepsMultiset(rows, i, j);
      ShuffleIsPermutation(rows[i := rows[j]][j := rows[i]], i - 1, src, p + 1);
    }
  }

  // ---------------------------------------------------------------------
  // The algorithm
  // ---------------------------------------------------------------------

  datatype SflaRequest = SflaRequest(base: Request, subpopulationsCount: Option<int>, iMax: Option<int>)

  class Frogs {
    const algo: Algo
    const subpopulationsCount: int
    const iMax: int

    /** `req` and `p0` only carry the construction of `algo` through. */
    constructor (algo: Algo, subpopulationsCount: int, iMax: int, ghost req: Request, ghost p0: nat)
      requires algo.Populated(req, p0)
      ensures this.algo == algo && this.subpopulationsCount == subpopulationsCount && this.iMax == iMax
      ensures algo.Populated(req, p0)
    {
      this.algo := algo;
      this.subpopulationsCount := subpopulationsCount;
      this.iMax := iMax;
    }

    /** The shape the frogs keep: the engine's shape. */
    predicate Valid()
      reads this, algo, algo.population
    {
      algo.Shaped()
    }

    /** Every frog and the row of the best position lie within well-ordered bounds. */
    predicate InBoundsInv()
      reads this, algo, algo.population, algo.population[..], algo.bestPos
    {
      && Ordered(algo.bounds, algo.numDimensions)
      && algo.AllInBounds()
      && (algo.bestPos != null ==> InBounds(algo.bestPos[..], algo.bounds))
    }

    /** The frogs' rows, in population order, as references. */
    function RowList(): seq<array<real>>
      reads this, algo, algo.population
    {
      algo.population[..]
    }

    /** SFLA.go:79-89: the first strict minimum and the first strict maximum of the
        block `[lo, hi)`, as population indices (-1 when none), and the worst value. */
    method ScanBlock(lo: int, hi: int) returns (best: int, worst: int, worstVal: Value)
      requires Valid() && 0 <= lo <= hi <= algo.population.Length
      ensures var vals := Scores(algo.f, algo.Contents()[lo..hi]);
        && best == Located(lo, ScanMin(vals, (-1, PosInf)))
        && worst == Located(lo, ScanMax(vals, (-1, NegInf)))
        && worstVal == ScanMax(vals, (-1, NegInf)).1
      ensures best == -1 || lo <= best < hi
      ensures worst == -1 || lo <= worst < hi
    {
      ghost var vals := Scores(algo.f, algo.Contents()[lo..hi]);
      var bi, bv, wi, wv := -1, PosInf, -1, NegInf;
      var k := 0;
      while k < hi - lo
        invariant 0 <= k <= hi - lo
        invariant (bi, bv) == ScanMin(vals[..k], (-1, PosInf)) && -1 <= bi < k
        invariant (wi, wv) == ScanMax(vals[..k], (-1, NegInf)) && -1 <= wi < k
      {
        var value := algo.f(algo.population[lo + k][..]);
        assert vals[k] == value;
        assert vals[..k + 1][..k] == vals[..k];
        if Less(value, bv) {
          bi, bv := k, value;
        }
        if Less(wv, value) {
          wi, wv := k, value;
        }
        k := k + 1;
      }
      assert vals[..hi - lo] == vals;
      best := Located(lo, (bi, bv));
      worst := Located(lo, (wi, wv));
      worstVal := wv;
    }

    /** A move of `row` toward `target` by `r`, coordinate by coordinate and in place,
        each coordinate clamped (SFLA.go:92-95 and 99-102). `target` may be `row`. */
    method MoveToward(row: array<real>, target: array<real>, r: real)
      requires Valid() && row.Length == algo.numDimensions && target.Length == algo.numDimensions
      modifies row
      ensures row[..] == Toward(old(row[..]), old(target[..]), r, algo.bounds)
    {
      ghost var x, t := row[..], target[..];
      var d := 0;
      while d < algo.numDimensions
        invariant 0 <= d <= algo.numDimensions
        invariant forall k :: 0 <= k < d ==> row[k] == Step(algo.bounds[k][0], algo.bounds[k][1], x[k], t[k], r)
        invariant forall k :: d <= k < algo.numDimensions ==> row[k] == x[k] && target[k] == t[k]
      {
        row[d] := Step(algo.bounds[d][0], algo.bounds[d][1], row[d], target[d], r);
        d := d + 1;
      }
      assert row[..] == Toward(x, t, r, algo.bounds);
    }

    /** SFLA.go:105-107: `row` re-sampled in place, coordinate by coordinate. */
    method Resample(row: array<real>)
      requires Valid() && row.Length == algo.numDimensions
      modifies row, algo.rng
      ensures row[..] == SampledRow(algo.bounds, algo.numDimensions, algo.rng.src, old(algo.rng.pos))
      ensures algo.rng.pos == old(algo.rng.pos) + algo.numDimensions
    {
      var d := 0;
      while d < algo.numDimensions
        invariant 0 <= d <= algo.numDimensions
        invariant algo.rng.pos == old(algo.rng.pos) + d
        invariant forall k :: 0 <= k < d ==>
          row[k] == Sample(algo.bounds[k][0], algo.bounds[k][1], algo.rng.src(old(algo.rng.pos) + k))
      {
        var u := algo.rng.Float64();
        row[d] := Sample(algo.bounds[d][0], algo.bounds[d][1], u);
        d := d + 1;
      }
      assert row[..] == SampledRow(algo.bounds, algo.numDimensions, algo.rng.src, old(algo.rng.pos));
    }

    /** SFLA.go:91-108: the leap of the worst frog, in place in its row; nothing else
        changes, so the best value stays while a best position that is this very row
        moves with it. */
    method MoveWorst(best: int, worst: int, worstVal: Value) returns (panicked: bool)
      requires Valid()
      requires 0 <= worst < algo.population.Length
      requires -1 <= best < algo.population.Length && (best < 0 ==> algo.numDimensions == 0)
      modifies algo.population[worst], algo.rng
      ensures var x := old(algo.population[worst][..]);
        var b := if best >= 0 then old(algo.population[best][..]) else x;
        var out := Leap(x, b, old(algo.BestView()), algo.bestPos == algo.population[worst], algo.f, worstVal,
                        algo.bounds, algo.rng.src, old(algo.rng.pos));
        && (panicked <==> out.None?)
        && (out.Some? ==> algo.population[worst][..] == out.value.0 && algo.rng.pos == old(algo.rng.pos) + out.value.1)
      ensures algo.bestPos == algo.population[worst] && !panicked ==> algo.BestView() == Some(algo.population[worst][..])
    {
      var row := algo.population[worst];
      ghost var x := row[..];
      ghost var b := if best >= 0 then algo.population[best][..] else x;
      ghost var g := algo.BestView();
      ghost var aliased := algo.bestPos == row;
      ghost var p := algo.rng.pos;
      FirstMove(row, best);
      LeapThenRetry(x, b, g, algo.BestView(), aliased, algo.f, worstVal, algo.bounds, algo.rng.src, p);
      panicked := Fallback(row, worstVal);
    }

    /** The leap as the memeplex loop sees it: frogs and best stay within the bounds. */
    method Leapfrog(best: int, worst: int, worstVal: Value) returns (panicked: bool)
      requires Valid()
      requires 0 <= worst < algo.population.Length
      requires -1 <= best < algo.population.Length && (best < 0 ==> algo.numDimensions == 0)
      modifies algo.population[worst], algo.rng
      ensures old(InBoundsInv()) && !panicked ==> InBoundsInv()
    {
      var row := algo.population[worst];
      ghost var x := row[..];
      ghost var b := if best >= 0 then algo.population[best][..] else x;
      ghost var g := algo.BestView();
      ghost var aliased := algo.bestPos == row;
      ghost var p := algo.rng.pos;
      ghost var inv := InBoundsInv();
      panicked := MoveWorst(best, worst, worstVal);
      if inv && !panicked {
        LeapStaysInBounds(x, b, g, aliased, algo.f, worstVal, algo.bounds, algo.rng.src, p);
        KeptInBounds(row);
      }
    }

    /** Rewriting one row within the bounds keeps every frog and the best in bounds. */
    twostate lemma KeptInBounds(row: array<real>)
      requires old(InBoundsInv()) && InBounds(row[..], algo.bounds)
      requires algo.population == old(algo.population) && algo.bestPos == old(algo.bestPos)
      requires algo.bounds == old(algo.bounds) && algo.numDimensions == old(algo.numDimensions)
      requires forall i :: 0 <= i < algo.population.Length ==> algo.population[i] == old(algo.population[i])
      requires forall i :: 0 <= i < algo.population.Length && algo.population[i] != row ==>
        algo.population[i][..] == old(algo.population[i][..])
      requires algo.bestPos != null && algo.bestPos != row ==> algo.bestPos[..] == old(algo.bestPos[..])
      ensures InBoundsInv()
    {
    }

    /** SFLA.go:91-95: the move of the worst frog's row toward the memeplex best (no
        move in a space without dimensions, where no best may exist). */
    method FirstMove(row: array<real>, best: int)
      requires Valid() && row.Length == algo.numDimensions
      requires -1 <= best < algo.population.Length && (best < 0 ==> algo.numDimensions == 0)
      modifies row, algo.rng
      ensures row[..] == Toward(old(row[..]), if best >= 0 then old(algo.population[best][..]) else old(row[..]),
                                algo.rng.src(old(algo.rng.pos)), algo.bounds)
      ensures algo.rng.pos == old(algo.rng.pos) + 1
    {
      var r := algo.rng.Float64();
      if best >= 0 {
        MoveToward(row, algo.population[best], r);
      }
    }

    /** SFLA.go:97-108 on the worst frog's row `row`, after the first move. */
    method Fallback(row: array<real>, worstVal: Value) returns (panicked: bool)
      requires Valid() && row.Length == algo.numDimensions
      modifies row, algo.rng
      ensures var out := Retry(old(row[..]), old(algo.BestView()), algo.bestPos == row, algo.f, worstVal,
                               algo.bounds, algo.rng.src, old(algo.rng.pos));
        && (panicked <==> out.None?)
        && (out.Some? ==> row[..] == out.value.0 && algo.rng.pos == old(algo.rng.pos) + out.value.1)
    {
      ghost var x1 := row[..];
      ghost var g := algo.BestView();
      ghost var aliased := algo.bestPos == row;
      ghost var p := algo.rng.pos;
      panicked := false;
      if AtLeast(algo.f(row[..]), worstVal) {
        var r := algo.rng.Float64();
        if algo.bestPos == null && algo.numDimensions > 0 {
          return true;
        }
        if algo.bestPos != null {
          MoveToward(row, algo.bestPos, r);
        }
        assert row[..] == Toward(x1, if aliased then x1 else if g.Some? then g.value else x1, algo.rng.src(p), algo.bounds);
        if AtLeast(algo.f(row[..]), worstVal) {
          Resample(row);
        }
      }
    }

    /** The rows of memeplex `i`, as arrays. */
    ghost function MemeplexRows(i: int): set<array<real>>
      requires 0 <= i < subpopulationsCount
      reads this, algo, algo.population
    {
      var s := algo.populationSize / subpopulationsCount;
      set j | i * s <= j < (i + 1) * s && 0 <= j < algo.population.Length :: algo.population[j]
    }

    /** `localSearch(i)`: `IMax` leaps in memeplex `i`, each after a fresh scan of the
        block. Only the rows of the block change (a row outside it changes only if it
        shares its array with one inside), and the best value and position are left as
        they are. */
    method LocalSearch(i: int) returns (panicked: bool)
      requires Valid() && 0 <= i < subpopulationsCount
      modifies MemeplexRows(i), algo.rng
      ensures Valid()
      ensures algo.bestVal == old(algo.bestVal) && algo.bestPos == old(algo.bestPos)
      ensures old(InBoundsInv()) && !panicked ==> InBoundsInv()
    {
      var size := algo.populationSize / subpopulationsCount;
      var lo, hi := i * size, (i + 1) * size;
      MemeplexWithinPopulation(algo.populationSize, subpopulationsCount, i);
      var n := 0;
      while n < iMax
        invariant Valid()
        invariant old(InBoundsInv()) ==> InBoundsInv()
      {
        var best, worst, worstVal := ScanBlock(lo, hi);
        if worst < 0 || (algo.numDimensions > 0 && best < 0) {
          return true;
        }
        assert algo.population[worst] in MemeplexRows(i);
        panicked := Leapfrog(best, worst, worstVal);
        if panicked {
          return;
        }
        n := n + 1;
      }
      panicked := false;
    }

    /** SFLA.go:47-50: every memeplex searched in turn, each followed by `updateBest`. */
    method Sweep() returns (panicked: bool)
      requires Valid()
      modifies algo.Rows(), algo.rng, algo`bestPos, algo`bestVal
      ensures Valid()
      ensures NotAbove(algo.bestVal, old(algo.bestVal))
      ensures old(InBoundsInv()) && !panicked ==> InBoundsInv()
    {
      var i := 0;
      while i < subpopulationsCount
        invariant Valid() && algo.Rows() == old(algo.Rows())
        invariant NotAbove(algo.bestVal, old(algo.bestVal))
        invariant old(InBoundsInv()) ==> InBoundsInv()
      {
        ghost var before := algo.bestVal;
        panicked := Memeplex(i);
        if panicked {
          return;
        }
        NotAboveTransitive(algo.bestVal, before, old(algo.bestVal));
        i := i + 1;
      }
      panicked := false;
    }

    /** SFLA.go:48-49: the local search of memeplex `i`, then `updateBest`, which
        never raises the best value and takes a reference to the row reaching it. */
    method Memeplex(i: int) returns (panicked: bool)
      requires Valid() && 0 <= i < subpopulationsCount
      modifies algo.Rows(), algo.rng, algo`bestPos, algo`bestVal
      ensures Valid()
      ensures !panicked ==>
        var r := ScanMin(Scores(algo.f, algo.Contents()), (-1, old(algo.bestVal)));
        && algo.bestVal == r.1
        && (r.0 < 0 ==> algo.bestPos == old(algo.bestPos))
        && (r.0 >= 0 ==> 0 <= r.0 < algo.population.Length && algo.bestPos == algo.population[r.0])
      ensures NotAbove(algo.bestVal, old(algo.bestVal))
      ensures old(InBoundsInv()) && !panicked ==> InBoundsInv()
    {
      assert MemeplexRows(i) <= algo.Rows();
      panicked := LocalSearch(i);
      if !panicked {
        Publish();
      }
    }

    /** `updateBest` on the frogs: `UpdateBest`'s scan from the stored best, which
        leaves the shape alone and keeps the bounds invariant, since the new best
        position is one of the frogs. */
    method Publish()
      requires Valid()
      modifies algo`bestPos, algo`bestVal
      ensures Valid()
      ensures var r := ScanMin(Scores(algo.f, algo.Contents()), (-1, old(algo.bestVal)));
        && algo.bestVal == r.1
        && (r.0 < 0 ==> algo.bestPos == old(algo.bestPos))
        && (r.0 >= 0 ==> 0 <= r.0 < algo.population.Length && algo.bestPos == algo.population[r.0])
      ensures NotAbove(algo.bestVal, old(algo.bestVal))
      ensures old(InBoundsInv()) ==> InBoundsInv()
    {
      ghost var inv := InBoundsInv();
      algo.UpdateBest();
      assert inv ==> algo.bestPos != null ==> InBounds(algo.bestPos[..], algo.bounds);
    }

    /** `shufflePopulation` (the order itself is `FisherYates`): the rows, as
        references, permuted in place; their contents and the best position are
        untouched, so the shape and the bounds invariant survive. */
    method Shuffle()
      requires Valid()
      modifies algo.population, algo.rng
      ensures multiset(RowList()) == multiset(old(RowList()))
      ensures Valid() && algo.Rows() == old(algo.Rows())
      ensures old(InBoundsInv()) ==> InBoundsInv()
    {
      FisherYates();
      PermutedRowsKeepShape();
    }

    /** `Rng.Shuffle(PopulationSize, swap)`: for `i` from the top down to 1, swap row `i`
        with a row drawn in `[0, i]`. */
    method FisherYates()
      requires algo.populationSize == algo.population.Length
      modifies algo.population, algo.rng
      ensures algo.population[..] == Shuffled(old(algo.population[..]), algo.rng.src, old(algo.rng.pos))
      ensures multiset(RowList()) == multiset(old(RowList()))
      ensures algo.rng.pos == old(algo.rng.pos) + Max0(algo.populationSize - 1)
    {
      ghost var orig := algo.population[..];
      var i := algo.populationSize - 1;
      while i > 0
        invariant -1 <= i < algo.population.Length
        invariant i == -1 ==> algo.populationSize == 0
        invariant algo.rng.pos == old(algo.rng.pos) + (algo.populationSize - 1 - i)
        invariant ShuffleFrom(algo.population[..], i, algo.rng.src, algo.rng.pos) == Shuffled(orig, algo.rng.src, old(algo.rng.pos))
      {
        var j := algo.rng.Intn(i + 1);
        Swap(i, j);
        i := i - 1;
      }
      ShuffleIsPermutation(orig, |orig| - 1, algo.rng.src, old(algo.rng.pos));
    }

    /** The swap callback of SFLA.go:125-127. */
    method Swap(i: int, j: int)
      requires 0 <= i < algo.population.Length && 0 <= j < algo.population.Length
      modifies algo.population
      ensures algo.population[..] == old(algo.population[..])[i := old(algo.population[j])][j := old(algo.population[i])]
    {
      var tmp := algo.population[i];
      algo.population[i] := algo.population[j];
      algo.population[j] := tmp;
    }

    /** Permuting the rows, without touching their contents, keeps the shape and the
        bounds invariant. */
    twostate lemma PermutedRowsKeepShape()
      requires old(Valid()) && multiset(RowList()) == multiset(old(RowList()))
      requires algo.population == old(algo.population) && algo.bestPos == old(algo.bestPos)
      requires algo.bounds == old(algo.bounds) && algo.numDimensions == old(algo.numDimensions)
      requires algo.populationSize == old(algo.populationSize)
      requires forall k :: 0 <= k < algo.population.Length ==> old(algo.population[k])[..] == old(algo.population[k][..])
      requires algo.bestPos != null ==> algo.bestPos[..] == old(algo.bestPos[..])
      ensures Valid() && algo.Rows() == old(algo.Rows())
      ensures old(InBoundsInv()) ==> InBoundsInv()
    {
      forall k | 0 <= k < algo.population.Length
        ensures old(algo.population[k]) in algo.Rows()
      {
        assert old(algo.population[k]) in multiset(old(RowList()));
        assert old(algo.population[k]) in RowList();
      }
      forall k | 0 <= k < algo.population.Length
        ensures exists m :: 0 <= m < algo.population.Length && algo.population[k] == old(algo.population[m])
      {
        assert algo.population[k] in multiset(RowList());
      }
    }

    /** One iteration of `Run` (SFLA.go:47-59): the memeplexes, the shuffle and the
        snapshot. A panic stops before the snapshot. */
    method Round(sink: Sink, ghost start: nat, t: nat) returns (ok: bool, panicked: bool)
      requires Valid()
      requires Emitted(sink.log, sink.accepts, start, t) && sink.accepts(start + t)
      requires sink.log[start + t].bestValue == algo.bestVal
      modifies algo.Rows(), algo.population, algo.rng, algo`bestPos, algo`bestVal, sink
      ensures Valid() && algo.Rows() == old(algo.Rows())
      ensures panicked ==> sink.log == old(sink.log)
      ensures !panicked ==>
        && |sink.log| == |old(sink.log)| + 1 && sink.log[..|old(sink.log)|] == old(sink.log)
        && sink.log[|sink.log| - 1].bestValue == algo.bestVal
        && Emitted(sink.log, sink.accepts, start, t + 1)
        && ok == sink.accepts(start + t + 1)
      ensures NotAbove(algo.bestVal, old(algo.bestVal))
      ensures old(InBoundsInv()) && !panicked ==> InBoundsInv()
    {
      panicked := Advance();
      if panicked {
        return false, true;
      }
      ok := algo.EmitNext(sink, start, t);
    }

    /** The state change of one iteration (SFLA.go:47-52): the memeplexes, then the
        shuffle, unless a memeplex panics. */
    method Advance() returns (panicked: bool)
      requires Valid()
      modifies algo.Rows(), algo.population, algo.rng, algo`bestPos, algo`bestVal
      ensures Valid() && algo.Rows() == old(algo.Rows())
      ensures NotAbove(algo.bestVal, old(algo.bestVal))
      ensures old(InBoundsInv()) && !panicked ==> InBoundsInv()
    {
      panicked := Sweep();
      if !panicked {
        Shuffle();
      }
    }

    /** `Run`: a snapshot before the first iteration and one after each iteration,
        stopping at the first refused `send`; the answer is the best row (by reference)
        and the best value. `panicked` says the run ended in a Go panic instead, after
        the snapshots in the log were all accepted. */
    method Run(sink: Sink) returns (bestPos: array?<real>, bestVal: Value, panicked: bool)
      requires Valid()
      modifies algo.Rows(), algo.population, algo.rng, algo`bestPos, algo`bestVal, sink
      ensures Valid()
      ensures !panicked ==> Reported(sink.log, old(sink.log), sink.accepts, algo.iterations)
      ensures panicked ==> Interrupted(sink.log, old(sink.log), sink.accepts, algo.iterations)
      ensures !panicked ==> sink.log[|sink.log| - 1].bestValue == bestVal
      ensures bestPos == algo.bestPos && bestVal == algo.bestVal
      ensures NotAbove(bestVal, old(algo.bestVal))
      ensures old(InBoundsInv()) && !panicked ==> InBoundsInv()
    {
      var ok := algo.EmitFirst(sink);
      var t;
      t, panicked := Iterations(sink, old(sink.log), ok);
      if panicked {
        EmittedInterrupted(sink.log, old(sink.log), sink.accepts, t, algo.iterations);
      } else {
        EmittedRun(sink.log, old(sink.log), sink.accepts, t, algo.iterations);
      }
      bestPos, bestVal := algo.bestPos, algo.bestVal;
    }

    /** The iterations of `Run` after its first snapshot: `t` of them complete; the run
        ends after the last one, at a refused send, or in a panic during iteration `t + 1`. */
    method Iterations(sink: Sink, ghost before: seq<Snapshot>, ok: bool) returns (t: nat, panicked: bool)
      requires Valid()
      requires Emitted(sink.log, sink.accepts, |before|, 0) && sink.log[..|before|] == before
      requires ok == sink.accepts(|before|) && sink.log[|before|].bestValue == algo.bestVal
      modifies algo.Rows(), algo.population, algo.rng, algo`bestPos, algo`bestVal, sink
      ensures Valid()
      ensures Emitted(sink.log, sink.accepts, |before|, t) && sink.log[..|before|] == before
      ensures !panicked ==> t <= Max0(algo.iterations) && (t == Max0(algo.iterations) || !sink.accepts(|sink.log| - 1))
      ensures panicked ==> t < Max0(algo.iterations) && sink.accepts(|sink.log| - 1)
      ensures !panicked ==> sink.log[|sink.log| - 1].bestValue == algo.bestVal
      ensures NotAbove(algo.bestVal, old(algo.bestVal))
      ensures old(InBoundsInv()) && !panicked ==> InBoundsInv()
    {
      ghost var start := |before|;
      var go := ok;
      t, panicked := 0, false;
      while go && t < algo.iterations
        invariant 0 <= t <= Max0(algo.iterations)
        invariant Valid() && algo.Rows() == old(algo.Rows())
        invariant Emitted(sink.log, sink.accepts, start, t) && sink.log[..start] == before
        invariant go == sink.accepts(start + t)
        invariant sink.log[start + t].bestValue == algo.bestVal
        invariant NotAbove(algo.bestVal, old(algo.bestVal))
        invariant old(InBoundsInv()) ==> InBoundsInv()
      {
        ghost var best := algo.bestVal;
        go, panicked := Round(sink, start, t);
        NotAboveTransitive(algo.bestVal, best, old(algo.bestVal));
        if panicked {
          return;
        }
        t := t + 1;
      }
    }
  }

  /** `NewSFLA`: the engine's construction, then one memeplex and ten leaps per
      memeplex unless the request says otherwise. */
  method NewSFLA(req: SflaRequest, compiled: Option<Objective>, rng: Rng) returns (frogs: Frogs?, err: Option<Failure>)
    modifies rng
    ensures (frogs != null) <==> err.None?
    ensures Validate(req.base).Some? ==> err == Validate(req.base) && rng.pos == old(rng.pos)
    ensures Validate(req.base).None? && compiled.None? ==> err == Some(CompileFailed)
    ensures frogs != null ==>
      && fresh(frogs) && fresh(frogs.algo)
      && frogs.algo.rng == rng && compiled == Some(frogs.algo.f)
      && frogs.algo.Populated(req.base, old(rng.pos))
      && frogs.algo.numDimensions == InitialDimensions(req.base)
      && frogs.subpopulationsCount == SetDefault(req.subpopulationsCount, 1)
      && frogs.iMax == SetDefault(req.iMax, 10)
  {
    var algo;
    algo, err := NewAlgo(req.base, compiled, rng);
    if err.Some? {
      return null, err;
    }
    frogs := new Frogs(algo, SetDefault(req.subpopulationsCount, 1), SetDefault(req.iMax, 10), req.base, old(rng.pos));
  }
}
