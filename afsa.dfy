/** The artificial fish swarm algorithm of backend-go/algos/AFSA.go: each fish looks
    for neighbours within a visual range that shrinks over the run, then moves at
    random (no neighbour), searches toward a random neighbour (a crowded
    neighbourhood) or chases its best neighbour; a move is kept only when it
    improves the fish. When the reported best stagnates for too long, a random fish
    jumps. */
module Afsa {
  import opened Values
  import opened Random
  import opened Engine
  import opened General
  import opened Metric

  // ---------------------------------------------------------------------
  // The visual range
  // ---------------------------------------------------------------------

  /** Every bound row has a minimum and a maximum: `maxDifference` reads entry 1 of
      every row, not only of the rows of the dimensions in use. */
  predicate Paired(bounds: seq<seq<real>>)
  {
    forall j :: 0 <= j < |bounds| ==> |bounds[j]| >= 2
  }

  /** `maxDifference` (AFSA.go:257-265): the widest bound row, kept by a strict `>`
      from 0. */
  function Widest(bounds: seq<seq<real>>): real
    requires Paired(bounds)
  {
    if bounds == [] then 0.0
    else
      var prev := Widest(bounds[..|bounds| - 1]);
      var diff := bounds[|bounds| - 1][1] - bounds[|bounds| - 1][0];
      if diff > prev then diff else prev
  }

  /** The scan answers the largest `max - min` over all bound rows, or 0 when there is
      no row or every row is inverted or empty. */
  lemma {:induction false} WidestIsLargest(bounds: seq<seq<real>>)
    requires Paired(bounds)
    ensures 0.0 <= Widest(bounds)
    ensures forall j :: 0 <= j < |bounds| ==> bounds[j][1] - bounds[j][0] <= Widest(bounds)
    ensures Widest(bounds) == 0.0 || exists j :: 0 <= j < |bounds| && Widest(bounds) == bounds[j][1] - bounds[j][0]
  {
    if bounds != [] {
      var init := bounds[..|bounds| - 1];
      WidestIsLargest(init);
      assert forall j :: 0 <= j < |init| ==> init[j] == bounds[j];
    }
  }

  /** The visual range of iteration `t` (AFSA.go:73): the initial range shrinks
      linearly toward 0 over the run, but never below `MinVisual`. */
  function VisualAt(minVisual: real, initialVisual: real, t: nat, iterations: nat): real
    requires t < iterations
  {
    var decayed := initialVisual * (1.0 - t as real / iterations as real);
    if minVisual > decayed then minVisual else decayed
  }

  /** The range is never below `MinVisual`, starts at the larger of the two bounds, and
      with a non-negative initial range it never grows from one iteration to the next. */
  lemma VisualDecays(minVisual: real, initialVisual: real, t: nat, iterations: nat)
    requires t + 1 < iterations
    ensures minVisual <= VisualAt(minVisual, initialVisual, t, iterations)
    ensures VisualAt(minVisual, initialVisual, 0, iterations) == if minVisual > initialVisual then minVisual else initialVisual
    ensures 0.0 <= initialVisual ==>
      VisualAt(minVisual, initialVisual, t + 1, iterations) <= VisualAt(minVisual, initialVisual, t, iterations)
  {
    var n := iterations as real;
    assert (t + 1) as real / n == t as real / n + 1.0 / n;
    assert 0.0 < 1.0 / n;
    if 0.0 <= initialVisual {
      assert initialVisual * (1.0 - (t + 1) as real / n) == initialVisual * (1.0 - t as real / n) - initialVisual * (1.0 / n);
      MulNonNegative(initialVisual, 1.0 / n);
    }
  }

  // ---------------------------------------------------------------------
  // Neighbourhoods
  // ---------------------------------------------------------------------

  /** Each row `i` of the distance matrix built at the start of `Run` (AFSA.go:62-68)
      holds the distances from fish `i` to every fish. */
  function Matrix(m: Math, rows: seq<seq<real>>): (d: seq<seq<real>>)
    requires Grid(rows, if rows == [] then 0 else |rows[0]|)
    ensures |d| == |rows| && Grid(d, |rows|)
  {
    seq(|rows|, i requires 0 <= i < |rows| => seq(|rows|, j requires 0 <= j < |rows| => Distance(m, rows[i], rows[j])))
  }

  /** With distances that square by multiplication, fish `j` is within sight of fish
      `i` exactly when `i` is within sight of `j`. */
  lemma MatrixSymmetric(m: Math, rows: seq<seq<real>>, i: int, j: int)
    requires Grid(rows, if rows == [] then 0 else |rows[0]|)
    requires 0 <= i < |rows| && 0 <= j < |rows|
    ensures Matrix(m, rows)[i][j] == Matrix(m, rows)[j][i]
  {
    DistanceSymmetric(m, rows[i], rows[j]);
  }

  predicate Ascending(s: seq<int>)
  {
    forall a, b :: 0 <= a < b < |s| ==> s[a] < s[b]
  }

  /** `findNeighbors` over the distance row `row` of fish `i` (AFSA.go:146-158): the
      fish other than `i` at distance at most `v`. */
  function Neighbors(row: seq<real>, i: int, v: real): (V: seq<int>)
    ensures forall j :: j in V <==> 0 <= j < |row| && j != i && row[j] <= v
    ensures forall k :: 0 <= k < |V| ==> 0 <= V[k] < |row|
  {
    if row == [] then []
    else
      var k := |row| - 1;
      var prev := Neighbors(row[..k], i, v);
      assert forall j :: 0 <= j < k ==> row[..k][j] == row[j];
      assert forall a :: 0 <= a < |prev| ==> prev[a] in prev;
      prev + if k != i && row[k] <= v then [k] else []
  }

  /** The neighbours are listed in ascending order, as the scan meets them. */
  lemma {:induction false} NeighborsAscending(row: seq<real>, i: int, v: real)
    ensures Ascending(Neighbors(row, i, v))
  {
    if row != [] {
      var k := |row| - 1;
      NeighborsAscending(row[..k], i, v);
    }
  }

  /** One more entry of the distance row adds at most its own index. */
  lemma NeighborsStep(row: seq<real>, i: int, v: real, k: int)
    requires 0 <= k < |row|
    ensures Neighbors(row[..k + 1], i, v) == Neighbors(row[..k], i, v) + if k != i && row[k] <= v then [k] else []
  {
    assert row[..k + 1][..k] == row[..k];
  }

  /** With a symmetric distance matrix the neighbour relation is symmetric. */
  lemma NeighborsSymmetric(m: Math, rows: seq<seq<real>>, i: int, j: int, v: real)
    requires Grid(rows, if rows == [] then 0 else |rows[0]|)
    requires 0 <= i < |rows| && 0 <= j < |rows|
    ensures j in Neighbors(Matrix(m, rows)[i], i, v) <==> i in Neighbors(Matrix(m, rows)[j], j, v)
  {
    MatrixSymmetric(m, rows, i, j);
  }

  /** The rows of the listed fish. */
  function Select(rows: seq<seq<real>>, V: seq<int>): (s: seq<seq<real>>)
    requires forall k :: 0 <= k < |V| ==> 0 <= V[k] < |rows|
    ensures |s| == |V| && forall k :: 0 <= k < |V| ==> s[k] == rows[V[k]]
  {
    seq(|V|, k requires 0 <= k < |V| => rows[V[k]])
  }

  /** `bestNeighbor` (AFSA.go:221-234): -1 for no neighbour, otherwise the strict-`<`
      scan seeded with the first neighbour. */
  function BestOf(f: Objective, rows: seq<seq<real>>, V: seq<int>): (b: int)
    requires forall k :: 0 <= k < |V| ==> 0 <= V[k] < |rows|
    ensures b == -1 <==> V == []
    ensures V != [] ==> b in V
  {
    if V == [] then -1
    else
      var vals := Scores(f, Select(rows, V));
      ScanMinFindsFirstLeast(vals, (0, vals[0]));
      V[ScanMin(vals, (0, vals[0])).0]
  }

  /** The chosen neighbour is a least one (no neighbour's value is strictly below its
      value) and the first such: every neighbour listed before it has another value. */
  lemma {:induction false} BestOfIsFirstLeast(f: Objective, rows: seq<seq<real>>, V: seq<int>)
    requires forall k :: 0 <= k < |V| ==> 0 <= V[k] < |rows|
    requires V != []
    ensures var b := BestOf(f, rows, V);
      && (forall k :: 0 <= k < |V| ==> !Less(f(rows[V[k]]), f(rows[b])))
      && exists q :: 0 <= q < |V| && V[q] == b && forall k :: 0 <= k < q ==> f(rows[V[k]]) != f(rows[b])
  {
    var vals := Scores(f, Select(rows, V));
    ScanMinFindsFirstLeast(vals, (0, vals[0]));
    var r := ScanMin(vals, (0, vals[0]));
    assert vals[r.0] == r.1;
    assert forall k :: 0 <= k < |V| ==> vals[k] == f(rows[V[k]]);
  }

  /** Every listed fish exists and has a coordinate `j`. */
  predicate Columns(rows: seq<seq<real>>, V: seq<int>, j: int)
  {
    forall k :: 0 <= k < |V| ==> 0 <= V[k] < |rows| && 0 <= j < |rows[V[k]]|
  }

  /** The sum of coordinate `j` over the listed fish. */
  function ColumnSum(rows: seq<seq<real>>, V: seq<int>, j: int): real
    requires Columns(rows, V, j)
  {
    if V == [] then 0.0
    else
      var init := V[..|V| - 1];
      assert forall k :: 0 <= k < |init| ==> init[k] == V[k];
      assert Columns(rows, init, j);
      ColumnSum(rows, init, j) + rows[V[|V| - 1]][j]
  }

  /** `meanPosition` (AFSA.go:244-255): the centre of the listed fish. */
  function Mean(rows: seq<seq<real>>, V: seq<int>, n: nat): (c: seq<real>)
    requires V != [] && forall k :: 0 <= k < |V| ==> 0 <= V[k] < |rows| && |rows[V[k]]| == n
    ensures |c| == n
  {
    seq(n, j requires 0 <= j < n => ColumnSum(rows, V, j) / |V| as real)
  }

  /** Coordinate `j` of every listed fish lies in [lo, hi], so the sum lies in
      [|V| * lo, |V| * hi]. */
  lemma {:induction false} ColumnSumBetween(rows: seq<seq<real>>, V: seq<int>, j: int, lo: real, hi: real)
    requires Columns(rows, V, j) && forall k :: 0 <= k < |V| ==> lo <= rows[V[k]][j] <= hi
    ensures |V| as real * lo <= ColumnSum(rows, V, j) <= |V| as real * hi
  {
    if V != [] {
      var init := V[..|V| - 1];
      assert forall k :: 0 <= k < |init| ==> init[k] == V[k];
      assert Columns(rows, init, j);
      ColumnSumBetween(rows, init, j, lo, hi);
      assert |V| as real * lo == |init| as real * lo + lo && |V| as real * hi == |init| as real * hi + hi;
      assert lo <= rows[V[|V| - 1]][j] <= hi;
    }
  }

  /** The centre of fish within the bounds lies within the bounds. */
  lemma MeanInBounds(rows: seq<seq<real>>, V: seq<int>, bounds: seq<seq<real>>)
    requires V != [] && forall k :: 0 <= k < |V| ==> 0 <= V[k] < |rows| && InBounds(rows[V[k]], bounds)
    requires forall k :: 0 <= k < |V| ==> |rows[V[k]]| == |rows[V[0]]|
    ensures InBounds(Mean(rows, V, |rows[V[0]]|), bounds)
  {
    var n := |rows[V[0]]|;
    var c := Mean(rows, V, n);
    forall j | 0 <= j < n
      ensures bounds[j][0] <= c[j] <= bounds[j][1]
    {
      ColumnSumBetween(rows, V, j, bounds[j][0], bounds[j][1]);
      Average(ColumnSum(rows, V, j), |V| as real, bounds[j][0], bounds[j][1]);
    }
  }

  lemma Average(s: real, n: real, lo: real, hi: real)
    requires 0.0 < n && n * lo <= s <= n * hi
    ensures lo <= s / n <= hi
  {
    assert s / n - lo == (s - n * lo) / n;
    assert hi - s / n == (n * hi - s) / n;
  }

  // ---------------------------------------------------------------------
  // Behaviours
  // ---------------------------------------------------------------------

  /** `math.Min(a, b)`. */
  function Min(a: real, b: real): real
  {
    if a < b then a else b
  }

  /** One coordinate of `randomMove` (AFSA.go:165-169): an offset drawn uniformly from
      [-m, m), `m` the smaller of the range `v` and the width of the bound row, then
      the clamp. */
  function Nudge(lo: real, hi: real, a: real, v: real, u: Unit): real
  {
    Clamp(lo, hi, a + (u * 2.0 - 1.0) * Min(v, hi - lo))
  }

  /** `randomMove` (AFSA.go:160-173) from stream position `p`: one draw per coordinate. */
  function Wander(bounds: seq<seq<real>>, x: seq<real>, v: real, src: nat -> Unit, p: nat): (y: seq<real>)
    requires Covers(bounds, |x|)
    ensures |y| == |x|
    ensures Ordered(bounds, |x|) ==> InBounds(y, bounds)
  {
    seq(|x|, j requires 0 <= j < |x| => Nudge(bounds[j][0], bounds[j][1], x[j], v, src(p + j)))
  }

  /** One coordinate of `jumpBehavior` (AFSA.go:208-215): an offset of up to `q` times
      the width of the bound row, either way, then the clamp. */
  function Jolt(lo: real, hi: real, a: real, u: Unit, q: Unit): real
  {
    Clamp(lo, hi, a + (u * 2.0 - 1.0) * q * (hi - lo))
  }

  /** `jumpBehavior` (AFSA.go:203-219) from stream position `p`: one draw for the
      jump's size, then one per coordinate. */
  function Leap(bounds: seq<seq<real>>, x: seq<real>, src: nat -> Unit, p: nat): (y: seq<real>)
    requires Covers(bounds, |x|)
    ensures |y| == |x|
    ensures Ordered(bounds, |x|) ==> InBounds(y, bounds)
  {
    seq(|x|, j requires 0 <= j < |x| => Jolt(bounds[j][0], bounds[j][1], x[j], src(p + 1 + j), src(p)))
  }

  /** Clamping `a + o` to an interval holding `a`, with the offset `o` at most `m`
      either way, moves `a` by at most `m` either way. */
  lemma ClampWithin(lo: real, hi: real, a: real, o: real, m: real)
    requires lo <= a <= hi && -m <= o <= m
    ensures lo <= Clamp(lo, hi, a + o) <= hi
    ensures -m <= Clamp(lo, hi, a + o) - a <= m
  {
  }

  /** A factor `u * 2 - 1` with `u` in [0, 1) scales `m` by at most its size. */
  lemma SignedFraction(u: Unit, m: real)
    requires 0.0 <= m
    ensures -m <= (u * 2.0 - 1.0) * m <= m
  {
    var s := u * 2.0 - 1.0;
    assert -1.0 <= s < 1.0;
    MulNonNegative(1.0 - s, m);
    MulNonNegative(1.0 + s, m);
    assert (1.0 - s) * m == m - s * m;
    assert (1.0 + s) * m == m + s * m;
  }

  /** An offset of at most `q` either way, scaled by a width `w`, is at most `q * w`
      either way. */
  lemma ScaledBound(d: real, q: real, w: real)
    requires -q <= d <= q && 0.0 <= w
    ensures -(q * w) <= d * w <= q * w
  {
    MulNonNegative(q - d, w);
    MulNonNegative(q + d, w);
    assert (q - d) * w == q * w - d * w;
    assert (q + d) * w == q * w + d * w;
  }

  /** Clamping `a` moved by `d` times the width of an interval holding it, with `d`
      at most `q` either way, moves `a` by at most `q` times the width either way. */
  lemma ClampScaled(lo: real, hi: real, a: real, d: real, q: real)
    requires lo <= a <= hi && -q <= d <= q
    ensures lo <= Clamp(lo, hi, a + d * (hi - lo)) <= hi
    ensures -(q * (hi - lo)) <= Clamp(lo, hi, a + d * (hi - lo)) - a <= q * (hi - lo)
  {
    ScaledBound(d, q, hi - lo);
    ClampWithin(lo, hi, a, d * (hi - lo), q * (hi - lo));
  }

  /** One coordinate of a random move stays within its bound row and moves by at most
      `Min(v, hi - lo)`. */
  lemma NudgeNear(lo: real, hi: real, a: real, v: real, u: Unit)
    requires lo <= a <= hi && 0.0 <= v
    ensures lo <= Nudge(lo, hi, a, v, u) <= hi
    ensures -Min(v, hi - lo) <= Nudge(lo, hi, a, v, u) - a <= Min(v, hi - lo)
  {
    var m := Min(v, hi - lo);
    assert 0.0 <= m by { assert m == v || m == hi - lo; }
    SignedFraction(u, m);
    ClampWithin(lo, hi, a, (u * 2.0 - 1.0) * m, m);
  }

  /** One coordinate of a jump stays within its bound row and moves by at most `q`
      times its width. */
  lemma JoltNear(lo: real, hi: real, a: real, u: Unit, q: Unit)
    requires lo <= a <= hi
    ensures lo <= Jolt(lo, hi, a, u, q) <= hi
    ensures -(q * (hi - lo)) <= Jolt(lo, hi, a, u, q) - a <= q * (hi - lo)
  {
    SignedFraction(u, q);
    ClampScaled(lo, hi, a, (u * 2.0 - 1.0) * q, q);
  }

  /** From within well-ordered bounds, a random move lands within them and moves each
      coordinate by at most the range `v` and at most the width of its bound row. */
  lemma WanderStaysNear(bounds: seq<seq<real>>, x: seq<real>, v: real, src: nat -> Unit, p: nat)
    requires InBounds(x, bounds) && Ordered(bounds, |x|) && 0.0 <= v
    ensures InBounds(Wander(bounds, x, v, src, p), bounds)
    ensures forall j :: 0 <= j < |x| ==>
      -Min(v, bounds[j][1] - bounds[j][0]) <= Wander(bounds, x, v, src, p)[j] - x[j] <= Min(v, bounds[j][1] - bounds[j][0])
  {
    forall j | 0 <= j < |x|
      ensures bounds[j][0] <= Wander(bounds, x, v, src, p)[j] <= bounds[j][1]
      ensures -Min(v, bounds[j][1] - bounds[j][0]) <= Wander(bounds, x, v, src, p)[j] - x[j] <= Min(v, bounds[j][1] - bounds[j][0])
    {
      NudgeNear(bounds[j][0], bounds[j][1], x[j], v, src(p + j));
    }
  }

  /** From within well-ordered bounds, a jump lands within them and moves each
      coordinate by at most the jump's size times the width of its bound row. */
  lemma LeapStaysNear(bounds: seq<seq<real>>, x: seq<real>, src: nat -> Unit, p: nat)
    requires InBounds(x, bounds) && Ordered(bounds, |x|)
    ensures InBounds(Leap(bounds, x, src, p), bounds)
    ensures forall j :: 0 <= j < |x| ==>
      -(src(p) * (bounds[j][1] - bounds[j][0])) <= Leap(bounds, x, src, p)[j] - x[j] <= src(p) * (bounds[j][1] - bounds[j][0])
  {
    forall j | 0 <= j < |x|
      ensures bounds[j][0] <= Leap(bounds, x, src, p)[j] <= bounds[j][1]
      ensures -(src(p) * (bounds[j][1] - bounds[j][0])) <= Leap(bounds, x, src, p)[j] - x[j] <= src(p) * (bounds[j][1] - bounds[j][0])
    {
      JoltNear(bounds[j][0], bounds[j][1], x[j], src(p + 1 + j), src(p));
    }
  }

  // ---------------------------------------------------------------------
  // One turn, as values
  // ---------------------------------------------------------------------

  /** What one iteration depends on besides the fish: the objective, the bounds, the
      dimension count, the random stream, the distance matrix built at the start of
      the run, the iteration's visual range and `Teta`. */
  datatype Rules = Rules(f: Objective, bounds: seq<seq<real>>, n: nat, src: nat -> Unit,
                         matrix: seq<seq<real>>, visual: real, teta: real)
  {
    /** A bound row per dimension, two entries in every bound row, and a distance
        row for each of `size` fish. */
    predicate Sound(size: nat)
    {
      Covers(bounds, n) && Paired(bounds) && |matrix| == size && Grid(matrix, size)
    }

    /** `afsa.Visual * maxDifference(afsa.Bounds)`: how far a fish sees and wanders. */
    function Reach(): real
      requires Paired(bounds)
    {
      visual * Widest(bounds)
    }
  }

  /** `searchBehavior` (AFSA.go:193-201) from stream position `p`: a neighbour picked
      by one draw, then a step toward it by the next. */
  function Search(bounds: seq<seq<real>>, src: nat -> Unit, rows: seq<seq<real>>, i: int, V: seq<int>, p: nat): (out: (seq<real>, nat))
    requires 0 <= i < |rows| && Covers(bounds, |rows[i]|) && Grid(rows, |rows[i]|)
    requires V != [] && forall k :: 0 <= k < |V| ==> 0 <= V[k] < |rows|
    ensures |out.0| == |rows[i]| && out.1 == p + 2
    ensures Ordered(bounds, |rows[i]|) ==> InBounds(out.0, bounds)
  {
    var j := V[IntDraw(src(p), |V|)];
    assert Ordered(bounds, |rows[i]|) ==> InBounds(Toward(rows[i], rows[j], src(p + 1), bounds), bounds) by {
      if Ordered(bounds, |rows[i]|) { TowardInBounds(rows[i], rows[j], src(p + 1), bounds); }
    }
    (Toward(rows[i], rows[j], src(p + 1), bounds), p + 2)
  }

  /** `float64(len(neighbors))/float64(afsa.PopulationSize) > afsa.Teta`: the share of
      the population within sight exceeds `Teta`. */
  predicate Crowded(count: nat, size: nat, teta: real)
    requires size > 0
  {
    count as real / size as real > teta
  }

  /** The first outcome of a sparse neighbourhood (AFSA.go:85-90): a step toward the
      centre `c` of the neighbours when it is strictly better than the fish, one draw,
      and a search otherwise. */
  function SwarmOrSearch(r: Rules, rows: seq<seq<real>>, i: int, V: seq<int>, p: nat): (out: (seq<real>, nat))
    requires Covers(r.bounds, r.n) && Grid(rows, r.n) && 0 <= i < |rows|
    requires V != [] && forall k :: 0 <= k < |V| ==> 0 <= V[k] < |rows|
    ensures |out.0| == r.n && p + 1 <= out.1 <= p + 2
  {
    var c := Mean(rows, V, r.n);
    if Less(r.f(c), r.f(rows[i])) then (Toward(rows[i], c, r.src(p), r.bounds), p + 1)
    else Search(r.bounds, r.src, rows, i, V, p)
  }

  /** The second outcome of a sparse neighbourhood (AFSA.go:92-99): a step toward the
      best neighbour when it is strictly better than the fish, one draw, and a search
      otherwise. `bestNeighbor` answers -1 only for no neighbour, so this test always
      runs. */
  function ChaseOrSearch(r: Rules, rows: seq<seq<real>>, i: int, V: seq<int>, p: nat): (out: (seq<real>, nat))
    requires Covers(r.bounds, r.n) && Grid(rows, r.n) && 0 <= i < |rows|
    requires V != [] && forall k :: 0 <= k < |V| ==> 0 <= V[k] < |rows|
    ensures |out.0| == r.n && p + 1 <= out.1 <= p + 2
    ensures Ordered(r.bounds, r.n) ==> InBounds(out.0, r.bounds)
  {
    var jStar := BestOf(r.f, rows, V);
    if Less(r.f(rows[jStar]), r.f(rows[i])) then
      assert Ordered(r.bounds, r.n) ==> InBounds(Toward(rows[i], rows[jStar], r.src(p), r.bounds), r.bounds) by {
        if Ordered(r.bounds, r.n) { TowardInBounds(rows[i], rows[jStar], r.src(p), r.bounds); }
      }
      (Toward(rows[i], rows[jStar], r.src(p), r.bounds), p + 1)
    else Search(r.bounds, r.src, rows, i, V, p)
  }

  /** The candidate position of fish `i` with neighbours `V` (AFSA.go:79-102) from
      stream position `p`, and the stream position after it. Without neighbours the
      fish moves at random; in a neighbourhood more crowded than `Teta` it searches;
      otherwise the swarm or search outcome is overwritten by the chase or search
      outcome, which is the candidate. */
  function Behaviour(r: Rules, rows: seq<seq<real>>, i: int, V: seq<int>, p: nat): (out: (seq<real>, nat))
    requires Covers(r.bounds, r.n) && Paired(r.bounds) && Grid(rows, r.n) && 0 <= i < |rows|
    requires forall k :: 0 <= k < |V| ==> 0 <= V[k] < |rows|
    ensures |out.0| == r.n && p <= out.1
    ensures Ordered(r.bounds, r.n) ==> InBounds(out.0, r.bounds)
  {
    if V == [] then (Wander(r.bounds, rows[i], r.Reach(), r.src, p), p + r.n)
    else if Crowded(|V|, |rows|, r.teta) then Search(r.bounds, r.src, rows, i, V, p)
    else ChaseOrSearch(r, rows, i, V, SwarmOrSearch(r, rows, i, V, p).1)
  }

  /** The three cases of a behaviour. */
  lemma BehaviourCases(r: Rules, rows: seq<seq<real>>, i: int, V: seq<int>, p: nat)
    requires Covers(r.bounds, r.n) && Paired(r.bounds) && Grid(rows, r.n) && 0 <= i < |rows|
    requires forall k :: 0 <= k < |V| ==> 0 <= V[k] < |rows|
    ensures V == [] ==> Behaviour(r, rows, i, V, p) == (Wander(r.bounds, rows[i], r.Reach(), r.src, p), p + r.n)
    ensures V != [] && Crowded(|V|, |rows|, r.teta) ==> Behaviour(r, rows, i, V, p) == Search(r.bounds, r.src, rows, i, V, p)
    ensures V != [] && !Crowded(|V|, |rows|, r.teta) ==>
      Behaviour(r, rows, i, V, p) == ChaseOrSearch(r, rows, i, V, SwarmOrSearch(r, rows, i, V, p).1)
  {
  }

  /** The candidate of fish `i` (AFSA.go:77-102): its behaviour among the neighbours
      the distance matrix shows it. */
  function Candidate(r: Rules, rows: seq<seq<real>>, i: int, p: nat): (out: (seq<real>, nat))
    requires r.Sound(|rows|) && Grid(rows, r.n) && 0 <= i < |rows|
    ensures |out.0| == r.n && p <= out.1
    ensures Ordered(r.bounds, r.n) ==> InBounds(out.0, r.bounds)
  {
    Behaviour(r, rows, i, Neighbors(r.matrix[i], i, r.Reach()), p)
  }

  /** With neighbours, the candidate is a step from the fish toward one of them, by a
      draw taken during the turn: the step toward the centre of the neighbourhood
      (`swarmBehavior`) is always overwritten and only consumes a draw. A crowded
      neighbourhood takes two draws, any other two to four. */
  lemma BehaviourStepsTowardNeighbor(r: Rules, rows: seq<seq<real>>, i: int, V: seq<int>, p: nat)
    requires Covers(r.bounds, r.n) && Paired(r.bounds) && Grid(rows, r.n) && 0 <= i < |rows|
    requires V != [] && forall k :: 0 <= k < |V| ==> 0 <= V[k] < |rows|
    ensures var out := Behaviour(r, rows, i, V, p);
      && (exists k, e :: 0 <= k < |V| && p <= e < out.1 && out.0 == Toward(rows[i], rows[V[k]], r.src(e), r.bounds))
      && p + 2 <= out.1 <= p + 4
      && (Crowded(|V|, |rows|, r.teta) ==> out.1 == p + 2)
  {
    if Crowded(|V|, |rows|, r.teta) {
      SearchPicksNeighbor(r.bounds, r.src, rows, i, V, p);
    } else {
      ChaseOrSearchSteps(r, rows, i, V, SwarmOrSearch(r, rows, i, V, p).1);
    }
  }

  /** In a neighbourhood no more crowded than `Teta`, when the first least neighbour is
      strictly better than the fish, the candidate is the step toward it by the last
      draw of the turn. */
  lemma BehaviourChases(r: Rules, rows: seq<seq<real>>, i: int, V: seq<int>, p: nat)
    requires Covers(r.bounds, r.n) && Paired(r.bounds) && Grid(rows, r.n) && 0 <= i < |rows|
    requires V != [] && forall k :: 0 <= k < |V| ==> 0 <= V[k] < |rows|
    requires !Crowded(|V|, |rows|, r.teta) && Less(r.f(rows[BestOf(r.f, rows, V)]), r.f(rows[i]))
    ensures var out := Behaviour(r, rows, i, V, p);
      out.0 == Toward(rows[i], rows[BestOf(r.f, rows, V)], r.src(out.1 - 1), r.bounds)
  {
    ChaseOrSearchSteps(r, rows, i, V, SwarmOrSearch(r, rows, i, V, p).1);
  }

  /** The second outcome of a sparse neighbourhood steps toward a neighbour by one of
      its draws: the best neighbour by the first draw when that one is strictly better. */
  lemma ChaseOrSearchSteps(r: Rules, rows: seq<seq<real>>, i: int, V: seq<int>, p: nat)
    requires Covers(r.bounds, r.n) && Grid(rows, r.n) && 0 <= i < |rows|
    requires V != [] && forall k :: 0 <= k < |V| ==> 0 <= V[k] < |rows|
    ensures var out := ChaseOrSearch(r, rows, i, V, p);
      && (exists k, e :: 0 <= k < |V| && p <= e < out.1 && out.0 == Toward(rows[i], rows[V[k]], r.src(e), r.bounds))
      && (Less(r.f(rows[BestOf(r.f, rows, V)]), r.f(rows[i])) ==>
            out == (Toward(rows[i], rows[BestOf(r.f, rows, V)], r.src(p), r.bounds), p + 1))
  {
    var jStar := BestOf(r.f, rows, V);
    if Less(r.f(rows[jStar]), r.f(rows[i])) {
      var k :| 0 <= k < |V| && V[k] == jStar;
      assert ChaseOrSearch(r, rows, i, V, p).0 == Toward(rows[i], rows[V[k]], r.src(p), r.bounds);
    } else {
      SearchPicksNeighbor(r.bounds, r.src, rows, i, V, p);
    }
  }

  /** A search steps toward one of the neighbours, by the second of its two draws. */
  lemma SearchPicksNeighbor(bounds: seq<seq<real>>, src: nat -> Unit, rows: seq<seq<real>>, i: int, V: seq<int>, p: nat)
    requires 0 <= i < |rows| && Covers(bounds, |rows[i]|) && Grid(rows, |rows[i]|)
    requires V != [] && forall k :: 0 <= k < |V| ==> 0 <= V[k] < |rows|
    ensures var k := IntDraw(src(p), |V|);
      0 <= k < |V| && Search(bounds, src, rows, i, V, p).0 == Toward(rows[i], rows[V[k]], src(p + 1), bounds)
  {
  }

  /** The fish, the global best as a value, and the stream position. */
  datatype Shoal = Shoal(rows: seq<seq<real>>, bestPos: Option<seq<real>>, bestVal: Value, pos: nat)

  /** The population once fish `i` has been offered `y`: taken only when strictly better. */
  function Accept(f: seq<real> -> Value, rows: seq<seq<real>>, i: int, y: seq<real>): seq<seq<real>>
    requires 0 <= i < |rows|
  {
    if Less(f(y), f(rows[i])) then rows[i := y] else rows
  }

  /** The shoal once fish `i` has been offered `y` (AFSA.go:104-114): the fish takes it
      only when strictly better, and `y` becomes the global best when strictly better
      than the best, whether or not the fish took it. */
  function Settled(f: seq<real> -> Value, s: Shoal, i: int, y: seq<real>): Shoal
    requires 0 <= i < |s.rows|
  {
    var rows := Accept(f, s.rows, i, y);
    if Less(f(y), s.bestVal) then Shoal(rows, Some(y), f(y), s.pos)
    else Shoal(rows, s.bestPos, s.bestVal, s.pos)
  }

  /** The turn of fish `i` (AFSA.go:76-114): its candidate, offered to it. */
  function Turn(r: Rules, s: Shoal, i: int): (t: Shoal)
    requires r.Sound(|s.rows|) && Grid(s.rows, r.n) && 0 <= i < |s.rows|
    ensures |t.rows| == |s.rows| && Grid(t.rows, r.n)
  {
    var out := Candidate(r, s.rows, i, s.pos);
    Settled(r.f, s.(pos := out.1), i, out.0)
  }

  /** A turn never raises the global best nor the value of the fish, keeps the best the
      value of its position, and keeps fish and best within well-ordered bounds. */
  lemma TurnKeepsInvariants(r: Rules, s: Shoal, i: int)
    requires r.Sound(|s.rows|) && Grid(s.rows, r.n) && 0 <= i < |s.rows|
    ensures NotAbove(Turn(r, s, i).bestVal, s.bestVal)
    ensures NotAbove(r.f(Turn(r, s, i).rows[i]), r.f(s.rows[i]))
    ensures Honest(r.f, s.bestPos, s.bestVal) ==> Honest(r.f, Turn(r, s, i).bestPos, Turn(r, s, i).bestVal)
    ensures Ordered(r.bounds, r.n) && Inside(s.rows, s.bestPos, r.bounds) ==>
      Inside(Turn(r, s, i).rows, Turn(r, s, i).bestPos, r.bounds)
  {
  }

  /** The turns of fish `i`, `i + 1`, ... of one iteration (AFSA.go:75-117). */
  function Flight(r: Rules, s: Shoal, i: int): (t: Shoal)
    requires r.Sound(|s.rows|) && Grid(s.rows, r.n) && 0 <= i <= |s.rows|
    decreases |s.rows| - i
    ensures |t.rows| == |s.rows| && Grid(t.rows, r.n)
  {
    if i == |s.rows| then s else Flight(r, Turn(r, s, i), i + 1)
  }

  lemma FlightStep(r: Rules, s: Shoal, i: int)
    requires r.Sound(|s.rows|) && Grid(s.rows, r.n) && 0 <= i < |s.rows|
    ensures Flight(r, s, i) == Flight(r, Turn(r, s, i), i + 1)
  {
  }

  /** Over an iteration's turns the global best never rises and stays the value of its
      position, no fish gets worse, and fish and best stay within well-ordered bounds. */
  lemma {:induction false} FlightKeepsInvariants(r: Rules, s: Shoal, i: int)
    requires r.Sound(|s.rows|) && Grid(s.rows, r.n) && 0 <= i <= |s.rows|
    decreases |s.rows| - i
    ensures NotAbove(Flight(r, s, i).bestVal, s.bestVal)
    ensures forall k :: 0 <= k < |s.rows| ==> NotAbove(r.f(Flight(r, s, i).rows[k]), r.f(s.rows[k]))
    ensures Honest(r.f, s.bestPos, s.bestVal) ==> Honest(r.f, Flight(r, s, i).bestPos, Flight(r, s, i).bestVal)
    ensures Ordered(r.bounds, r.n) && Inside(s.rows, s.bestPos, r.bounds) ==>
      Inside(Flight(r, s, i).rows, Flight(r, s, i).bestPos, r.bounds)
  {
    if i < |s.rows| {
      var t := Turn(r, s, i);
      TurnKeepsInvariants(r, s, i);
      FlightKeepsInvariants(r, t, i + 1);
      var u := Flight(r, t, i + 1);
      NotAboveTransitive(u.bestVal, t.bestVal, s.bestVal);
      forall k | 0 <= k < |s.rows|
        ensures NotAbove(r.f(u.rows[k]), r.f(s.rows[k]))
      {
        NotAboveTransitive(r.f(u.rows[k]), r.f(t.rows[k]), r.f(s.rows[k]));
      }
    } else {
      forall k | 0 <= k < |s.rows|
        ensures NotAbove(r.f(s.rows[k]), r.f(s.rows[k]))
      {
      }
    }
  }

  // ---------------------------------------------------------------------
  // Stagnation
  // ---------------------------------------------------------------------

  /** The number of consecutive close pairs at the end of the best-value history `h`:
      how long the reported best has stood still, to within `eta`. */
  function Streak(h: seq<Value>, eta: real): nat
  {
    if |h| < 2 || !CloseTo(h[|h| - 1], h[|h| - 2], eta) then 0
    else 1 + Streak(h[..|h| - 1], eta)
  }

  /** Entries `k - 1` and `k` of the history are close. */
  predicate CloseAt(h: seq<Value>, k: int, eta: real)
    requires 1 <= k < |h|
  {
    CloseTo(h[k], h[k - 1], eta)
  }

  /** The streak is the run of close pairs ending the history: every one of the last
      `Streak` pairs is close, and the pair before them, if any, is not. */
  lemma {:induction false} StreakIsTrailingRun(h: seq<Value>, eta: real)
    ensures Streak(h, eta) < |h| || |h| == 0
    ensures forall k :: |h| - Streak(h, eta) <= k < |h| ==> 1 <= k && CloseAt(h, k, eta)
    ensures |h| - Streak(h, eta) >= 2 ==> !CloseTo(h[|h| - Streak(h, eta) - 1], h[|h| - Streak(h, eta) - 2], eta)
  {
    if |h| >= 2 && CloseTo(h[|h| - 1], h[|h| - 2], eta) {
      var init := h[..|h| - 1];
      StreakIsTrailingRun(init, eta);
      forall k | |h| - Streak(h, eta) <= k < |h|
        ensures 1 <= k && CloseAt(h, k, eta)
      {
        if k < |init| {
          assert CloseAt(init, k, eta);
          assert init[k] == h[k] && init[k - 1] == h[k - 1];
        }
      }
      var e := |h| - Streak(h, eta);
      if e >= 2 {
        assert init[e - 1] == h[e - 1] && init[e - 2] == h[e - 2];
      }
    }
  }

  /** An infinite best is never close to anything: a history ending in +Inf has no streak. */
  lemma InfiniteBestNeverStagnates(h: seq<Value>, eta: real)
    requires h != [] && h[|h| - 1] == PosInf
    ensures Streak(h, eta) == 0
  {
    if |h| >= 2 {
      CloseToOnlyFinite(h[|h| - 1], h[|h| - 2], eta);
    }
  }

  /** The jump of AFSA.go:138-141: fish `IntDraw` of the first draw is replaced by its
      jump from the next draws, with no acceptance test and no update of the best. */
  function Jumped(bounds: seq<seq<real>>, n: nat, src: nat -> Unit, s: Shoal): (t: Shoal)
    requires Covers(bounds, n) && Grid(s.rows, n) && s.rows != []
    ensures |t.rows| == |s.rows| && Grid(t.rows, n)
    ensures t.bestPos == s.bestPos && t.bestVal == s.bestVal
    ensures Ordered(bounds, n) && Inside(s.rows, s.bestPos, bounds) ==> Inside(t.rows, t.bestPos, bounds)
  {
    var j := IntDraw(src(s.pos), |s.rows|);
    Shoal(s.rows[j := Leap(bounds, s.rows[j], src, s.pos + 1)], s.bestPos, s.bestVal, s.pos + 2 + n)
  }

  // ---------------------------------------------------------------------
  // Helpers of the imperative model
  // ---------------------------------------------------------------------

  /** `maxDifference` (AFSA.go:257-265) as the loop it is. */
  method MaxDifference(bounds: seq<seq<real>>) returns (maxDiff: real)
    requires Paired(bounds)
    ensures maxDiff == Widest(bounds)
  {
    maxDiff := 0.0;
    var k := 0;
    while k < |bounds|
      invariant 0 <= k <= |bounds|
      invariant maxDiff == Widest(bounds[..k])
    {
      assert bounds[..k + 1][..k] == bounds[..k];
      var diff := bounds[k][1] - bounds[k][0];
      if diff > maxDiff {
        maxDiff := diff;
      }
      k := k + 1;
    }
    assert bounds[..k] == bounds;
  }

  /** Every listed fish exists and has `n` coordinates. */
  predicate Listed(rows: seq<seq<real>>, V: seq<int>, n: nat)
  {
    forall k :: 0 <= k < |V| ==> 0 <= V[k] < |rows| && |rows[V[k]]| == n
  }

  /** The coordinate sums of the listed fish. */
  function Sums(rows: seq<seq<real>>, V: seq<int>, n: nat): (s: seq<real>)
    requires Listed(rows, V, n)
    ensures |s| == n
  {
    seq(n, j requires 0 <= j < n => ColumnSum(rows, V, j))
  }

  /** Adding fish `V[a]` to the first `a` listed fish adds its coordinates to the sums. */
  lemma SumsStep(rows: seq<seq<real>>, V: seq<int>, a: int, n: nat)
    requires Listed(rows, V, n) && 0 <= a < |V|
    ensures Listed(rows, V[..a], n) && Listed(rows, V[..a + 1], n)
    ensures forall j :: 0 <= j < n ==> Sums(rows, V[..a + 1], n)[j] == Sums(rows, V[..a], n)[j] + rows[V[a]][j]
  {
    assert V[..a + 1][..a] == V[..a];
  }

  /** The history entries a run adds are the bests of its snapshots after the first,
      one per accepted snapshot; a refused last snapshot adds none. */
  ghost predicate Chronicle(added: seq<Value>, log: seq<Snapshot>, start: nat, accepts: nat -> bool)
  {
    && start + 1 + |added| <= |log| <= start + 2 + |added|
    && (|log| == start + 2 + |added| ==> !accepts(|log| - 1))
    && forall k :: 0 <= k < |added| ==> added[k] == log[start + 1 + k].bestValue
  }

  /** The log of a whole run, from what its iterations leave behind: `head` is the
      earlier entries `before` and the first snapshot, whose best was `b0`. */
  lemma RunLogged(log: seq<Snapshot>, before: seq<Snapshot>, head: seq<Snapshot>, accepts: nat -> bool,
                  t: nat, iterations: int, panicked: bool, b0: Value, b: Value)
    requires |head| == |before| + 1 && head[..|before|] == before && head[|before|].bestValue == b0
    requires Emitted(log, accepts, |before|, t) && log[..|head|] == head
    requires t <= Max0(iterations) && log[|before| + t].bestValue == b
    requires !panicked ==> t == Max0(iterations) || !accepts(|before| + t)
    requires panicked ==> 1 <= t && accepts(|before| + t)
    ensures !panicked ==> Reported(log, before, accepts, iterations)
    ensures panicked ==> Crashed(log, before, accepts, iterations)
    ensures log[|log| - 1].bestValue == b && NotAbove(b, b0)
  {
    assert log[..|before|] == head[..|before|];
    assert log[|before|..][0] == head[|before|];
    assert log[|before|..][t] == log[|log| - 1];
    if panicked {
      EmittedCrashed(log, before, accepts, t, iterations);
    } else {
      EmittedRun(log, before, accepts, t, iterations);
    }
  }

  /** One more snapshot keeps the chronicle: an accepted one brings its best into the
      history, a refused one ends the run. */
  lemma ChronicleGrows(added: seq<Value>, log: seq<Snapshot>, start: nat, accepts: nat -> bool,
                       next: seq<Value>, log2: seq<Snapshot>)
    requires Chronicle(added, log, start, accepts) && |log| == start + 1 + |added|
    requires |log2| == |log| + 1 && log2[..|log|] == log
    requires accepts(|log2| - 1) ==> next == added + [log2[|log2| - 1].bestValue]
    requires !accepts(|log2| - 1) ==> next == added
    ensures Chronicle(next, log2, start, accepts)
  {
    forall k | 0 <= k < |next|
      ensures next[k] == log2[start + 1 + k].bestValue
    {
      if k < |added| {
        assert log2[start + 1 + k] == log[start + 1 + k];
      }
    }
  }

  /** One more snapshot: an accepted one adds its best to the history, a refused one
      adds nothing, and the history still chronicles the log. */
  lemma ChronicleStep(prior: seq<Value>, hist: seq<Value>, next: seq<Value>,
                      log: seq<Snapshot>, log2: seq<Snapshot>, start: nat, t: nat, accepts: nat -> bool)
    requires |hist| == |prior| + t && hist[..|prior|] == prior
    requires Chronicle(hist[|prior|..], log, start, accepts) && |log| == start + t + 1
    requires |log2| == |log| + 1 && log2[..|log|] == log
    requires next == if accepts(|log|) then hist + [log2[|log|].bestValue] else hist
    ensures |prior| <= |next| && next[..|prior|] == prior
    ensures Chronicle(next[|prior|..], log2, start, accepts)
  {
    if accepts(|log|) {
      AppendSlices(hist, log2[|log|].bestValue, |prior|);
    }
    ChronicleGrows(hist[|prior|..], log, start, accepts, next[|prior|..], log2);
  }

  /** Appending to a sequence extends its suffix from `h0` and keeps its prefix. */
  lemma AppendSlices<T>(h: seq<T>, x: T, h0: nat)
    requires h0 <= |h|
    ensures (h + [x])[h0..] == h[h0..] + [x] && (h + [x])[..h0] == h[..h0]
  {
    assert (h + [x])[h0..] == h[h0..] + [x];
  }

  /** Adds `row` to `sums`, coordinate by coordinate. */
  method AddRow(sums: array<real>, row: array<real>)
    requires sums.Length == row.Length && sums != row
    modifies sums
    ensures forall c :: 0 <= c < sums.Length ==> sums[c] == old(sums[c]) + row[c]
  {
    var j := 0;
    while j < sums.Length
      invariant 0 <= j <= sums.Length
      invariant forall c :: 0 <= c < j ==> sums[c] == old(sums[c]) + row[c]
      invariant forall c :: j <= c < sums.Length ==> sums[c] == old(sums[c])
    {
      sums[j] := sums[j] + row[j];
      j := j + 1;
    }
  }

  class School {
    const algo: Algo
    const math: Math
    const eta: real
    const maxTries: int
    const minVisual: real
    const initialVisual: real
    const teta: real
    /** `HistoryBest`: the best value at construction and after every reported iteration. */
    var history: seq<Value>
    /** `Visual`: the range of the current iteration, 0 before the first one. */
    var visual: real

    /** `req` and `p0` only carry the construction of `algo` through. */
    constructor (algo: Algo, math: Math, eta: real, maxTries: int, minVisual: real, initialVisual: real, teta: real,
                 ghost req: Request, ghost p0: nat)
      requires algo.Populated(req, p0)
      ensures this.algo == algo && this.math == math && this.eta == eta && this.maxTries == maxTries
      ensures this.minVisual == minVisual && this.initialVisual == initialVisual && this.teta == teta
      ensures history == [algo.bestVal] && visual == 0.0
      ensures algo.Populated(req, p0)
    {
      this.algo := algo;
      this.math := math;
      this.eta := eta;
      this.maxTries := maxTries;
      this.minVisual := minVisual;
      this.initialVisual := initialVisual;
      this.teta := teta;
      history := [algo.bestVal];
      visual := 0.0;
    }

    /** The engine's shape, two entries in every bound row, and an empty population
        has no best (the scan of `NewAlgo` found none and no turn ever runs). */
    ghost predicate Valid()
      reads algo, algo.population
    {
      algo.Shaped() && Paired(algo.bounds) && (algo.populationSize == 0 ==> algo.bestVal == PosInf)
    }

    /** The constants of an iteration, with the distance matrix `d` of the run. */
    function Law(d: seq<seq<real>>): Rules
      reads algo`bounds, algo`numDimensions, this`visual
      requires 0 <= algo.numDimensions
    {
      Rules(algo.f, algo.bounds, algo.numDimensions, algo.rng.src, d, visual, teta)
    }

    /** The fish, the global best and the stream position, as values. */
    function State(): Shoal
      reads algo, algo.population, algo.population[..], algo.bestPos, algo.rng
    {
      Shoal(algo.Contents(), algo.BestView(), algo.bestVal, algo.rng.pos)
    }

    /** Every fish and the best position lie within well-ordered bounds. */
    ghost predicate Confined()
      reads algo, algo.population, algo.population[..], algo.bestPos
    {
      Ordered(algo.bounds, algo.numDimensions) && Inside(algo.Contents(), algo.BestView(), algo.bounds)
    }

    /** The global best is the value of the best position. */
    ghost predicate Truthful()
      reads algo, algo.bestPos
    {
      Honest(algo.f, algo.BestView(), algo.bestVal)
    }

    /** `calculateDistance` (AFSA.go:236-242): the sum of squared differences; the
        caller takes the root. */
    method CalculateDistance(a: array<real>, b: array<real>) returns (sum: real)
      requires a.Length == b.Length
      ensures sum == SquaredDistance(Times, a[..], b[..])
    {
      sum := 0.0;
      var k := 0;
      while k < a.Length
        invariant 0 <= k <= a.Length
        invariant sum == SquaredDistance(Times, a[..k], b[..k])
      {
        assert a[..k + 1][..k] == a[..k] && b[..k + 1][..k] == b[..k];
        sum := sum + (a[k] - b[k]) * (a[k] - b[k]);
        k := k + 1;
      }
      assert a[..] == a[..a.Length] && b[..] == b[..b.Length];
    }

    /** The distance matrix of AFSA.go:62-68, built once per run from the fish as they
        are before the first iteration. */
    method DistanceMatrix() returns (d: seq<seq<real>>)
      requires Valid()
      ensures d == Matrix(math, algo.Contents())
      ensures Valid() && Truthful() == old(Truthful()) && Confined() == old(Confined())
    {
      ghost var rows := algo.Contents();
      assert Grid(rows, if rows == [] then 0 else |rows[0]|) by {
        assert Grid(rows, algo.numDimensions);
      }
      ghost var want := Matrix(math, rows);
      d := [];
      var i := 0;
      while i < algo.populationSize
        invariant 0 <= i <= algo.populationSize
        invariant d == want[..i]
      {
        var row: seq<real> := [];
        var j := 0;
        while j < algo.populationSize
          invariant 0 <= j <= algo.populationSize
          invariant row == want[i][..j]
        {
          var s := CalculateDistance(algo.population[i], algo.population[j]);
          row := row + [math.sqrt(s)];
          j := j + 1;
        }
        assert row == want[i];
        d := d + [row];
        i := i + 1;
      }
    }

    /** `findNeighbors` (AFSA.go:146-158): every fish other than `index` whose entry in
        the distance row of `index` is within the range, in index order. */
    method FindNeighbors(index: int, d: seq<seq<real>>) returns (neighbors: seq<int>)
      requires Valid() && 0 <= index < algo.populationSize && |d| == algo.populationSize && Grid(d, algo.populationSize)
      ensures neighbors == Neighbors(d[index], index, Law(d).Reach())
    {
      var maxDiff := MaxDifference(algo.bounds);
      var v := visual * maxDiff;
      assert v == Law(d).Reach();
      var row := d[index];
      assert |row| == algo.populationSize;
      neighbors := [];
      var i := 0;
      while i < algo.populationSize
        invariant 0 <= i <= algo.populationSize
        invariant neighbors == Neighbors(row[..i], index, v)
      {
        NeighborsStep(row, index, v, i);
        if i != index && row[i] <= v {
          neighbors := neighbors + [i];
        }
        i := i + 1;
      }
      assert row[..i] == row;
    }

    /** The step shared by `chaseBehavior`, `swarmBehavior` and `searchBehavior`
        (AFSA.go:177-180, 186-189, 196-199): a fresh vector, coordinate `j` the clamp
        of `x[j] + r * (target[j] - x[j])`. */
    method Towards(x: array<real>, target: array<real>, r: real) returns (y: array<real>)
      requires x.Length == algo.numDimensions && target.Length == algo.numDimensions
      requires Covers(algo.bounds, algo.numDimensions)
      ensures fresh(y) && y[..] == Toward(x[..], target[..], r, algo.bounds)
    {
      y := new real[algo.numDimensions];
      var j := 0;
      while j < algo.numDimensions
        invariant 0 <= j <= algo.numDimensions
        invariant forall k :: 0 <= k < j ==> y[k] == Step(algo.bounds[k][0], algo.bounds[k][1], x[k], target[k], r)
      {
        y[j] := Clamp(algo.bounds[j][0], algo.bounds[j][1], x[j] + r * (target[j] - x[j]));
        j := j + 1;
      }
    }

    /** `randomMove` (AFSA.go:160-173): each coordinate moves by a draw scaled by the
        smaller of the range `visual * maxDifference` and its bound row's width, then
        is clamped. */
    method RandomMove(currentPosition: array<real>, ghost d: seq<seq<real>>) returns (newPosition: array<real>)
      requires Valid() && currentPosition.Length == algo.numDimensions
      modifies algo.rng
      ensures algo.Contents() == old(algo.Contents())
      ensures fresh(newPosition)
      ensures newPosition[..] == Wander(algo.bounds, currentPosition[..], Law(d).Reach(), algo.rng.src, old(algo.rng.pos))
      ensures algo.rng.pos == old(algo.rng.pos) + algo.numDimensions
    {
      var maxDiff := MaxDifference(algo.bounds);
      var v := visual * maxDiff;
      assert v == Law(d).Reach();
      newPosition := Drift(currentPosition, v);
    }

    /** The loop of `randomMove` (AFSA.go:164-170) with range `v`. */
    method Drift(currentPosition: array<real>, v: real) returns (newPosition: array<real>)
      requires Covers(algo.bounds, algo.numDimensions) && currentPosition.Length == algo.numDimensions
      modifies algo.rng
      ensures fresh(newPosition)
      ensures newPosition[..] == Wander(algo.bounds, currentPosition[..], v, algo.rng.src, old(algo.rng.pos))
      ensures algo.rng.pos == old(algo.rng.pos) + algo.numDimensions
    {
      newPosition := new real[algo.numDimensions];
      ghost var src, p0 := algo.rng.src, algo.rng.pos;
      var j := 0;
      while j < algo.numDimensions
        invariant 0 <= j <= algo.numDimensions
        invariant algo.rng.pos == p0 + j
        invariant forall k :: 0 <= k < j ==>
          newPosition[k] == Nudge(algo.bounds[k][0], algo.bounds[k][1], currentPosition[k], v, src(p0 + k))
      {
        var u := algo.rng.Float64();
        newPosition[j] := Nudge(algo.bounds[j][0], algo.bounds[j][1], currentPosition[j], v, u);
        j := j + 1;
      }
      assert newPosition[..] == Wander(algo.bounds, currentPosition[..], v, src, p0);
    }

    /** `jumpBehavior` (AFSA.go:203-219). */
    method JumpBehavior(x: array<real>) returns (newPosition: array<real>)
      requires Valid() && x.Length == algo.numDimensions
      modifies algo.rng
      ensures algo.Contents() == old(algo.Contents())
      ensures fresh(newPosition)
      ensures newPosition[..] == Leap(algo.bounds, x[..], algo.rng.src, old(algo.rng.pos))
      ensures algo.rng.pos == old(algo.rng.pos) + 1 + algo.numDimensions
    {
      ghost var p0 := algo.rng.pos;
      var p := algo.rng.Float64();
      newPosition := Shake(x, p);
      assert newPosition[..] == Leap(algo.bounds, x[..], algo.rng.src, p0);
    }

    /** The loop of `jumpBehavior` (AFSA.go:206-216) with jump size `p`: one draw per
        coordinate. */
    method Shake(x: array<real>, p: Unit) returns (newPosition: array<real>)
      requires Covers(algo.bounds, algo.numDimensions) && x.Length == algo.numDimensions
      modifies algo.rng
      ensures fresh(newPosition) && newPosition.Length == algo.numDimensions
      ensures forall k :: 0 <= k < algo.numDimensions ==>
        newPosition[k] == Jolt(algo.bounds[k][0], algo.bounds[k][1], x[k], algo.rng.src(old(algo.rng.pos) + k), p)
      ensures algo.rng.pos == old(algo.rng.pos) + algo.numDimensions
    {
      newPosition := new real[algo.numDimensions];
      ghost var src, p0 := algo.rng.src, algo.rng.pos;
      var j := 0;
      while j < algo.numDimensions
        invariant 0 <= j <= algo.numDimensions
        invariant algo.rng.pos == p0 + j
        invariant forall k :: 0 <= k < j ==> newPosition[k] == Jolt(algo.bounds[k][0], algo.bounds[k][1], x[k], src(p0 + k), p)
      {
        var u := algo.rng.Float64();
        newPosition[j] := Jolt(algo.bounds[j][0], algo.bounds[j][1], x[j], u, p);
        j := j + 1;
      }
    }
  
    /** `chaseBehavior` (AFSA.go:175-182): one draw, then the step from fish `i`
        toward fish `jStar`. */
    method ChaseBehavior(i: int, jStar: int) returns (newPosition: array<real>)
      requires Valid() && 0 <= i < algo.populationSize && 0 <= jStar < algo.populationSize
      modifies algo.rng
      ensures algo.Contents() == old(algo.Contents())
      ensures fresh(newPosition)
      ensures newPosition[..] == Toward(algo.population[i][..], algo.population[jStar][..], algo.rng.src(old(algo.rng.pos)), algo.bounds)
      ensures algo.rng.pos == old(algo.rng.pos) + 1
    {
      var r := algo.rng.Float64();
      newPosition := Towards(algo.population[i], algo.population[jStar], r);
    }

    /** `swarmBehavior` (AFSA.go:184-191): one draw, then the step from `x` toward
        the centre `c`. */
    method SwarmBehavior(c: array<real>, x: array<real>) returns (newPosition: array<real>)
      requires Valid() && c.Length == algo.numDimensions && x.Length == algo.numDimensions
      modifies algo.rng
      ensures algo.Contents() == old(algo.Contents())
      ensures fresh(newPosition)
      ensures newPosition[..] == Toward(x[..], c[..], algo.rng.src(old(algo.rng.pos)), algo.bounds)
      ensures algo.rng.pos == old(algo.rng.pos) + 1
    {
      var r := algo.rng.Float64();
      newPosition := Towards(x, c, r);
    }

    /** `searchBehavior` (AFSA.go:193-201): a neighbour picked by `Intn`, then the
        step from fish `i` toward it. */
    method SearchBehavior(i: int, V: seq<int>) returns (newPosition: array<real>)
      requires Valid() && 0 <= i < algo.populationSize
      requires V != [] && forall k :: 0 <= k < |V| ==> 0 <= V[k] < algo.populationSize
      modifies algo.rng
      ensures algo.Contents() == old(algo.Contents())
      ensures fresh(newPosition)
      ensures (newPosition[..], algo.rng.pos) == Search(algo.bounds, algo.rng.src, algo.Contents(), i, V, old(algo.rng.pos))
    {
      var k := algo.rng.Intn(|V|);
      var j := V[k];
      var r := algo.rng.Float64();
      newPosition := Towards(algo.population[i], algo.population[j], r);
    }

    /** `bestNeighbor` (AFSA.go:221-234): -1 without neighbours, otherwise the first
        neighbour of least value. */
    method BestNeighbor(V: seq<int>) returns (bestIndex: int)
      requires Valid() && forall k :: 0 <= k < |V| ==> 0 <= V[k] < algo.populationSize
      ensures bestIndex == BestOf(algo.f, algo.Contents(), V)
    {
      if |V| == 0 {
        return -1;
      }
      ghost var rows := algo.Contents();
      ghost var vals := Scores(algo.f, Select(rows, V));
      bestIndex := V[0];
      var bestValue := algo.f(algo.population[bestIndex][..]);
      ghost var q := 0;
      assert vals[..1][..0] == [];
      var k := 1;
      while k < |V|
        invariant 1 <= k <= |V|
        invariant 0 <= q < |V| && bestIndex == V[q]
        invariant (q, bestValue) == ScanMin(vals[..k], (0, vals[0]))
      {
        assert vals[..k + 1][..k] == vals[..k];
        var index := V[k];
        if Less(algo.f(algo.population[index][..]), bestValue) {
          bestValue := algo.f(algo.population[index][..]);
          bestIndex := index;
          q := k;
        }
        k := k + 1;
      }
      assert vals[..k] == vals;
    }

    /** `meanPosition` (AFSA.go:244-255): the coordinates of the listed fish summed
        fish by fish, then divided by their number. */
    method MeanPosition(V: seq<int>) returns (meanPos: array<real>)
      requires Valid() && V != [] && forall k :: 0 <= k < |V| ==> 0 <= V[k] < algo.populationSize
      ensures fresh(meanPos) && meanPos[..] == Mean(algo.Contents(), V, algo.numDimensions)
    {
      meanPos := SumPositions(V);
      ghost var sums := meanPos[..];
      var j := 0;
      while j < algo.numDimensions
        invariant 0 <= j <= algo.numDimensions
        invariant forall c :: 0 <= c < j ==> meanPos[c] == sums[c] / |V| as real
        invariant forall c :: j <= c < algo.numDimensions ==> meanPos[c] == sums[c]
      {
        meanPos[j] := meanPos[j] / |V| as real;
        j := j + 1;
      }
    }

    /** The summing loops of `meanPosition` (AFSA.go:246-250). */
    method SumPositions(V: seq<int>) returns (sums: array<real>)
      requires Valid() && forall k :: 0 <= k < |V| ==> 0 <= V[k] < algo.populationSize
      ensures fresh(sums) && Listed(algo.Contents(), V, algo.numDimensions)
      ensures sums[..] == Sums(algo.Contents(), V, algo.numDimensions)
    {
      ghost var rows := algo.Contents();
      var n := algo.numDimensions;
      assert Listed(rows, V, n);
      sums := new real[n](_ => 0.0);
      assert sums[..] == Sums(rows, V[..0], n);
      var a := 0;
      while a < |V|
        invariant 0 <= a <= |V|
        invariant sums[..] == Sums(rows, V[..a], n)
      {
        SumsStep(rows, V, a, n);
        AddRow(sums, algo.population[V[a]]);
        a := a + 1;
      }
      assert V[..a] == V;
    }
  
    /** AFSA.go:85-90: a step toward the centre `c` of the neighbours when it is
        strictly better than fish `i`, a search otherwise. */
    method SwarmOrSearchStep(i: int, V: seq<int>, ghost d: seq<seq<real>>) returns (newPosition: array<real>)
      requires Valid() && 0 <= i < algo.populationSize
      requires V != [] && forall k :: 0 <= k < |V| ==> 0 <= V[k] < algo.populationSize
      modifies algo.rng
      ensures fresh(newPosition) && algo.Contents() == old(algo.Contents())
      ensures (newPosition[..], algo.rng.pos) == SwarmOrSearch(Law(d), algo.Contents(), i, V, old(algo.rng.pos))
    {
      var c := MeanPosition(V);
      if Less(algo.f(c[..]), algo.f(algo.population[i][..])) {
        newPosition := SwarmBehavior(c, algo.population[i]);
      } else {
        newPosition := SearchBehavior(i, V);
      }
    }

    /** AFSA.go:94-98, once `bestNeighbor` has answered `jStar`: a step toward it when
        it is strictly better than fish `i`, a search otherwise. */
    method ChaseOrSearchStep(i: int, V: seq<int>, jStar: int, ghost d: seq<seq<real>>) returns (newPosition: array<real>)
      requires Valid() && 0 <= i < algo.populationSize
      requires V != [] && forall k :: 0 <= k < |V| ==> 0 <= V[k] < algo.populationSize
      requires jStar == BestOf(algo.f, algo.Contents(), V)
      modifies algo.rng
      ensures fresh(newPosition) && algo.Contents() == old(algo.Contents())
      ensures (newPosition[..], algo.rng.pos) == ChaseOrSearch(Law(d), algo.Contents(), i, V, old(algo.rng.pos))
    {
      if Less(algo.f(algo.population[jStar][..]), algo.f(algo.population[i][..])) {
        newPosition := ChaseBehavior(i, jStar);
      } else {
        newPosition := SearchBehavior(i, V);
      }
    }

    /** AFSA.go:85-99, a neighbourhood no more crowded than `Teta`: the swarm or search
        outcome, then the chase or search outcome that replaces it. */
    method Sparse(i: int, V: seq<int>, ghost d: seq<seq<real>>) returns (newPosition: array<real>)
      requires Valid() && 0 <= i < algo.populationSize
      requires V != [] && forall k :: 0 <= k < |V| ==> 0 <= V[k] < algo.populationSize
      modifies algo.rng
      ensures algo.Contents() == old(algo.Contents())
      ensures fresh(newPosition)
      ensures var law, rows := Law(d), algo.Contents();
        (newPosition[..], algo.rng.pos) == ChaseOrSearch(law, rows, i, V, SwarmOrSearch(law, rows, i, V, old(algo.rng.pos)).1)
    {
      newPosition := SwarmOrSearchStep(i, V, d);
      var jStar := BestNeighbor(V);
      if jStar != -1 {
        newPosition := ChaseOrSearchStep(i, V, jStar, d);
      }
    }

    /** AFSA.go:81-102: the behaviour of fish `i` among its neighbours `V`. */
    method Respond(i: int, V: seq<int>, ghost d: seq<seq<real>>) returns (newPosition: array<real>)
      requires Valid() && 0 <= i < algo.populationSize
      requires forall k :: 0 <= k < |V| ==> 0 <= V[k] < algo.populationSize
      modifies algo.rng
      ensures algo.Contents() == old(algo.Contents())
      ensures fresh(newPosition)
      ensures (newPosition[..], algo.rng.pos) == Behaviour(Law(d), algo.Contents(), i, V, old(algo.rng.pos))
    {
      ghost var law, rows, p := Law(d), algo.Contents(), algo.rng.pos;
      BehaviourCases(law, rows, i, V, p);
      if |V| == 0 {
        newPosition := RandomMove(algo.population[i], d);
      } else if Crowded(|V|, algo.populationSize, teta) {
        newPosition := SearchBehavior(i, V);
      } else {
        newPosition := Sparse(i, V, d);
      }
    }

    /** The candidate of fish `i` (AFSA.go:77-102). */
    method Behave(i: int, d: seq<seq<real>>) returns (newPosition: array<real>)
      requires Valid() && 0 <= i < algo.populationSize && |d| == algo.populationSize && Grid(d, algo.populationSize)
      modifies algo.rng
      ensures algo.Contents() == old(algo.Contents())
      ensures fresh(newPosition)
      ensures (newPosition[..], algo.rng.pos) == Candidate(Law(d), algo.Contents(), i, old(algo.rng.pos))
    {
      var neighbors := FindNeighbors(i, d);
      newPosition := Respond(i, neighbors, d);
    }

    /** AFSA.go:104-114: the candidate `newPosition` replaces fish `i` only when
        strictly better than it, and becomes the global best, by reference, when
        strictly better than the best. */
    method Settle(i: int, newPosition: array<real>)
      requires Valid() && 0 <= i < algo.populationSize && newPosition.Length == algo.numDimensions
      modifies algo.population, algo`bestPos, algo`bestVal
      ensures Valid()
      ensures State() == Settled(algo.f, old(State()), i, newPosition[..])
    {
      ghost var rows := algo.Contents();
      ghost var y := newPosition[..];
      var fNewPosition := algo.f(newPosition[..]);
      var fCurrentPosition := algo.f(algo.population[i][..]);
      if Less(fNewPosition, fCurrentPosition) {
        algo.population[i] := newPosition;
        assert algo.Contents() == rows[i := y] by {
          forall k | 0 <= k < |rows|
            ensures algo.Contents()[k] == rows[i := y][k]
          {
          }
        }
      }
      assert algo.Contents() == Accept(algo.f, rows, i, y);
      if Less(fNewPosition, algo.bestVal) {
        algo.bestVal := fNewPosition;
        algo.bestPos := newPosition;
      }
    }

    /** The turn of fish `i` (AFSA.go:76-114): its candidate, then the acceptance and
        the update of the best. */
    method TakeTurn(i: int, d: seq<seq<real>>)
      requires Valid() && 0 <= i < algo.populationSize && |d| == algo.populationSize && Grid(d, algo.populationSize)
      modifies algo.population, algo.rng, algo`bestPos, algo`bestVal
      ensures Valid()
      ensures State() == Turn(Law(d), old(State()), i)
    {
      ghost var s := State();
      var newPosition := Behave(i, d);
      ghost var out := Candidate(Law(d), s.rows, i, s.pos);
      assert State() == s.(pos := out.1);
      Settle(i, newPosition);
    }

    /** One iteration's turns, fish in index order (AFSA.go:75-117). */
    method Sweep(d: seq<seq<real>>)
      requires Valid() && |d| == algo.populationSize && Grid(d, algo.populationSize)
      modifies algo.population, algo.rng, algo`bestPos, algo`bestVal
      ensures Valid()
      ensures State() == Flight(Law(d), old(State()), 0)
    {
      ghost var law := Law(d);
      ghost var cur := State();
      ghost var goal := Flight(law, cur, 0);
      var i := 0;
      while i < algo.populationSize
        invariant 0 <= i <= algo.populationSize
        invariant Valid() && cur == State() && law == Law(d)
        invariant |cur.rows| == algo.populationSize && Grid(cur.rows, law.n)
        invariant Flight(law, cur, i) == goal
      {
        TakeTurn(i, d);
        FlightStep(law, cur, i);
        cur := Turn(law, cur, i);
        i := i + 1;
      }
    }

    /** The visual range of iteration `t` (AFSA.go:73), then the turns: the best never
        rises, stays the value of its position, and fish and best stay within
        well-ordered bounds. */
    method Advance(d: seq<seq<real>>, t: nat)
      requires Valid() && |d| == algo.populationSize && Grid(d, algo.populationSize) && t < algo.iterations
      modifies algo.population, algo.rng, algo`bestPos, algo`bestVal, this`visual
      ensures Valid()
      ensures visual == VisualAt(minVisual, initialVisual, t, algo.iterations)
      ensures State() == Flight(Law(d), old(State()), 0)
      ensures NotAbove(algo.bestVal, old(algo.bestVal))
      ensures old(Truthful()) ==> Truthful()
      ensures old(Confined()) ==> Confined()
    {
      visual := VisualAt(minVisual, initialVisual, t, algo.iterations);
      ghost var s := State();
      Sweep(d);
      FlightKeepsInvariants(Law(d), s, 0);
    }

    /** AFSA.go:140: row `j` of the population becomes `newPosition`. */
    method Replace(j: int, newPosition: array<real>)
      requires Valid() && 0 <= j < algo.populationSize && newPosition.Length == algo.numDimensions
      modifies algo.population
      ensures Valid()
      ensures algo.Contents() == old(algo.Contents())[j := newPosition[..]]
    {
      ghost var rows := algo.Contents();
      algo.population[j] := newPosition;
      forall k | 0 <= k < |rows|
        ensures algo.Contents()[k] == rows[j := newPosition[..]][k]
      {
      }
    }

    /** AFSA.go:140: fish `j`, drawn from shoal `s` by the draw just taken, is replaced
        by its jump. */
    method Relocate(j: int, ghost s: Shoal)
      requires Valid() && 0 <= j < algo.populationSize
      requires Grid(s.rows, algo.numDimensions) && s.rows != []
      requires j == IntDraw(algo.rng.src(s.pos), |s.rows|) && State() == s.(pos := s.pos + 1)
      modifies algo.population, algo.rng
      ensures Valid()
      ensures State() == Jumped(algo.bounds, algo.numDimensions, algo.rng.src, s)
    {
      var newPosition := JumpBehavior(algo.population[j]);
      Replace(j, newPosition);
      assert algo.BestView() == s.bestPos;
    }

    /** AFSA.go:139-140: a fish drawn by `Intn` is replaced by its jump. */
    method Jump()
      requires Valid() && algo.populationSize > 0
      modifies algo.population, algo.rng
      ensures Valid()
      ensures State() == Jumped(algo.bounds, algo.numDimensions, algo.rng.src, old(State()))
    {
      ghost var s := State();
      var j := algo.rng.Intn(algo.populationSize);
      Relocate(j, s);
    }

    /** AFSA.go:130-136: the reported best joins the history; the stagnation count
        grows when it is within `Eta` of the previous entry, except in the first
        iteration, and restarts from 0 otherwise. `h0` is where the run's entries
        begin. */
    method Record(count: nat, t: nat, ghost h0: nat) returns (next: nat)
      requires h0 + t == |history| && count == Streak(history[h0..], eta)
      modifies this`history
      ensures history == old(history) + [algo.bestVal]
      ensures next == Streak(history[h0..], eta)
      ensures Truthful() == old(Truthful()) && Confined() == old(Confined())
    {
      history := history + [algo.bestVal];
      if t > 0 && CloseTo(history[|history| - 1], history[|history| - 2], eta) {
        next := count + 1;
      } else {
        next := 0;
      }
      assert history[h0..][..|history[h0..]| - 1] == old(history)[h0..];
    }

    /** AFSA.go:138-141: once the stagnation count `next` exceeds `MaxTries`, a fish
        drawn by `Intn` jumps; `Intn(0)` panics, which only an empty population with a
        negative `MaxTries` reaches, since its best stays `+Inf` and never stagnates. */
    method Unstick(next: nat, ghost h0: nat) returns (panicked: bool)
      requires Valid() && h0 < |history| && history[|history| - 1] == algo.bestVal
      requires next == Streak(history[h0..], eta)
      modifies algo.population, algo.rng
      ensures Valid()
      ensures panicked <==> next > maxTries && algo.populationSize == 0
      ensures panicked ==> maxTries < 0
      ensures State() == if next > maxTries && algo.populationSize > 0
        then Jumped(algo.bounds, algo.numDimensions, algo.rng.src, old(State())) else old(State())
      ensures old(Truthful()) ==> Truthful()
      ensures old(Confined()) ==> Confined()
    {
      panicked := false;
      if next > maxTries {
        if algo.populationSize == 0 {
          InfiniteBestNeverStagnates(history[h0..], eta);
          panicked := true;
        } else {
          Jump();
        }
      }
    }

    /** The end of an accepted iteration (AFSA.go:130-141): the history records the
        best and the stagnation count, then the jump once the count exceeds `MaxTries`. */
    method Tally(ghost prior: seq<Value>, count: nat, t: nat) returns (next: nat, panicked: bool)
      requires Valid()
      requires |history| == |prior| + t && count == Streak(history[|prior|..], eta)
      modifies algo.population, algo.rng, this`history
      ensures Valid()
      ensures history == old(history) + [algo.bestVal] && next == Streak(history[|prior|..], eta)
      ensures panicked <==> next > maxTries && algo.populationSize == 0
      ensures panicked ==> maxTries < 0
      ensures old(Truthful()) ==> Truthful()
      ensures old(Confined()) ==> Confined()
    {
      next := Record(count, t, |prior|);
      panicked := Unstick(next, |prior|);
    }

    /** The first part of an iteration of `Run` (AFSA.go:70-128): the turns under the
        decayed range, then the snapshot. */
    method Turns(sink: Sink, d: seq<seq<real>>, ghost start: nat, t: nat) returns (ok: bool)
      requires Valid() && |d| == algo.populationSize && Grid(d, algo.populationSize) && t < algo.iterations
      requires Emitted(sink.log, sink.accepts, start, t) && sink.accepts(start + t)
      requires sink.log[start + t].bestValue == algo.bestVal
      modifies algo.population, algo.rng, algo`bestPos, algo`bestVal, sink, this`visual
      ensures Valid()
      ensures |sink.log| == |old(sink.log)| + 1 && sink.log[..|old(sink.log)|] == old(sink.log)
      ensures sink.log[|sink.log| - 1].bestValue == algo.bestVal
      ensures Emitted(sink.log, sink.accepts, start, t + 1)
      ensures ok == sink.accepts(start + t + 1)
      ensures old(Truthful()) ==> Truthful()
      ensures old(Confined()) ==> Confined()
    {
      Advance(d, t);
      ok := algo.EmitNext(sink, start, t);
    }

    /** One iteration of `Run` (AFSA.go:70-142) within the run that began at log entry
        `start` with the history `prior`: the turns and the snapshot, then, once it is
        accepted, the history entry, the stagnation count and the jump. `stop` says
        that the run ends here, at a refused send or at the panic of `Intn(0)`. */
    method Stride(sink: Sink, d: seq<seq<real>>, ghost start: nat, ghost head: seq<Snapshot>,
                  ghost prior: seq<Value>, t: nat, count: nat)
      returns (t': nat, next: nat, stop: bool, panicked: bool)
      requires Valid() && |d| == algo.populationSize && Grid(d, algo.populationSize) && t < algo.iterations
      requires start + 1 == |head| && Emitted(sink.log, sink.accepts, start, t) && sink.log[..start + 1] == head
      requires sink.accepts(start + t) && sink.log[start + t].bestValue == algo.bestVal
      requires |history| == |prior| + t && history[..|prior|] == prior && count == Streak(history[|prior|..], eta)
      requires Chronicle(history[|prior|..], sink.log, start, sink.accepts)
      modifies algo.population, algo.rng, algo`bestPos, algo`bestVal, sink, this`visual, this`history
      ensures t' == t + 1 && Valid()
      ensures Emitted(sink.log, sink.accepts, start, t') && sink.log[..start + 1] == head
      ensures sink.log[start + t'].bestValue == algo.bestVal
      ensures |prior| <= |history| && history[..|prior|] == prior
      ensures Chronicle(history[|prior|..], sink.log, start, sink.accepts)
      ensures !stop ==> sink.accepts(start + t') && |history| == |prior| + t' && next == Streak(history[|prior|..], eta)
      ensures stop && !panicked ==> !sink.accepts(start + t')
      ensures panicked ==> stop && sink.accepts(start + t') && algo.populationSize == 0 && maxTries < 0
      ensures old(Truthful()) ==> Truthful()
      ensures old(Confined()) ==> Confined()
    {
      ghost var hist, log := history, sink.log;
      var ok := Turns(sink, d, start, t);
      assert sink.log[..start + 1] == log[..start + 1];
      t', next, panicked := t + 1, 0, false;
      if ok {
        next, panicked := Tally(prior, count, t);
      }
      stop := !ok || panicked;
      ChronicleStep(prior, hist, history, log, sink.log, start, t, sink.accepts);
    }

    /** The iterations of `Run` after its first snapshot, when `send` accepted it: `t`
        of them begin, and the run ends after the last one, at a refused send, or at the
        panic of `Intn(0)`. `d` is the distance matrix of the initial population. */
    method Follow(sink: Sink, d: seq<seq<real>>, ghost start: nat, ghost head: seq<Snapshot>)
      returns (t: nat, panicked: bool)
      requires Valid() && |d| == algo.populationSize && Grid(d, algo.populationSize)
      requires start + 1 == |head| && Emitted(sink.log, sink.accepts, start, 0) && sink.log == head
      requires sink.accepts(start) && sink.log[start].bestValue == algo.bestVal
      modifies algo.population, algo.rng, algo`bestPos, algo`bestVal, sink, this`visual, this`history
      ensures Valid()
      ensures Emitted(sink.log, sink.accepts, start, t) && sink.log[..start + 1] == head
      ensures t <= Max0(algo.iterations)
      ensures !panicked ==> t == Max0(algo.iterations) || !sink.accepts(start + t)
      ensures panicked ==> 1 <= t && sink.accepts(start + t) && algo.populationSize == 0 && maxTries < 0
      ensures |old(history)| <= |history| && history[..|old(history)|] == old(history)
      ensures Chronicle(history[|old(history)|..], sink.log, start, sink.accepts)
      ensures sink.log[start + t].bestValue == algo.bestVal
      ensures old(Truthful()) ==> Truthful()
      ensures old(Confined()) ==> Confined()
    {
      ghost var prior := history;
      ghost var truthful, confined := Truthful(), Confined();
      var count := 0;
      t, panicked := 0, false;
      while t < algo.iterations
        invariant 0 <= t <= Max0(algo.iterations) && !panicked
        invariant Valid() && |d| == algo.populationSize
        invariant Emitted(sink.log, sink.accepts, start, t) && sink.log[..start + 1] == head
        invariant sink.accepts(start + t) && sink.log[start + t].bestValue == algo.bestVal
        invariant |history| == |prior| + t && history[..|prior|] == prior && count == Streak(history[|prior|..], eta)
        invariant Chronicle(history[|prior|..], sink.log, start, sink.accepts)
        invariant truthful ==> Truthful()
        invariant confined ==> Confined()
      {
        var stop;
        t, count, stop, panicked := Stride(sink, d, start, head, prior, t, count);
        if stop {
          return;
        }
      }
      assert t == Max0(algo.iterations);
    }

    /** The iterations of `Run` after its first snapshot, which `ok` says `send`
        accepted; none begins after a refused one. */
    method Iterations(sink: Sink, ok: bool, ghost start: nat, ghost head: seq<Snapshot>) returns (t: nat, panicked: bool)
      requires Valid()
      requires start + 1 == |head| && Emitted(sink.log, sink.accepts, start, 0) && sink.log == head
      requires ok == sink.accepts(start) && sink.log[start].bestValue == algo.bestVal
      modifies algo.population, algo.rng, algo`bestPos, algo`bestVal, sink, this`visual, this`history
      ensures Valid()
      ensures Emitted(sink.log, sink.accepts, start, t) && sink.log[..start + 1] == head
      ensures t <= Max0(algo.iterations)
      ensures !panicked ==> t == Max0(algo.iterations) || !sink.accepts(start + t)
      ensures panicked ==> 1 <= t && sink.accepts(start + t) && algo.populationSize == 0 && maxTries < 0
      ensures |old(history)| <= |history| && history[..|old(history)|] == old(history)
      ensures Chronicle(history[|old(history)|..], sink.log, start, sink.accepts)
      ensures sink.log[start + t].bestValue == algo.bestVal
      ensures old(Truthful()) ==> Truthful()
      ensures old(Confined()) ==> Confined()
    {
      if !ok {
        assert history[|history|..] == [];
        return 0, false;
      }
      var d := DistanceMatrix();
      t, panicked := Follow(sink, d, start, head);
    }

    /** The snapshot before the first iteration (AFSA.go:57-60); the fish and the best
        stay as they are. */
    method Begin(sink: Sink) returns (ok: bool)
      modifies sink
      ensures sink.log == old(sink.log) + [algo.Snap(0)]
      ensures Emitted(sink.log, sink.accepts, |old(sink.log)|, 0)
      ensures ok == sink.accepts(|old(sink.log)|)
      ensures Truthful() == old(Truthful()) && Confined() == old(Confined())
    {
      ok := algo.EmitFirst(sink);
    }

    /** `Run` (AFSA.go:49-144): a snapshot before the first iteration, the distance
        matrix of the initial population, built once, then one snapshot after each
        iteration, stopping at the first refused `send`; the answer is the best row (by
        reference) and the best value. When `Intn(0)` panics the run ends with its
        accepted snapshots and no answer. */
    method Run(sink: Sink) returns (bestPos: array?<real>, bestVal: Value, panicked: bool)
      requires Valid()
      modifies algo.population, algo.rng, algo`bestPos, algo`bestVal, sink, this`visual, this`history
      ensures Valid()
      ensures !panicked ==> Reported(sink.log, old(sink.log), sink.accepts, algo.iterations)
      ensures panicked ==>
        Crashed(sink.log, old(sink.log), sink.accepts, algo.iterations) && algo.populationSize == 0 && maxTries < 0
      ensures |old(history)| <= |history| && history[..|old(history)|] == old(history)
      ensures Chronicle(history[|old(history)|..], sink.log, |old(sink.log)|, sink.accepts)
      ensures sink.log[|sink.log| - 1].bestValue == bestVal
      ensures bestPos == algo.bestPos && bestVal == algo.bestVal
      ensures NotAbove(bestVal, old(algo.bestVal))
      ensures old(Truthful()) ==> Truthful()
      ensures old(Confined()) ==> Confined()
    {
      var ok := Begin(sink);
      ghost var head := sink.log;
      var t;
      t, panicked := Iterations(sink, ok, |old(sink.log)|, head);
      RunLogged(sink.log, old(sink.log), head, sink.accepts, t, algo.iterations, panicked, old(algo.bestVal), algo.bestVal);
      bestPos, bestVal := algo.bestPos, algo.bestVal;
    }
  }

  /** The AFSA request: the engine's request, then `eta`, `maxTryNum`, `visual` and
      `teta`; a missing `visual` is the empty sequence, as a nil slice has length 0. */
  datatype AfsaRequest = AfsaRequest(base: Request, eta: Option<real>, maxTries: Option<int>,
                                     visual: seq<real>, teta: Option<real>)

  /** `NewAFSA` (AFSA.go:30-47): the engine's construction, then `MaxTries` 5, `Eta`
      1e-4 and `Teta` 1 unless the request says otherwise, and the visual range taken
      from the request as it is: `setDefault` is handed the field's address, so the
      default `[1, 8]` never applies and a range with fewer than two entries panics at
      the index. The history starts with the initial best. `math` stands for Go's
      `math` package. */
  method NewAFSA(req: AfsaRequest, compiled: Option<Objective>, rng: Rng, math: Math) returns (afsa: School?, err: Option<Failure>)
    modifies rng
    ensures (afsa != null) <==> err.None?
    ensures Validate(req.base).Some? ==> err == Validate(req.base) && rng.pos == old(rng.pos)
    ensures Validate(req.base).None? && compiled.None? ==> err == Some(CompileFailed)
    ensures Validate(req.base).None? && compiled.Some? && |req.visual| < 2 ==> err == Some(Panicked)
    ensures afsa != null ==>
      && fresh(afsa) && fresh(afsa.algo)
      && afsa.algo.rng == rng && compiled == Some(afsa.algo.f) && afsa.math == math
      && afsa.algo.Populated(req.base, old(rng.pos))
      && afsa.algo.numDimensions == InitialDimensions(req.base)
      && afsa.maxTries == SetDefault(req.maxTries, 5)
      && afsa.eta == SetDefault(req.eta, 0.0001)
      && afsa.teta == SetDefault(req.teta, 1.0)
      && afsa.minVisual == req.visual[0] && afsa.initialVisual == req.visual[1]
      && afsa.history == [afsa.algo.bestVal]
  {
    var algo;
    algo, err := NewAlgo(req.base, compiled, rng);
    if err.Some? {
      return null, err;
    }
    var vis := SetDefault(Some(req.visual), [1.0, 8.0]);
    FieldAddressNeverDefaults(req.visual);
    if |vis| < 2 {
      return null, Some(Panicked);
    }
    afsa := new School(algo, math, SetDefault(req.eta, 0.0001), SetDefault(req.maxTries, 5), vis[0], vis[1],
                       SetDefault(req.teta, 1.0), req.base, old(rng.pos));
  }
}
