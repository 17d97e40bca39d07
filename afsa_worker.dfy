/** The legacy JavaScript fish swarm, class `AFSA` of backend/workers/afsaWorker.js.
    It has the fish, visual range, behaviours, acceptance rule and stagnation jump of
    the Go version (module Afsa), with these differences in the JavaScript code:
    - the chase-or-search step overrides the first outcome in every neighbourhood,
      crowded or not;
    - the random move scales every coordinate by the width of the first bound row;
    - the widest bound row has no floor at 0;
    - the clamps let the upper bound win when a bound row is inverted;
    - a NaN among the neighbours' values makes `bestNeighbor` answer `undefined`,
      and the next line throws;
    - a run never stops early: every iteration is posted.
    The objective, `Math.sqrt` and `Math.pow`, and the seeded generator are inputs. */
module AfsaWorker {
  import opened Values
  import opened Random
  import opened Engine
  import opened General
  import opened Metric
  import Afsa

  // ---------------------------------------------------------------------
  // Arithmetic of the worker
  // ---------------------------------------------------------------------

  /** `Math.max(...this.bounds.map(b => b[1] - b[0]))`: the width of the widest bound
      row over every row, with no floor at 0. */
  function MaxRange(bounds: seq<seq<real>>): (w: real)
    requires bounds != [] && Afsa.Paired(bounds)
    ensures forall j :: 0 <= j < |bounds| ==> bounds[j][1] - bounds[j][0] <= w
    ensures exists j :: 0 <= j < |bounds| && w == bounds[j][1] - bounds[j][0]
  {
    var last := bounds[|bounds| - 1][1] - bounds[|bounds| - 1][0];
    if |bounds| == 1 then last
    else
      var init := bounds[..|bounds| - 1];
      assert forall j :: 0 <= j < |init| ==> init[j] == bounds[j];
      var prev := MaxRange(init);
      if last > prev then last else prev
  }

  /** The Go scan of `maxDifference` starts from 0, so it answers the same width when
      some row is wider than 0, and 0 otherwise. */
  lemma MaxRangeAgainstGo(bounds: seq<seq<real>>)
    requires bounds != [] && Afsa.Paired(bounds)
    ensures Afsa.Widest(bounds) == if MaxRange(bounds) > 0.0 then MaxRange(bounds) else 0.0
  {
    Afsa.WidestIsLargest(bounds);
  }

  // ---------------------------------------------------------------------
  // Behaviours
  // ---------------------------------------------------------------------

  /** `randomMove` (afsaWorker.js:158-162) from stream position `p`. It takes one draw
      per coordinate. Each offset is scaled by the smaller of the range `v` and the
      width of the FIRST bound row, then each coordinate is clamped to its own row. */
  function Roam(bounds: seq<seq<real>>, x: seq<real>, v: real, src: nat -> Unit, p: nat): (y: seq<real>)
    requires Covers(bounds, |x|)
    ensures |y| == |x|
  {
    seq(|x|, j requires 0 <= j < |x| =>
      JsNudge(bounds[j][0], bounds[j][1], x[j], Afsa.Min(v, bounds[0][1] - bounds[0][0]), src(p + j)))
  }

  /** One coordinate of `randomMove`: `a` moved by the offset `u * 2 - 1` times `m`
      and clamped. */
  function JsNudge(lo: real, hi: real, a: real, m: real, u: Unit): real
  {
    JsClamp(lo, hi, a + (u * 2.0 - 1.0) * m)
  }

  /** One coordinate of a random move, within an ordered bound row, stays within it and
      moves by at most `Min(v, w)`. */
  lemma RoamNear(lo: real, hi: real, a: real, v: real, w: real, u: Unit)
    requires lo <= a <= hi && 0.0 <= v && 0.0 <= w
    ensures var m := Afsa.Min(v, w);
      var b := JsNudge(lo, hi, a, m, u);
      lo <= b <= hi && -m <= b - a <= m
  {
    var m := Afsa.Min(v, w);
    assert 0.0 <= m by { assert m == v || m == w; }
    Afsa.SignedFraction(u, m);
    ClampsAgreeOnOrderedBounds(lo, hi, a + (u * 2.0 - 1.0) * m);
    Afsa.ClampWithin(lo, hi, a, (u * 2.0 - 1.0) * m, m);
  }

  /** Within ordered bounds, a random move stays within the bounds and moves every
      coordinate by at most the smaller of `v` and the width of the first row. */
  lemma RoamStaysNear(bounds: seq<seq<real>>, x: seq<real>, v: real, src: nat -> Unit, p: nat)
    requires Ordered(bounds, |x|) && InBounds(x, bounds) && 0.0 <= v && x != []
    ensures var y, m := Roam(bounds, x, v, src, p), Afsa.Min(v, bounds[0][1] - bounds[0][0]);
      && InBounds(y, bounds)
      && forall j :: 0 <= j < |x| ==> -m <= y[j] - x[j] <= m
  {
    var y, w := Roam(bounds, x, v, src, p), bounds[0][1] - bounds[0][0];
    var m := Afsa.Min(v, w);
    assert 0.0 <= w;
    forall j | 0 <= j < |x|
      ensures bounds[j][0] <= y[j] <= bounds[j][1] && -m <= y[j] - x[j] <= m
    {
      RoamNear(bounds[j][0], bounds[j][1], x[j], v, w, src(p + j));
    }
  }

  /** One coordinate of `jumpBehavior`: `a` moved by the offset `u * 2 - 1` times `q`
      times the width of its bound row, and clamped. */
  function JsJolt(lo: real, hi: real, a: real, u: Unit, q: Unit): real
  {
    JsClamp(lo, hi, a + (u * 2.0 - 1.0) * q * (hi - lo))
  }

  /** Within an ordered bound row, a coordinate of the jump is the Go code's. */
  lemma JoltsAgree(lo: real, hi: real, a: real, u: Unit, q: Unit)
    requires lo <= hi
    ensures JsJolt(lo, hi, a, u, q) == Afsa.Jolt(lo, hi, a, u, q)
  {
    ClampsAgreeOnOrderedBounds(lo, hi, a + (u * 2.0 - 1.0) * q * (hi - lo));
  }

  /** One coordinate of the chase, swarm and search moves: `a` moved the fraction `r`
      of the way to `b`, and clamped. */
  function JsStep(lo: real, hi: real, a: real, b: real, r: real): real
  {
    JsClamp(lo, hi, a + r * (b - a))
  }

  /** Within an ordered bound row, a coordinate of the move is the Go code's. */
  lemma StepsAgree(lo: real, hi: real, a: real, b: real, r: real)
    requires lo <= hi
    ensures JsStep(lo, hi, a, b, r) == Step(lo, hi, a, b, r)
  {
    ClampsAgreeOnOrderedBounds(lo, hi, a + r * (b - a));
  }

  /** `jumpBehavior` (afsaWorker.js:180-184) from stream position `p`: one draw for the
      jump's size, then one per coordinate. */
  function Hop(bounds: seq<seq<real>>, x: seq<real>, src: nat -> Unit, p: nat): (y: seq<real>)
    requires Covers(bounds, |x|)
    ensures |y| == |x|
  {
    seq(|x|, j requires 0 <= j < |x| => JsJolt(bounds[j][0], bounds[j][1], x[j], src(p + 1 + j), src(p)))
  }

  /** Within ordered bounds the jump is the jump of the Go code. */
  lemma HopAgainstGo(bounds: seq<seq<real>>, x: seq<real>, src: nat -> Unit, p: nat)
    requires Ordered(bounds, |x|)
    ensures Hop(bounds, x, src, p) == Afsa.Leap(bounds, x, src, p)
  {
    var y, z := Hop(bounds, x, src, p), Afsa.Leap(bounds, x, src, p);
    forall j | 0 <= j < |x|
      ensures y[j] == z[j]
    {
      JoltsAgree(bounds[j][0], bounds[j][1], x[j], src(p + 1 + j), src(p));
    }
  }

  /** The move of `chaseBehavior`, `swarmBehavior` and `searchBehavior`
      (afsaWorker.js:164-178): every coordinate goes the fraction `r` of the way to the
      target and is clamped, so within ordered bounds it lands within them. */
  function Approach(x: seq<real>, target: seq<real>, r: real, bounds: seq<seq<real>>): (y: seq<real>)
    requires |target| == |x| && Covers(bounds, |x|)
    ensures |y| == |x|
    ensures Ordered(bounds, |x|) ==> InBounds(y, bounds)
  {
    seq(|x|, k requires 0 <= k < |x| => JsStep(bounds[k][0], bounds[k][1], x[k], target[k], r))
  }

  /** Within ordered bounds the move is the move of the Go code. */
  lemma ApproachAgainstGo(x: seq<real>, target: seq<real>, r: real, bounds: seq<seq<real>>)
    requires |target| == |x| && Ordered(bounds, |x|)
    ensures Approach(x, target, r, bounds) == Toward(x, target, r, bounds)
  {
    var y, z := Approach(x, target, r, bounds), Toward(x, target, r, bounds);
    forall k | 0 <= k < |x|
      ensures y[k] == z[k]
    {
      StepsAgree(bounds[k][0], bounds[k][1], x[k], target[k], r);
    }
  }

  /** `searchBehavior` (afsaWorker.js:174-178) from stream position `p`: a neighbour
      picked by one draw, then a move toward it by the next. */
  function Search(bounds: seq<seq<real>>, src: nat -> Unit, rows: seq<seq<real>>, i: int, V: seq<int>, p: nat): (out: (seq<real>, nat))
    requires 0 <= i < |rows| && Covers(bounds, |rows[i]|) && Grid(rows, |rows[i]|)
    requires V != [] && forall k :: 0 <= k < |V| ==> 0 <= V[k] < |rows|
    ensures |out.0| == |rows[i]| && out.1 == p + 2
  {
    var j := V[IntDraw(src(p), |V|)];
    (Approach(rows[i], rows[j], src(p + 1), bounds), p + 2)
  }

  /** Within ordered bounds the search is the Go code's. */
  lemma SearchAgainstGo(bounds: seq<seq<real>>, src: nat -> Unit, rows: seq<seq<real>>, i: int, V: seq<int>, p: nat)
    requires 0 <= i < |rows| && Ordered(bounds, |rows[i]|) && Grid(rows, |rows[i]|)
    requires V != [] && forall k :: 0 <= k < |V| ==> 0 <= V[k] < |rows|
    ensures Search(bounds, src, rows, i, V, p) == Afsa.Search(bounds, src, rows, i, V, p)
  {
    ApproachAgainstGo(rows[i], rows[V[IntDraw(src(p), |V|)]], src(p + 1), bounds);
  }

  // ---------------------------------------------------------------------
  // The best neighbour
  // ---------------------------------------------------------------------

  /** `a === b` on numbers: NaN is equal to nothing. */
  predicate StrictEquals(a: Value, b: Value)
  {
    a != NaN && a == b
  }

  /** `Math.min(...vals)`: +Infinity for no value, NaN as soon as one value is NaN. */
  function MinOf(vals: seq<Value>): Value
  {
    if vals == [] then PosInf
    else
      var m := MinOf(vals[..|vals| - 1]);
      var x := vals[|vals| - 1];
      if m == NaN || x == NaN then NaN else if Less(x, m) then x else m
  }

  /** `Math.min` answers NaN exactly when some value is NaN, and otherwise a least
      value of a non-empty list. */
  lemma {:induction false} MinOfIsLeast(vals: seq<Value>)
    ensures MinOf(vals) == NaN <==> exists k :: 0 <= k < |vals| && vals[k] == NaN
    ensures MinOf(vals) != NaN ==> forall k :: 0 <= k < |vals| ==> !Less(vals[k], MinOf(vals))
    ensures MinOf(vals) != NaN && vals != [] ==> exists k :: 0 <= k < |vals| && vals[k] == MinOf(vals)
  {
    if vals != [] {
      var n := |vals| - 1;
      var init, x := vals[..n], vals[n];
      MinOfIsLeast(init);
      var m := MinOf(init);
      assert forall k :: 0 <= k < n ==> vals[k] == init[k];
      if m != NaN && x != NaN {
        LessIsStrictOrder(x, m, x);
        if Less(x, m) {
          forall k | 0 <= k < n
            ensures !Less(vals[k], x)
          {
            LessIsStrictOrder(vals[k], x, m);
          }
        } else if init == [] {
          assert m == PosInf;
          assert x == PosInf;
        }
      } else if x == NaN {
        assert vals[n] == NaN;
      }
    }
  }

  /** `vals.indexOf(m)`: the first index whose value is `===` to `m`, or -1. */
  function IndexOf(vals: seq<Value>, m: Value): (k: int)
    ensures -1 <= k < |vals|
  {
    if vals == [] then -1
    else
      var k := IndexOf(vals[..|vals| - 1], m);
      if k != -1 then k else if StrictEquals(vals[|vals| - 1], m) then |vals| - 1 else -1
  }

  /** `indexOf` answers -1 exactly when no value is `===` to `m`, and otherwise the
      first index of one that is. */
  lemma {:induction false} IndexOfFindsFirst(vals: seq<Value>, m: Value)
    ensures IndexOf(vals, m) == -1 <==> forall k :: 0 <= k < |vals| ==> !StrictEquals(vals[k], m)
    ensures IndexOf(vals, m) != -1 ==>
      StrictEquals(vals[IndexOf(vals, m)], m) && forall k :: 0 <= k < IndexOf(vals, m) ==> !StrictEquals(vals[k], m)
  {
    if vals != [] {
      var n := |vals| - 1;
      IndexOfFindsFirst(vals[..n], m);
      assert forall k :: 0 <= k < n ==> vals[k] == vals[..n][k];
    }
  }

  /** What `bestNeighbor` answers: `null`, a fish, or `undefined`. */
  datatype Pick = Nobody | Fish(j: int) | Undefined

  /** `bestNeighbor` (afsaWorker.js:186-190): `null` for no neighbour; otherwise the
      neighbour at the first index of `Math.min` of their values, which is `undefined`
      when `indexOf` answers -1. */
  function BestNeighbor(f: Objective, rows: seq<seq<real>>, V: seq<int>): (c: Pick)
    requires forall k :: 0 <= k < |V| ==> 0 <= V[k] < |rows|
    ensures c.Nobody? <==> V == []
    ensures c.Fish? ==> c.j in V
  {
    if V == [] then Nobody
    else
      var vals := Scores(f, Afsa.Select(rows, V));
      var k := IndexOf(vals, MinOf(vals));
      if k == -1 then Undefined else Fish(V[k])
  }

  /** `bestNeighbor` is `undefined` exactly when some neighbour's value is NaN;
      otherwise it is the neighbour the strict-`<` scan of the Go code picks: the first
      one with a least value. */
  lemma BestNeighborAgainstGo(f: Objective, rows: seq<seq<real>>, V: seq<int>)
    requires V != [] && forall k :: 0 <= k < |V| ==> 0 <= V[k] < |rows|
    ensures BestNeighbor(f, rows, V) == Undefined <==> exists k :: 0 <= k < |V| && f(rows[V[k]]) == NaN
    ensures (forall k :: 0 <= k < |V| ==> f(rows[V[k]]) != NaN) ==> BestNeighbor(f, rows, V) == Fish(Afsa.BestOf(f, rows, V))
  {
    var vals := Scores(f, Afsa.Select(rows, V));
    assert forall k :: 0 <= k < |V| ==> vals[k] == f(rows[V[k]]);
    var m := MinOf(vals);
    MinOfIsLeast(vals);
    IndexOfFindsFirst(vals, m);
    var idx := IndexOf(vals, m);
    if m != NaN {
      var r := ScanMin(vals, (0, vals[0]));
      ScanMinFindsFirstLeast(vals, (0, vals[0]));
      assert vals[r.0] == r.1;
      var q :| 0 <= q < |vals| && vals[q] == m;
      LessIsStrictOrder(m, r.1, m);
      assert !Less(m, r.1) && !Less(r.1, m);
      assert r.1 == m;
      assert StrictEquals(vals[r.0], m);
      assert idx == r.0;
    }
  }

  // ---------------------------------------------------------------------
  // One fish
  // ---------------------------------------------------------------------

  /** What the worker's behaviours need of the iteration's constants (the Go model's
      `Rules`): a bound row per dimension, at least one row, two entries in every row,
      and a distance row for each of `size` fish. */
  predicate Fits(r: Afsa.Rules, size: nat)
  {
    r.Sound(size) && r.bounds != []
  }

  /** `this.visual * Math.max(...)`: how far a fish sees and wanders. */
  function Reach(r: Afsa.Rules): real
    requires r.bounds != [] && Afsa.Paired(r.bounds)
  {
    r.visual * MaxRange(r.bounds)
  }

  /** A candidate and the stream position after it, or the `TypeError` thrown when
      `bestNeighbor` answers `undefined`. */
  datatype Move = Moved(y: seq<real>, p: nat) | Threw

  /** The first outcome of a sparse neighbourhood (afsaWorker.js:78-83): a move toward
      the centre of the neighbours when it is strictly better than the fish, one draw,
      and a search otherwise. */
  function Sparse(r: Afsa.Rules, rows: seq<seq<real>>, i: int, V: seq<int>, p: nat): (out: (seq<real>, nat))
    requires Covers(r.bounds, r.n) && Grid(rows, r.n) && 0 <= i < |rows|
    requires V != [] && forall k :: 0 <= k < |V| ==> 0 <= V[k] < |rows|
    ensures |out.0| == r.n && p < out.1
  {
    var c := Afsa.Mean(rows, V, r.n);
    if Less(r.f(c), r.f(rows[i])) then (Approach(rows[i], c, r.src(p), r.bounds), p + 1)
    else Search(r.bounds, r.src, rows, i, V, p)
  }

  /** Within ordered bounds the first outcome of a sparse neighbourhood is the Go
      code's. */
  lemma SparseAgainstGo(r: Afsa.Rules, rows: seq<seq<real>>, i: int, V: seq<int>, p: nat)
    requires Ordered(r.bounds, r.n) && Grid(rows, r.n) && 0 <= i < |rows|
    requires V != [] && forall k :: 0 <= k < |V| ==> 0 <= V[k] < |rows|
    ensures Sparse(r, rows, i, V, p) == Afsa.SwarmOrSearch(r, rows, i, V, p)
  {
    var c := Afsa.Mean(rows, V, r.n);
    if Less(r.f(c), r.f(rows[i])) {
      ApproachAgainstGo(rows[i], c, r.src(p), r.bounds);
    } else {
      SearchAgainstGo(r.bounds, r.src, rows, i, V, p);
    }
  }

  /** The override (afsaWorker.js:86-94): a move toward the best neighbour `j` when it
      is strictly better than the fish, one draw, and a search otherwise. */
  function Chase(r: Afsa.Rules, rows: seq<seq<real>>, i: int, V: seq<int>, j: int, p: nat): (out: (seq<real>, nat))
    requires Covers(r.bounds, r.n) && Grid(rows, r.n) && 0 <= i < |rows| && 0 <= j < |rows|
    requires V != [] && forall k :: 0 <= k < |V| ==> 0 <= V[k] < |rows|
    ensures |out.0| == r.n && p < out.1
  {
    if Less(r.f(rows[j]), r.f(rows[i])) then (Approach(rows[i], rows[j], r.src(p), r.bounds), p + 1)
    else Search(r.bounds, r.src, rows, i, V, p)
  }

  /** The candidate of fish `i` with neighbours `V` (afsaWorker.js:71-95) from stream
      position `p`. Without neighbours the fish moves at random. Otherwise it searches
      (crowded) or swarms or searches (sparse), and then, in either case, the chase or
      search outcome replaces that first outcome, unless `bestNeighbor` is `undefined`
      and the worker throws. */
  function Behaviour(r: Afsa.Rules, rows: seq<seq<real>>, i: int, V: seq<int>, p: nat): (m: Move)
    requires Covers(r.bounds, r.n) && r.bounds != [] && Afsa.Paired(r.bounds) && Grid(rows, r.n) && 0 <= i < |rows|
    requires forall k :: 0 <= k < |V| ==> 0 <= V[k] < |rows|
    ensures m.Moved? ==> |m.y| == r.n && p <= m.p
  {
    if V == [] then Moved(Roam(r.bounds, rows[i], Reach(r), r.src, p), p + r.n)
    else
      var first := if Afsa.Crowded(|V|, |rows|, r.teta) then Search(r.bounds, r.src, rows, i, V, p)
                   else Sparse(r, rows, i, V, p);
      match BestNeighbor(r.f, rows, V)
      case Nobody => Moved(first.0, first.1)
      case Undefined => Threw
      case Fish(j) =>
        var out := Chase(r, rows, i, V, j, first.1);
        Moved(out.0, out.1)
  }

  /** The worker throws exactly when the fish has neighbours and one of them has a NaN
      value; within ordered bounds every candidate is within the bounds. */
  lemma BehaviourThrows(r: Afsa.Rules, rows: seq<seq<real>>, i: int, V: seq<int>, p: nat)
    requires Covers(r.bounds, r.n) && r.bounds != [] && Afsa.Paired(r.bounds) && Grid(rows, r.n) && 0 <= i < |rows|
    requires forall k :: 0 <= k < |V| ==> 0 <= V[k] < |rows|
    ensures Behaviour(r, rows, i, V, p) == Threw <==> V != [] && exists k :: 0 <= k < |V| && r.f(rows[V[k]]) == NaN
    ensures var m := Behaviour(r, rows, i, V, p);
      m.Moved? && Ordered(r.bounds, r.n) && InBounds(rows[i], r.bounds) && 0.0 <= Reach(r) ==> InBounds(m.y, r.bounds)
  {
    var m := Behaviour(r, rows, i, V, p);
    if V == [] {
      if Ordered(r.bounds, r.n) && InBounds(rows[i], r.bounds) && 0.0 <= Reach(r) && rows[i] != [] {
        RoamStaysNear(r.bounds, rows[i], Reach(r), r.src, p);
      }
    } else {
      BestNeighborAgainstGo(r.f, rows, V);
      if m.Moved? && Ordered(r.bounds, r.n) {
        var jStar := BestNeighbor(r.f, rows, V).j;
        var first := if Afsa.Crowded(|V|, |rows|, r.teta) then Search(r.bounds, r.src, rows, i, V, p)
                     else Sparse(r, rows, i, V, p);
        var j := V[IntDraw(r.src(first.1), |V|)];
        assert m.y == Approach(rows[i], rows[jStar], r.src(first.1), r.bounds)
            || m.y == Approach(rows[i], rows[j], r.src(first.1 + 1), r.bounds);
      }
    }
  }

  /** With neighbours and no NaN among their values, a best neighbour strictly better
      than the fish is chased by the last draw of the turn, even in a neighbourhood
      more crowded than `teta`, where the Go code only searches. */
  lemma BehaviourChases(r: Afsa.Rules, rows: seq<seq<real>>, i: int, V: seq<int>, p: nat)
    requires Covers(r.bounds, r.n) && r.bounds != [] && Afsa.Paired(r.bounds) && Grid(rows, r.n) && 0 <= i < |rows|
    requires V != [] && forall k :: 0 <= k < |V| ==> 0 <= V[k] < |rows| && r.f(rows[V[k]]) != NaN
    requires Less(r.f(rows[Afsa.BestOf(r.f, rows, V)]), r.f(rows[i]))
    ensures var m, b := Behaviour(r, rows, i, V, p), Afsa.BestOf(r.f, rows, V);
      && m.Moved? && p + 2 <= m.p && m.y == Approach(rows[i], rows[b], r.src(m.p - 1), r.bounds)
      && (Afsa.Crowded(|V|, |rows|, r.teta) ==> m.p == p + 3)
  {
    BestNeighborAgainstGo(r.f, rows, V);
  }

  /** In a neighbourhood no more crowded than `teta`, with no NaN among the
      neighbours' values and within ordered bounds, the worker's candidate is the Go
      code's. */
  lemma BehaviourAgainstGo(r: Afsa.Rules, rows: seq<seq<real>>, i: int, V: seq<int>, p: nat)
    requires Covers(r.bounds, r.n) && r.bounds != [] && Afsa.Paired(r.bounds) && Grid(rows, r.n) && 0 <= i < |rows|
    requires V != [] && forall k :: 0 <= k < |V| ==> 0 <= V[k] < |rows| && r.f(rows[V[k]]) != NaN
    requires Ordered(r.bounds, r.n) && !Afsa.Crowded(|V|, |rows|, r.teta)
    ensures Behaviour(r, rows, i, V, p) == Moved(Afsa.Behaviour(r, rows, i, V, p).0, Afsa.Behaviour(r, rows, i, V, p).1)
  {
    BestNeighborAgainstGo(r.f, rows, V);
    Afsa.BehaviourCases(r, rows, i, V, p);
    SparseAgainstGo(r, rows, i, V, p);
    var first := Sparse(r, rows, i, V, p);
    var b := Afsa.BestOf(r.f, rows, V);
    if Less(r.f(rows[b]), r.f(rows[i])) {
      ApproachAgainstGo(rows[i], rows[b], r.src(first.1), r.bounds);
    } else {
      SearchAgainstGo(r.bounds, r.src, rows, i, V, first.1);
    }
    assert Chase(r, rows, i, V, b, first.1) == Afsa.ChaseOrSearch(r, rows, i, V, first.1);
  }

  // ---------------------------------------------------------------------
  // An iteration and a run
  // ---------------------------------------------------------------------

  /** The turn of fish `i` (afsaWorker.js:67-112): its neighbours in the distance
      matrix, its candidate, offered to it and to the global best as in the Go code;
      `None` when the worker throws. */
  function Turn(r: Afsa.Rules, s: Afsa.Shoal, i: int): (t: Option<Afsa.Shoal>)
    requires Fits(r, |s.rows|) && Grid(s.rows, r.n) && 0 <= i < |s.rows|
    ensures t.Some? ==> |t.value.rows| == |s.rows| && Grid(t.value.rows, r.n)
  {
    match Behaviour(r, s.rows, i, Afsa.Neighbors(r.matrix[i], i, Reach(r)), s.pos)
    case Threw => None
    case Moved(y, p) => Some(Afsa.Settled(r.f, s.(pos := p), i, y))
  }

  /** The turns of fish `i`, `i + 1`, ... of one iteration; `None` once one throws. */
  function Flight(r: Afsa.Rules, s: Afsa.Shoal, i: int): (t: Option<Afsa.Shoal>)
    requires Fits(r, |s.rows|) && Grid(s.rows, r.n) && 0 <= i <= |s.rows|
    decreases |s.rows| - i
    ensures t.Some? ==> |t.value.rows| == |s.rows| && Grid(t.value.rows, r.n)
  {
    if i == |s.rows| then Some(s)
    else
      match Turn(r, s, i)
      case None => None
      case Some(u) => Flight(r, u, i + 1)
  }

  /** Offering `y` to fish `i` never raises the global best nor the value of any fish,
      and keeps the best the value of its position. */
  lemma SettledKeeps(f: Objective, s: Afsa.Shoal, i: int, y: seq<real>)
    requires 0 <= i < |s.rows|
    ensures var u := Afsa.Settled(f, s, i, y);
      && NotAbove(u.bestVal, s.bestVal)
      && (forall k :: 0 <= k < |s.rows| ==> NotAbove(f(u.rows[k]), f(s.rows[k])))
      && (Honest(f, s.bestPos, s.bestVal) ==> Honest(f, u.bestPos, u.bestVal))
  {
    var u := Afsa.Settled(f, s, i, y);
    forall k | 0 <= k < |s.rows|
      ensures NotAbove(f(u.rows[k]), f(s.rows[k]))
    {
      if k != i || !Less(f(y), f(s.rows[i])) {
        assert u.rows[k] == s.rows[k];
      }
    }
  }

  /** A turn that does not throw never raises the global best nor the value of any
      fish, and keeps the best the value of its position. */
  lemma TurnKeeps(r: Afsa.Rules, s: Afsa.Shoal, i: int)
    requires Fits(r, |s.rows|) && Grid(s.rows, r.n) && 0 <= i < |s.rows|
    ensures var t := Turn(r, s, i);
      t.Some? ==>
        && NotAbove(t.value.bestVal, s.bestVal)
        && (forall k :: 0 <= k < |s.rows| ==> NotAbove(r.f(t.value.rows[k]), r.f(s.rows[k])))
        && (Honest(r.f, s.bestPos, s.bestVal) ==> Honest(r.f, t.value.bestPos, t.value.bestVal))
  {
    match Behaviour(r, s.rows, i, Afsa.Neighbors(r.matrix[i], i, Reach(r)), s.pos)
    case Threw =>
    case Moved(y, p) => SettledKeeps(r.f, s.(pos := p), i, y);
  }

  /** Over an iteration's turns the global best never rises and stays the value of its
      position, and no fish gets worse. */
  lemma {:induction false} FlightKeepsInvariants(r: Afsa.Rules, s: Afsa.Shoal, i: int)
    requires Fits(r, |s.rows|) && Grid(s.rows, r.n) && 0 <= i <= |s.rows|
    decreases |s.rows| - i
    ensures var t := Flight(r, s, i);
      t.Some? ==>
        && NotAbove(t.value.bestVal, s.bestVal)
        && (forall k :: 0 <= k < |s.rows| ==> NotAbove(r.f(t.value.rows[k]), r.f(s.rows[k])))
        && (Honest(r.f, s.bestPos, s.bestVal) ==> Honest(r.f, t.value.bestPos, t.value.bestVal))
  {
    if i < |s.rows| {
      TurnKeeps(r, s, i);
      match Turn(r, s, i)
      case None =>
      case Some(u) =>
        FlightKeepsInvariants(r, u, i + 1);
        var t := Flight(r, u, i + 1);
        if t.Some? {
          var w := t.value;
          NotAboveTransitive(w.bestVal, u.bestVal, s.bestVal);
          forall k | 0 <= k < |s.rows|
            ensures NotAbove(r.f(w.rows[k]), r.f(s.rows[k]))
          {
            NotAboveTransitive(r.f(w.rows[k]), r.f(u.rows[k]), r.f(s.rows[k]));
          }
        }
    } else {
      forall k | 0 <= k < |s.rows|
        ensures NotAbove(r.f(s.rows[k]), r.f(s.rows[k]))
      {
      }
    }
  }

  /** The jump of afsaWorker.js:126-129: fish `Math.floor(rng() * populationSize)` is
      replaced by its jump from the next draws, with no acceptance test and no update
      of the best. */
  function Jumped(bounds: seq<seq<real>>, n: nat, src: nat -> Unit, s: Afsa.Shoal): (t: Afsa.Shoal)
    requires Covers(bounds, n) && Grid(s.rows, n) && s.rows != []
    ensures |t.rows| == |s.rows| && Grid(t.rows, n)
    ensures t.bestPos == s.bestPos && t.bestVal == s.bestVal
  {
    var j := IntDraw(src(s.pos), |s.rows|);
    Afsa.Shoal(s.rows[j := Hop(bounds, s.rows[j], src, s.pos + 1)], s.bestPos, s.bestVal, s.pos + 2 + n)
  }

  /** Within ordered bounds the jump of the worker is the Go code's. */
  lemma JumpedAgainstGo(bounds: seq<seq<real>>, n: nat, src: nat -> Unit, s: Afsa.Shoal)
    requires Ordered(bounds, n) && Grid(s.rows, n) && s.rows != []
    ensures Jumped(bounds, n, src, s) == Afsa.Jumped(bounds, n, src, s)
  {
    var j := IntDraw(src(s.pos), |s.rows|);
    HopAgainstGo(bounds, s.rows[j], src, s.pos + 1);
  }

  /** The constants of a run: the objective, the bounds, the dimension count, the random
      stream, `maxIter`, `maxTryNum`, `eta`, the visual range and `teta`. */
  datatype Knobs = Knobs(f: Objective, bounds: seq<seq<real>>, n: nat, src: nat -> Unit, maxIter: int,
                         maxTryNum: int, eta: real, minVisual: real, initialVisual: real, teta: real)
  {
    /** The constants of iteration `t`, with the distance matrix `d`. */
    function Rules(d: seq<seq<real>>, t: nat): Afsa.Rules
      requires t < maxIter
    {
      Afsa.Rules(f, bounds, n, src, d, Afsa.VisualAt(minVisual, initialVisual, t, maxIter as nat), teta)
    }

    /** The bounds and the matrix suit `size` fish of `n` coordinates. */
    predicate Suits(d: seq<seq<real>>, size: nat)
    {
      Covers(bounds, n) && bounds != [] && Afsa.Paired(bounds) && |d| == size && Grid(d, size)
    }
  }

  /** The fish, the best, the history of bests and the stagnation count. */
  datatype Progress = Progress(shoal: Afsa.Shoal, history: seq<Value>, count: nat)

  /** Iteration `t` of `run` (afsaWorker.js:61-130): the decayed range, the turns, the
      new history entry, the stagnation count, grown when the entry is within `eta` of
      the previous one except in the first iteration, and the jump once the count
      exceeds `maxTryNum`. `None` when a turn throws. */
  function Iteration(k: Knobs, d: seq<seq<real>>, w: Progress, t: nat): (o: Option<Progress>)
    requires k.Suits(d, |w.shoal.rows|) && Grid(w.shoal.rows, k.n) && w.shoal.rows != [] && w.history != []
    requires t < k.maxIter
    ensures o.Some? ==> o.value.history != [] && |o.value.shoal.rows| == |w.shoal.rows| && Grid(o.value.shoal.rows, k.n)
  {
    match Flight(k.Rules(d, t), w.shoal, 0)
    case None => None
    case Some(s) =>
      var h := w.history + [s.bestVal];
      var count := if t > 0 && Afsa.CloseAt(h, |h| - 1, k.eta) then w.count + 1 else 0;
      Some(Progress(if count > k.maxTryNum then Jumped(k.bounds, k.n, k.src, s) else s, h, count))
  }

  /** Iterations `t`, `t + 1`, ... up to `maxIter`; `None` once one throws. */
  function Runs(k: Knobs, d: seq<seq<real>>, w: Progress, t: nat): (o: Option<Progress>)
    requires k.Suits(d, |w.shoal.rows|) && Grid(w.shoal.rows, k.n) && w.shoal.rows != [] && w.history != []
    decreases k.maxIter - t
  {
    if t >= k.maxIter then Some(w)
    else
      match Iteration(k, d, w, t)
      case None => None
      case Some(u) => Runs(k, d, u, t + 1)
  }

  /** No entry of the history is above the one before it. */
  ghost predicate Descending(h: seq<Value>)
  {
    |h| < 2 || (NotAbove(h[|h| - 1], h[|h| - 2]) && Descending(h[..|h| - 1]))
  }

  /** A history whose entries never rise from one to the next has no entry above an
      earlier one. */
  lemma {:induction false} DescendingPairwise(h: seq<Value>)
    requires Descending(h)
    ensures forall a, b :: 0 <= a < b < |h| ==> NotAbove(h[b], h[a])
  {
    if |h| >= 2 {
      var p := h[..|h| - 1];
      DescendingPairwise(p);
      forall a, b | 0 <= a < b < |h|
        ensures NotAbove(h[b], h[a])
      {
        if b == |h| - 1 {
          if a < b - 1 {
            NotAboveTransitive(h[b], p[b - 1], p[a]);
          }
        } else {
          assert h[b] == p[b] && h[a] == p[a];
        }
      }
    }
  }

  /** What an iteration keeps: the history gains the new best, which is never above the
      old one; the best stays the value of its position; the count is the streak of
      close entries since the run began at history length `h0`. */
  lemma IterationKeeps(k: Knobs, d: seq<seq<real>>, w: Progress, t: nat, h0: nat)
    requires k.Suits(d, |w.shoal.rows|) && Grid(w.shoal.rows, k.n) && w.shoal.rows != [] && t < k.maxIter
    requires |w.history| == h0 + t && 1 <= h0 && w.history[|w.history| - 1] == w.shoal.bestVal
    requires w.count == Afsa.Streak(w.history[h0..], k.eta)
    ensures var o := Iteration(k, d, w, t);
      o.Some? ==>
        && o.value.history == w.history + [o.value.shoal.bestVal]
        && NotAbove(o.value.shoal.bestVal, w.shoal.bestVal)
        && o.value.count == Afsa.Streak(o.value.history[h0..], k.eta)
        && (Honest(k.f, w.shoal.bestPos, w.shoal.bestVal) ==> Honest(k.f, o.value.shoal.bestPos, o.value.shoal.bestVal))
  {
    var r := k.Rules(d, t);
    FlightKeepsInvariants(r, w.shoal, 0);
    var f := Flight(r, w.shoal, 0);
    if f.Some? {
      StreakGrows(w.history, f.value.bestVal, h0, t, w.count, k.eta);
    }
  }

  /** The stagnation count of an iteration: with the history since `h0` holding `t`
      entries and `count` its streak, the count after appending `v` (grown when `v` is
      close to the last entry, except in the first iteration) is the streak of the
      longer history. */
  lemma StreakGrows(h: seq<Value>, v: Value, h0: nat, t: nat, count: nat, eta: real)
    requires |h| == h0 + t && 1 <= h0 && count == Afsa.Streak(h[h0..], eta)
    ensures var g := h + [v];
      (if t > 0 && Afsa.CloseAt(g, |g| - 1, eta) then count + 1 else 0) == Afsa.Streak(g[h0..], eta)
  {
    var g := h + [v];
    assert g[h0..] == h[h0..] + [v];
    assert g[h0..][..|g[h0..]| - 1] == h[h0..];
  }

  /** Appending an entry never above the last keeps a history descending. */
  lemma DescendingGrows(h: seq<Value>, v: Value)
    requires h != [] && Descending(h) && NotAbove(v, h[|h| - 1])
    ensures Descending(h + [v])
  {
    assert (h + [v])[..|h|] == h;
  }

  /** An iteration that does not throw appends its best to the history. */
  lemma IterationAppends(k: Knobs, d: seq<seq<real>>, w: Progress, t: nat)
    requires k.Suits(d, |w.shoal.rows|) && Grid(w.shoal.rows, k.n) && w.shoal.rows != [] && w.history != []
    requires t < k.maxIter
    ensures var o := Iteration(k, d, w, t);
      o.Some? ==> o.value.history == w.history + [o.value.shoal.bestVal]
  {
  }

  /** The last history entry is the best. */
  ghost predicate Current(w: Progress)
  {
    w.history != [] && w.history[|w.history| - 1] == w.shoal.bestVal
  }

  /** The entries of `h` from position `h0` on. */
  function Since(h: seq<Value>, h0: nat): seq<Value>
  {
    if h0 <= |h| then h[h0..] else []
  }

  /** The count is the streak of close entries since history length `h0`. */
  ghost predicate Counted(k: Knobs, w: Progress, h0: nat)
  {
    w.count == Afsa.Streak(Since(w.history, h0), k.eta)
  }

  /** After `t` iterations of a run that began at history length `h0`: the last entry is
      the best and the count is the streak of close entries since `h0`. */
  ghost predicate Streaking(k: Knobs, w: Progress, t: nat, h0: nat)
  {
    Current(w) && |w.history| == h0 + t && 1 <= h0 && Counted(k, w, h0)
  }

  /** An iteration keeps the count the streak since `h0`. */
  lemma IterationStreaks(k: Knobs, d: seq<seq<real>>, w: Progress, t: nat, h0: nat)
    requires k.Suits(d, |w.shoal.rows|) && Grid(w.shoal.rows, k.n) && w.shoal.rows != [] && t < k.maxIter
    requires Streaking(k, w, t, h0)
    ensures var o := Iteration(k, d, w, t); o.Some? ==> Streaking(k, o.value, t + 1, h0)
  {
    IterationKeeps(k, d, w, t, h0);
  }

  /** An iteration appends a best never above the last entry, so a descending history
      stays descending. */
  lemma IterationDescends(k: Knobs, d: seq<seq<real>>, w: Progress, t: nat)
    requires k.Suits(d, |w.shoal.rows|) && Grid(w.shoal.rows, k.n) && w.shoal.rows != [] && t < k.maxIter
    requires Current(w) && Descending(w.history)
    ensures var o := Iteration(k, d, w, t); o.Some? ==> Current(o.value) && Descending(o.value.history)
  {
    FlightKeepsInvariants(k.Rules(d, t), w.shoal, 0);
    IterationAppends(k, d, w, t);
    var u := Iteration(k, d, w, t);
    if u.Some? {
      DescendingGrows(w.history, u.value.shoal.bestVal);
    }
  }

  /** A property of the progress and the iteration number that every iteration keeps
      holds at the end of the run. */
  lemma {:induction false} RunsPreserve(k: Knobs, d: seq<seq<real>>, w: Progress, t: nat, P: (Progress, nat) -> bool)
    requires k.Suits(d, |w.shoal.rows|) && Grid(w.shoal.rows, k.n) && w.shoal.rows != [] && w.history != []
    requires P(w, t)
    requires forall v: Progress, s: nat |
      k.Suits(d, |v.shoal.rows|) && Grid(v.shoal.rows, k.n) && v.shoal.rows != [] && v.history != [] && s < k.maxIter && P(v, s) ::
        Iteration(k, d, v, s).Some? ==> P(Iteration(k, d, v, s).value, s + 1)
    decreases k.maxIter - t
    ensures var o := Runs(k, d, w, t);
      o.Some? ==> P(o.value, if t < k.maxIter then k.maxIter as nat else t)
  {
    if t < k.maxIter {
      var u := Iteration(k, d, w, t);
      if u.Some? {
        RunsPreserve(k, d, u.value, t + 1, P);
      }
    }
  }

  /** Over the rest of a run the count stays the streak of close entries since the run
      began at history length `h0`. */
  lemma RunsStreak(k: Knobs, d: seq<seq<real>>, w: Progress, t: nat, h0: nat)
    requires k.Suits(d, |w.shoal.rows|) && Grid(w.shoal.rows, k.n) && w.shoal.rows != []
    requires Streaking(k, w, t, h0)
    ensures var o := Runs(k, d, w, t);
      o.Some? ==> Counted(k, o.value, h0)
  {
    var P := (v: Progress, s: nat) => Streaking(k, v, s, h0);
    forall v: Progress, s: nat |
      k.Suits(d, |v.shoal.rows|) && Grid(v.shoal.rows, k.n) && v.shoal.rows != [] && v.history != [] && s < k.maxIter && P(v, s)
      ensures Iteration(k, d, v, s).Some? ==> P(Iteration(k, d, v, s).value, s + 1)
    {
      IterationStreaks(k, d, v, s, h0);
    }
    RunsPreserve(k, d, w, t, P);
  }

  /** Over the rest of a run the history gains one entry per iteration. */
  lemma RunsLength(k: Knobs, d: seq<seq<real>>, w: Progress, t: nat)
    requires k.Suits(d, |w.shoal.rows|) && Grid(w.shoal.rows, k.n) && w.shoal.rows != [] && w.history != []
    requires t <= Max0(k.maxIter)
    ensures var o := Runs(k, d, w, t);
      o.Some? ==> |o.value.history| == |w.history| + Max0(k.maxIter) - t
  {
    var P := (v: Progress, s: nat) => |v.history| + t == |w.history| + s;
    forall v: Progress, s: nat |
      k.Suits(d, |v.shoal.rows|) && Grid(v.shoal.rows, k.n) && v.shoal.rows != [] && v.history != [] && s < k.maxIter && P(v, s)
      ensures Iteration(k, d, v, s).Some? ==> P(Iteration(k, d, v, s).value, s + 1)
    {
      IterationAppends(k, d, v, s);
    }
    RunsPreserve(k, d, w, t, P);
  }

  /** Over the rest of a run the history keeps its entries. */
  lemma RunsPrefix(k: Knobs, d: seq<seq<real>>, w: Progress, t: nat)
    requires k.Suits(d, |w.shoal.rows|) && Grid(w.shoal.rows, k.n) && w.shoal.rows != [] && w.history != []
    ensures var o := Runs(k, d, w, t);
      o.Some? ==> w.history <= o.value.history
  {
    var P := (v: Progress, s: nat) => w.history <= v.history;
    forall v: Progress, s: nat |
      k.Suits(d, |v.shoal.rows|) && Grid(v.shoal.rows, k.n) && v.shoal.rows != [] && v.history != [] && s < k.maxIter && P(v, s)
      ensures Iteration(k, d, v, s).Some? ==> P(Iteration(k, d, v, s).value, s + 1)
    {
      IterationAppends(k, d, v, s);
    }
    RunsPreserve(k, d, w, t, P);
  }

  /** Over the rest of a run the last history entry stays the best. */
  lemma RunsStayCurrent(k: Knobs, d: seq<seq<real>>, w: Progress, t: nat)
    requires k.Suits(d, |w.shoal.rows|) && Grid(w.shoal.rows, k.n) && w.shoal.rows != [] && Current(w)
    ensures var o := Runs(k, d, w, t);
      o.Some? ==> Current(o.value)
  {
    var P := (v: Progress, s: nat) => Current(v);
    forall v: Progress, s: nat |
      k.Suits(d, |v.shoal.rows|) && Grid(v.shoal.rows, k.n) && v.shoal.rows != [] && v.history != [] && s < k.maxIter && P(v, s)
      ensures Iteration(k, d, v, s).Some? ==> P(Iteration(k, d, v, s).value, s + 1)
    {
      IterationAppends(k, d, v, s);
    }
    RunsPreserve(k, d, w, t, P);
  }

  /** Over the rest of a run no history entry is above the one before it. */
  lemma RunsDescend(k: Knobs, d: seq<seq<real>>, w: Progress, t: nat)
    requires k.Suits(d, |w.shoal.rows|) && Grid(w.shoal.rows, k.n) && w.shoal.rows != [] && Current(w) && Descending(w.history)
    ensures var o := Runs(k, d, w, t);
      o.Some? ==> Descending(o.value.history)
  {
    var P := (v: Progress, s: nat) => Current(v) && Descending(v.history);
    forall v: Progress, s: nat |
      k.Suits(d, |v.shoal.rows|) && Grid(v.shoal.rows, k.n) && v.shoal.rows != [] && v.history != [] && s < k.maxIter && P(v, s)
      ensures Iteration(k, d, v, s).Some? ==> P(Iteration(k, d, v, s).value, s + 1)
    {
      IterationDescends(k, d, v, s);
    }
    RunsPreserve(k, d, w, t, P);
  }

  /** Over the rest of a run the best stays the value of its position. */
  lemma RunsStayHonest(k: Knobs, d: seq<seq<real>>, w: Progress, t: nat)
    requires k.Suits(d, |w.shoal.rows|) && Grid(w.shoal.rows, k.n) && w.shoal.rows != [] && w.history != []
    requires Honest(k.f, w.shoal.bestPos, w.shoal.bestVal)
    ensures var o := Runs(k, d, w, t);
      o.Some? ==> Honest(k.f, o.value.shoal.bestPos, o.value.shoal.bestVal)
  {
    var P := (v: Progress, s: nat) => Honest(k.f, v.shoal.bestPos, v.shoal.bestVal);
    forall v: Progress, s: nat |
      k.Suits(d, |v.shoal.rows|) && Grid(v.shoal.rows, k.n) && v.shoal.rows != [] && v.history != [] && s < k.maxIter && P(v, s)
      ensures Iteration(k, d, v, s).Some? ==> P(Iteration(k, d, v, s).value, s + 1)
    {
      FlightKeepsInvariants(k.Rules(d, s), v.shoal, 0);
    }
    RunsPreserve(k, d, w, t, P);
  }

  // ---------------------------------------------------------------------
  // The worker
  // ---------------------------------------------------------------------

  /** The initial best (afsaWorker.js:34-40): the strict-`<` reduce seeded with member
      0, so the first member with a least value. Member 0 stays the pick exactly when no
      member is strictly below it, and so whenever its value is NaN, which no `<` beats. */
  function InitialBest(f: Objective, rows: seq<seq<real>>): (b: nat)
    requires rows != []
    ensures b < |rows|
    ensures forall k :: 0 <= k < |rows| ==> !Less(f(rows[k]), f(rows[b]))
    ensures forall k :: 0 <= k < b ==> f(rows[k]) != f(rows[b])
    ensures b == 0 <==> forall k :: 0 <= k < |rows| ==> !Less(f(rows[k]), f(rows[0]))
    ensures f(rows[0]) == NaN ==> b == 0
  {
    var vals := Scores(f, rows);
    ScanMinFindsFirstLeast(vals, (0, vals[0]));
    var r := ScanMin(vals, (0, vals[0]));
    assert vals[r.0] == r.1;
    LessIsStrictOrder(vals[0], vals[0], vals[0]);
    r.0
  }

  class Worker {
    const f: Objective
    const nDim: nat
    const maxIter: int
    const maxTryNum: int
    const eta: real
    const minVisual: real
    const initialVisual: real
    const teta: real
    const bounds: seq<seq<real>>
    const populationSize: nat
    /** `this.rng`, seeded or not: the stream of draws. */
    const rng: Rng
    /** `Math.sqrt` and `Math.pow` of `distance`. */
    const math: Math
    var population: seq<seq<real>>
    var bestPos: seq<real>
    var bestVal: Value
    var history: seq<Value>
    var visual: real

    /** The rest of the constructor (afsaWorker.js:34-41), once the population is known:
        the initial best and a history holding its value. */
    constructor (f: Objective, nDim: nat, maxIter: int, maxTryNum: int, eta: real, minVisual: real,
                 initialVisual: real, teta: real, bounds: seq<seq<real>>, population: seq<seq<real>>,
                 rng: Rng, math: Math)
      requires Covers(bounds, nDim) && bounds != [] && Afsa.Paired(bounds)
      requires population != [] && Grid(population, nDim)
      ensures this.f == f && this.nDim == nDim && this.maxIter == maxIter && this.maxTryNum == maxTryNum
      ensures this.eta == eta && this.minVisual == minVisual && this.initialVisual == initialVisual
      ensures this.teta == teta && this.bounds == bounds && this.rng == rng && this.math == math
      ensures this.population == population && populationSize == |population|
      ensures bestPos == population[InitialBest(f, population)] && bestVal == f(bestPos)
      ensures history == [bestVal] && visual == 0.0
      ensures Valid()
    {
      this.f := f;
      this.nDim := nDim;
      this.maxIter := maxIter;
      this.maxTryNum := maxTryNum;
      this.eta := eta;
      this.minVisual := minVisual;
      this.initialVisual := initialVisual;
      this.teta := teta;
      this.bounds := bounds;
      this.rng := rng;
      this.math := math;
      this.population := population;
      populationSize := |population|;
      var scan := ScanMin(Scores(f, population), (0, f(population[0])));
      ScanMinFindsFirstLeast(Scores(f, population), (0, f(population[0])));
      bestPos := population[scan.0];
      bestVal := scan.1;
      history := [scan.1];
      visual := 0.0;
    }

    /** The shape every method relies on. */
    ghost predicate Valid()
      reads this
    {
      && Covers(bounds, nDim) && bounds != [] && Afsa.Paired(bounds)
      && |population| == populationSize && populationSize > 0 && Grid(population, nDim)
      && history != []
    }

    /** The fish, the best and the stream position. */
    function State(): Afsa.Shoal
      reads this, rng
    {
      Afsa.Shoal(population, Some(bestPos), bestVal, rng.pos)
    }

    /** The constants of a run. */
    function Settings(): Knobs
    {
      Knobs(f, bounds, nDim, rng.src, maxIter, maxTryNum, eta, minVisual, initialVisual, teta)
    }

    /** The constants of the current iteration, with the distance matrix `d`. */
    function Law(d: seq<seq<real>>): Afsa.Rules
      reads this`visual
    {
      Afsa.Rules(f, bounds, nDim, rng.src, d, visual, teta)
    }

    /** `calculateDistanceMatrix` (afsaWorker.js:135-148): entry `[i][j]` is the
        distance from fish `i` to fish `j`, squaring with `Math.pow`. */
    method DistanceMatrix() returns (d: seq<seq<real>>)
      requires Valid()
      ensures d == Distances(math, population)
    {
      ghost var want := Distances(math, population);
      d := [];
      var i := 0;
      while i < populationSize
        invariant 0 <= i <= populationSize
        invariant d == want[..i]
      {
        var row := DistanceRow(i);
        d := d + [row];
        i := i + 1;
      }
    }

    /** Row `i` of the distance matrix. */
    method DistanceRow(i: nat) returns (row: seq<real>)
      requires Valid() && i < populationSize
      ensures row == Distances(math, population)[i]
    {
      row := [];
      var j := 0;
      while j < populationSize
        invariant 0 <= j <= populationSize
        invariant row == Distances(math, population)[i][..j]
      {
        row := row + [Spread(math, population[i], population[j])];
        j := j + 1;
      }
    }

    /** The turn of fish `i` (afsaWorker.js:67-112): its neighbours, its candidate, the
        acceptance of a strictly better candidate and the update of the global best. The
        behaviours draw one value at a time in afsaWorker.js; here `Behaviour` reads those
        draws from the stream as a specification function and reports where it stopped,
        and the stream is then advanced past them at once. */
    method TakeTurn(i: nat, d: seq<seq<real>>) returns (threw: bool)
      requires Valid() && i < populationSize && |d| == populationSize && Grid(d, populationSize)
      modifies this`population, this`bestPos, this`bestVal, rng
      ensures Valid()
      ensures threw <==> Turn(Law(d), old(State()), i).None?
      ensures !threw ==> State() == Turn(Law(d), old(State()), i).value
    {
      var r := Law(d);
      var move := Behaviour(r, population, i, Afsa.Neighbors(r.matrix[i], i, Reach(r)), rng.pos);
      if move.Threw? {
        return true;
      }
      threw := false;
      rng.Consume(move.p - rng.pos);
      Offer(i, move.y);
    }

    /** afsaWorker.js:98-111: fish `i` takes the candidate `y` only when it is strictly
        better, and `y` becomes the global best when strictly better than the best. */
    method Offer(i: nat, y: seq<real>)
      requires Valid() && i < populationSize && |y| == nDim
      modifies this`population, this`bestPos, this`bestVal
      ensures Valid()
      ensures State() == Afsa.Settled(f, old(State()), i, y)
    {
      var fy := f(y);
      if Less(fy, f(population[i])) {
        population := population[i := y];
      }
      if Less(fy, bestVal) {
        bestVal := fy;
        bestPos := y;
      }
    }

    /** The turns of one iteration, fish by fish, ending at the first throw. */
    method Sweep(d: seq<seq<real>>) returns (threw: bool)
      requires Valid() && |d| == populationSize && Grid(d, populationSize)
      modifies this`population, this`bestPos, this`bestVal, rng
      ensures Valid()
      ensures threw <==> Flight(Law(d), old(State()), 0).None?
      ensures !threw ==> State() == Flight(Law(d), old(State()), 0).value
    {
      ghost var goal := Flight(Law(d), State(), 0);
      var i := 0;
      while i < populationSize
        invariant 0 <= i <= populationSize && Valid()
        invariant Flight(Law(d), State(), i) == goal
      {
        threw := TakeTurn(i, d);
        if threw {
          return;
        }
        i := i + 1;
      }
      threw := false;
    }

    /** The jump (afsaWorker.js:127-128): a fish drawn from the stream is replaced by its
        jump. */
    method Jump()
      requires Valid()
      modifies this`population, rng
      ensures Valid()
      ensures State() == Jumped(bounds, nDim, rng.src, old(State()))
    {
      var j := rng.Intn(populationSize);
      population := population[j := Hop(bounds, population[j], rng.src, rng.pos)];
      rng.Consume(1 + nDim);
    }

    /** Iteration `t` of `run` (afsaWorker.js:61-130): the decayed range, the turns,
        the new history entry, the stagnation count after `count`, and the jump once it
        exceeds `maxTryNum`. */
    method Iterate(d: seq<seq<real>>, t: nat, count: nat) returns (threw: bool, next: nat)
      requires Valid() && |d| == populationSize && Grid(d, populationSize) && t < maxIter
      modifies this`population, this`bestPos, this`bestVal, this`history, this`visual, rng
      ensures Valid()
      ensures var o := Iteration(Settings(), d, Progress(old(State()), old(history), count), t);
        && (threw <==> o.None?)
        && (!threw ==> Progress(State(), history, next) == o.value)
    {
      visual := Afsa.VisualAt(minVisual, initialVisual, t, maxIter as nat);
      assert Law(d) == Settings().Rules(d, t);
      threw := Sweep(d);
      if threw {
        return true, 0;
      }
      next := Conclude(t, count);
    }

    /** The end of an iteration (afsaWorker.js:114-129): the history records the best,
        the stagnation count grows when the new entry is within `eta` of the previous
        one, except in the first iteration, and is reset otherwise; once it exceeds
        `maxTryNum` a fish jumps. */
    method Conclude(t: nat, count: nat) returns (next: nat)
      requires Valid()
      modifies this`population, this`history, rng
      ensures Valid()
      ensures var h := old(history) + [old(bestVal)];
        && history == h
        && next == (if t > 0 && Afsa.CloseAt(h, |h| - 1, eta) then count + 1 else 0)
        && State() == if next > maxTryNum then Jumped(bounds, nDim, rng.src, old(State())) else old(State())
    {
      history := history + [bestVal];
      if t > 0 && Afsa.CloseAt(history, |history| - 1, eta) {
        next := count + 1;
      } else {
        next := 0;
      }
      if next > maxTryNum {
        Jump();
      }
    }

    /** `run` (afsaWorker.js:53-133): the distance matrix of the initial population,
        built once, then `maxIter` iterations; the answer is the best position and
        value. Posting each iteration is not modelled. */
    method Run() returns (bestPosition: seq<real>, bestValue: Value, threw: bool)
      requires Valid()
      modifies this`population, this`bestPos, this`bestVal, this`history, this`visual, rng
      ensures Valid()
      ensures var o := Runs(Settings(), Distances(math, old(population)), Progress(old(State()), old(history), 0), 0);
        && (threw <==> o.None?)
        && (!threw ==> State() == o.value.shoal && history == o.value.history)
      ensures bestPosition == bestPos && bestValue == bestVal
    {
      var d := DistanceMatrix();
      threw := Iterations(d);
      bestPosition, bestValue := bestPos, bestVal;
    }

    /** The `maxIter` iterations of `run` over the distance matrix `d`, stopping at the
        first that throws. */
    method Iterations(d: seq<seq<real>>) returns (threw: bool)
      requires Valid() && |d| == populationSize && Grid(d, populationSize)
      modifies this`population, this`bestPos, this`bestVal, this`history, this`visual, rng
      ensures Valid()
      ensures var o := Runs(Settings(), d, Progress(old(State()), old(history), 0), 0);
        && (threw <==> o.None?)
        && (!threw ==> State() == o.value.shoal && history == o.value.history)
    {
      ghost var goal := Runs(Settings(), d, Progress(State(), history, 0), 0);
      var count := 0;
      var t := 0;
      threw := false;
      while t < maxIter && !threw
        invariant 0 <= t && Valid()
        invariant !threw ==> Runs(Settings(), d, Progress(State(), history, count), t) == goal
        invariant threw ==> goal.None?
      {
        threw, count := Iterate(d, t, count);
        t := t + 1;
      }
    }
  }

  /** The distance matrix of `rows`: `distance` (afsaWorker.js:146-148) between every
      pair. */
  function Distances(m: Math, rows: seq<seq<real>>): (d: seq<seq<real>>)
    requires Grid(rows, if rows == [] then 0 else |rows[0]|)
    ensures |d| == |rows| && Grid(d, |rows|)
  {
    seq(|rows|, i requires 0 <= i < |rows| => seq(|rows|, j requires 0 <= j < |rows| => Spread(m, rows[i], rows[j])))
  }

  /** The worker's constructor (afsaWorker.js:6-42) with the worker's arguments:
      `undefined` (here `None`) takes the default population size 50, `maxTryNum` 5,
      `eta` 1e-4, visual range [1, 8] and `teta` 1; missing bounds are [-100, 100] in
      every dimension. Without an initial population, `populationSize` rows are sampled
      from the stream; an empty population makes the constructor throw (here `null`). */
  method NewWorker(f: Objective, nDim: nat, maxIter: int, populationSize: Option<int>, maxTryNum: Option<int>,
                   eta: Option<real>, visual: Option<seq<real>>, bounds: Option<seq<seq<real>>>,
                   initialPopulation: Option<seq<seq<real>>>, teta: Option<real>, rng: Rng, math: Math)
    returns (w: Worker?)
    requires 1 <= nDim
    requires visual.Some? ==> |visual.value| >= 2
    requires bounds.Some? ==> Covers(bounds.value, nDim) && bounds.value != [] && Afsa.Paired(bounds.value)
    requires initialPopulation.Some? ==> Grid(initialPopulation.value, nDim)
    modifies rng
    ensures var size := SetDefault(populationSize, 50);
      w == null <==> if initialPopulation.Some? then initialPopulation.value == [] else size <= 0
    ensures var size := SetDefault(populationSize, 50);
      rng.pos == old(rng.pos) + if initialPopulation.None? && size > 0 then size * nDim else 0
    ensures w != null ==>
      && fresh(w) && w.Valid() && w.rng == rng && w.math == math && w.f == f && w.nDim == nDim
      && w.maxIter == maxIter && w.maxTryNum == SetDefault(maxTryNum, 5) && w.eta == SetDefault(eta, 0.0001)
      && w.minVisual == SetDefault(visual, [1.0, 8.0])[0] && w.initialVisual == SetDefault(visual, [1.0, 8.0])[1]
      && w.teta == SetDefault(teta, 1.0)
      && w.bounds == SetDefault(bounds, seq(nDim, _ => [-100.0, 100.0]))
      && w.population == (if initialPopulation.Some? then initialPopulation.value
                          else SampledRows(w.bounds, nDim, rng.src, old(rng.pos), SetDefault(populationSize, 50)))
      && w.bestPos == w.population[InitialBest(f, w.population)] && w.bestVal == f(w.bestPos)
      && w.history == [w.bestVal]
  {
    var vis := SetDefault(visual, [1.0, 8.0]);
    var box := SetDefault(bounds, seq(nDim, _ => [-100.0, 100.0]));
    var rows;
    if initialPopulation.Some? {
      rows := initialPopulation.value;
    } else {
      var size := SetDefault(populationSize, 50);
      if size <= 0 {
        return null;
      }
      rows := SampledRows(box, nDim, rng.src, rng.pos, size);
      rng.Consume(size * nDim);
    }
    if rows == [] {
      return null;
    }
    w := new Worker(f, nDim, maxIter, SetDefault(maxTryNum, 5), SetDefault(eta, 0.0001), vis[0], vis[1],
                    SetDefault(teta, 1.0), box, rows, rng, math);
  }
}
