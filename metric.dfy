/** Euclidean geometry over `real` vectors, with the library functions it needs
    (`math.Sqrt`, `math.Exp`, `math.Pow(x, 2)` in Go, `Math.sqrt` and `Math.pow` in
    JavaScript) as inputs with the few properties the model relies on. */
module Metric {

  /** `math.Sqrt`, `math.Exp` and `math.Pow(x, 2)`. The model does not compute them:
      they are inputs. */
  datatype Math = Math(sqrt: real -> real, exp: real -> real, pow2: real -> real)
  {
    /** All the model needs of the library: a square root and a square that are
        non-negative and zero exactly at zero. */
    ghost predicate Sound()
    {
      RootLike(sqrt) && SquareLike(pow2)
    }
  }

  ghost predicate RootLike(sqrt: real -> real)
  {
    forall s :: 0.0 <= s ==> 0.0 <= sqrt(s) && (sqrt(s) == 0.0 <==> s == 0.0)
  }

  ghost predicate SquareLike(sq: real -> real)
  {
    forall x :: 0.0 <= sq(x) && (sq(x) == 0.0 <==> x == 0.0)
  }

  /** `x * x`, the square `calculateDistance` writes out. */
  function Times(x: real): real
  {
    x * x
  }

  /** The sum of the squared coordinate differences of two vectors, squaring with `sq`:
      `math.Pow(d, 2)` (FA.go:54-57, afsaWorker.js:147) or `d * d` (FA.go:110-113,
      AFSA.go:236-242). */
  function SquaredDistance(sq: real -> real, a: seq<real>, b: seq<real>): real
    requires |a| == |b|
  {
    if |a| == 0 then 0.0
    else
      var k := |a| - 1;
      SquaredDistance(sq, a[..k], b[..k]) + sq(a[k] - b[k])
  }

  /** With a genuine square, the sum is non-negative and zero exactly when the two
      vectors are equal. */
  lemma {:induction false} SquaredDistanceZero(sq: real -> real, a: seq<real>, b: seq<real>)
    requires |a| == |b| && SquareLike(sq)
    ensures 0.0 <= SquaredDistance(sq, a, b)
    ensures SquaredDistance(sq, a, b) == 0.0 <==> a == b
  {
    if |a| > 0 {
      var k := |a| - 1;
      SquaredDistanceZero(sq, a[..k], b[..k]);
      assert 0.0 <= sq(a[k] - b[k]);
      assert a == a[..k] + [a[k]] && b == b[..k] + [b[k]];
      if a == b {
        assert a[..k] == b[..k];
      }
    }
  }

  /** The Euclidean distance, squaring by multiplication: `calculateDistance` of
      FA.go, and the square root of `calculateDistance` of AFSA.go. */
  function Distance(m: Math, a: seq<real>, b: seq<real>): real
    requires |a| == |b|
  {
    m.sqrt(SquaredDistance(Times, a, b))
  }

  /** Squaring by multiplication makes the distance symmetric. */
  lemma {:induction false} DistanceSymmetric(m: Math, a: seq<real>, b: seq<real>)
    requires |a| == |b|
    ensures SquaredDistance(Times, a, b) == SquaredDistance(Times, b, a)
    ensures Distance(m, a, b) == Distance(m, b, a)
  {
    if |a| > 0 {
      var k := |a| - 1;
      DistanceSymmetric(m, a[..k], b[..k]);
      assert Times(a[k] - b[k]) == Times(b[k] - a[k]);
    }
  }

  /** The Euclidean distance squaring with `math.Pow` / `Math.pow`: the scan of
      FA.go:54-58 and `distance` of afsaWorker.js. */
  function Spread(m: Math, a: seq<real>, b: seq<real>): real
    requires |a| == |b|
  {
    m.sqrt(SquaredDistance(m.pow2, a, b))
  }

  /** Every row has `n` coordinates. */
  predicate Grid(rows: seq<seq<real>>, n: int)
  {
    forall k :: 0 <= k < |rows| ==> |rows[k]| == n
  }
}
