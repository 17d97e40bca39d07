/** The run's random stream.

    Every stochastic decision of a run reads the next draw of one stream that
    the run owns. The generator itself (Mersenne Twister, seeding from a seed
    or from the clock) is not modelled: the stream is an input, a function from
    positions to uniform draws in [0, 1), so a run is a function of its stream. */
module Random {

  /** A uniform draw, as `Rng.Float64()` returns it. */
  type Unit = u: real | 0.0 <= u < 1.0

  /** An integer draw in [0, n) obtained from one uniform draw: exactly
      JavaScript's `Math.floor(rng() * n)`, and the model of Go's `Rng.Intn(n)`. */
  function IntDraw(u: Unit, n: int): (k: int)
    requires n > 0
    ensures 0 <= k < n
  {
    var scaled := u * n as real;
    ScaledBelow(u, n as real, scaled);
    scaled.Floor
  }

  lemma ScaledBelow(u: Unit, b: real, scaled: real)
    requires 0.0 < b && scaled == u * b
    ensures 0.0 <= scaled < b
  {
    assert b - scaled == (1.0 - u) * b;
  }

  /** From position `p` on, the stream eventually yields an index other than `i` out of `n`. */
  ghost predicate Avoids(src: nat -> Unit, n: int, i: int, p: nat)
    requires n > 0
  {
    exists q: nat :: p <= q && IntDraw(src(q), n) != i
  }

  /** A stream on which every rejection loop `for k == i { k = Intn(n) }` terminates. */
  ghost predicate Fair(src: nat -> Unit, n: int)
    requires n > 0
  {
    forall p: nat, i :: 0 <= i < n ==> Avoids(src, n, i, p)
  }

  /** With a single index every draw is 0, so no stream lets such a loop end. */
  lemma NoFairStreamForOneIndex(src: nat -> Unit)
    ensures !Fair(src, 1)
  {
    assert !Avoids(src, 1, 0, 0);
  }

  class Rng {
    /** The draws the generator will produce, position by position. */
    const src: nat -> Unit
    /** How many draws have been consumed. */
    var pos: nat

    constructor (src: nat -> Unit)
      ensures this.src == src && pos == 0
    {
      this.src := src;
      pos := 0;
    }

    /** `Rng.Float64()`: the next draw. */
    method Float64() returns (u: Unit)
      modifies this
      ensures u == src(old(pos)) && pos == old(pos) + 1
    {
      u := src(pos);
      pos := pos + 1;
    }

    /** `n` draws in a row, each taken by `Float64` and passed over: the draws that a
        computation on the stream from position `pos` has already read. */
    method Consume(n: nat)
      modifies this
      ensures pos == old(pos) + n
    {
      var k := 0;
      while k < n
        invariant 0 <= k <= n && pos == old(pos) + k
      {
        var _ := Float64();
        k := k + 1;
      }
    }

    /** `Rng.Intn(n)`: an index in [0, n); Go panics when n <= 0, hence the requires. */
    method Intn(n: int) returns (k: int)
      requires n > 0
      modifies this
      ensures k == IntDraw(src(old(pos)), n) && pos == old(pos) + 1
      ensures 0 <= k < n
    {
      k := IntDraw(src(pos), n);
      pos := pos + 1;
    }
  }
}
