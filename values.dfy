/** Numbers as the optimisation engine sees them.

    Coordinates are modelled as Dafny `real`s (no rounding, no overflow).
    Objective values are IEEE-754 doubles seen as extended reals with a NaN
    element, because the global best starts at +Inf, the SFLA worst scan
    starts at -Inf, and a failed evaluation yields NaN. */
module Values {

  datatype Option<T> = None | Some(value: T)

  datatype Value = NegInf | Finite(x: real) | PosInf | NaN

  /** An objective: a vector in, one double out. */
  type Objective = seq<real> -> Value

  /** `a < b` on doubles, as in Go and JavaScript: false when NaN is involved. */
  predicate Less(a: Value, b: Value)
  {
    match (a, b)
    case (NaN, _) => false
    case (_, NaN) => false
    case (NegInf, NegInf) => false
    case (NegInf, _) => true
    case (Finite(x), Finite(y)) => x < y
    case (Finite(_), PosInf) => true
    case _ => false
  }

  /** `a >= b` on doubles: also false when NaN is involved, so it is not `!(a < b)`. */
  predicate AtLeast(a: Value, b: Value)
  {
    a != NaN && b != NaN && !Less(a, b)
  }

  /** "not larger than": the relation a global best keeps between two moments. */
  predicate NotAbove(a: Value, b: Value)
  {
    a == b || Less(a, b)
  }

  lemma LessIsStrictOrder(a: Value, b: Value, c: Value)
    ensures !Less(a, a)
    ensures Less(a, b) ==> !Less(b, a)
    ensures Less(a, b) && Less(b, c) ==> Less(a, c)
    ensures a != NaN && b != NaN ==> Less(a, b) || a == b || Less(b, a)
    ensures AtLeast(a, b) <==> a != NaN && b != NaN && (a == b || Less(b, a))
  {
  }

  lemma NotAboveTransitive(a: Value, b: Value, c: Value)
    requires NotAbove(a, b) && NotAbove(b, c)
    ensures NotAbove(a, c)
  {
    LessIsStrictOrder(a, b, c);
  }

  /** A NaN is below nothing and nothing is below it: it never wins a strict comparison. */
  lemma NaNNeverCompares(a: Value)
    ensures !Less(NaN, a) && !Less(a, NaN) && !AtLeast(a, NaN) && !AtLeast(NaN, a)
  {
  }

  /** IEEE addition on extended reals (rounding is not modelled). */
  function Add(a: Value, b: Value): (r: Value)
    ensures r == NaN <==> a == NaN || b == NaN || {a, b} == {PosInf, NegInf}
    ensures a.Finite? && b.Finite? ==> r == Finite(a.x + b.x)
  {
    match (a, b)
    case (NaN, _) => NaN
    case (_, NaN) => NaN
    case (PosInf, NegInf) => NaN
    case (NegInf, PosInf) => NaN
    case (PosInf, _) => PosInf
    case (_, PosInf) => PosInf
    case (NegInf, _) => NegInf
    case (_, NegInf) => NegInf
    case (Finite(x), Finite(y)) => Finite(x + y)
  }

  function Negate(a: Value): Value
  {
    match a
    case NegInf => PosInf
    case PosInf => NegInf
    case Finite(x) => Finite(-x)
    case NaN => NaN
  }

  function Abs(a: Value): Value
  {
    match a
    case NegInf => PosInf
    case Finite(x) => Finite(if x < 0.0 then -x else x)
    case _ => a
  }

  /** IEEE product of a non-negative finite factor (a uniform draw) and a double:
      0 times an infinity is NaN. */
  function Scale(u: real, a: Value): (r: Value)
    requires 0.0 <= u
    ensures r == NaN <==> a == NaN || (u == 0.0 && (a == PosInf || a == NegInf))
    ensures a.Finite? ==> r == Finite(u * a.x)
  {
    match a
    case Finite(_) => Finite(u * a.x)
    case NaN => NaN
    case _ => if u == 0.0 then NaN else a
  }

  /** `math.Abs(h1 - h0) < eta` with a finite `eta`, as the AFSA stagnation test writes it. */
  predicate CloseTo(h1: Value, h0: Value, eta: real)
  {
    Less(Abs(Add(h1, Negate(h0))), Finite(eta))
  }

  /** Two equal infinities differ by NaN, so they never count as close. */
  lemma {:induction false} CloseToOnlyFinite(h1: Value, h0: Value, eta: real)
    ensures CloseTo(h1, h0, eta) <==>
      h1.Finite? && h0.Finite? && (if h1.x < h0.x then h0.x - h1.x else h1.x - h0.x) < eta
  {
    match (h1, h0)
    case (Finite(a), Finite(b)) =>
      assert Add(h1, Negate(h0)) == Finite(a - b);
    case _ =>
  }

  /** Go's `math.Max(lo, math.Min(x, hi))` (also `math.Min(hi, x)`): the clamp every Go update ends with. */
  function Clamp(lo: real, hi: real, x: real): (r: real)
    ensures lo <= r
    ensures lo <= hi ==> r <= hi
    ensures lo <= x <= hi ==> r == x
    ensures x < lo ==> r == lo
    ensures lo <= hi < x ==> r == hi
    ensures hi < lo ==> r == lo
  {
    var m := if x < hi then x else hi;
    if lo > m then lo else m
  }

  /** JavaScript's `Math.min(Math.max(x, lo), hi)`: the clamp of the legacy worker. */
  function JsClamp(lo: real, hi: real, x: real): (r: real)
    ensures r <= hi
    ensures lo <= hi ==> lo <= r
    ensures lo <= x <= hi ==> r == x
    ensures hi < lo ==> r == hi
  {
    var m := if x > lo then x else lo;
    if m < hi then m else hi
  }

  /** The two clamps agree on every well-ordered interval and disagree on every
      inverted one (Go answers `lo`, JavaScript answers `hi`). */
  lemma ClampsAgreeOnOrderedBounds(lo: real, hi: real, x: real)
    ensures lo <= hi ==> Clamp(lo, hi, x) == JsClamp(lo, hi, x)
    ensures hi < lo ==> Clamp(lo, hi, x) == lo && JsClamp(lo, hi, x) == hi
  {
  }

  /** What the expression engine does with one evaluation. */
  datatype ExprOutcome = Output(v: Value) | RunError

  /** The closure built by `ConvertMathExpressionToFunc`: a wrong arity or a runtime
      error yields NaN, and a NaN output is normalised to +Inf. */
  function Evaluate(program: (real, real) -> ExprOutcome, vars: seq<real>): (v: Value)
    ensures v == NaN <==> |vars| != 2 || program(vars[0], vars[1]).RunError?
    ensures |vars| == 2 && program(vars[0], vars[1]) == Output(NaN) ==> v == PosInf
    ensures |vars| == 2 && program(vars[0], vars[1]).Output? && program(vars[0], vars[1]).v != NaN
            ==> v == program(vars[0], vars[1]).v
  {
    if |vars| != 2 then NaN
    else
      match program(vars[0], vars[1])
      case RunError => NaN
      case Output(out) => if out == NaN then PosInf else out
  }

  /** The objective a compiled formula denotes. */
  function ObjectiveOf(program: (real, real) -> ExprOutcome): (f: Objective)
    ensures forall vars :: f(vars) == Evaluate(program, vars)
  {
    vars => Evaluate(program, vars)
  }
}
