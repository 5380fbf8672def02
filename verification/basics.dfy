/** Shared vocabulary of the projection engine: optional and fallible results,
    the exceptions the core can raise, Python's integer truncation, the value
    of math.pi, and the math-library functions the projections call. */
module Basics {

  /** Python's Optional[T]. */
  datatype Option<+T> = None | Some(value: T)

  /** The exceptions the core can raise. */
  datatype Fault =
    | ZeroDivisionError     // a division by zero, e.g. normalising the null vector
    | BadDirectionVector    // the RuntimeError of the cubemap face search

  /** A value, or the exception raised while computing it. */
  datatype Result<+T> = Ok(value: T) | Raise(fault: Fault)

  /** math.pi: the IEEE double nearest to pi, written out exactly. */
  const PI: real := 3.141592653589793115997963468544185161590576171875

  /** A whole number k of full turns, 2*pi*k. */
  function Turns(k: int): real
  {
    2.0 * PI * k as real
  }

  /** Python's int() applied to a float: truncation toward zero. */
  function Trunc(r: real): (n: int)
    ensures 0.0 <= r ==> n as real <= r < n as real + 1.0
    ensures r < 0.0 ==> n as real - 1.0 < r <= n as real
  {
    if r >= 0.0 then r.Floor else -((-r).Floor)
  }

  /** Truncation is odd, so it differs from floor exactly on the negative non-integers. */
  lemma TruncIsOdd(r: real)
    ensures Trunc(-r) == -Trunc(r)
    ensures Trunc(r) == r.Floor <==> (0.0 <= r || r == r.Floor as real)
  {
  }

  /** The math-module functions the projections call. Their bodies are
      transcendental and are not modelled; a caller supplies them. */
  datatype MathLib = MathLib(
    sqrt: real -> real,
    atan2: (real, real) -> real,
    sin: real -> real,
    cos: real -> real)

  /** What the proofs may assume of math.sqrt. */
  ghost predicate SqrtLaws(m: MathLib)
  {
    && (forall x :: 0.0 <= x ==> 0.0 <= m.sqrt(x))
    && m.sqrt(0.0) == 0.0
  }

  /** What the proofs may assume of math.atan2: its result lies in [-pi, pi]. */
  ghost predicate Atan2Laws(m: MathLib)
  {
    forall y, x :: -PI <= m.atan2(y, x) <= PI
  }

  lemma Atan2Bounded(m: MathLib, y: real, x: real)
    requires Atan2Laws(m)
    ensures -PI <= m.atan2(y, x) <= PI
  {
  }

  lemma SqrtNonNegative(m: MathLib, x: real)
    requires SqrtLaws(m) && 0.0 <= x
    ensures 0.0 <= m.sqrt(x)
  {
  }
}
