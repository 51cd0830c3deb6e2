// Shared definitions: the missing-value sentinels, error wrappers, complex
// numbers, the extended reals used for running extrema, and the floating-point
// library functions the grid code calls but which are not modelled here.

module Common {

  /** Sentinel stored in real-valued grids and logs for "no value". */
  const RMISSING: real := -99999.0

  /** Sentinel stored in integer logs (facies numbers, indices) for "no value". */
  const IMISSING: int := -99999

  datatype Option<T> = None | Some(value: T)

  /** A complex value as the two reals of an fftw_complex. */
  datatype Complex = Complex(re: real, im: real)

  function Conj(c: Complex): (r: Complex)
    ensures r.re == c.re && r.im == -c.im
  {
    Complex(c.re, -c.im)
  }

  /** A real, or one of the two infinities used to seed a running min or max. */
  datatype ExtReal = NegInfinity | Finite(v: real) | PosInfinity

  /**
   * The parts of the C maths library the model needs. Each one is an
   * uninterpreted function supplied by the caller; a member that needs a fact
   * about one of them states it as a precondition.
   */
  datatype MathLib = MathLib(
    sqrt: real -> real,
    sin: real -> real,
    cos: real -> real,
    exp: real -> real,
    log: real -> real,
    pow: (real, real) -> real
  )

  /** The one fact about sqrt that the transform round trip needs. */
  predicate SqrtExact(m: MathLib, x: real)
  {
    m.sqrt(x) > 0.0 && m.sqrt(x) * m.sqrt(x) == x
  }

  function Min(a: int, b: int): (r: int)
    ensures r <= a && r <= b && (r == a || r == b)
  {
    if a < b then a else b
  }

  function Max(a: int, b: int): (r: int)
    ensures r >= a && r >= b && (r == a || r == b)
  {
    if a < b then b else a
  }

  /** Two to the power e. */
  function Pow2(e: nat): (r: nat)
    ensures r >= 1
  {
    if e == 0 then 1 else 2 * Pow2(e - 1)
  }

  /** The quotient of C's integer division, which truncates toward zero. */
  function CppQuot(a: int, b: int): int
    requires b > 0
  {
    if a >= 0 then a / b else -((-a) / b)
  }

  /** The remainder of C's integer division, which truncates toward zero:
      with the truncated quotient it rebuilds the dividend, as C++ requires
      of `/` and `%`, and it takes the sign of the dividend. */
  function CppRem(a: int, b: int): (r: int)
    requires b > 0
    ensures a == CppQuot(a, b) * b + r
    ensures a >= 0 ==> r == a % b
    ensures a < 0 ==> -b < r <= 0
    ensures a < 0 ==> r == -((-a) % b)
  {
    if a >= 0 then a % b else -((-a) % b)
  }
}
