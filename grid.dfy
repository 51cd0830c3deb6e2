// The padded three-dimensional grid that holds a cube either as real values
// or, after an in-place transform, as complex Fourier coefficients in the
// same buffer. Real cell (i, j, k) sits at i + rnxp*j + k*rnxp*nyp; complex
// cell (i, j, k) at i + cnxp*j + k*cnxp*nyp, complex cell c being the reals
// 2c and 2c+1 of the buffer.

module Grid {
  import opened Common
  import Layout
  import Padding
  import Stats
  import Spectrum

  /** What a cube holds; the transform scaling depends on it. */
  datatype CubeType = CtMissing | Data | Parameter | Covariance

  /** The access modes of the grid interface, in their declaration order. */
  datatype AccessMode = NoAccess | Read | Write | ReadAndWrite | RandomAccess

  function AccessModeCode(m: AccessMode): (r: int)
    ensures 0 <= r <= 4
    ensures m == NoAccess <==> r == 0
  {
    match m
    case NoAccess => 0
    case Read => 1
    case Write => 2
    case ReadAndWrite => 3
    case RandomAccess => 4
  }

  /** Bytes per stored real (the single-precision build of the transform library). */
  const REAL_BYTES: int := 4

  /** The note recorded the first time more grids are live than planned. */
  const MEMORY_TASK: string := "more FFT grids were allocated than the memory check planned for"

  /** Where the next sequential read or write goes after one at position c of size cells. */
  function NextCursor(c: int, size: int): (r: int)
    requires 0 <= c < size
    ensures 0 <= r < size
    ensures r == (c + 1) % size
  {
    if c + 1 == size then 0 else c + 1
  }

  /** The cursor after n steps from c. */
  function CursorAfter(c: int, size: int, n: nat): (r: int)
    requires 0 <= c < size
    ensures 0 <= r < size
  {
    if n == 0 then c else NextCursor(CursorAfter(c, size, n - 1), size)
  }

  /** After n steps the cursor is n cells further on, cyclically; a full pass returns to the start. */
  lemma CursorAfterIsCyclic(c: int, size: int, n: nat)
    requires 0 <= c < size
    ensures CursorAfter(c, size, n) == (c + n) % size
    ensures CursorAfter(c, size, size) == c
  {
    CursorSteps(c, size, n);
    CursorSteps(c, size, size);
    Layout.DivModRow(c, 1, size);
  }

  lemma ModSucc(x: int, size: int)
    requires size > 0 && x >= 0
    ensures (x % size + 1) % size == (x + 1) % size
  {
    var q, m := x / size, x % size;
    assert x == m + size * q;
    if m + 1 < size {
      Layout.DivModRow(m + 1, q, size);
      Layout.DivModRow(m + 1, 0, size);
    } else {
      assert x + 1 == 0 + size * (q + 1);
      Layout.DivModRow(0, q + 1, size);
      Layout.DivModRow(0, 1, size);
    }
  }

  lemma {:induction false} CursorSteps(c: int, size: int, n: nat)
    requires 0 <= c < size
    ensures CursorAfter(c, size, n) == (c + n) % size
  {
    if n == 0 {
      Layout.DivModRow(c, 0, size);
    } else {
      CursorSteps(c, size, n - 1);
      ModSucc(c + n - 1, size);
    }
  }

  /** The whole buffer scaled by a. */
  function Scaled(s: seq<real>, a: real): (r: seq<real>)
    ensures |r| == |s|
    ensures forall c :: 0 <= c < |s| ==> r[c] == s[c] * a
  {
    seq(|s|, c requires 0 <= c < |s| => s[c] * a)
  }

  /**
   * The in-place transform library: forward real-to-complex and backward
   * complex-to-real transforms of the whole padded buffer, unknown except for
   * the facts stated by the predicates below.
   */
  datatype Transform3D = Transform3D(forward: seq<real> -> seq<real>, backward: seq<real> -> seq<real>)

  ghost predicate KeepsLength(t: Transform3D, size: int)
  {
    (forall f: seq<real> :: |f| == size ==> |t.forward(f)| == size) &&
    (forall f: seq<real> :: |f| == size ==> |t.backward(f)| == size)
  }

  /**
   * The unnormalised inverse law: transforming forward and back multiplies
   * every real of the box by the number of cells n. The one or two reals at
   * the end of each row (x position nxp and beyond) are workspace.
   */
  ghost predicate InverseLaw(t: Transform3D, size: int, row: int, nxp: int, n: real)
  {
    row > 0 && KeepsLength(t, size) &&
    forall f: seq<real>, c: int :: |f| == size && 0 <= c < size && c % row < nxp ==>
      t.backward(t.forward(f))[c] == n * f[c]
  }

  /** The factor applied before the forward transform: norm preserving except for covariances. */
  function PreScale(kind: CubeType, m: MathLib, n: real): real
    requires kind != Covariance ==> m.sqrt(n) != 0.0
  {
    if kind == Covariance then 1.0 else 1.0 / m.sqrt(n)
  }

  /** The factor applied after the backward transform. */
  function PostScale(kind: CubeType, m: MathLib, n: real): real
    requires kind == Covariance ==> n != 0.0
    requires kind != Covariance ==> m.sqrt(n) != 0.0
  {
    if kind == Covariance then 1.0 / n else 1.0 / m.sqrt(n)
  }

  /** The buffer after the forward transform of the grid (with its pre-scaling). */
  function ForwardImage(t: Transform3D, m: MathLib, kind: CubeType, n: real, f: seq<real>): seq<real>
    requires kind != Covariance ==> m.sqrt(n) != 0.0
  {
    t.forward(if kind == Covariance then f else Scaled(f, PreScale(kind, m, n)))
  }

  /** The buffer after the inverse transform of the grid (with its post-scaling). */
  function InverseImage(t: Transform3D, m: MathLib, kind: CubeType, n: real, g: seq<real>): seq<real>
    requires kind == Covariance ==> n != 0.0
    requires kind != Covariance ==> m.sqrt(n) != 0.0
  {
    Scaled(t.backward(g), PostScale(kind, m, n))
  }

  /**
   * For every kind of cube the forward and inverse transforms, with their
   * scalings, restore every real of the box whose x position is below nxp.
   */
  lemma TransformRoundTrip(t: Transform3D, m: MathLib, kind: CubeType, n: real,
                           size: int, row: int, nxp: int, f: seq<real>)
    requires InverseLaw(t, size, row, nxp, n) && |f| == size && n > 0.0
    requires kind != Covariance ==> SqrtExact(m, n)
    ensures |InverseImage(t, m, kind, n, ForwardImage(t, m, kind, n, f))| == size
    ensures forall c :: 0 <= c < size && c % row < nxp ==>
              InverseImage(t, m, kind, n, ForwardImage(t, m, kind, n, f))[c] == f[c]
  {
    var g := if kind == Covariance then f else Scaled(f, PreScale(kind, m, n));
    assert |g| == size;
    assert |t.backward(t.forward(g))| == size;
    forall c | 0 <= c < size && c % row < nxp
      ensures InverseImage(t, m, kind, n, ForwardImage(t, m, kind, n, f))[c] == f[c]
    {
      LawAt(t, size, row, nxp, n, g, c);
      RoundTripAt(t, m, kind, n, f, g, c);
    }
  }

  lemma RoundTripAt(t: Transform3D, m: MathLib, kind: CubeType, n: real,
                    f: seq<real>, g: seq<real>, c: int)
    requires n > 0.0 && (kind != Covariance ==> SqrtExact(m, n))
    requires g == if kind == Covariance then f else Scaled(f, PreScale(kind, m, n))
    requires 0 <= c < |f| && |t.backward(t.forward(g))| == |f|
    requires t.backward(t.forward(g))[c] == n * g[c]
    ensures InverseImage(t, m, kind, n, ForwardImage(t, m, kind, n, f))[c] == f[c]
  {
    var fw := t.forward(g);
    assert ForwardImage(t, m, kind, n, f) == fw;
    var back := t.backward(fw);
    var post := PostScale(kind, m, n);
    assert InverseImage(t, m, kind, n, fw)[c] == back[c] * post;
    if kind == Covariance {
      assert (n * f[c]) * (1.0 / n) == f[c];
    } else {
      SqrtCancels(n, m.sqrt(n), f[c]);
    }
  }

  lemma LawAt(t: Transform3D, size: int, row: int, nxp: int, n: real, g: seq<real>, c: int)
    requires InverseLaw(t, size, row, nxp, n) && |g| == size && 0 <= c < size && c % row < nxp
    ensures |t.backward(t.forward(g))| == size
    ensures t.backward(t.forward(g))[c] == n * g[c]
  {
  }

  lemma SqrtCancels(n: real, q: real, x: real)
    requires q > 0.0 && q * q == n
    ensures (n * (x * (1.0 / q))) * (1.0 / q) == x
  {
    assert (n * (x * (1.0 / q))) * (1.0 / q) == x * (n / (q * q));
  }

  /** Complex cell c of a buffer: the reals 2c and 2c+1. */
  function ComplexAt(s: seq<real>, c: int): (r: Complex)
    requires 0 <= c && 2 * c + 1 < |s|
    ensures r.re == s[2 * c] && r.im == s[2 * c + 1]
  {
    Complex(s[2 * c], s[2 * c + 1])
  }

  /**
   * The guard of the complex accessors as written: the bounds of the real
   * box, although a complex row has only nxp/2 + 1 cells.
   */
  predicate ComplexGuardAsWritten(i: int, j: int, k: int, nx: int, ny: int, nz: int,
                                  nxp: int, nyp: int, nzp: int, extended: bool)
  {
    i > -1 && j > -1 && k > -1 &&
    if extended then i < nxp && j < nyp && k < nzp else i < nx && j < ny && k < nz
  }

  /**
   * The guard as written lets through x positions past the end of a complex
   * row, and for the last row of the last plane the flat index is past the
   * end of the buffer: with nx = nxp = 8 and one row and one plane, cell
   * (7, 0, 0) passes both the logical and the extended guard but the buffer
   * holds 5 complex cells.
   */
  lemma ComplexGuardAsWrittenOverruns()
    ensures ComplexGuardAsWritten(7, 0, 0, 8, 1, 1, 8, 1, 1, true)
    ensures ComplexGuardAsWritten(7, 0, 0, 8, 1, 1, 8, 1, 1, false)
    ensures Layout.FlatIndex(7, 0, 0, Layout.ComplexRow(8), 1) >= Layout.ComplexRow(8) * 1 * 1
  {
  }

  /** The guard of the cyclic read as written: one wrap of negative indices, then an upper bound only. */
  function CyclicIndexAsWritten(i: int, j: int, k: int, nxp: int, nyp: int, nzp: int, rnxp: int): (r: Option<int>)
    ensures r.Some? <==> (if i < 0 then nxp + i else i) < nxp && (if j < 0 then nyp + j else j) < nyp &&
                         (if k < 0 then nzp + k else k) < nzp
  {
    var i' := if i < 0 then nxp + i else i;
    var j' := if j < 0 then nyp + j else j;
    var k' := if k < 0 then nzp + k else k;
    if i' < nxp && j' < nyp && k' < nzp then Some(Layout.FlatIndex(i', j', k', rnxp, nyp)) else None
  }

  /** An index below -nxp is wrapped once, stays negative and is used: position -1 is read. */
  lemma CyclicIndexAsWrittenUnderruns()
    ensures CyclicIndexAsWritten(-9, 0, 0, 8, 1, 1, Layout.RealRow(8)) == Some(-1)
  {
  }

  /** Wrapping a cyclic index once into [0, np), when it is at least -np. */
  function WrapOnce(i: int, np: int): (r: int)
    ensures -np <= i < np ==> 0 <= r < np
    ensures 0 <= i ==> r == i
    ensures i < 0 ==> r == i + np
  {
    if i < 0 then np + i else i
  }

  function RealMin(a: real, b: real): real { if a < b then a else b }

  function RealMax(a: real, b: real): real { if a < b then b else a }

  /**
   * Linear interpolation between two neighbouring values at fraction w
   * of the way from v1 to v2.
   */
  function Blend(v1: real, v2: real, w: real): (r: real)
    requires 0.0 <= w <= 1.0
    ensures RealMin(v1, v2) <= r <= RealMax(v1, v2)
    ensures w == 0.0 ==> r == v1
    ensures w == 1.0 ==> r == v2
  {
    BlendBetween(v1, v2, w);
    (1.0 - w) * v1 + w * v2
  }

  lemma BlendBetween(v1: real, v2: real, w: real)
    requires 0.0 <= w <= 1.0
    ensures RealMin(v1, v2) <= (1.0 - w) * v1 + w * v2 <= RealMax(v1, v2)
  {
    var d := v2 - v1;
    assert (1.0 - w) * v1 + w * v2 == v1 + w * d;
    if d >= 0.0 {
      ScaledWithin(w, d);
      assert v1 <= v1 + w * d <= v2;
    } else {
      ScaledWithin(w, -d);
      assert w * d == -(w * (-d));
      assert v2 <= v1 + w * d <= v1;
    }
  }

  /** A fraction of a non-negative number lies between 0 and the number. */
  lemma ScaledWithin(w: real, d: real)
    requires 0.0 <= w <= 1.0 && d >= 0.0
    ensures 0.0 <= w * d <= d
  {
    assert d - w * d == (1.0 - w) * d;
  }

  // ---- cell rules of the element-wise operations ----

  /** Squaring a real cell; the sentinel stays. */
  function SquareReal(x: real): (r: real)
    ensures x == RMISSING ==> r == RMISSING
    ensures x != RMISSING ==> r >= 0.0 && r == x * x
  {
    if x == RMISSING then RMISSING else x * x
  }

  /** Squaring a spectral cell gives its power |z|^2 as a real coefficient; the sentinel stays. */
  function SquareComplex(z: Complex): (r: Complex)
    ensures z.re == RMISSING || z.im == RMISSING ==> r == Complex(RMISSING, RMISSING)
    ensures z.re != RMISSING && z.im != RMISSING ==> r.im == 0.0 && r.re >= 0.0
    ensures z.re != RMISSING && z.im != RMISSING ==> r.re == z.re * z.re + z.im * z.im
  {
    if z.re == RMISSING || z.im == RMISSING then Complex(RMISSING, RMISSING)
    else Complex(z.re * z.re + z.im * z.im, 0.0)
  }

  /** The exponential of a real cell; the sentinel stays. */
  function ExpReal(m: MathLib, x: real): (r: real)
    ensures x == RMISSING ==> r == RMISSING
    ensures x != RMISSING ==> r == m.exp(x)
  {
    if x == RMISSING then RMISSING else m.exp(x)
  }

  /** The logarithm of a real cell; the sentinel and non-positive values become 0. */
  function LogReal(m: MathLib, x: real): (r: real)
    ensures x == RMISSING || x <= 0.0 ==> r == 0.0
    ensures x != RMISSING && x > 0.0 ==> r == m.log(x)
  {
    if x == RMISSING || x <= 0.0 then 0.0 else m.log(x)
  }

  /** The complex product a*b in the order the spectral multiply computes it. */
  function Product(a: Complex, b: Complex): (r: Complex)
    ensures r.re == a.re * b.re - a.im * b.im
    ensures r.im == a.im * b.re + a.re * b.im
  {
    Complex(a.re * b.re - a.im * b.im, a.im * b.re + a.re * b.im)
  }

  /** A spectral cell multiplied by its own grid: the real part is updated before the imaginary part reads it. */
  function SelfProductAsWritten(z: Complex): (r: Complex)
    ensures r.re == z.re * z.re - z.im * z.im
    ensures r.im == z.im * z.re + r.re * z.im
  {
    var re := z.re * z.re - z.im * z.im;
    Complex(re, z.im * z.re + re * z.im)
  }

  /** Multiplying a spectrum by itself in place is not squaring it: (1 + i) gives i, not 2i. */
  lemma SelfProductIsNotSquare()
    ensures SelfProductAsWritten(Complex(1.0, 1.0)) == Complex(0.0, 1.0)
    ensures Product(Complex(1.0, 1.0), Complex(1.0, 1.0)) == Complex(0.0, 2.0)
  {
  }

  /** The absolute value of the real part, |re| = sqrt(re*re), as a real coefficient. */
  function RealAbsCell(m: MathLib, z: Complex): (r: Complex)
    ensures r.im == 0.0 && r.re == m.sqrt(z.re * z.re)
  {
    Complex(m.sqrt(z.re * z.re), 0.0)
  }

  /** Where `sqrt` returns the non-negative root, the absolute value of a
      cell is the magnitude of its real part. */
  lemma RealAbsIsMagnitude(m: MathLib, z: Complex)
    requires m.sqrt(z.re * z.re) >= 0.0 && m.sqrt(z.re * z.re) * m.sqrt(z.re * z.re) == z.re * z.re
    ensures RealAbsCell(m, z).re == (if z.re < 0.0 then -z.re else z.re)
    ensures RealAbsCell(m, z).re >= 0.0 && RealAbsCell(m, z).im == 0.0
  {
    var r := m.sqrt(z.re * z.re);
    var a := if z.re < 0.0 then -z.re else z.re;
    assert a * a == z.re * z.re;
    RootUnique(r, a);
  }

  /** Two non-negative reals with the same square are equal. */
  lemma RootUnique(r: real, a: real)
    requires r >= 0.0 && a >= 0.0 && r * r == a * a
    ensures r == a
  {
    var d, s := r - a, r + a;
    assert d * s == 0.0;
    if s != 0.0 {
      assert d == (d * s) / s;
    }
  }

  /** A cell times its conjugate is its power: multiply by the conjugate agrees with square. */
  lemma ProductWithConjugate(z: Complex)
    requires z.re != RMISSING && z.im != RMISSING
    ensures Product(z, Conj(z)) == SquareComplex(z)
  {
  }

  /** Where exp gives a positive value that log inverts, logTransf undoes expTransf. */
  lemma LogUndoesExp(m: MathLib, x: real)
    requires x != RMISSING && m.exp(x) != RMISSING && m.exp(x) > 0.0 && m.log(m.exp(x)) == x
    ensures LogReal(m, ExpReal(m, x)) == x
  {
  }

  // ---- trace smoothing and resampling ----

  /** The ceiling of x as an integer. */
  function Ceil(x: real): (r: int)
    ensures r == x.Floor || r == x.Floor + 1
    ensures r == x.Floor <==> x == x.Floor as real
    ensures x <= r as real < x + 1.0
  {
    -((-x).Floor)
  }

  /**
   * The value at fractional position dl of a fine trace of nFine samples:
   * 0 more than one step beyond either end, the end sample within one step
   * outside it, the sample itself at a whole position, and otherwise the
   * linear interpolation of the two neighbouring samples.
   */
  function FineSample(fine: seq<real>, nFine: int, dl: real): (r: real)
    requires 0 < |fine| && nFine <= |fine|
    ensures Ceil(dl) < 0 || dl.Floor > nFine - 1 ==> r == 0.0
    ensures dl.Floor < 0 <= Ceil(dl) && dl.Floor <= nFine - 1 ==> r == fine[0]
    ensures 0 <= dl.Floor <= nFine - 1 < Ceil(dl) ==> r == fine[nFine - 1]
    ensures 0 <= dl.Floor && Ceil(dl) <= nFine - 1 ==>
              r == Blend(fine[dl.Floor], fine[Ceil(dl)], dl - dl.Floor as real)
    ensures 0 <= dl.Floor && Ceil(dl) <= nFine - 1 ==>
              RealMin(fine[dl.Floor], fine[Ceil(dl)]) <= r <= RealMax(fine[dl.Floor], fine[Ceil(dl)])
    ensures 0 <= dl.Floor <= nFine - 1 && dl == dl.Floor as real ==> r == fine[dl.Floor]
  {
    var l1, l2 := dl.Floor, Ceil(dl);
    if l2 < 0 || l1 > nFine - 1 then 0.0
    else if l1 < 0 then fine[l2]
    else if l2 > nFine - 1 then fine[l1]
    else if l1 == l2 then fine[l1]
    else
      var w1, w2 := l2 as real - dl, dl - l1 as real;
      assert w1 * fine[l1] + w2 * fine[l2] == Blend(fine[l1], fine[l2], w2);
      w1 * fine[l1] + w2 * fine[l2]
  }

  /** The branches of FineSample, taken one sample at a time. */
  method SampleFine(fine: seq<real>, nFine: int, dl: real) returns (v: real)
    requires 0 < |fine| && nFine <= |fine|
    ensures v == FineSample(fine, nFine, dl)
  {
    var l1, l2 := dl.Floor, Ceil(dl);
    if l2 < 0 || l1 > nFine - 1 {
      v := 0.0;
    } else if l1 < 0 {
      v := fine[l2];
    } else if l2 > nFine - 1 {
      v := fine[l1];
    } else if l1 == l2 {
      v := fine[l1];
    } else {
      var w1 := l2 as real - dl;
      var w2 := dl - l1 as real;
      v := w1 * fine[l1] + w2 * fine[l2];
    }
  }

  /**
   * One cell of the statistics scan: a present value lowers the minimum,
   * raises the maximum, is counted and is added to the row sum.
   */
  method ScanCell(ghost lv: seq<real>, ghost row: int, ghost pos: int, ghost next: int, value: real,
                  lo0: ExtReal, hi0: ExtReal, count0: int, sum0: real)
    returns (lo: ExtReal, hi: ExtReal, count: int, sum: real)
    requires 0 <= row <= pos < |lv| && next == pos + 1 && value == lv[pos]
    requires lo0 == Stats.MinPresent(lv[..pos]) && hi0 == Stats.MaxPresent(lv[..pos])
    requires count0 == Stats.CountPresent(lv[..pos]) && sum0 == Stats.SumPresent(lv[row..pos])
    ensures lo == Stats.MinPresent(lv[..next]) && hi == Stats.MaxPresent(lv[..next])
    ensures count == Stats.CountPresent(lv[..next]) && sum == Stats.SumPresent(lv[row..next])
  {
    Stats.SliceStep(lv, 0, pos);
    Stats.SliceStep(lv, row, pos);
    lo, hi, count, sum := lo0, hi0, count0, sum0;
    if value != RMISSING {
      lo := Stats.Lower(lo, value);
      hi := Stats.Higher(hi, value);
      sum := sum + value;
      count := count + 1;
    }
  }

  /** The squared-sine factor of sample k of the top taper of n samples. */
  function HeadFactor(m: MathLib, piHalf: real, n: int, k: int): (r: real)
    requires n > 0
    ensures r >= 0.0
  {
    var s := m.sin(piHalf * (k as real / n as real));
    s * s
  }

  /** The squared-cosine factor of sample k of the bottom taper of n samples. */
  function TailFactor(m: MathLib, piHalf: real, n: int, k: int): (r: real)
    requires n > 0
    ensures r >= 0.0
  {
    var c := m.cos(piHalf * ((k + 1) as real / n as real));
    c * c
  }

  /** Sample k with the top taper of nSmooth samples applied. */
  function HeadTapered(m: MathLib, piHalf: real, nSmooth: int, k: int, x: real): real
  {
    if 0 <= k < nSmooth then x * HeadFactor(m, piHalf, nSmooth, k) else x
  }

  /**
   * Sample k of a trace of len samples after both tapers: the first and
   * the last nSmooth samples are damped, and where the two zones overlap
   * both factors apply.
   */
  function SmoothedSample(m: MathLib, piHalf: real, nSmooth: int, len: int, k: int, x: real): real
    requires k < len
  {
    var h := HeadTapered(m, piHalf, nSmooth, k, x);
    if len - nSmooth <= k then h * TailFactor(m, piHalf, nSmooth, k - (len - nSmooth)) else h
  }

  /**
   * Damps the first and the last floor(smoothLength/dzData) samples of the
   * trace with squared sine and squared cosine tapers.
   */
  method SmoothTraceInGuardZone(trace: array<real>, dzData: real, smoothLength: real, m: MathLib, piHalf: real)
    requires dzData != 0.0 && (smoothLength / dzData).Floor <= trace.Length
    modifies trace
    ensures forall k :: 0 <= k < trace.Length ==>
              trace[k] == SmoothedSample(m, piHalf, (smoothLength / dzData).Floor, trace.Length, k, old(trace[k]))
  {
    var nSmooth := (smoothLength / dzData).Floor;
    TaperHead(trace, nSmooth, m, piHalf);
    ghost var mid := trace[..];
    TaperTail(trace, nSmooth, m, piHalf);
    assert forall k :: 0 <= k < trace.Length ==> mid[k] == HeadTapered(m, piHalf, nSmooth, k, old(trace[k]));
  }

  /** The first loop of the smoothing: the top taper. */
  method TaperHead(trace: array<real>, nSmooth: int, m: MathLib, piHalf: real)
    requires nSmooth <= trace.Length
    modifies trace
    ensures forall t :: 0 <= t < trace.Length ==> trace[t] == HeadTapered(m, piHalf, nSmooth, t, old(trace[t]))
  {
    var k := 0;
    while k < nSmooth
      invariant k == 0 || 0 < k <= nSmooth
      invariant forall t :: 0 <= t < k ==> trace[t] == old(trace[t]) * HeadFactor(m, piHalf, nSmooth, t)
      invariant forall t :: k <= t < trace.Length ==> trace[t] == old(trace[t])
    {
      trace[k] := trace[k] * HeadFactor(m, piHalf, nSmooth, k);
      k := k + 1;
    }
  }

  /** The second loop of the smoothing: the bottom taper over the last nSmooth samples. */
  method TaperTail(trace: array<real>, nSmooth: int, m: MathLib, piHalf: real)
    requires nSmooth <= trace.Length
    modifies trace
    ensures forall t :: 0 <= t < trace.Length ==>
              trace[t] == if trace.Length - nSmooth <= t
                          then old(trace[t]) * TailFactor(m, piHalf, nSmooth, t - (trace.Length - nSmooth))
                          else old(trace[t])
  {
    var kstart := trace.Length - nSmooth;
    var k := 0;
    while k < nSmooth
      invariant k == 0 || 0 < k <= nSmooth
      invariant forall t :: 0 <= t < trace.Length && t < kstart ==> trace[t] == old(trace[t])
      invariant forall t :: kstart <= t < kstart + k ==> trace[t] == old(trace[t]) * TailFactor(m, piHalf, nSmooth, t - kstart)
      invariant forall t :: kstart + k <= t < trace.Length ==> trace[t] == old(trace[t])
    {
      trace[kstart + k] := trace[kstart + k] * TailFactor(m, piHalf, nSmooth, k);
      k := k + 1;
    }
  }

  /**
   * With sin 0 = 0 and cos(pi/2) = 0 the tapers zero the first and the last
   * sample, and the samples between the two zones are untouched.
   */
  lemma SmoothingZeroesEnds(m: MathLib, piHalf: real, nSmooth: int, len: int, x: real, y: real)
    requires 0 < nSmooth <= len && m.sin(0.0) == 0.0 && m.cos(piHalf) == 0.0
    ensures SmoothedSample(m, piHalf, nSmooth, len, 0, x) == 0.0
    ensures SmoothedSample(m, piHalf, nSmooth, len, len - 1, y) == 0.0
    ensures forall k :: nSmooth <= k < len - nSmooth ==> SmoothedSample(m, piHalf, nSmooth, len, k, x) == x
  {
    HeadZeroesFirst(m, piHalf, nSmooth, len, x);
    TailZeroesLast(m, piHalf, nSmooth, len, y);
  }

  /** The top taper starts at sin 0 = 0. */
  lemma HeadZeroesFirst(m: MathLib, piHalf: real, nSmooth: int, len: int, x: real)
    requires 0 < nSmooth <= len && m.sin(0.0) == 0.0
    ensures SmoothedSample(m, piHalf, nSmooth, len, 0, x) == 0.0
  {
    assert piHalf * (0 as real / nSmooth as real) == 0.0;
    assert HeadFactor(m, piHalf, nSmooth, 0) == 0.0;
  }

  /** The last factor of the bottom taper is cos(pi/2) squared. */
  lemma TailFactorLast(m: MathLib, piHalf: real, n: int, k: int)
    requires n > 0 && k + 1 == n && m.cos(piHalf) == 0.0
    ensures TailFactor(m, piHalf, n, k) == 0.0
  {
    WholeFraction(k, n, piHalf);
  }

  /** Scaling by (k + 1) / n leaves a real unchanged when k + 1 == n. */
  lemma WholeFraction(k: int, n: int, x: real)
    requires k + 1 == n > 0
    ensures x * ((k + 1) as real / n as real) == x
  {
    assert (k + 1) as real == n as real;
  }

  /** The bottom taper ends at cos(pi/2) = 0. */
  lemma TailZeroesLast(m: MathLib, piHalf: real, nSmooth: int, len: int, y: real)
    requires 0 < nSmooth <= len && m.cos(piHalf) == 0.0
    ensures SmoothedSample(m, piHalf, nSmooth, len, len - 1, y) == 0.0
  {
    TailFactorLast(m, piHalf, nSmooth, len - 1 - (len - nSmooth));
  }

  /** When sine and cosine stay within [-1, 1] no sample grows in magnitude. */
  lemma SmoothingNeverAmplifies(m: MathLib, piHalf: real, nSmooth: int, len: int, k: int, x: real)
    requires 0 <= k < len
    requires forall a :: -1.0 <= m.sin(a) <= 1.0
    requires forall a :: -1.0 <= m.cos(a) <= 1.0
    ensures Magnitude(SmoothedSample(m, piHalf, nSmooth, len, k, x)) <= Magnitude(x)
  {
    var h := HeadTapered(m, piHalf, nSmooth, k, x);
    if 0 <= k < nSmooth {
      var s := m.sin(piHalf * (k as real / nSmooth as real));
      SquareAtMostOne(s);
      ScaleDown(x, s * s);
    }
    assert Magnitude(h) <= Magnitude(x);
    if len - nSmooth <= k {
      var c := m.cos(piHalf * ((k - (len - nSmooth) + 1) as real / nSmooth as real));
      SquareAtMostOne(c);
      ScaleDown(h, c * c);
    }
  }

  lemma SquareAtMostOne(s: real)
    requires -1.0 <= s <= 1.0
    ensures 0.0 <= s * s <= 1.0
  {
    if s >= 0.0 {
      assert s * s <= s * 1.0;
    } else {
      assert s * s <= (-s) * 1.0;
    }
  }

  lemma ScaleDown(x: real, f: real)
    requires 0.0 <= f <= 1.0
    ensures Magnitude(x * f) <= Magnitude(x)
  {
    if x >= 0.0 {
      assert 0.0 <= x * f <= x * 1.0;
    } else {
      assert x * f - x == (-x) * (1.0 - f);
      assert (-x) * (1.0 - f) >= 0.0;
      assert x <= x * f <= 0.0;
    }
  }

  /** Which of the left, right, up and down neighbours of a dead trace hold data. */
  datatype Neighbours = Neighbours(left: bool, right: bool, up: bool, down: bool)

  function UsedCount(nb: Neighbours): (r: nat)
    ensures r <= 4
  {
    (if nb.left then 1 else 0) + (if nb.right then 1 else 0) + (if nb.up then 1 else 0) + (if nb.down then 1 else 0)
  }

  /** The scale of each part of a complex draw, so that the pair has unit variance. */
  function NoiseScale(m: MathLib): (r: real)
    requires m.sqrt(2.0) != 0.0
    ensures r * m.sqrt(2.0) == 1.0
  {
    1.0 / m.sqrt(2.0)
  }

  function Magnitude(x: real): (r: real)
    ensures r >= 0.0 && (r == x || r == -x)
  {
    if x < 0.0 then -x else x
  }


  /**
   * The live-grid bookkeeping shared by all grids: how many grids are
   * counted as live, the ceiling planned for, the largest number seen,
   * whether passing the ceiling is fatal, the bytes of grid storage in use
   * and its peak, and the notes recorded for the user.
   */
  class GridRegistry {
    var nGrids: int
    var maxAllowedGrids: int
    var maxAllocatedGrids: int
    var terminateOnMaxGrid: bool
    var memUse: int
    var maxMemUse: int
    var tasks: seq<string>

    constructor ()
      ensures nGrids == 0 && maxAllowedGrids == 1 && maxAllocatedGrids == 0
      ensures !terminateOnMaxGrid && memUse == 0 && maxMemUse == 0 && tasks == []
    {
      nGrids := 0;
      maxAllowedGrids := 1;
      maxAllocatedGrids := 0;
      terminateOnMaxGrid := false;
      memUse := 0;
      maxMemUse := 0;
      tasks := [];
    }
  }

  class FftGrid {
    const nx: int
    const ny: int
    const nz: int
    const nxp: int
    const nyp: int
    const nzp: int
    /** Complex cells per row, nxp/2 + 1. */
    const cnxp: int
    /** Reals per row, 2*cnxp. */
    const rnxp: int
    const csize: int
    const rsize: int

    var cubeType: CubeType
    var theta: real
    var scale: real
    var rValMin: ExtReal
    var rValMax: ExtReal
    var rValAvg: real
    var counterForGet: int
    var counterForSet: int
    var isTransformed: bool
    /** The buffer; null until the grid is created. */
    var values: array?<real>
    /** Whether this grid is counted among the live grids. */
    var counted: bool

    /** The sizes and strides fixed at construction. */
    predicate Shape()
    {
      1 <= nx <= nxp && 1 <= ny <= nyp && 1 <= nz <= nzp &&
      cnxp == Layout.ComplexRow(nxp) && rnxp == Layout.RealRow(nxp) &&
      csize == cnxp * nyp * nzp && rsize == rnxp * nyp * nzp && rsize == 2 * csize
    }

    ghost predicate Valid()
      reads this
    {
      Shape() &&
      0 <= counterForGet < rsize && 0 <= counterForSet < rsize &&
      (values != null ==> values.Length == rsize)
    }

    /** A grid of logical size nx*ny*nz padded to nxp*nyp*nzp; no storage yet. */
    constructor (nx: int, ny: int, nz: int, nxp: int, nyp: int, nzp: int)
      requires 1 <= nx <= nxp && 1 <= ny <= nyp && 1 <= nz <= nzp
      ensures Valid()
      ensures this.nx == nx && this.ny == ny && this.nz == nz
      ensures this.nxp == nxp && this.nyp == nyp && this.nzp == nzp
      ensures cnxp == nxp / 2 + 1 && rnxp == 2 * cnxp
      ensures csize == cnxp * nyp * nzp && rsize == rnxp * nyp * nzp
      ensures rsize == 2 * csize && nxp < rnxp <= nxp + 2
      ensures counterForGet == 0 && counterForSet == 0 && !isTransformed
      ensures values == null && counted
      ensures cubeType == CtMissing && theta == RMISSING && scale == 1.0
      ensures rValMin == Finite(RMISSING) && rValMax == Finite(RMISSING) && rValAvg == RMISSING
    {
      this.nx, this.ny, this.nz := nx, ny, nz;
      this.nxp, this.nyp, this.nzp := nxp, nyp, nzp;
      cnxp := nxp / 2 + 1;
      rnxp := 2 * (nxp / 2 + 1);
      csize := (nxp / 2 + 1) * nyp * nzp;
      rsize := 2 * (nxp / 2 + 1) * nyp * nzp;
      cubeType := CtMissing;
      theta := RMISSING;
      scale := 1.0;
      rValMin, rValMax, rValAvg := Finite(RMISSING), Finite(RMISSING), RMISSING;
      counterForGet, counterForSet := 0, 0;
      isTransformed := false;
      values := null;
      counted := true;
      new;
      Layout.SizesAgree(nxp, nyp, nzp);
      assert rsize >= 2 by {
        Layout.MulLe(nyp, 1, nyp);
        Layout.FlatIndexBounds(1, 0, 0, rnxp, nyp, nzp);
      }
    }

    method SetType(kind: CubeType)
      modifies this`cubeType
      ensures cubeType == kind
    {
      cubeType := kind;
    }

    method SetAngle(angle: real)
      modifies this`theta
      ensures theta == angle
    {
      theta := angle;
    }

    /** The in-memory grid has no access modes; only a negative mode is refused. */
    method SetAccessMode(mode: int)
      requires mode >= 0
      ensures unchanged(this)
    {
    }

    method EndAccess()
      ensures unchanged(this)
    {
    }

    /** This grid lives in memory, not in a file. */
    function IsFile(): (r: bool)
      ensures !r
    {
      false
    }

    /** True exactly when all six dimensions equal this grid's. */
    function ConsistentSize(nx: int, ny: int, nz: int, nxp: int, nyp: int, nzp: int): (r: bool)
      ensures r <==> nx == this.nx && ny == this.ny && nz == this.nz &&
                     nxp == this.nxp && nyp == this.nyp && nzp == this.nzp
    {
      var consistent := nx == this.nx;
      var consistent := if consistent then ny == this.ny else consistent;
      var consistent := if consistent then nz == this.nz else consistent;
      var consistent := if consistent then nxp == this.nxp else consistent;
      var consistent := if consistent then nyp == this.nyp else consistent;
      if consistent then nzp == this.nzp else consistent
    }

    /** The x index in the simulation box that padding column i copies. */
    function XSimboxIndex(i: int): (r: int)
      requires Shape()
      ensures 0 <= i < nx ==> r == i
      ensures nx <= i < nxp ==> 0 <= r < nx
      ensures i >= nxp ==> r == IMISSING
    {
      Padding.FillNumber(i, nx, nxp)
    }

    /** The y index in the simulation box that padding row j copies. */
    function YSimboxIndex(j: int): (r: int)
      requires Shape()
      ensures 0 <= j < ny ==> r == j
      ensures ny <= j < nyp ==> 0 <= r < ny
      ensures j >= nyp ==> r == IMISSING
    {
      Padding.FillNumber(j, ny, nyp)
    }

    /** The depth index in the simulation box of padded layer k. */
    function ZSimboxIndex(k: int): (r: int)
      requires Shape()
      ensures 0 <= k < nz ==> r == k
      ensures 0 <= k < nzp ==> (r == k || r == k - nzp) && (nz + nzp) / 2 - nzp <= r < (nz + nzp) / 2
    {
      Padding.ZSimboxIndexCyclic(k, nz, nzp);
      Padding.ZSimboxIndex(k, nz, nzp)
    }

    // ---- allocation and the live-grid counter ----

    /**
     * Allocates the buffer, resets both cursors and updates the shared
     * bookkeeping. Passing the ceiling is fatal when the registry says so
     * (ok is then false and nothing more is recorded); otherwise the first
     * grid over the ceiling records a note.
     */
    method CreateGrid(reg: GridRegistry) returns (ok: bool)
      requires Valid()
      modifies this`values, this`counterForGet, this`counterForSet, reg
      ensures Valid() && fresh(values) && values != null
      ensures counterForGet == 0 && counterForSet == 0
      ensures reg.nGrids == old(reg.nGrids) && reg.maxAllowedGrids == old(reg.maxAllowedGrids)
      ensures reg.terminateOnMaxGrid == old(reg.terminateOnMaxGrid)
      ensures ok <==> !(reg.nGrids > reg.maxAllowedGrids && reg.terminateOnMaxGrid)
      ensures !ok ==> reg.maxAllocatedGrids == old(reg.maxAllocatedGrids) &&
                      reg.memUse == old(reg.memUse) && reg.maxMemUse == old(reg.maxMemUse) &&
                      reg.tasks == old(reg.tasks)
      ensures ok ==> reg.maxAllocatedGrids == Max(reg.nGrids, old(reg.maxAllocatedGrids))
      ensures ok ==> reg.memUse == old(reg.memUse) + rsize * REAL_BYTES
      ensures ok ==> reg.maxMemUse == Max(old(reg.maxMemUse), reg.memUse)
      ensures ok ==> reg.tasks == old(reg.tasks) +
                       (if reg.nGrids == reg.maxAllowedGrids + 1 then [MEMORY_TASK] else [])
    {
      values := new real[rsize];
      counterForGet, counterForSet := 0, 0;
      if reg.nGrids > reg.maxAllowedGrids {
        if reg.terminateOnMaxGrid {
          return false;
        } else if reg.nGrids == reg.maxAllowedGrids + 1 {
          reg.tasks := reg.tasks + [MEMORY_TASK];
        }
      }
      reg.maxAllocatedGrids := Max(reg.nGrids, reg.maxAllocatedGrids);
      reg.memUse := reg.memUse + rsize * REAL_BYTES;
      if reg.memUse > reg.maxMemUse {
        reg.maxMemUse := reg.memUse;
      }
      ok := true;
    }

    /** Creates the buffer in the real domain; the grid is counted only when add is set. */
    method CreateRealGrid(add: bool, reg: GridRegistry) returns (ok: bool)
      requires Valid()
      modifies this, reg
      ensures Valid() && fresh(values) && values != null
      ensures !isTransformed && counted == add && counterForGet == 0 && counterForSet == 0
      ensures unchanged(this`cubeType, this`theta, this`scale, this`rValMin, this`rValMax, this`rValAvg)
      ensures reg.nGrids == old(reg.nGrids) + (if add then 1 else 0)
      ensures reg.maxAllowedGrids == old(reg.maxAllowedGrids) && reg.terminateOnMaxGrid == old(reg.terminateOnMaxGrid)
      ensures ok <==> !(reg.nGrids > reg.maxAllowedGrids && reg.terminateOnMaxGrid)
      ensures ok ==> reg.memUse == old(reg.memUse) + rsize * REAL_BYTES
    {
      isTransformed := false;
      counted := add;
      if add {
        reg.nGrids := reg.nGrids + 1;
      }
      ok := CreateGrid(reg);
    }

    /** Creates the buffer in the spectral domain; complex grids are always counted. */
    method CreateComplexGrid(reg: GridRegistry) returns (ok: bool)
      requires Valid()
      modifies this, reg
      ensures Valid() && fresh(values) && values != null
      ensures isTransformed && counted == old(counted) && counterForGet == 0 && counterForSet == 0
      ensures unchanged(this`cubeType, this`theta, this`scale, this`rValMin, this`rValMax, this`rValAvg)
      ensures reg.nGrids == old(reg.nGrids) + 1
      ensures reg.maxAllowedGrids == old(reg.maxAllowedGrids) && reg.terminateOnMaxGrid == old(reg.terminateOnMaxGrid)
      ensures ok <==> !(reg.nGrids > reg.maxAllowedGrids && reg.terminateOnMaxGrid)
      ensures ok ==> reg.memUse == old(reg.memUse) + rsize * REAL_BYTES
    {
      isTransformed := true;
      reg.nGrids := reg.nGrids + 1;
      ok := CreateGrid(reg);
    }

    /**
     * The destructor: a grid with storage gives back its bytes and, if it was
     * counted, its place among the live grids.
     */
    method Release(reg: GridRegistry)
      requires Valid()
      modifies this`values, reg`nGrids, reg`memUse
      ensures Valid() && values == null
      ensures old(values) != null ==>
                reg.nGrids == old(reg.nGrids) - (if counted then 1 else 0) &&
                reg.memUse == old(reg.memUse) - rsize * REAL_BYTES
      ensures old(values) == null ==> reg.nGrids == old(reg.nGrids) && reg.memUse == old(reg.memUse)
    {
      if values != null {
        if counted {
          reg.nGrids := reg.nGrids - 1;
        }
        reg.memUse := reg.memUse - rsize * REAL_BYTES;
        values := null;
      }
    }

    // ---- sequential cursors ----

    /** Reads the real at the read cursor and advances it, wrapping to 0 after the last cell. */
    method GetNextReal() returns (r: real)
      requires Valid() && values != null && !isTransformed
      modifies this`counterForGet
      ensures Valid()
      ensures r == values[old(counterForGet)]
      ensures counterForGet == NextCursor(old(counterForGet), rsize)
    {
      counterForGet := counterForGet + 1;
      if counterForGet == rsize {
        counterForGet := 0;
        r := values[rsize - 1];
      } else {
        r := values[counterForGet - 1];
      }
    }

    /** Reads the complex cell at the read cursor and advances it, wrapping after csize cells. */
    method GetNextComplex() returns (r: Complex)
      requires Valid() && values != null && isTransformed && counterForGet < csize
      modifies this`counterForGet
      ensures Valid()
      ensures r == Complex(values[2 * old(counterForGet)], values[2 * old(counterForGet) + 1])
      ensures counterForGet == NextCursor(old(counterForGet), csize)
    {
      counterForGet := counterForGet + 1;
      if counterForGet == csize {
        counterForGet := 0;
        r := Complex(values[2 * (csize - 1)], values[2 * (csize - 1) + 1]);
      } else {
        r := Complex(values[2 * (counterForGet - 1)], values[2 * (counterForGet - 1) + 1]);
      }
    }

    /** Writes the real at the write cursor and advances it, wrapping to 0 after the last cell. */
    method SetNextReal(value: real) returns (status: int)
      requires Valid() && values != null && !isTransformed
      modifies this`counterForSet, values
      ensures Valid() && status == 0
      ensures values[..] == old(values[..])[old(counterForSet) := value]
      ensures counterForSet == NextCursor(old(counterForSet), rsize)
    {
      counterForSet := counterForSet + 1;
      if counterForSet == rsize {
        counterForSet := 0;
        values[rsize - 1] := value;
      } else {
        values[counterForSet - 1] := value;
      }
      status := 0;
    }

    /** Writes the complex cell at the write cursor and advances it, wrapping after csize cells. */
    method SetNextComplex(value: Complex) returns (status: int)
      requires Valid() && values != null && isTransformed && counterForSet < csize
      modifies this`counterForSet, values
      ensures Valid() && status == 0
      ensures values[..] == old(values[..])[2 * old(counterForSet) := value.re]
                                           [2 * old(counterForSet) + 1 := value.im]
      ensures counterForSet == NextCursor(old(counterForSet), csize)
    {
      var c := counterForSet;
      counterForSet := counterForSet + 1;
      if counterForSet == csize {
        counterForSet := 0;
      }
      values[2 * c] := value.re;
      values[2 * c + 1] := value.im;
      status := 0;
    }

    // ---- random access ----

    /** The buffer position of real cell (i, j, k) of the padded box. */
    function RealIndex(i: int, j: int, k: int): (r: int)
      requires Shape() && 0 <= i < rnxp && 0 <= j < nyp && 0 <= k < nzp
      ensures 0 <= r < rsize && r == Layout.FlatIndex(i, j, k, rnxp, nyp)
      ensures r % rnxp == i
    {
      Layout.FlatIndexBounds(i, j, k, rnxp, nyp, nzp);
      Layout.FlatIndexColumn(i, j, k, rnxp, nyp);
      Layout.FlatIndex(i, j, k, rnxp, nyp)
    }

    /** Whether a read sees cell (i, j, k): the logical box, or the padded box when extended. */
    predicate InReadRange(i: int, j: int, k: int, extended: bool)
      reads this
    {
      i > -1 && j > -1 && k > -1 &&
      if extended then i < nxp && j < nyp && k < nzp else i < nx && j < ny && k < nz
    }

    /** Whether a write reaches cell (i, j, k); the extended x bound is the full row rnxp. */
    predicate InWriteRange(i: int, j: int, k: int, extended: bool)
      reads this
    {
      i > -1 && j > -1 && k > -1 &&
      if extended then i < rnxp && j < nyp && k < nzp else i < nx && j < ny && k < nz
    }

    /** The real at (i, j, k), or RMISSING outside the (extended) box. */
    function GetRealValue(i: int, j: int, k: int, extended: bool): (r: real)
      reads this, values
      requires Valid() && values != null
      ensures InReadRange(i, j, k, extended) ==> r == values[RealIndex(i, j, k)]
      ensures !InReadRange(i, j, k, extended) ==> r == RMISSING
    {
      if InReadRange(i, j, k, extended) then values[RealIndex(i, j, k)] else RMISSING
    }

    /** Stores value at (i, j, k) and returns 0, or returns 1 and changes nothing out of range. */
    method SetRealValue(i: int, j: int, k: int, value: real, extended: bool) returns (status: int)
      requires Valid() && values != null && !isTransformed
      modifies values
      ensures InWriteRange(i, j, k, extended) ==>
                status == 0 && values[..] == old(values[..])[RealIndex(i, j, k) := value]
      ensures !InWriteRange(i, j, k, extended) ==> status == 1 && values[..] == old(values[..])
    {
      if InWriteRange(i, j, k, extended) {
        values[RealIndex(i, j, k)] := value;
        status := 0;
      } else {
        status := 1;
      }
    }
    /**
     * The guard of the complex accessors, corrected: the bounds of the real
     * box and, in addition, a position inside the complex row.
     */
    predicate InComplexRange(i: int, j: int, k: int, extended: bool)
      reads this
    {
      ComplexGuardAsWritten(i, j, k, nx, ny, nz, nxp, nyp, nzp, extended) && i < cnxp
    }

    /** The complex cell number of (i, j, k). */
    function ComplexIndex(i: int, j: int, k: int): (r: int)
      requires Shape() && 0 <= i < cnxp && 0 <= j < nyp && 0 <= k < nzp
      ensures 0 <= r < csize && r == Layout.FlatIndex(i, j, k, cnxp, nyp)
      ensures r % cnxp == i
    {
      Layout.FlatIndexBounds(i, j, k, cnxp, nyp, nzp);
      Layout.FlatIndexColumn(i, j, k, cnxp, nyp);
      Layout.FlatIndex(i, j, k, cnxp, nyp)
    }

    /** The spectral cell at (i, j, k), or (RMISSING, RMISSING) outside the (extended) box. */
    function GetComplexValue(i: int, j: int, k: int, extended: bool): (r: Complex)
      reads this, values
      requires Valid() && values != null && isTransformed
      ensures InComplexRange(i, j, k, extended) ==> r == ComplexAt(values[..], ComplexIndex(i, j, k))
      ensures !InComplexRange(i, j, k, extended) ==> r == Complex(RMISSING, RMISSING)
    {
      if InComplexRange(i, j, k, extended) then ComplexAt(values[..], ComplexIndex(i, j, k))
      else Complex(RMISSING, RMISSING)
    }

    /** Stores a spectral cell and returns 0, or returns 1 and changes nothing out of range. */
    method SetComplexValue(i: int, j: int, k: int, value: Complex, extended: bool) returns (status: int)
      requires Valid() && values != null && isTransformed
      modifies values
      ensures InComplexRange(i, j, k, extended) ==>
                status == 0 &&
                values[..] == old(values[..])[2 * ComplexIndex(i, j, k) := value.re]
                                             [2 * ComplexIndex(i, j, k) + 1 := value.im]
      ensures !InComplexRange(i, j, k, extended) ==> status == 1 && values[..] == old(values[..])
    {
      if InComplexRange(i, j, k, extended) {
        var c := ComplexIndex(i, j, k);
        values[2 * c] := value.re;
        values[2 * c + 1] := value.im;
        status := 0;
      } else {
        status := 1;
      }
    }

    /**
     * The real at (i, j, k) with negative indices counted back from the end
     * of the padded box, corrected to refuse indices that one wrap does not
     * bring into the box.
     */
    function GetRealValueCyclic(i: int, j: int, k: int): (r: real)
      reads this, values
      requires Valid() && values != null
      ensures 0 <= i < nxp && 0 <= j < nyp && 0 <= k < nzp ==> r == GetRealValue(i, j, k, true)
      ensures -nxp <= i < nxp && -nyp <= j < nyp && -nzp <= k < nzp ==>
                r == GetRealValue(WrapOnce(i, nxp), WrapOnce(j, nyp), WrapOnce(k, nzp), true)
      ensures !(-nxp <= i < nxp && -nyp <= j < nyp && -nzp <= k < nzp) ==> r == RMISSING
    {
      var i', j', k' := WrapOnce(i, nxp), WrapOnce(j, nyp), WrapOnce(k, nzp);
      if -nxp <= i < nxp && -nyp <= j < nyp && -nzp <= k < nzp then values[RealIndex(i', j', k')]
      else RMISSING
    }

    /**
     * The value at depth kindex between layers floor(kindex) and the next:
     * RMISSING when the lower cell is missing, the lower value when the upper
     * one is missing, and the linear blend otherwise.
     */
    function GetRealValueInterpolated(i: int, j: int, kindex: real, extended: bool): (r: real)
      reads this, values
      requires Valid() && values != null
      ensures GetRealValue(i, j, kindex.Floor, extended) == RMISSING ==> r == RMISSING
      ensures GetRealValue(i, j, kindex.Floor, extended) != RMISSING &&
              GetRealValue(i, j, kindex.Floor + 1, extended) == RMISSING ==>
                r == GetRealValue(i, j, kindex.Floor, extended)
      ensures GetRealValue(i, j, kindex.Floor, extended) != RMISSING ==>
                RealMin(GetRealValue(i, j, kindex.Floor, extended), GetRealValue(i, j, kindex.Floor + 1, extended)) <= r <=
                RealMax(GetRealValue(i, j, kindex.Floor, extended), GetRealValue(i, j, kindex.Floor + 1, extended))
      ensures kindex == kindex.Floor as real ==> r == GetRealValue(i, j, kindex.Floor, extended)
    {
      var k1 := kindex.Floor;
      var v1 := GetRealValue(i, j, k1, extended);
      if v1 == RMISSING then RMISSING
      else
        var v2 := GetRealValue(i, j, k1 + 1, extended);
        if v2 == RMISSING then v1 else Blend(v1, v2, kindex - k1 as real)
    }

    // ---- element-wise arithmetic ----

    /** Squares every cell of the current domain, keeping the sentinel. */
    method Square() returns (status: int)
      requires Valid() && values != null
      modifies values
      ensures status == 0
      ensures isTransformed ==> forall c :: 0 <= c < csize ==>
                ComplexAt(values[..], c) == SquareComplex(ComplexAt(old(values[..]), c))
      ensures !isTransformed ==> forall c :: 0 <= c < rsize ==> values[c] == SquareReal(old(values[c]))
    {
      if isTransformed {
        var i := 0;
        while i < csize
          invariant 0 <= i <= csize
          invariant forall c :: 0 <= c < i ==> ComplexAt(values[..], c) == SquareComplex(ComplexAt(old(values[..]), c))
          invariant forall t :: 2 * i <= t < rsize ==> values[t] == old(values[t])
        {
          var z := SquareComplex(Complex(values[2 * i], values[2 * i + 1]));
          values[2 * i] := z.re;
          values[2 * i + 1] := z.im;
          i := i + 1;
        }
      } else {
        var i := 0;
        while i < rsize
          invariant 0 <= i <= rsize
          invariant forall c :: 0 <= c < i ==> values[c] == SquareReal(old(values[c]))
          invariant forall c :: i <= c < rsize ==> values[c] == old(values[c])
        {
          values[i] := SquareReal(values[i]);
          i := i + 1;
        }
      }
      status := 0;
    }

    /** Replaces every present real by its exponential. */
    method ExpTransf(m: MathLib) returns (status: int)
      requires Valid() && values != null && !isTransformed
      modifies values
      ensures status == 0
      ensures forall c :: 0 <= c < rsize ==> values[c] == ExpReal(m, old(values[c]))
    {
      var i := 0;
      while i < rsize
        invariant 0 <= i <= rsize
        invariant forall c :: 0 <= c < i ==> values[c] == ExpReal(m, old(values[c]))
        invariant forall c :: i <= c < rsize ==> values[c] == old(values[c])
      {
        values[i] := ExpReal(m, values[i]);
        i := i + 1;
      }
      status := 0;
    }

    /** Replaces every positive real by its logarithm and everything else by 0. */
    method LogTransf(m: MathLib) returns (status: int)
      requires Valid() && values != null && !isTransformed
      modifies values
      ensures status == 0
      ensures forall c :: 0 <= c < rsize ==> values[c] == LogReal(m, old(values[c]))
    {
      var i := 0;
      while i < rsize
        invariant 0 <= i <= rsize
        invariant forall c :: 0 <= c < i ==> values[c] == LogReal(m, old(values[c]))
        invariant forall c :: i <= c < rsize ==> values[c] == old(values[c])
      {
        values[i] := LogReal(m, values[i]);
        i := i + 1;
      }
      status := 0;
    }

    /**
     * Whether other can be combined with this grid cell by cell: the same
     * row length, and a buffer at least as long as this one.
     */
    predicate Combinable(other: FftGrid)
      reads this, other
    {
      other.nxp == nxp && other.values != null && values != null && other.values.Length >= rsize
    }

    /** Adds other cell by cell in the current domain of this grid; the sentinel gets no special case. */
    method Add(other: FftGrid)
      requires Valid() && Combinable(other)
      modifies values
      ensures forall c :: 0 <= c < rsize ==> values[c] == old(values[c]) + old(other.values[c])
    {
      // Both domains add the same reals: the real and imaginary parts of
      // complex cell c are reals 2c and 2c+1.
      if isTransformed {
        var i := 0;
        while i < csize
          invariant 0 <= i <= csize
          invariant forall t :: 0 <= t < 2 * i ==> values[t] == old(values[t]) + old(other.values[t])
          invariant forall t :: 2 * i <= t < rsize ==> values[t] == old(values[t])
          invariant forall t :: 0 <= t < other.values.Length && (other.values != values || t >= 2 * i) ==>
                      other.values[t] == old(other.values[t])
        {
          values[2 * i] := values[2 * i] + other.values[2 * i];
          values[2 * i + 1] := values[2 * i + 1] + other.values[2 * i + 1];
          i := i + 1;
        }
      } else {
        var i := 0;
        while i < rsize
          invariant 0 <= i <= rsize
          invariant forall t :: 0 <= t < i ==> values[t] == old(values[t]) + old(other.values[t])
          invariant forall t :: i <= t < rsize ==> values[t] == old(values[t])
          invariant forall t :: 0 <= t < other.values.Length && (other.values != values || t >= i) ==>
                      other.values[t] == old(other.values[t])
        {
          values[i] := values[i] + other.values[i];
          i := i + 1;
        }
      }
    }

    /** Subtracts other cell by cell in the current domain of this grid. */
    method Subtract(other: FftGrid)
      requires Valid() && Combinable(other)
      modifies values
      ensures forall c :: 0 <= c < rsize ==> values[c] == old(values[c]) - old(other.values[c])
    {
      if isTransformed {
        var i := 0;
        while i < csize
          invariant 0 <= i <= csize
          invariant forall t :: 0 <= t < 2 * i ==> values[t] == old(values[t]) - old(other.values[t])
          invariant forall t :: 2 * i <= t < rsize ==> values[t] == old(values[t])
          invariant forall t :: 0 <= t < other.values.Length && (other.values != values || t >= 2 * i) ==>
                      other.values[t] == old(other.values[t])
        {
          values[2 * i] := values[2 * i] - other.values[2 * i];
          values[2 * i + 1] := values[2 * i + 1] - other.values[2 * i + 1];
          i := i + 1;
        }
      } else {
        var i := 0;
        while i < rsize
          invariant 0 <= i <= rsize
          invariant forall t :: 0 <= t < i ==> values[t] == old(values[t]) - old(other.values[t])
          invariant forall t :: i <= t < rsize ==> values[t] == old(values[t])
          invariant forall t :: 0 <= t < other.values.Length && (other.values != values || t >= i) ==>
                      other.values[t] == old(other.values[t])
        {
          values[i] := values[i] - other.values[i];
          i := i + 1;
        }
      }
    }

    /** Adds a constant to every real. */
    method AddScalar(scalar: real)
      requires Valid() && values != null && !isTransformed
      modifies values
      ensures forall c :: 0 <= c < rsize ==> values[c] == old(values[c]) + scalar
    {
      var i := 0;
      while i < rsize
        invariant 0 <= i <= rsize
        invariant forall c :: 0 <= c < i ==> values[c] == old(values[c]) + scalar
        invariant forall c :: i <= c < rsize ==> values[c] == old(values[c])
      {
        values[i] := values[i] + scalar;
        i := i + 1;
      }
    }

    /** Negates every cell of the current domain. */
    method ChangeSign()
      requires Valid() && values != null
      modifies values
      ensures forall c :: 0 <= c < rsize ==> values[c] == -old(values[c])
    {
      if isTransformed {
        var i := 0;
        while i < csize
          invariant 0 <= i <= csize
          invariant forall t :: 0 <= t < 2 * i ==> values[t] == -old(values[t])
          invariant forall t :: 2 * i <= t < rsize ==> values[t] == old(values[t])
        {
          values[2 * i] := -values[2 * i];
          values[2 * i + 1] := -values[2 * i + 1];
          i := i + 1;
        }
      } else {
        var i := 0;
        while i < rsize
          invariant 0 <= i <= rsize
          invariant forall t :: 0 <= t < i ==> values[t] == -old(values[t])
          invariant forall t :: i <= t < rsize ==> values[t] == old(values[t])
        {
          values[i] := -values[i];
          i := i + 1;
        }
      }
    }

    /**
     * Multiplies by other cell by cell: a complex product in the spectral
     * domain, a real product otherwise. When other shares this buffer the
     * spectral branch reads the real part it has just written.
     */
    method Multiply(other: FftGrid)
      requires Valid() && Combinable(other)
      modifies values
      ensures isTransformed && other.values != values ==> forall c :: 0 <= c < csize ==>
                ComplexAt(values[..], c) == Product(ComplexAt(old(other.values[..]), c), ComplexAt(old(values[..]), c))
      ensures isTransformed && other.values == values ==> forall c :: 0 <= c < csize ==>
                ComplexAt(values[..], c) == SelfProductAsWritten(ComplexAt(old(values[..]), c))
      ensures !isTransformed ==> forall c :: 0 <= c < rsize ==> values[c] == old(values[c]) * old(other.values[c])
    {
      if isTransformed {
        if other.values == values {
          SelfMultiplySpectral();
        } else {
          MultiplySpectral(other.values);
        }
      } else {
        var i := 0;
        while i < rsize
          invariant 0 <= i <= rsize
          invariant forall t :: 0 <= t < i ==> values[t] == old(values[t]) * old(other.values[t])
          invariant forall t :: i <= t < rsize ==> values[t] == old(values[t])
          invariant forall t :: 0 <= t < other.values.Length && (other.values != values || t >= i) ==>
                      other.values[t] == old(other.values[t])
        {
          values[i] := values[i] * other.values[i];
          i := i + 1;
        }
      }
    }

    /** The spectral loop of multiply when the factor is another buffer. */
    method MultiplySpectral(factor: array<real>)
      requires Valid() && values != null && factor != values && factor.Length >= rsize
      modifies values
      ensures forall c :: 0 <= c < csize ==>
                ComplexAt(values[..], c) == Product(ComplexAt(factor[..], c), ComplexAt(old(values[..]), c))
    {
      var i := 0;
      while i < csize
        invariant 0 <= i <= csize
        invariant forall c :: 0 <= c < i ==>
                    ComplexAt(values[..], c) == Product(ComplexAt(factor[..], c), ComplexAt(old(values[..]), c))
        invariant forall t :: 2 * i <= t < rsize ==> values[t] == old(values[t])
      {
        var tre, tim := values[2 * i], values[2 * i + 1];
        values[2 * i] := factor[2 * i] * tre - factor[2 * i + 1] * tim;
        values[2 * i + 1] := factor[2 * i + 1] * tre + factor[2 * i] * tim;
        i := i + 1;
      }
    }

    /** The spectral loop of multiply when the factor is this grid's own buffer. */
    method SelfMultiplySpectral()
      requires Valid() && values != null
      modifies values
      ensures forall c :: 0 <= c < csize ==>
                ComplexAt(values[..], c) == SelfProductAsWritten(ComplexAt(old(values[..]), c))
    {
      var i := 0;
      while i < csize
        invariant 0 <= i <= csize
        invariant forall c :: 0 <= c < i ==>
                    ComplexAt(values[..], c) == SelfProductAsWritten(ComplexAt(old(values[..]), c))
        invariant forall t :: 2 * i <= t < rsize ==> values[t] == old(values[t])
      {
        var tre, tim := values[2 * i], values[2 * i + 1];
        values[2 * i] := values[2 * i] * tre - values[2 * i + 1] * tim;
        values[2 * i + 1] := values[2 * i + 1] * tre + values[2 * i] * tim;
        i := i + 1;
      }
    }

    /** Conjugates every spectral cell. */
    method Conjugate()
      requires Valid() && values != null && isTransformed
      modifies values
      ensures forall c :: 0 <= c < csize ==> ComplexAt(values[..], c) == Conj(ComplexAt(old(values[..]), c))
    {
      var i := 0;
      while i < csize
        invariant 0 <= i <= csize
        invariant forall c :: 0 <= c < i ==> ComplexAt(values[..], c) == Conj(ComplexAt(old(values[..]), c))
        invariant forall t :: 2 * i <= t < rsize ==> values[t] == old(values[t])
      {
        values[2 * i + 1] := -values[2 * i + 1];
        i := i + 1;
      }
    }

    /** Multiplies every real by a constant. */
    method MultiplyByScalar(scalar: real)
      requires Valid() && values != null && !isTransformed
      modifies values
      ensures values[..] == Scaled(old(values[..]), scalar)
    {
      var i := 0;
      while i < rsize
        invariant 0 <= i <= rsize
        invariant forall c :: 0 <= c < i ==> values[c] == old(values[c]) * scalar
        invariant forall c :: i <= c < rsize ==> values[c] == old(values[c])
      {
        values[i] := values[i] * scalar;
        i := i + 1;
      }
      assert forall c :: 0 <= c < rsize ==> values[..][c] == Scaled(old(values[..]), scalar)[c];
    }

    /** Replaces every spectral cell by the absolute value of its real part. */
    method RealAbs(m: MathLib)
      requires Valid() && values != null && isTransformed
      modifies values
      ensures forall c :: 0 <= c < csize ==> ComplexAt(values[..], c) == RealAbsCell(m, ComplexAt(old(values[..]), c))
    {
      var i := 0;
      while i < csize
        invariant 0 <= i <= csize
        invariant forall c :: 0 <= c < i ==> ComplexAt(values[..], c) == RealAbsCell(m, ComplexAt(old(values[..]), c))
        invariant forall t :: 2 * i <= t < rsize ==> values[t] == old(values[t])
      {
        var z := RealAbsCell(m, Complex(values[2 * i], values[2 * i + 1]));
        values[2 * i] := z.re;
        values[2 * i + 1] := z.im;
        i := i + 1;
      }
    }
    // ---- transforms ----

    /** The number of cells of the padded box, the factor of the unnormalised inverse law. */
    function BoxCells(): (r: real)
      requires Shape()
      ensures r >= 1.0
    {
      Layout.MulLe(nyp, 1, nxp);
      Layout.MulLe(nzp, 1, nxp * nyp);
      (nxp * nyp * nzp) as real
    }

    /** Overwrites the buffer with img. */
    method Store(img: seq<real>)
      requires values != null && |img| == values.Length
      modifies values
      ensures values[..] == img
    {
      var i := 0;
      while i < values.Length
        invariant 0 <= i <= values.Length
        invariant forall c :: 0 <= c < i ==> values[c] == img[c]
      {
        values[i] := img[i];
        i := i + 1;
      }
    }

    /**
     * Transforms the real grid to the spectral domain in place, scaling by
     * 1/sqrt(N) first unless the cube holds a covariance.
     */
    method FftInPlace(t: Transform3D, m: MathLib)
      requires Valid() && values != null && !isTransformed && cubeType != CtMissing
      requires KeepsLength(t, rsize)
      requires cubeType != Covariance ==> m.sqrt(BoxCells()) != 0.0
      modifies values, this`isTransformed
      ensures Valid() && isTransformed
      ensures values[..] == ForwardImage(t, m, cubeType, BoxCells(), old(values[..]))
    {
      if cubeType != Covariance {
        MultiplyByScalar(1.0 / m.sqrt(BoxCells()));
      }
      Store(t.forward(values[..]));
      isTransformed := true;
    }

    /**
     * Transforms the spectral grid back to the real domain in place, then
     * scales by 1/N for a covariance and by 1/sqrt(N) otherwise.
     */
    method InvFftInPlace(t: Transform3D, m: MathLib)
      requires Valid() && values != null && isTransformed && cubeType != CtMissing
      requires KeepsLength(t, rsize)
      requires cubeType != Covariance ==> m.sqrt(BoxCells()) != 0.0
      modifies values, this`isTransformed
      ensures Valid() && !isTransformed
      ensures values[..] == InverseImage(t, m, cubeType, BoxCells(), old(values[..]))
    {
      var scale := if cubeType == Covariance then 1.0 / BoxCells() else 1.0 / m.sqrt(BoxCells());
      Store(t.backward(values[..]));
      isTransformed := false;
      MultiplyByScalar(scale);
    }

    /**
     * For a grid of this shape, given the transform law, transforming a real
     * buffer and back restores every cell of the box (x position below nxp).
     */
    lemma FftRoundTrip(t: Transform3D, m: MathLib, f: seq<real>)
      requires Valid() && InverseLaw(t, rsize, rnxp, nxp, BoxCells()) && |f| == rsize
      requires cubeType != Covariance ==> SqrtExact(m, BoxCells())
      ensures |InverseImage(t, m, cubeType, BoxCells(), ForwardImage(t, m, cubeType, BoxCells(), f))| == rsize
      ensures forall i, j, k :: 0 <= i < nxp && 0 <= j < nyp && 0 <= k < nzp ==>
                InverseImage(t, m, cubeType, BoxCells(), ForwardImage(t, m, cubeType, BoxCells(), f))[RealIndex(i, j, k)] ==
                f[RealIndex(i, j, k)]
    {
      TransformRoundTrip(t, m, cubeType, BoxCells(), rsize, rnxp, nxp, f);
    }

    // ---- fills ----

    /** The value fillInConstant leaves at buffer position c: the constant in the box, RMISSING in the row padding. */
    function ConstantFill(value: real, c: int): (r: real)
      requires Shape()
    {
      if c % rnxp < nxp then value else RMISSING
    }

    /**
     * Creates the real grid and writes value into every cell whose x position
     * is below nxp and RMISSING into the rest of each row, through the write
     * cursor, which ends where it started.
     */
    method FillInConstant(value: real, add: bool, reg: GridRegistry) returns (ok: bool)
      requires Valid()
      modifies this, reg
      ensures Valid() && values != null && fresh(values) && !isTransformed && counted == add
      ensures ok ==> counterForSet == 0 &&
                     forall c :: 0 <= c < rsize ==> values[c] == ConstantFill(value, c)
      ensures !ok ==> reg.nGrids > reg.maxAllowedGrids && reg.terminateOnMaxGrid
    {
      ok := CreateRealGrid(add, reg);
      if !ok {
        return;
      }
      var k := 0;
      while k < nzp
        invariant 0 <= k <= nzp && Valid() && values != null && fresh(values) && !isTransformed && counted == add
        invariant counterForSet == WriteCursor(Layout.FlatIndex(0, 0, k, rnxp, nyp))
        invariant forall c :: 0 <= c < Layout.FlatIndex(0, 0, k, rnxp, nyp) ==> values[c] == ConstantFill(value, c)
      {
        var j := 0;
        while j < nyp
          invariant 0 <= j <= nyp && Valid() && values != null && fresh(values) && !isTransformed && counted == add
          invariant counterForSet == WriteCursor(Layout.FlatIndex(0, j, k, rnxp, nyp))
          invariant forall c :: 0 <= c < Layout.FlatIndex(0, j, k, rnxp, nyp) ==> values[c] == ConstantFill(value, c)
        {
          var i := 0;
          while i < rnxp
            invariant 0 <= i <= rnxp && Valid() && values != null && fresh(values) && !isTransformed && counted == add
            invariant counterForSet == WriteCursor(Layout.FlatIndex(i, j, k, rnxp, nyp))
            invariant forall c :: 0 <= c < Layout.FlatIndex(i, j, k, rnxp, nyp) ==> values[c] == ConstantFill(value, c)
          {
            ghost var pos := RealIndex(i, j, k);
            var status;
            if i < nxp {
              status := SetNextReal(value);
            } else {
              status := SetNextReal(RMISSING);
            }
            assert values[pos] == ConstantFill(value, pos);
            i := i + 1;
          }
          RowEnd(j, k);
          j := j + 1;
        }
        PlaneEnd(k);
        k := k + 1;
      }
      BoxEnd();
    }

    /** Where the write cursor stands after pos sequential writes from 0, pos at most rsize. */
    function WriteCursor(pos: int): int
      reads this
    {
      if pos == rsize then 0 else pos
    }

    lemma RowEnd(j: int, k: int)
      ensures Layout.FlatIndex(rnxp, j, k, rnxp, nyp) == Layout.FlatIndex(0, j + 1, k, rnxp, nyp)
    {
      assert rnxp * (j + 1) == rnxp * j + rnxp;
    }

    lemma PlaneEnd(k: int)
      ensures Layout.FlatIndex(0, nyp, k, rnxp, nyp) == Layout.FlatIndex(0, 0, k + 1, rnxp, nyp)
    {
      assert (k + 1) * rnxp * nyp == k * rnxp * nyp + rnxp * nyp;
    }

    lemma BoxEnd()
      requires Shape()
      ensures Layout.FlatIndex(0, 0, nzp, rnxp, nyp) == rsize
    {
      Layout.ProductAssoc(nzp, rnxp, nyp);
    }
    // ---- statistics ----

    /** The logical box of buffer s in scan order. */
    function Logical(s: seq<real>): (r: seq<real>)
      requires Shape() && |s| == rsize
      ensures |r| == nx * ny * nz
    {
      Layout.LogicalValues(s, nx, ny, nz, rnxp, nyp, nzp)
    }

    /** Cell (i, j, k) of the logical box is entry i + nx*j + nx*ny*k of the scan. */
    lemma LogicalAt(s: seq<real>, i: int, j: int, k: int)
      requires Shape() && |s| == rsize && 0 <= i < nx && 0 <= j < ny && 0 <= k < nz
      ensures 0 <= Layout.FlatIndex(i, j, k, nx, ny) < |Logical(s)|
      ensures Logical(s)[Layout.FlatIndex(i, j, k, nx, ny)] == s[RealIndex(i, j, k)]
    {
      Layout.LogicalValuesAt(s, nx, ny, nz, rnxp, nyp, nzp, i, j, k);
    }

    /**
     * Scans the logical box, skipping RMISSING, and records the least and
     * largest value and the mean. With nothing present the extrema stay at
     * their infinite seeds and the mean at 0.
     */
    method CalculateStatistics()
      requires Valid() && values != null
      modifies this`rValMin, this`rValMax, this`rValAvg
      ensures rValMin == Stats.MinPresent(Logical(values[..]))
      ensures rValMax == Stats.MaxPresent(Logical(values[..]))
      ensures rValAvg == (if Stats.CountPresent(Logical(values[..])) > 0
                          then Stats.SumPresent(Logical(values[..])) / Stats.CountPresent(Logical(values[..])) as real
                          else 0.0)
    {
      var count, sum;
      rValMin, rValMax, count, sum := ScanLogicalBox();
      rValAvg := 0.0;
      if count > 0 {
        rValAvg := sum / count as real;
      }
    }

    /**
     * The scan of calculateStatistics: the running minimum and maximum of the
     * present values, their number, and their sum accumulated per row, per
     * plane and in total.
     */
    method ScanLogicalBox() returns (lo: ExtReal, hi: ExtReal, count: int, sumXyz: real)
      requires Valid() && values != null
      ensures lo == Stats.MinPresent(Logical(values[..])) && hi == Stats.MaxPresent(Logical(values[..]))
      ensures count == Stats.CountPresent(Logical(values[..])) && sumXyz == Stats.SumPresent(Logical(values[..]))
    {
      ghost var lv := Logical(values[..]);
      lo, hi := PosInfinity, NegInfinity;
      count := 0;
      sumXyz := 0.0;
      // pos counts the cells scanned so far, the position in scan order.
      ghost var pos := 0;
      assert lv[..pos] == [];
      var k := 0;
      while k < nz
        invariant 0 <= k <= nz && pos == Layout.FlatIndex(0, 0, k, nx, ny) && pos <= |lv|
        invariant lo == Stats.MinPresent(lv[..pos]) && hi == Stats.MaxPresent(lv[..pos])
        invariant count == Stats.CountPresent(lv[..pos]) && sumXyz == Stats.SumPresent(lv[..pos])
      {
        ghost var plane := pos;
        Layout.ScanWithin(0, 0, k, nx, ny, nz);
        var sumXy := 0.0;
        assert lv[plane..pos] == [];
        var j := 0;
        while j < ny
          invariant 0 <= j <= ny && pos == Layout.FlatIndex(0, j, k, nx, ny) && plane <= pos <= |lv|
          invariant lo == Stats.MinPresent(lv[..pos]) && hi == Stats.MaxPresent(lv[..pos])
          invariant count == Stats.CountPresent(lv[..pos]) && sumXy == Stats.SumPresent(lv[plane..pos])
        {
          ghost var row := pos;
          Layout.ScanWithin(nx, j, k, nx, ny, nz);
          var sumX;
          lo, hi, count, sumX := ScanRow(j, k, lv, row, lo, hi, count);
          pos := pos + nx;
          RowScanned(lv, plane, row, pos);
          sumXy := sumXy + sumX;
          Layout.RowEnd(j, k, nx, ny);
          if j + 1 < ny {
            Layout.ScanWithin(0, j + 1, k, nx, ny, nz);
          }
          j := j + 1;
        }
        RowScanned(lv, 0, plane, pos);
        sumXyz := sumXyz + sumXy;
        Layout.PlaneEnd(k, nx, ny);
        k := k + 1;
      }
      Layout.ScanEnd(nx, ny, nz);
      assert lv[..pos] == lv;
    }

    /**
     * The innermost loop of the scan, over row j of plane k: the running
     * statistics extend over the row's cells, and sumX is the row's sum.
     */
    method ScanRow(j: int, k: int, ghost lv: seq<real>, ghost row: int, lo0: ExtReal, hi0: ExtReal, count0: int)
      returns (lo: ExtReal, hi: ExtReal, count: int, sumX: real)
      requires Valid() && values != null && lv == Logical(values[..])
      requires 0 <= j < ny && 0 <= k < nz && row == Layout.FlatIndex(0, j, k, nx, ny)
      requires 0 <= row && row + nx <= |lv|
      requires lo0 == Stats.MinPresent(lv[..row]) && hi0 == Stats.MaxPresent(lv[..row])
      requires count0 == Stats.CountPresent(lv[..row])
      ensures lo == Stats.MinPresent(lv[..row + nx]) && hi == Stats.MaxPresent(lv[..row + nx])
      ensures count == Stats.CountPresent(lv[..row + nx]) && sumX == Stats.SumPresent(lv[row..row + nx])
    {
      lo, hi, count := lo0, hi0, count0;
      sumX := 0.0;
      assert lv[row..row] == [];
      ghost var pos := row;
      for i := 0 to nx
        invariant pos == row + i
        invariant lo == Stats.MinPresent(lv[..pos]) && hi == Stats.MaxPresent(lv[..pos])
        invariant count == Stats.CountPresent(lv[..pos]) && sumX == Stats.SumPresent(lv[row..pos])
      {
        var value := GetRealValue(i, j, k, false);
        LogicalAt(values[..], i, j, k);
        lo, hi, count, sumX := ScanCell(lv, row, pos, pos + 1, value, lo, hi, count, sumX);
        pos := pos + 1;
      }
    }

    /** A finished row (or plane) adds its sum to the enclosing one. */
    lemma RowScanned(lv: seq<real>, a: int, b: int, c: int)
      requires 0 <= a <= b <= c <= |lv|
      ensures Stats.SumPresent(lv[a..c]) == Stats.SumPresent(lv[a..b]) + Stats.SumPresent(lv[b..c])
    {
      assert lv[a..c] == lv[a..b] + lv[b..c];
      Stats.SumPresentAppend(lv[a..b], lv[b..c]);
    }

    /**
     * What the recorded statistics mean for the cells: the minimum and
     * maximum are values of the logical box and bound all of its present
     * values, and the mean lies between them.
     */
    lemma StatisticsMeaning(s: seq<real>)
      requires Shape() && |s| == rsize && Stats.CountPresent(Logical(s)) > 0
      ensures Stats.MinPresent(Logical(s)).Finite? && Stats.MaxPresent(Logical(s)).Finite?
      ensures forall i, j, k :: 0 <= i < nx && 0 <= j < ny && 0 <= k < nz && s[RealIndex(i, j, k)] != RMISSING ==>
                Stats.MinPresent(Logical(s)).v <= s[RealIndex(i, j, k)] <= Stats.MaxPresent(Logical(s)).v
      ensures exists i, j, k :: 0 <= i < nx && 0 <= j < ny && 0 <= k < nz && s[RealIndex(i, j, k)] == Stats.MinPresent(Logical(s)).v
      ensures Stats.MinPresent(Logical(s)).v <= Stats.SumPresent(Logical(s)) / Stats.CountPresent(Logical(s)) as real
                <= Stats.MaxPresent(Logical(s)).v
    {
      var lv := Logical(s);
      Stats.MeanBetweenExtremes(lv);
      Stats.MinPresentIsLeast(lv);
      Stats.MaxPresentIsGreatest(lv);
      forall i, j, k | 0 <= i < nx && 0 <= j < ny && 0 <= k < nz && s[RealIndex(i, j, k)] != RMISSING
        ensures Stats.MinPresent(lv).v <= s[RealIndex(i, j, k)] <= Stats.MaxPresent(lv).v
      {
        LogicalAt(s, i, j, k);
        assert Stats.IsPresentAt(lv, Layout.FlatIndex(i, j, k, nx, ny));
      }
      var t :| Stats.IsPresentAt(lv, t) && lv[t] == Stats.MinPresent(lv).v;
      Layout.ScanDecode(t, nx, ny, nz);
      var i, j, k := t % nx, (t / nx) % ny, (t / nx) / ny;
      LogicalAt(s, i, j, k);
      assert lv[t] == s[RealIndex(i, j, k)];
    }

    // ---- traces ----

    /** Whether buffer position c lies on trace (i, j): column i of row j in some layer. */
    predicate OnTrace(c: int, i: int, j: int)
      requires Shape()
    {
      c % rnxp == i && (c / rnxp) % nyp == j
    }

    /** Cell (i, j, k) lies on trace (i', j') exactly when (i, j) is (i', j'). */
    lemma RealIndexOnTrace(i: int, j: int, k: int, i': int, j': int)
      requires Shape() && 0 <= i < rnxp && 0 <= j < nyp && 0 <= k < nzp
      ensures OnTrace(RealIndex(i, j, k), i', j') <==> i == i' && j == j'
    {
      Layout.ProductAssoc(k, rnxp, nyp);
      assert RealIndex(i, j, k) == i + rnxp * (j + nyp * k);
      Layout.DivModRow(i, j + nyp * k, rnxp);
      Layout.DivModRow(j, k, nyp);
    }

    /** Distinct layers of a trace are distinct buffer positions. */
    lemma TraceLayersDistinct(i: int, j: int, k: int, k': int)
      requires Shape() && 0 <= i < rnxp && 0 <= j < nyp && 0 <= k < nzp && 0 <= k' < nzp && k != k'
      ensures RealIndex(i, j, k) != RealIndex(i, j, k')
    {
      if RealIndex(i, j, k) == RealIndex(i, j, k') {
        Layout.FlatIndexInjective(i, j, k, i, j, k', rnxp, nyp);
      }
    }

    /**
     * Writes trace[k] into layer k of trace (i, j) for every layer of the
     * padded box. A trace outside the extended box is not written.
     */
    method SetTrace(trace: seq<real>, i: int, j: int)
      requires Valid() && values != null && !isTransformed && |trace| >= nzp
      modifies values
      ensures 0 <= i < rnxp && 0 <= j < nyp ==>
                forall k :: 0 <= k < nzp ==> values[RealIndex(i, j, k)] == trace[k]
      ensures forall c :: 0 <= c < rsize && !OnTrace(c, i, j) ==> values[c] == old(values[c])
      ensures !(0 <= i < rnxp && 0 <= j < nyp) ==> values[..] == old(values[..])
    {
      var k := 0;
      while k < nzp
        invariant 0 <= k <= nzp
        invariant 0 <= i < rnxp && 0 <= j < nyp ==>
                    forall k' :: 0 <= k' < k ==> values[RealIndex(i, j, k')] == trace[k']
        invariant forall c :: 0 <= c < rsize && !OnTrace(c, i, j) ==> values[c] == old(values[c])
        invariant !(0 <= i < rnxp && 0 <= j < nyp) ==> values[..] == old(values[..])
      {
        ghost var before := values[..];
        var status := SetRealValue(i, j, k, trace[k], true);
        if 0 <= i < rnxp && 0 <= j < nyp {
          RealIndexOnTrace(i, j, k, i, j);
          forall k' | 0 <= k' < k ensures values[RealIndex(i, j, k')] == trace[k'] {
            TraceLayersDistinct(i, j, k, k');
          }
        }
        k := k + 1;
      }
    }

    /** Writes value into every layer of trace (i, j) of the padded box. */
    method SetTraceConstant(value: real, i: int, j: int)
      requires Valid() && values != null && !isTransformed
      modifies values
      ensures 0 <= i < rnxp && 0 <= j < nyp ==>
                forall k :: 0 <= k < nzp ==> values[RealIndex(i, j, k)] == value
      ensures forall c :: 0 <= c < rsize && !OnTrace(c, i, j) ==> values[c] == old(values[c])
      ensures !(0 <= i < rnxp && 0 <= j < nyp) ==> values[..] == old(values[..])
    {
      var k := 0;
      while k < nzp
        invariant 0 <= k <= nzp
        invariant 0 <= i < rnxp && 0 <= j < nyp ==>
                    forall k' :: 0 <= k' < k ==> values[RealIndex(i, j, k')] == value
        invariant forall c :: 0 <= c < rsize && !OnTrace(c, i, j) ==> values[c] == old(values[c])
        invariant !(0 <= i < rnxp && 0 <= j < nyp) ==> values[..] == old(values[..])
      {
        var status := SetRealValue(i, j, k, value, true);
        if 0 <= i < rnxp && 0 <= j < nyp {
          RealIndexOnTrace(i, j, k, i, j);
          forall k' | 0 <= k' < k ensures values[RealIndex(i, j, k')] == value {
            TraceLayersDistinct(i, j, k, k');
          }
        }
        k := k + 1;
      }
    }

    // ---- resampling a trace onto the grid ----

    /** The position, in steps of the fine trace, of the depth of grid layer k. */
    function FinePosition(k: int, z0Grid: real, dzGrid: real, z0Data: real, dzFine: real): real
      requires Shape() && dzFine != 0.0
    {
      ((z0Grid - z0Data) + ZSimboxIndex(k) as real * dzGrid) * (1.0 / dzFine)
    }

    /**
     * Fills a grid trace from a finely sampled data trace: layer k takes the
     * fine value at the depth of its simbox layer, which for the padding
     * layers at the bottom of the grid lies above the top of the box.
     */
    method InterpolateGridValues(gridTrace: array<real>, z0Grid: real, dzGrid: real, fine: seq<real>,
                                 z0Data: real, dzFine: real, nFine: int)
      requires Shape() && dzFine != 0.0 && 0 < |fine| && nFine <= |fine|
      modifies gridTrace
      ensures forall k :: 0 <= k < gridTrace.Length ==>
                gridTrace[k] == FineSample(fine, nFine, FinePosition(k, z0Grid, dzGrid, z0Data, dzFine))
    {
      var z0Shift := z0Grid - z0Data;
      var invDzFine := 1.0 / dzFine;
      for k := 0 to gridTrace.Length
        invariant forall t :: 0 <= t < k ==>
                    gridTrace[t] == FineSample(fine, nFine, FinePosition(t, z0Grid, dzGrid, z0Data, dzFine))
      {
        var refk := ZSimboxIndex(k);
        var dl := (z0Shift + refk as real * dzGrid) * invDzFine;
        assert dl == FinePosition(k, z0Grid, dzGrid, z0Data, dzFine);
        gridTrace[k] := SampleFine(fine, nFine, dl);
      }
    }

    /** A layer in the box lies at its own depth index, counted from the top of the fine trace. */
    lemma FinePositionInBox(k: int, z0Grid: real, dzGrid: real, z0Data: real, dzFine: real)
      requires Shape() && dzFine != 0.0 && 0 <= k < nz
      ensures FinePosition(k, z0Grid, dzGrid, z0Data, dzFine) == (z0Grid - z0Data + k as real * dzGrid) / dzFine
    {
    }

    // ---- filling a dead trace from its neighbours ----

    /**
     * The neighbours of trace (i, j), flag index i + nx*j, that hold data:
     * those inside the box whose flag is even.
     */
    function NeighboursOf(fl: seq<int>, index: int, i: int, j: int): Neighbours
      requires Shape() && |fl| == nx * ny && 0 <= i < nx && 0 <= j < ny && index == i + nx * j
    {
      RowNeighbours(i, j);
      Neighbours(i > 0 && fl[index - 1] % 2 == 0,
                 i < nx - 1 && fl[index + 1] % 2 == 0,
                 j > 0 && fl[index - nx] % 2 == 0,
                 j < ny - 1 && fl[index + nx] % 2 == 0)
    }

    lemma RowNeighbours(i: int, j: int)
      requires Shape() && 0 <= i < nx && 0 <= j < ny
      ensures 0 <= i + nx * j < nx * ny
      ensures j > 0 ==> 0 <= i + nx * j - nx
      ensures j < ny - 1 ==> i + nx * j + nx < nx * ny
    {
      Layout.RowNeighbourBounds(i, j, nx, ny);
    }

    /** The value layer k of the n-th neighbour (left, right, up, down) adds to the sum, 0 when unused. */
    function NeighbourTerm(s: seq<real>, nb: Neighbours, i: int, j: int, k: int, n: int): real
      requires Shape() && |s| == rsize && 0 <= i < nx && 0 <= j < ny && 0 <= k < nzp
    {
      if n == 1 then (if nb.left && 0 < i then s[RealIndex(i - 1, j, k)] else 0.0)
      else if n == 2 then (if nb.right && i + 1 < nx then s[RealIndex(i + 1, j, k)] else 0.0)
      else if n == 3 then (if nb.up && 0 < j then s[RealIndex(i, j - 1, k)] else 0.0)
      else if n == 4 then (if nb.down && j + 1 < ny then s[RealIndex(i, j + 1, k)] else 0.0)
      else 0.0
    }

    /** The sum over layer k of the first n of the used neighbours. */
    function NeighbourSum(s: seq<real>, nb: Neighbours, i: int, j: int, k: int, n: nat): real
      requires Shape() && |s| == rsize && 0 <= i < nx && 0 <= j < ny && 0 <= k < nzp
    {
      if n == 0 then 0.0 else NeighbourSum(s, nb, i, j, k, n - 1) + NeighbourTerm(s, nb, i, j, k, n)
    }

    /** The interpolated value of layer k: the mean of the used neighbours. */
    function NeighbourMean(s: seq<real>, nb: Neighbours, i: int, j: int, k: int): real
      requires Shape() && |s| == rsize && 0 <= i < nx && 0 <= j < ny && 0 <= k < nzp && UsedCount(nb) > 0
    {
      NeighbourSum(s, nb, i, j, k, 4) / UsedCount(nb) as real
    }

    /** Bounds on the used neighbours of a layer bound their mean. */
    lemma NeighbourMeanWithin(s: seq<real>, nb: Neighbours, i: int, j: int, k: int, lo: real, hi: real)
      requires Shape() && |s| == rsize && 0 <= i < nx && 0 <= j < ny && 0 <= k < nzp
      requires nb.left ==> 0 < i && lo <= s[RealIndex(i - 1, j, k)] <= hi
      requires nb.right ==> i + 1 < nx && lo <= s[RealIndex(i + 1, j, k)] <= hi
      requires nb.up ==> 0 < j && lo <= s[RealIndex(i, j - 1, k)] <= hi
      requires nb.down ==> j + 1 < ny && lo <= s[RealIndex(i, j + 1, k)] <= hi
      requires UsedCount(nb) > 0
      ensures lo <= NeighbourMean(s, nb, i, j, k) <= hi
    {
      var c1 := if nb.left then 1.0 else 0.0;
      var c2 := if nb.right then 1.0 else 0.0;
      var c3 := if nb.up then 1.0 else 0.0;
      var c4 := if nb.down then 1.0 else 0.0;
      var t1, t2 := NeighbourTerm(s, nb, i, j, k, 1), NeighbourTerm(s, nb, i, j, k, 2);
      var t3, t4 := NeighbourTerm(s, nb, i, j, k, 3), NeighbourTerm(s, nb, i, j, k, 4);
      assert c1 * lo <= t1 <= c1 * hi && c2 * lo <= t2 <= c2 * hi;
      assert c3 * lo <= t3 <= c3 * hi && c4 * lo <= t4 <= c4 * hi;
      var n := UsedCount(nb) as real;
      assert n == c1 + c2 + c3 + c4;
      var sum := NeighbourSum(s, nb, i, j, k, 4);
      assert NeighbourSum(s, nb, i, j, k, 1) == t1;
      assert NeighbourSum(s, nb, i, j, k, 2) == t1 + t2;
      assert NeighbourSum(s, nb, i, j, k, 3) == t1 + t2 + t3;
      assert sum == t1 + t2 + t3 + t4;
      assert n * lo == c1 * lo + c2 * lo + c3 * lo + c4 * lo;
      assert n * hi == c1 * hi + c2 * hi + c3 * hi + c4 * hi;
      Stats.DivideBounds(sum, n, lo, hi);
    }

    /**
     * The sums of the used neighbours of trace (i, j), layer by layer, in the
     * order the interpolation accumulates them.
     */
    method SumNeighbours(nb: Neighbours, i: int, j: int) returns (mean: array<real>)
      requires Valid() && values != null && 0 <= i < nx && 0 <= j < ny
      ensures fresh(mean) && mean.Length == nzp
      ensures forall k :: 0 <= k < nzp ==> mean[k] == NeighbourSum(values[..], nb, i, j, k, 4)
    {
      ghost var s := values[..];
      mean := new real[nzp];
      var k := 0;
      while k < nzp
        invariant 0 <= k <= nzp
        invariant forall t :: 0 <= t < k ==> mean[t] == NeighbourSum(s, nb, i, j, t, 1)
      {
        mean[k] := if nb.left && 0 < i then GetRealValue(i - 1, j, k, true) else 0.0;
        k := k + 1;
      }
      if nb.right && i + 1 < nx {
        AddColumn(mean, i + 1, j);
      }
      assert forall k :: 0 <= k < nzp ==> mean[k] == NeighbourSum(s, nb, i, j, k, 2);
      if nb.up && 0 < j {
        AddColumn(mean, i, j - 1);
      }
      assert forall k :: 0 <= k < nzp ==> mean[k] == NeighbourSum(s, nb, i, j, k, 3);
      if nb.down && j + 1 < ny {
        AddColumn(mean, i, j + 1);
      }
    }

    /** One of the accumulation loops: adds trace (ni, nj) to every layer of mean. */
    method AddColumn(mean: array<real>, ni: int, nj: int)
      requires Valid() && values != null && mean != values && mean.Length == nzp
      requires 0 <= ni < nxp && 0 <= nj < nyp
      modifies mean
      ensures forall k :: 0 <= k < nzp ==> mean[k] == old(mean[k]) + values[RealIndex(ni, nj, k)]
    {
      var k := 0;
      while k < nzp
        invariant 0 <= k <= nzp
        invariant forall t :: 0 <= t < k ==> mean[t] == old(mean[t]) + values[RealIndex(ni, nj, t)]
        invariant forall t :: k <= t < nzp ==> mean[t] == old(mean[t])
      {
        mean[k] := mean[k] + GetRealValue(ni, nj, k, true);
        k := k + 1;
      }
    }

    /** The writing loop of the interpolation: layer k of trace (i, j) becomes mean[k] / nt. */
    method StoreMeans(mean: array<real>, nt: int, i: int, j: int)
      requires Valid() && values != null && !isTransformed && mean != values && mean.Length == nzp && nt > 0
      requires 0 <= i < nx && 0 <= j < ny
      modifies values
      ensures forall k :: 0 <= k < nzp ==> values[RealIndex(i, j, k)] == mean[k] / nt as real
      ensures forall c :: 0 <= c < rsize && !OnTrace(c, i, j) ==> values[c] == old(values[c])
    {
      var k := 0;
      while k < nzp
        invariant 0 <= k <= nzp
        invariant forall k' :: 0 <= k' < k ==> values[RealIndex(i, j, k')] == mean[k'] / nt as real
        invariant forall c :: 0 <= c < rsize && !OnTrace(c, i, j) ==> values[c] == old(values[c])
      {
        var status := SetRealValue(i, j, k, mean[k] / nt as real, true);
        RealIndexOnTrace(i, j, k, i, j);
        forall k' | 0 <= k' < k ensures values[RealIndex(i, j, k')] == mean[k'] / nt as real {
          TraceLayersDistinct(i, j, k, k');
        }
        k := k + 1;
      }
    }

    /**
     * Fills the dead trace (i, j) with the mean of its neighbours that hold
     * data, when there are at least two, and then marks it as interpolated
     * by decreasing its odd flag. Returns the flag of the trace.
     */
    method InterpolateTrace(index: int, flags: array<int>, i: int, j: int) returns (r: int)
      requires Valid() && values != null && !isTransformed
      requires flags.Length == nx * ny && 0 <= i < nx && 0 <= j < ny && index == i + nx * j
      requires 0 <= index < flags.Length && CppRem(flags[index], 2) == 1
      modifies values, flags
      ensures r == flags[index]
      ensures var nb := NeighboursOf(old(flags[..]), index, i, j);
              UsedCount(nb) > 1 ==>
                (forall k :: 0 <= k < nzp ==> values[RealIndex(i, j, k)] == NeighbourMean(old(values[..]), nb, i, j, k)) &&
                flags[..] == old(flags[..])[index := old(flags[index]) - 1] && r % 2 == 0
      ensures var nb := NeighboursOf(old(flags[..]), index, i, j);
              UsedCount(nb) <= 1 ==> values[..] == old(values[..]) && flags[..] == old(flags[..])
      ensures forall c :: 0 <= c < rsize && !OnTrace(c, i, j) ==> values[c] == old(values[c])
    {
      RowNeighbours(i, j);
      var nb := NeighboursOf(flags[..], index, i, j);
      var nt := UsedCount(nb);
      if nt > 1 {
        var mean := SumNeighbours(nb, i, j);
        StoreMeans(mean, nt, i, j);
        flags[index] := flags[index] - 1;
      }
      r := flags[index];
    }

    // ---- complex white noise ----

    /** The complex cell of the conjugate frequency of cell c. */
    function ConjugateOf(c: int): (r: int)
      requires Shape() && 0 <= c < csize
      ensures 0 <= r < csize && r % cnxp == c % cnxp
    {
      Layout.Regroup(cnxp, nyp, nzp);
      Spectrum.ConjugateCellParts(c, cnxp, nyp, nzp);
      Spectrum.ConjugateCell(c, cnxp, nyp, nzp)
    }

    /** How the noise fill treats cell c. */
    function NoiseKindAt(c: int): (r: Spectrum.NoiseKind)
      requires Shape() && 0 <= c < csize
      ensures !Spectrum.BoundaryColumn(c % cnxp, nxp) ==> r == Spectrum.PairDraw
      ensures Spectrum.BoundaryColumn(c % cnxp, nxp) ==>
                (r == Spectrum.RealDraw <==> ConjugateOf(c) == c) &&
                (r == Spectrum.Mirrored <==> ConjugateOf(c) < c)
    {
      Layout.Regroup(cnxp, nyp, nzp);
      Spectrum.NoiseKindOf(c, nxp, nyp, nzp)
    }

    /** The draws consumed by the cells before c. */
    function DrawsBefore(c: int): (r: nat)
      requires Shape() && 0 <= c <= csize
      ensures r <= 2 * c
    {
      Layout.Regroup(cnxp, nyp, nzp);
      Spectrum.DrawsBefore(c, nxp, nyp, nzp)
    }

    /**
     * Complex cell c as the noise fill leaves it, for the draws of the
     * random generator in order and the scale std of the paired draws.
     */
    predicate NoiseCell(s: seq<real>, draws: seq<real>, std: real, c: int)
      requires Shape() && |s| == rsize && |draws| >= 2 * csize && 0 <= c < csize
    {
      var d := DrawsBefore(c);
      match NoiseKindAt(c)
      case RealDraw => ComplexAt(s, c) == Complex(draws[d], 0.0)
      case PairDraw => ComplexAt(s, c) == Complex(std * draws[d], std * draws[d + 1])
      case Mirrored => ComplexAt(s, c) == Conj(ComplexAt(s, ConjugateOf(c)))
    }

    /**
     * Fills the spectrum with complex white noise whose inverse transform is
     * real: independent draws, except that a self-conjugate cell is real and
     * a cell whose conjugate frequency is stored earlier repeats it conjugated.
     * draws stands for the successive values of the standard normal generator.
     */
    method FillInComplexNoise(draws: seq<real>, m: MathLib)
      requires Valid() && values != null && |draws| >= 2 * csize && m.sqrt(2.0) != 0.0
      modifies values, this`isTransformed, this`cubeType
      ensures isTransformed && cubeType == Parameter
      ensures forall c :: 0 <= c < csize ==> NoiseCell(values[..], draws, NoiseScale(m), c)
    {
      isTransformed := true;
      cubeType := Parameter;
      var std := NoiseScale(m);
      var i, d := 0, 0;
      while i < csize
        invariant 0 <= i <= csize && d == DrawsBefore(i)
        invariant isTransformed && cubeType == Parameter
        invariant forall c :: 0 <= c < i ==> NoiseCell(values[..], draws, std, c)
      {
        ghost var before := values[..];
        d := FillNoiseCell(i, d, draws, std);
        DrawsStep(i);
        NoiseCellsKept(before, values[..], draws, std, i);
        i := i + 1;
      }
    }

    /** One step of the noise fill: cell i from the draws starting at d. */
    method FillNoiseCell(i: int, d: int, draws: seq<real>, std: real) returns (d': int)
      requires Valid() && values != null && 0 <= i < csize && d == DrawsBefore(i) && |draws| >= 2 * csize
      modifies values
      ensures d' == d + Spectrum.DrawCost(NoiseKindAt(i))
      ensures NoiseCell(values[..], draws, std, i)
      ensures forall t :: 0 <= t < rsize && t != 2 * i && t != 2 * i + 1 ==> values[t] == old(values[t])
    {
      var kind := NoiseStep(i);
      d' := d;
      if kind == Spectrum.RealDraw {
        values[2 * i] := draws[d];
        values[2 * i + 1] := 0.0;
        d' := d + 1;
      } else if kind == Spectrum.PairDraw {
        values[2 * i] := std * draws[d];
        values[2 * i + 1] := std * draws[d + 1];
        d' := d + 2;
      } else {
        var cci := ConjugateOf(i);
        values[2 * i] := values[2 * cci];
        values[2 * i + 1] := -values[2 * cci + 1];
      }
    }

    /** The draws before cell c + 1 are those before c and those cell c takes. */
    lemma DrawsStep(c: int)
      requires Shape() && 0 <= c < csize
      ensures DrawsBefore(c + 1) == DrawsBefore(c) + Spectrum.DrawCost(NoiseKindAt(c))
    {
      Layout.Regroup(cnxp, nyp, nzp);
    }

    /**
     * The index arithmetic of one step of the noise fill: the boundary
     * test on the x column, then the comparison of the row with the row of
     * its conjugate frequency.
     */
    method NoiseStep(i: int) returns (kind: Spectrum.NoiseKind)
      requires Shape() && 0 <= i < csize
      ensures kind == NoiseKindAt(i)
    {
      Layout.Regroup(cnxp, nyp, nzp);
      Layout.DivBelow(i, cnxp, nyp * nzp);
      var xshift := i % cnxp;
      if Spectrum.BoundaryColumn(xshift, nxp) {
        var jkind := i / cnxp;
        Layout.DivBelow(jkind, nyp, nzp);
        var jind := jkind % nyp;
        var kind' := jkind / nyp;
        var jccind := if jind == 0 then 0 else nyp - jind;
        var kccind := if kind' == 0 then 0 else nzp - kind';
        var jkccind := jccind + kccind * nyp;
        assert jkccind == Spectrum.ConjugateRow(jkind, nyp, nzp);
        if jkccind == jkind {
          kind := Spectrum.RealDraw;
        } else if jkccind > jkind {
          kind := Spectrum.PairDraw;
        } else {
          kind := Spectrum.Mirrored;
        }
      } else {
        kind := Spectrum.PairDraw;
      }
    }

    /** Cells before i keep their state when only cells from i on change. */
    lemma NoiseCellsKept(s: seq<real>, s': seq<real>, draws: seq<real>, std: real, i: int)
      requires Shape() && |s| == rsize && |s'| == rsize && |draws| >= 2 * csize && 0 <= i < csize
      requires forall c :: 0 <= c < i ==> NoiseCell(s, draws, std, c)
      requires forall t :: 0 <= t < 2 * i ==> s'[t] == s[t]
      requires NoiseCell(s', draws, std, i)
      ensures forall c :: 0 <= c <= i ==> NoiseCell(s', draws, std, c)
    {
      forall c | 0 <= c < i ensures NoiseCell(s', draws, std, c) {
        NoiseCellFrame(s, s', draws, std, c, i);
      }
    }

    lemma NoiseCellFrame(s: seq<real>, s': seq<real>, draws: seq<real>, std: real, c: int, i: int)
      requires Shape() && |s| == rsize && |s'| == rsize && |draws| >= 2 * csize && 0 <= c < i < csize
      requires forall t :: 0 <= t < 2 * i ==> s'[t] == s[t]
      requires NoiseCell(s, draws, std, c)
      ensures NoiseCell(s', draws, std, c)
    {
      assert ComplexAt(s', c) == ComplexAt(s, c);
      if NoiseKindAt(c) == Spectrum.Mirrored {
        var cc := ConjugateOf(c);
        assert cc < c;
        assert ComplexAt(s', cc) == ComplexAt(s, cc);
      }
    }

    /**
     * The noise is Hermitian on the boundary columns: every cell there is
     * the conjugate of the cell of the conjugate frequency, so a
     * self-conjugate cell is real.
     */
    lemma NoiseIsHermitian(s: seq<real>, draws: seq<real>, std: real)
      requires Shape() && |s| == rsize && |draws| >= 2 * csize
      requires forall c :: 0 <= c < csize ==> NoiseCell(s, draws, std, c)
      ensures forall c :: 0 <= c < csize && Spectrum.BoundaryColumn(c % cnxp, nxp) ==>
                ComplexAt(s, c) == Conj(ComplexAt(s, ConjugateOf(c)))
      ensures forall c :: 0 <= c < csize && Spectrum.BoundaryColumn(c % cnxp, nxp) && ConjugateOf(c) == c ==>
                s[2 * c + 1] == 0.0
    {
      forall c | 0 <= c < csize && Spectrum.BoundaryColumn(c % cnxp, nxp)
        ensures ComplexAt(s, c) == Conj(ComplexAt(s, ConjugateOf(c)))
      {
        HermitianAt(s, draws, std, c);
      }
      forall c | 0 <= c < csize && Spectrum.BoundaryColumn(c % cnxp, nxp) && ConjugateOf(c) == c
        ensures s[2 * c + 1] == 0.0
      {
        SelfConjugateIsReal(s, draws, std, c);
      }
    }

    lemma HermitianAt(s: seq<real>, draws: seq<real>, std: real, c: int)
      requires Shape() && |s| == rsize && |draws| >= 2 * csize && 0 <= c < csize
      requires forall c :: 0 <= c < csize ==> NoiseCell(s, draws, std, c)
      requires Spectrum.BoundaryColumn(c % cnxp, nxp)
      ensures ComplexAt(s, c) == Conj(ComplexAt(s, ConjugateOf(c)))
    {
      Layout.Regroup(cnxp, nyp, nzp);
      Layout.DivBelow(c, cnxp, nyp * nzp);
      var d := ConjugateOf(c);
      assert NoiseCell(s, draws, std, c);
      Spectrum.ConjugateCellInvolution(c, cnxp, nyp, nzp);
      Spectrum.ConjugateCellOrder(c, cnxp, nyp, nzp);
      Spectrum.ConjugateCellParts(c, cnxp, nyp, nzp);
      Spectrum.ConjugateRowInvolution(Layout.RowOf(c, cnxp, nyp * nzp), nyp, nzp);
      match NoiseKindAt(c)
      case Mirrored =>
      case RealDraw =>
      case PairDraw =>
        assert NoiseCell(s, draws, std, d);
        assert NoiseKindAt(d) == Spectrum.Mirrored;
    }

    lemma SelfConjugateIsReal(s: seq<real>, draws: seq<real>, std: real, c: int)
      requires Shape() && |s| == rsize && |draws| >= 2 * csize && 0 <= c < csize
      requires forall c :: 0 <= c < csize ==> NoiseCell(s, draws, std, c)
      requires Spectrum.BoundaryColumn(c % cnxp, nxp) && ConjugateOf(c) == c
      ensures s[2 * c + 1] == 0.0
    {
      assert NoiseCell(s, draws, std, c);
    }
  }
}
