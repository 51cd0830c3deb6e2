/**
 * The posterior covariance of the three parameters (src/corr.cpp): six
 * covariance grids, the cyclic filtered prior time correlation, and the
 * point variances read off the grids at the origin.
 */
module Corr {
  import opened Common
  import opened Grid

  // ---------------------------------------------------------------------
  // The filtered prior time correlation
  // ---------------------------------------------------------------------

  /** The lag the cyclic correlation reads at position `i` of `nzp`. */
  function RefK(i: int, nzp: int): int
  {
    if i < nzp / 2 + 1 then i else nzp - i
  }

  /** The lag is the cyclic distance of `i` from 0. */
  lemma RefKIsCyclicDistance(i: int, nzp: int)
    requires 0 <= i < nzp
    ensures RefK(i, nzp) == Min(i, nzp - i)
  {
    if i < nzp / 2 + 1 {
      assert 2 * i <= nzp;
    } else {
      assert 2 * i > nzp;
    }
  }

  /** What the source demands of the prior correlation: every lag read lies inside it. */
  predicate CorrTCovers(corrT: Option<seq<real>>, nz: int, nzp: int)
  {
    corrT.Some? ==> Min(nz, nzp / 2 + 1) <= |corrT.value|
  }

  /** Entry `i` of the filtered correlation: the prior correlation at lag
      RefK(i), or zero past the last lag or without a prior correlation. */
  function FilteredEntry(corrT: Option<seq<real>>, nz: int, nzp: int, i: int): real
    requires 0 <= i < nzp && CorrTCovers(corrT, nz, nzp)
  {
    var refk := RefK(i, nzp);
    if refk < nz && corrT.Some? then corrT.value[refk] else 0.0
  }

  /** The cyclic, filtered prior correlation of length `nzp`. */
  function FilteredCorrT(corrT: Option<seq<real>>, nz: int, nzp: nat): (r: seq<real>)
    requires CorrTCovers(corrT, nz, nzp)
    ensures |r| == nzp
  {
    seq(nzp, i requires 0 <= i < nzp => FilteredEntry(corrT, nz, nzp, i))
  }

  /** The filtered correlation is cyclically symmetric. */
  lemma FilteredSymmetric(corrT: Option<seq<real>>, nz: int, nzp: nat, i: int)
    requires CorrTCovers(corrT, nz, nzp) && 1 <= i < nzp
    ensures FilteredCorrT(corrT, nz, nzp)[i] == FilteredCorrT(corrT, nz, nzp)[nzp - i]
  {
    RefKIsCyclicDistance(i, nzp);
    RefKIsCyclicDistance(nzp - i, nzp);
  }

  /** Lag `d` of the prior correlation sits at `d` and at `nzp - d`, and all
      lags from `nz` on, or all when there is no prior correlation, are zero. */
  lemma FilteredMeaning(corrT: Option<seq<real>>, nz: int, nzp: nat, i: int)
    requires CorrTCovers(corrT, nz, nzp) && 0 <= i < nzp
    ensures var d := Min(i, nzp - i);
      FilteredCorrT(corrT, nz, nzp)[i] == if corrT.Some? && d < nz then corrT.value[d] else 0.0
  {
    RefKIsCyclicDistance(i, nzp);
  }

  // ---------------------------------------------------------------------
  // The point variances
  // ---------------------------------------------------------------------

  /** The 3x3 point variance from the six origin values: the three
      variances on the diagonal and each cross covariance in both of its
      places. */
  function VarianceMatrix(o: seq<real>): (v: seq<seq<real>>)
    requires |o| == 6
    ensures |v| == 3 && forall i :: 0 <= i < 3 ==> |v[i]| == 3
    ensures forall i, j :: 0 <= i < 3 && 0 <= j < 3 ==> v[i][j] == v[j][i]
    ensures v[0][0] == o[0] && v[1][1] == o[1] && v[2][2] == o[2]
    ensures v[0][1] == o[3] && v[0][2] == o[4] && v[1][2] == o[5]
  {
    [[o[0], o[3], o[4]], [o[3], o[1], o[5]], [o[4], o[5], o[2]]]
  }

  /** A grid ready for the methods below: created, as a covariance. */
  ghost predicate GridReady(g: FftGrid?)
    reads g
  {
    g != null && g.Valid() && g.values != null && g.cubeType == Covariance
  }

  /** The value of a grid at the origin. */
  function Origin(g: FftGrid): (r: real)
    reads g, g.values
    requires g.Valid() && g.values != null
    ensures r == g.values[0]
  {
    assert g.InReadRange(0, 0, 0, false);
    g.GetRealValue(0, 0, 0, false)
  }

  /** Reads a grid at the origin, in random-access mode. */
  method GetOrigin(g: FftGrid) returns (value: real)
    requires g.Valid() && g.values != null
    ensures value == Origin(g)
  {
    g.SetAccessMode(AccessModeCode(RandomAccess));
    value := g.GetRealValue(0, 0, 0, false);
    g.EndAccess();
  }

  /** The trace of a grid at x = y = 0, one value per layer of the box. */
  method CreatePostCov00(g: FftGrid) returns (cov00: array<real>)
    requires g.Valid() && g.values != null
    ensures fresh(cov00) && cov00.Length == g.nz
    ensures forall k :: 0 <= k < g.nz ==> cov00[k] == g.values[g.RealIndex(0, 0, k)]
  {
    cov00 := new real[g.nz];
    g.SetAccessMode(AccessModeCode(RandomAccess));
    for k := 0 to g.nz
      invariant forall k' :: 0 <= k' < k ==> cov00[k'] == g.values[g.RealIndex(0, 0, k')]
    {
      cov00[k] := g.GetRealValue(0, 0, k, false);
    }
    g.EndAccess();
  }

  /** Transforms a grid unless it already is in the spectral domain. */
  method ForwardIfNeeded(g: FftGrid, t: Transform3D, m: MathLib)
    requires GridReady(g) && KeepsLength(t, g.rsize)
    modifies g.values, g`isTransformed
    ensures GridReady(g) && g.isTransformed
    ensures g.values[..] == if old(g.isTransformed) then old(g.values[..])
      else ForwardImage(t, m, Covariance, g.BoxCells(), old(g.values[..]))
  {
    if !g.isTransformed {
      g.FftInPlace(t, m);
    }
  }

  /** Transforms two grids that share no storage, each only when needed. */
  method ForwardPair(g: FftGrid, h: FftGrid, t: Transform3D, m: MathLib)
    requires GridReady(g) && GridReady(h) && g.values != h.values
    requires KeepsLength(t, g.rsize) && h.rsize == g.rsize
    modifies g.values, g`isTransformed, h.values, h`isTransformed
    ensures GridReady(g) && GridReady(h) && g.isTransformed && h.isTransformed
    ensures g.values[..] == if old(g.isTransformed) then old(g.values[..])
      else ForwardImage(t, m, Covariance, g.BoxCells(), old(g.values[..]))
    ensures h.values[..] == if old(h.isTransformed) then old(h.values[..])
      else ForwardImage(t, m, Covariance, h.BoxCells(), old(h.values[..]))
  {
    ForwardIfNeeded(g, t, m);
    ForwardIfNeeded(h, t, m);
  }

  /** Transforms a grid back unless it already is in the real domain. */
  method BackwardIfNeeded(g: FftGrid, t: Transform3D, m: MathLib)
    requires GridReady(g) && KeepsLength(t, g.rsize)
    modifies g.values, g`isTransformed
    ensures GridReady(g) && !g.isTransformed
    ensures g.values[..] == if !old(g.isTransformed) then old(g.values[..])
      else InverseImage(t, m, Covariance, g.BoxCells(), old(g.values[..]))
  {
    if g.isTransformed {
      g.InvFftInPlace(t, m);
    }
  }

  /** One posterior covariance grid: made, typed COVARIANCE and created in
      the real or the spectral domain. */
  method MakeCovarianceGrid(nx: int, ny: int, nz: int, nxp: int, nyp: int, nzp: int, inRealDomain: bool, reg: GridRegistry)
    returns (g: FftGrid, ok: bool)
    requires 1 <= nx <= nxp && 1 <= ny <= nyp && 1 <= nz <= nzp
    modifies reg
    ensures fresh(g) && fresh(g.values) && GridReady(g)
    ensures g.nx == nx && g.ny == ny && g.nz == nz && g.nxp == nxp && g.nyp == nyp && g.nzp == nzp
    ensures g.isTransformed == !inRealDomain
    ensures reg.nGrids == old(reg.nGrids) + 1
    ensures reg.maxAllowedGrids == old(reg.maxAllowedGrids) && reg.terminateOnMaxGrid == old(reg.terminateOnMaxGrid)
    ensures ok <==> !(reg.nGrids > reg.maxAllowedGrids && reg.terminateOnMaxGrid)
  {
    g := new FftGrid(nx, ny, nz, nxp, nyp, nzp);
    g.SetType(Covariance);
    if inRealDomain {
      ok := g.CreateRealGrid(true, reg);
    } else {
      ok := g.CreateComplexGrid(reg);
    }
  }

  /** Transforms back two grids that share no storage, each only when needed. */
  method BackwardPair(g: FftGrid, h: FftGrid, t: Transform3D, m: MathLib)
    requires GridReady(g) && GridReady(h) && g.values != h.values
    requires KeepsLength(t, g.rsize) && h.rsize == g.rsize
    modifies g.values, g`isTransformed, h.values, h`isTransformed
    ensures GridReady(g) && GridReady(h) && !g.isTransformed && !h.isTransformed
    ensures g.values[..] == if !old(g.isTransformed) then old(g.values[..])
      else InverseImage(t, m, Covariance, g.BoxCells(), old(g.values[..]))
    ensures h.values[..] == if !old(h.isTransformed) then old(h.values[..])
      else InverseImage(t, m, Covariance, h.BoxCells(), old(h.values[..]))
  {
    BackwardIfNeeded(g, t, m);
    BackwardIfNeeded(h, t, m);
  }

  /** The point variance from the six origin values, each cross covariance
      in both of its places. */
  method PointVariance(o: seq<real>) returns (v: array2<real>)
    requires |o| == 6
    ensures fresh(v) && v.Length0 == 3 && v.Length1 == 3
    ensures forall i, j :: 0 <= i < 3 && 0 <= j < 3 ==> v[i, j] == VarianceMatrix(o)[i][j]
  {
    v := new real[3, 3];
    v[0, 0], v[1, 1], v[2, 2] := o[0], o[1], o[2];
    v[0, 1] := o[3];
    v[1, 0] := v[0, 1];
    v[2, 0] := o[4];
    v[0, 2] := v[2, 0];
    v[2, 1] := o[5];
    v[1, 2] := v[2, 1];
  }

  /** `cov00` holds the trace of grid `g` at x = y = 0. */
  ghost predicate IsCov00(cov00: array?<real>, g: FftGrid?)
    reads cov00, g
    reads if g != null then {g.values} else {}
    requires GridReady(g)
  {
    cov00 != null && cov00.Length == g.nz &&
    forall k :: 0 <= k < g.nz ==> cov00[k] == g.values[g.RealIndex(0, 0, k)]
  }

  /** Six covariance grids of one size that share no storage. */
  ghost predicate ReadyGrids(a: FftGrid?, b: FftGrid?, r: FftGrid?, ab: FftGrid?, ar: FftGrid?, br: FftGrid?)
    reads a, b, r, ab, ar, br
  {
    GridReady(a) && GridReady(b) && GridReady(r) &&
    GridReady(ab) && GridReady(ar) && GridReady(br) &&
    b.rsize == a.rsize && r.rsize == a.rsize && ab.rsize == a.rsize && ar.rsize == a.rsize && br.rsize == a.rsize &&
    a.values != b.values && a.values != r.values && a.values != ab.values && a.values != ar.values &&
    a.values != br.values && b.values != r.values && b.values != ab.values && b.values != ar.values &&
    b.values != br.values && r.values != ab.values && r.values != ar.values && r.values != br.values &&
    ab.values != ar.values && ab.values != br.values && ar.values != br.values
  }

  /** The values of six grids at the origin. */
  function OriginsOf(a: FftGrid?, b: FftGrid?, r: FftGrid?, ab: FftGrid?, ar: FftGrid?, br: FftGrid?): (o: seq<real>)
    reads a, b, r, ab, ar, br
    reads if ReadyGrids(a, b, r, ab, ar, br) then {a.values, b.values, r.values, ab.values, ar.values, br.values} else {}
    requires ReadyGrids(a, b, r, ab, ar, br)
    ensures |o| == 6
  {
    [Origin(a), Origin(b), Origin(r), Origin(ab), Origin(ar), Origin(br)]
  }

  /** The six posterior covariance grids, made from one set of sizes. */
  method MakeCovarianceGrids(nx: int, ny: int, nz: int, nxp: int, nyp: int, nzp: int, reg: GridRegistry)
    returns (a: FftGrid, b: FftGrid, r: FftGrid, ab: FftGrid, ar: FftGrid, br: FftGrid, ok: bool)
    requires 1 <= nx <= nxp && 1 <= ny <= nyp && 1 <= nz <= nzp
    modifies reg
    ensures ReadyGrids(a, b, r, ab, ar, br)
    ensures fresh(a) && a.ConsistentSize(nx, ny, nz, nxp, nyp, nzp)
    ensures fresh(b) && b.ConsistentSize(nx, ny, nz, nxp, nyp, nzp)
    ensures fresh(r) && r.ConsistentSize(nx, ny, nz, nxp, nyp, nzp)
    ensures fresh(ab) && ab.ConsistentSize(nx, ny, nz, nxp, nyp, nzp)
    ensures fresh(ar) && ar.ConsistentSize(nx, ny, nz, nxp, nyp, nzp)
    ensures fresh(br) && br.ConsistentSize(nx, ny, nz, nxp, nyp, nzp)
    ensures !a.isTransformed && !b.isTransformed && r.isTransformed && ab.isTransformed && ar.isTransformed && br.isTransformed
    ensures reg.nGrids == old(reg.nGrids) + 6
    ensures ok <==> !(reg.terminateOnMaxGrid && reg.nGrids > reg.maxAllowedGrids)
  {
    var ok0;
    a, ok0 := MakeCovarianceGrid(nx, ny, nz, nxp, nyp, nzp, true, reg);
    var ok1;
    b, ok1 := MakeCovarianceGrid(nx, ny, nz, nxp, nyp, nzp, true, reg);
    assert b.values != a.values;
    var ok2;
    r, ok2 := MakeCovarianceGrid(nx, ny, nz, nxp, nyp, nzp, false, reg);
    assert r.values != a.values && r.values != b.values;
    var ok3;
    ab, ok3 := MakeCovarianceGrid(nx, ny, nz, nxp, nyp, nzp, false, reg);
    assert ab.values != a.values && ab.values != b.values && ab.values != r.values;
    var ok4;
    ar, ok4 := MakeCovarianceGrid(nx, ny, nz, nxp, nyp, nzp, false, reg);
    assert ar.values != a.values && ar.values != b.values && ar.values != r.values && ar.values != ab.values;
    var ok5;
    br, ok5 := MakeCovarianceGrid(nx, ny, nz, nxp, nyp, nzp, false, reg);
    assert br.values != a.values && br.values != b.values && br.values != r.values && br.values != ab.values && br.values != ar.values;
    assert ReadyGrids(a, b, r, ab, ar, br);
    ok := ok0 && ok1 && ok2 && ok3 && ok4 && ok5;
  }

  /** The six posterior covariance grids of a correlation object, which
      `createPostGrids` sets together: the covariances of alpha, beta and
      rho and their three cross covariances. */
  class PostCovGrids {
    const postCovAlpha: FftGrid
    const postCovBeta: FftGrid
    const postCovRho: FftGrid
    const postCrCovAlphaBeta: FftGrid
    const postCrCovAlphaRho: FftGrid
    const postCrCovBetaRho: FftGrid

    /** The six grids are covariances of one size and share no storage. */
    ghost predicate Ready()
      reads postCovAlpha, postCovBeta, postCovRho, postCrCovAlphaBeta, postCrCovAlphaRho, postCrCovBetaRho
    {
      ReadyGrids(postCovAlpha, postCovBeta, postCovRho, postCrCovAlphaBeta, postCrCovAlphaRho, postCrCovBetaRho)
    }

    constructor (a: FftGrid, b: FftGrid, r: FftGrid, ab: FftGrid, ar: FftGrid, br: FftGrid)
      requires ReadyGrids(a, b, r, ab, ar, br)
      ensures postCovAlpha == a && postCovBeta == b && postCovRho == r
      ensures postCrCovAlphaBeta == ab && postCrCovAlphaRho == ar && postCrCovBetaRho == br
      ensures Ready()
    {
      postCovAlpha, postCovBeta, postCovRho, postCrCovAlphaBeta, postCrCovAlphaRho, postCrCovBetaRho := a, b, r, ab, ar, br;
    }

    /** Brings all six grids to the spectral domain; a grid already there is
        left as it is. */
    method FFT(t: Transform3D, m: MathLib)
      requires Ready() && KeepsLength(t, postCovAlpha.rsize)
      modifies postCovAlpha.values, postCovAlpha`isTransformed, postCovBeta.values, postCovBeta`isTransformed, postCovRho.values, postCovRho`isTransformed, postCrCovAlphaBeta.values, postCrCovAlphaBeta`isTransformed, postCrCovAlphaRho.values, postCrCovAlphaRho`isTransformed, postCrCovBetaRho.values, postCrCovBetaRho`isTransformed
      ensures Ready()
      ensures postCovAlpha.isTransformed && postCovBeta.isTransformed && postCovRho.isTransformed
      ensures postCrCovAlphaBeta.isTransformed && postCrCovAlphaRho.isTransformed && postCrCovBetaRho.isTransformed
      ensures postCovAlpha.values[..] == if old(postCovAlpha.isTransformed) then old(postCovAlpha.values[..])
        else ForwardImage(t, m, Covariance, postCovAlpha.BoxCells(), old(postCovAlpha.values[..]))
      ensures postCovBeta.values[..] == if old(postCovBeta.isTransformed) then old(postCovBeta.values[..])
        else ForwardImage(t, m, Covariance, postCovBeta.BoxCells(), old(postCovBeta.values[..]))
      ensures postCovRho.values[..] == if old(postCovRho.isTransformed) then old(postCovRho.values[..])
        else ForwardImage(t, m, Covariance, postCovRho.BoxCells(), old(postCovRho.values[..]))
      ensures postCrCovAlphaBeta.values[..] == if old(postCrCovAlphaBeta.isTransformed) then old(postCrCovAlphaBeta.values[..])
        else ForwardImage(t, m, Covariance, postCrCovAlphaBeta.BoxCells(), old(postCrCovAlphaBeta.values[..]))
      ensures postCrCovAlphaRho.values[..] == if old(postCrCovAlphaRho.isTransformed) then old(postCrCovAlphaRho.values[..])
        else ForwardImage(t, m, Covariance, postCrCovAlphaRho.BoxCells(), old(postCrCovAlphaRho.values[..]))
      ensures postCrCovBetaRho.values[..] == if old(postCrCovBetaRho.isTransformed) then old(postCrCovBetaRho.values[..])
        else ForwardImage(t, m, Covariance, postCrCovBetaRho.BoxCells(), old(postCrCovBetaRho.values[..]))
    {
      ForwardPair(postCovAlpha, postCovBeta, t, m);
      ForwardPair(postCovRho, postCrCovAlphaBeta, t, m);
      ForwardPair(postCrCovAlphaRho, postCrCovBetaRho, t, m);
    }

    /** Brings all six grids back to the real domain; a grid already there
        is left as it is. */
    method InvFFT(t: Transform3D, m: MathLib)
      requires Ready() && KeepsLength(t, postCovAlpha.rsize)
      modifies postCovAlpha.values, postCovAlpha`isTransformed, postCovBeta.values, postCovBeta`isTransformed, postCovRho.values, postCovRho`isTransformed, postCrCovAlphaBeta.values, postCrCovAlphaBeta`isTransformed, postCrCovAlphaRho.values, postCrCovAlphaRho`isTransformed, postCrCovBetaRho.values, postCrCovBetaRho`isTransformed
      ensures Ready()
      ensures !postCovAlpha.isTransformed && !postCovBeta.isTransformed && !postCovRho.isTransformed
      ensures !postCrCovAlphaBeta.isTransformed && !postCrCovAlphaRho.isTransformed && !postCrCovBetaRho.isTransformed
      ensures postCovAlpha.values[..] == if !old(postCovAlpha.isTransformed) then old(postCovAlpha.values[..])
        else InverseImage(t, m, Covariance, postCovAlpha.BoxCells(), old(postCovAlpha.values[..]))
      ensures postCovBeta.values[..] == if !old(postCovBeta.isTransformed) then old(postCovBeta.values[..])
        else InverseImage(t, m, Covariance, postCovBeta.BoxCells(), old(postCovBeta.values[..]))
      ensures postCovRho.values[..] == if !old(postCovRho.isTransformed) then old(postCovRho.values[..])
        else InverseImage(t, m, Covariance, postCovRho.BoxCells(), old(postCovRho.values[..]))
      ensures postCrCovAlphaBeta.values[..] == if !old(postCrCovAlphaBeta.isTransformed) then old(postCrCovAlphaBeta.values[..])
        else InverseImage(t, m, Covariance, postCrCovAlphaBeta.BoxCells(), old(postCrCovAlphaBeta.values[..]))
      ensures postCrCovAlphaRho.values[..] == if !old(postCrCovAlphaRho.isTransformed) then old(postCrCovAlphaRho.values[..])
        else InverseImage(t, m, Covariance, postCrCovAlphaRho.BoxCells(), old(postCrCovAlphaRho.values[..]))
      ensures postCrCovBetaRho.values[..] == if !old(postCrCovBetaRho.isTransformed) then old(postCrCovBetaRho.values[..])
        else InverseImage(t, m, Covariance, postCrCovBetaRho.BoxCells(), old(postCrCovBetaRho.values[..]))
    {
      BackwardPair(postCovAlpha, postCovBeta, t, m);
      BackwardPair(postCovRho, postCrCovAlphaBeta, t, m);
      BackwardPair(postCrCovAlphaRho, postCrCovBetaRho, t, m);
    }

    /** The values of the six grids at the origin, variances first. */
    function Origins(): (o: seq<real>)
      reads postCovAlpha, postCovBeta, postCovRho, postCrCovAlphaBeta, postCrCovAlphaRho, postCrCovBetaRho, postCovAlpha.values, postCovBeta.values, postCovRho.values, postCrCovAlphaBeta.values, postCrCovAlphaRho.values, postCrCovBetaRho.values
      requires Ready()
      ensures |o| == 6
    {
      OriginsOf(postCovAlpha, postCovBeta, postCovRho, postCrCovAlphaBeta, postCrCovAlphaRho, postCrCovBetaRho)
    }
  }

  /** The point variance of the six grids, read at their origins. */
  method MakePointVariance(g: PostCovGrids) returns (v: array2<real>)
    requires g.Ready()
    ensures fresh(v) && v.Length0 == 3 && v.Length1 == 3
    ensures forall i, j :: 0 <= i < 3 && 0 <= j < 3 ==> v[i, j] == VarianceMatrix(g.Origins())[i][j]
  {
    var o0 := GetOrigin(g.postCovAlpha);
    var o1 := GetOrigin(g.postCovBeta);
    var o2 := GetOrigin(g.postCovRho);
    var o3 := GetOrigin(g.postCrCovAlphaBeta);
    var o4 := GetOrigin(g.postCrCovAlphaRho);
    var o5 := GetOrigin(g.postCrCovBetaRho);
    v := PointVariance([o0, o1, o2, o3, o4, o5]);
  }

  /** The traces at x = y = 0 of the six grids. */
  method MakeTraces(g: PostCovGrids) returns (c0: array<real>, c1: array<real>, c2: array<real>, c3: array<real>, c4: array<real>, c5: array<real>)
    requires g.Ready()
    ensures fresh(c0) && IsCov00(c0, g.postCovAlpha)
    ensures fresh(c1) && IsCov00(c1, g.postCovBeta)
    ensures fresh(c2) && IsCov00(c2, g.postCovRho)
    ensures fresh(c3) && IsCov00(c3, g.postCrCovAlphaBeta)
    ensures fresh(c4) && IsCov00(c4, g.postCrCovAlphaRho)
    ensures fresh(c5) && IsCov00(c5, g.postCrCovBetaRho)
  {
    c0 := CreatePostCov00(g.postCovAlpha);
    c1 := CreatePostCov00(g.postCovBeta);
    c2 := CreatePostCov00(g.postCovRho);
    c3 := CreatePostCov00(g.postCrCovAlphaBeta);
    c4 := CreatePostCov00(g.postCrCovAlphaRho);
    c5 := CreatePostCov00(g.postCrCovBetaRho);
  }

  /** What `createPostVariances` derives from the grids: the 3x3 point
      variance and the trace at x = y = 0 of each grid. */
  class PostVariances {
    const postVar0: array2<real>
    const postCovAlpha00: array<real>
    const postCovBeta00: array<real>
    const postCovRho00: array<real>
    const postCrCovAlphaBeta00: array<real>
    const postCrCovAlphaRho00: array<real>
    const postCrCovBetaRho00: array<real>

    constructor (v: array2<real>, c0: array<real>, c1: array<real>, c2: array<real>, c3: array<real>, c4: array<real>, c5: array<real>)
      ensures postVar0 == v
      ensures postCovAlpha00 == c0 && postCovBeta00 == c1 && postCovRho00 == c2
      ensures postCrCovAlphaBeta00 == c3 && postCrCovAlphaRho00 == c4 && postCrCovBetaRho00 == c5
    {
      postVar0 := v;
      postCovAlpha00, postCovBeta00, postCovRho00, postCrCovAlphaBeta00, postCrCovAlphaRho00, postCrCovBetaRho00 := c0, c1, c2, c3, c4, c5;
    }
  }

  /** The correlation object's grids and the vectors derived from them. */
  class Corr {
    var priorCorrTFiltered: array?<real>
    var postGrids: PostCovGrids?
    var postVariances: PostVariances?

    /** A correlation object before any grid or vector is made. */
    constructor ()
      ensures priorCorrTFiltered == null && postGrids == null && postVariances == null
    {
      priorCorrTFiltered, postGrids, postVariances := null, null, null;
    }

    /** Stores the cyclic, filtered form of the prior correlation `corrT`
        (None for a missing one) over `nzp` layers, of which `nz` are real. */
    method SetPriorCorrTFiltered(corrT: Option<seq<real>>, nz: int, nzp: nat)
      requires CorrTCovers(corrT, nz, nzp)
      modifies this`priorCorrTFiltered
      ensures priorCorrTFiltered != null && fresh(priorCorrTFiltered)
      ensures priorCorrTFiltered[..] == FilteredCorrT(corrT, nz, nzp)
    {
      var filtered := new real[nzp];
      for i := 0 to nzp
        invariant forall i' :: 0 <= i' < i ==> filtered[i'] == FilteredEntry(corrT, nz, nzp, i')
      {
        var refk;
        if i < nzp / 2 + 1 {
          refk := i;
        } else {
          refk := nzp - i;
        }
        if refk < nz && corrT.Some? {
          filtered[i] := corrT.value[refk];
        } else {
          filtered[i] := 0.0;
        }
      }
      priorCorrTFiltered := filtered;
    }

    /** Makes the six posterior covariance grids from one set of sizes: the
        alpha and beta covariances start in the real domain, the other four
        in the spectral domain. `ok` is false when one of them passes the
        grid ceiling and the registry says that is fatal. */
    method CreatePostGrids(nx: int, ny: int, nz: int, nxp: int, nyp: int, nzp: int, reg: GridRegistry) returns (ok: bool)
      requires 1 <= nx <= nxp && 1 <= ny <= nyp && 1 <= nz <= nzp
      modifies this`postGrids, reg
      ensures postGrids != null && fresh(postGrids) && postGrids.Ready()
      ensures postGrids.postCovAlpha.ConsistentSize(nx, ny, nz, nxp, nyp, nzp)
      ensures postGrids.postCovBeta.ConsistentSize(nx, ny, nz, nxp, nyp, nzp)
      ensures postGrids.postCovRho.ConsistentSize(nx, ny, nz, nxp, nyp, nzp)
      ensures postGrids.postCrCovAlphaBeta.ConsistentSize(nx, ny, nz, nxp, nyp, nzp)
      ensures postGrids.postCrCovAlphaRho.ConsistentSize(nx, ny, nz, nxp, nyp, nzp)
      ensures postGrids.postCrCovBetaRho.ConsistentSize(nx, ny, nz, nxp, nyp, nzp)
      ensures !postGrids.postCovAlpha.isTransformed && !postGrids.postCovBeta.isTransformed
      ensures postGrids.postCovRho.isTransformed && postGrids.postCrCovAlphaBeta.isTransformed
      ensures postGrids.postCrCovAlphaRho.isTransformed && postGrids.postCrCovBetaRho.isTransformed
      ensures reg.nGrids == old(reg.nGrids) + 6
      ensures ok <==> !(reg.terminateOnMaxGrid && reg.nGrids > reg.maxAllowedGrids)
    {
      var a, b, r, ab, ar, br;
      a, b, r, ab, ar, br, ok := MakeCovarianceGrids(nx, ny, nz, nxp, nyp, nzp, reg);
      postGrids := new PostCovGrids(a, b, r, ab, ar, br);
    }

    /** Reads the point variance off the grids at the origin, and the trace
        of each grid at x = y = 0. */
    method CreatePostVariances()
      requires postGrids != null && postGrids.Ready()
      modifies this`postVariances
      ensures postVariances != null && fresh(postVariances)
      ensures fresh(postVariances.postVar0) && postVariances.postVar0.Length0 == 3 && postVariances.postVar0.Length1 == 3
      ensures forall i, j :: 0 <= i < 3 && 0 <= j < 3 ==>
        postVariances.postVar0[i, j] == VarianceMatrix(postGrids.Origins())[i][j]
      ensures fresh(postVariances.postCovAlpha00) && IsCov00(postVariances.postCovAlpha00, postGrids.postCovAlpha)
      ensures fresh(postVariances.postCovBeta00) && IsCov00(postVariances.postCovBeta00, postGrids.postCovBeta)
      ensures fresh(postVariances.postCovRho00) && IsCov00(postVariances.postCovRho00, postGrids.postCovRho)
      ensures fresh(postVariances.postCrCovAlphaBeta00) && IsCov00(postVariances.postCrCovAlphaBeta00, postGrids.postCrCovAlphaBeta)
      ensures fresh(postVariances.postCrCovAlphaRho00) && IsCov00(postVariances.postCrCovAlphaRho00, postGrids.postCrCovAlphaRho)
      ensures fresh(postVariances.postCrCovBetaRho00) && IsCov00(postVariances.postCrCovBetaRho00, postGrids.postCrCovBetaRho)
    {
      var v := MakePointVariance(postGrids);
      var c0, c1, c2, c3, c4, c5 := MakeTraces(postGrids);
      postVariances := new PostVariances(v, c0, c1, c2, c3, c4, c5);
    }
  }
}
