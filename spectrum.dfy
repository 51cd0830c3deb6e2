// Index bookkeeping of complex white noise on the half spectrum kept by a
// real-to-complex transform. Row jk of the complex buffer holds y index
// jk % nyp and depth index jk / nyp; the conjugate frequency of (j, k) is
// ((nyp - j) mod nyp, (nzp - k) mod nzp). In x only columns 0 .. nxp/2 are
// stored, and a column is its own conjugate exactly when it is 0 or, for an
// even nxp, nxp/2.

module Spectrum {
  import opened Common
  import Layout

  /** The index of the conjugate frequency along an axis of n points. */
  function Mirror(j: int, n: int): (r: int)
    requires 0 <= j < n
    ensures 0 <= r < n
    ensures (if r == 0 then 0 else n - r) == j
  {
    if j == 0 then 0 else n - j
  }

  /** The row holding the conjugate frequency of row jk. */
  function ConjugateRow(jk: int, nyp: int, nzp: int): (r: int)
    requires nyp > 0 && nzp > 0 && 0 <= jk < nyp * nzp
    ensures 0 <= r < nyp * nzp
  {
    var j, k := jk % nyp, Layout.RowOf(jk, nyp, nzp);
    Layout.RowCellBounds(Mirror(j, nyp), Mirror(k, nzp), nyp, nzp);
    Mirror(j, nyp) + nyp * Mirror(k, nzp)
  }

  /** Taking the conjugate twice gives back the row. */
  lemma ConjugateRowInvolution(jk: int, nyp: int, nzp: int)
    requires nyp > 0 && nzp > 0 && 0 <= jk < nyp * nzp
    ensures ConjugateRow(ConjugateRow(jk, nyp, nzp), nyp, nzp) == jk
  {
    var j, k := jk % nyp, Layout.RowOf(jk, nyp, nzp);
    Layout.RowCell(Mirror(j, nyp), Mirror(k, nzp), nyp, nzp);
    Layout.Euclid(jk, nyp);
  }

  /** The complex cell holding the conjugate frequency of cell c, rows of cnxp cells. */
  function ConjugateCell(c: int, cnxp: int, nyp: int, nzp: int): (r: int)
    requires cnxp > 0 && nyp > 0 && nzp > 0 && 0 <= c < cnxp * (nyp * nzp)
    ensures 0 <= r < cnxp * (nyp * nzp)
  {
    var cc := ConjugateRow(Layout.RowOf(c, cnxp, nyp * nzp), nyp, nzp);
    Layout.RowCellBounds(c % cnxp, cc, cnxp, nyp * nzp);
    c % cnxp + cnxp * cc
  }

  /** The conjugate cell lies in the same column, in the conjugate row. */
  lemma ConjugateCellParts(c: int, cnxp: int, nyp: int, nzp: int)
    requires cnxp > 0 && nyp > 0 && nzp > 0 && 0 <= c < cnxp * (nyp * nzp)
    ensures ConjugateCell(c, cnxp, nyp, nzp) % cnxp == c % cnxp
    ensures Layout.RowOf(ConjugateCell(c, cnxp, nyp, nzp), cnxp, nyp * nzp) ==
            ConjugateRow(Layout.RowOf(c, cnxp, nyp * nzp), nyp, nzp)
  {
    Layout.RowCell(c % cnxp, ConjugateRow(Layout.RowOf(c, cnxp, nyp * nzp), nyp, nzp), cnxp, nyp * nzp);
  }

  /** The conjugate of the conjugate cell is the cell. */
  lemma ConjugateCellInvolution(c: int, cnxp: int, nyp: int, nzp: int)
    requires cnxp > 0 && nyp > 0 && nzp > 0 && 0 <= c < cnxp * (nyp * nzp)
    ensures ConjugateCell(ConjugateCell(c, cnxp, nyp, nzp), cnxp, nyp, nzp) == c
  {
    ConjugateCellParts(c, cnxp, nyp, nzp);
    ConjugateRowInvolution(Layout.RowOf(c, cnxp, nyp * nzp), nyp, nzp);
    Layout.Euclid(c, cnxp);
  }

  /** The conjugate cell is as many rows of cnxp cells away as the conjugate row is from the row. */
  lemma ConjugateCellShift(c: int, cnxp: int, nyp: int, nzp: int)
    requires cnxp > 0 && nyp > 0 && nzp > 0 && 0 <= c < cnxp * (nyp * nzp)
    ensures ConjugateCell(c, cnxp, nyp, nzp) - c ==
            (ConjugateRow(Layout.RowOf(c, cnxp, nyp * nzp), nyp, nzp) - Layout.RowOf(c, cnxp, nyp * nzp)) * cnxp
  {
    Layout.Euclid(c, cnxp);
  }

  /** Cells of one column compare as their rows do. */
  lemma ConjugateCellOrder(c: int, cnxp: int, nyp: int, nzp: int)
    requires cnxp > 0 && nyp > 0 && nzp > 0 && 0 <= c < cnxp * (nyp * nzp)
    ensures var row := Layout.RowOf(c, cnxp, nyp * nzp);
            var cc := ConjugateRow(row, nyp, nzp);
            (cc < row ==> ConjugateCell(c, cnxp, nyp, nzp) < c) &&
            (cc == row ==> ConjugateCell(c, cnxp, nyp, nzp) == c) &&
            (cc > row ==> ConjugateCell(c, cnxp, nyp, nzp) > c)
  {
    var row := Layout.RowOf(c, cnxp, nyp * nzp);
    ConjugateCellShift(c, cnxp, nyp, nzp);
    Layout.MultipleBounds(ConjugateRow(row, nyp, nzp) - row, cnxp);
  }

  /**
   * The x test of fillInComplexNoise as written: column 0, or the last
   * stored column when the flat cell number is odd.
   */
  predicate BoundaryColumnAsWritten(i: int, cnxp: int)
    requires cnxp > 0
  {
    i % cnxp == 0 || (i % cnxp == cnxp - 1 && CppRem(i, 2) == 1)
  }

  /** The x test as intended: column 0, or the last stored column when nxp is even. */
  predicate BoundaryColumn(x: int, nxp: int)
  {
    x == 0 || (x == nxp / 2 && nxp % 2 == 0)
  }

  /** A stored column is a boundary column exactly when its x frequency is its own conjugate. */
  lemma BoundaryColumnIsSelfConjugate(x: int, nxp: int)
    requires nxp > 0 && 0 <= x < Layout.ComplexRow(nxp)
    ensures BoundaryColumn(x, nxp) <==> (nxp - x) % nxp == x
    ensures !BoundaryColumn(x, nxp) ==> Layout.ComplexRow(nxp) <= nxp - x < nxp
  {
    if x == 0 {
      Layout.DivModRow(0, 1, nxp);
    } else {
      Layout.DivModRow(nxp - x, 0, nxp);
    }
  }

  /**
   * The parity test as written looks at the cell number instead of nxp: for
   * nxp = 8 (5 stored columns, 2 rows) the Nyquist cell 4 of row 0 is not
   * treated as self-conjugate, and for nxp = 9 cell 9 (column 4 of row 1)
   * is, although column 4 of a 9-point transform is not its own conjugate.
   */
  lemma BoundaryColumnAsWrittenDisagrees()
    ensures !BoundaryColumnAsWritten(4, Layout.ComplexRow(8)) && BoundaryColumn(4 % Layout.ComplexRow(8), 8)
    ensures BoundaryColumnAsWritten(9, Layout.ComplexRow(9)) && !BoundaryColumn(9 % Layout.ComplexRow(9), 9)
  {
  }

  /**
   * How the noise fill treats a complex cell: a self-conjugate cell takes
   * one draw as a real value, a cell whose conjugate comes later (or that
   * has no stored conjugate) takes two scaled draws, and a cell whose
   * conjugate came earlier copies its conjugate.
   */
  datatype NoiseKind = RealDraw | PairDraw | Mirrored

  function NoiseKindOf(c: int, nxp: int, nyp: int, nzp: int): (r: NoiseKind)
    requires nxp > 0 && nyp > 0 && nzp > 0 && 0 <= c < Layout.ComplexRow(nxp) * (nyp * nzp)
    ensures !BoundaryColumn(c % Layout.ComplexRow(nxp), nxp) ==> r == PairDraw
    ensures BoundaryColumn(c % Layout.ComplexRow(nxp), nxp) ==>
              (r == RealDraw <==> ConjugateCell(c, Layout.ComplexRow(nxp), nyp, nzp) == c) &&
              (r == Mirrored <==> ConjugateCell(c, Layout.ComplexRow(nxp), nyp, nzp) < c)
  {
    var cnxp := Layout.ComplexRow(nxp);
    ConjugateCellOrder(c, cnxp, nyp, nzp);
    if !BoundaryColumn(c % cnxp, nxp) then PairDraw
    else
      var row := Layout.RowOf(c, cnxp, nyp * nzp);
      var cc := ConjugateRow(row, nyp, nzp);
      if cc == row then RealDraw else if cc > row then PairDraw else Mirrored
  }

  function DrawCost(k: NoiseKind): nat
  {
    match k
    case RealDraw => 1
    case PairDraw => 2
    case Mirrored => 0
  }

  /** The number of random draws consumed by the cells before cell c. */
  function DrawsBefore(c: int, nxp: int, nyp: int, nzp: int): (r: nat)
    requires nxp > 0 && nyp > 0 && nzp > 0 && 0 <= c <= Layout.ComplexRow(nxp) * (nyp * nzp)
    ensures r <= 2 * c
  {
    if c == 0 then 0
    else DrawsBefore(c - 1, nxp, nyp, nzp) + DrawCost(NoiseKindOf(c - 1, nxp, nyp, nzp))
  }
}
