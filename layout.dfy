// Memory layout of the padded grid. The real buffer holds nzp planes of nyp
// rows of rnxp reals; the complex view of the same buffer holds rows of cnxp
// complex cells, complex cell c occupying reals 2c and 2c+1.

module Layout {

  /** Complex cells per row: the non-redundant half of an nxp-point spectrum. */
  function ComplexRow(nxp: nat): (r: nat)
    ensures 2 * r >= nxp + 1
  {
    nxp / 2 + 1
  }

  /** Reals per row, including the one or two padding reals of the in-place transform. */
  function RealRow(nxp: nat): (r: nat)
    ensures r == 2 * ComplexRow(nxp)
    ensures nxp < r <= nxp + 2
  {
    2 * (nxp / 2 + 1)
  }

  /** Position of cell (i, j, k) in a buffer with rows of length row and nyp rows per plane. */
  function FlatIndex(i: int, j: int, k: int, row: int, nyp: int): int
  {
    i + row * j + k * row * nyp
  }

  lemma Regroup(a: int, b: int, c: int)
    ensures a * b * c == a * (b * c)
  {
  }

  lemma ProductAssoc(a: int, b: int, c: int)
    ensures a * b * c == a * (b * c) == (a * c) * b == c * (a * b)
  {
  }

  /** Cells of the padded box lie inside the buffer. */
  lemma FlatIndexBounds(i: int, j: int, k: int, row: int, nyp: int, nzp: int)
    requires 0 <= i < row && 0 <= j < nyp && 0 <= k < nzp
    ensures 0 <= FlatIndex(i, j, k, row, nyp) < row * nyp * nzp
  {
    var plane := row * nyp;
    assert row * j <= row * (nyp - 1) by { MulLe(row, j, nyp - 1); }
    assert i + row * j < plane;
    assert k * plane <= (nzp - 1) * plane by { MulLe(plane, k, nzp - 1); }
    ProductAssoc(k, row, nyp);
    ProductAssoc(row, nyp, nzp);
    assert (nzp - 1) * plane + plane == nzp * plane;
    assert FlatIndex(i, j, k, row, nyp) == (i + row * j) + k * plane;
    assert 0 <= row * j && 0 <= k * plane;
  }

  lemma MulLe(c: int, a: int, b: int)
    requires 0 <= c && a <= b
    ensures c * a <= c * b && a * c <= b * c
  {
  }

  lemma MultipleBounds(e: int, row: int)
    requires row > 0
    ensures e >= 1 ==> e * row >= row
    ensures e <= -1 ==> e * row <= -row
  {
    if e >= 1 { MulLe(row, 1, e); }
    if e <= -1 { MulLe(row, e, -1); }
  }

  /** A number is its remainder plus row times its quotient. */
  lemma Euclid(c: int, row: int)
    requires row > 0
    ensures c == c % row + row * (c / row)
  {
  }

  /** Dividing (i + row*q) by row recovers i and q. */
  lemma DivModRow(i: int, q: int, row: int)
    requires 0 <= i < row
    ensures (i + row * q) % row == i
    ensures (i + row * q) / row == q
  {
    var n := i + row * q;
    var d, m := n / row, n % row;
    assert n == d * row + m;
    assert (q - d) * row == m - i;
    MultipleBounds(q - d, row);
  }

  /** The position within a row of a buffer cell is its x index. */
  lemma FlatIndexColumn(i: int, j: int, k: int, row: int, nyp: int)
    requires 0 <= i < row
    ensures FlatIndex(i, j, k, row, nyp) % row == i
  {
    ProductAssoc(k, row, nyp);
    assert row * j + k * row * nyp == row * (j + k * nyp);
    DivModRow(i, j + k * nyp, row);
  }

  /** Distinct cells of the padded box occupy distinct buffer positions. */
  lemma FlatIndexInjective(i: int, j: int, k: int, i': int, j': int, k': int, row: int, nyp: int)
    requires 0 <= i < row && 0 <= i' < row && 0 <= j < nyp && 0 <= j' < nyp
    requires FlatIndex(i, j, k, row, nyp) == FlatIndex(i', j', k', row, nyp)
    ensures i == i' && j == j' && k == k'
  {
    ProductAssoc(k, row, nyp);
    ProductAssoc(k', row, nyp);
    assert FlatIndex(i, j, k, row, nyp) == i + row * (j + k * nyp);
    assert FlatIndex(i', j', k', row, nyp) == i' + row * (j' + k' * nyp);
    DivModRow(i, j + k * nyp, row);
    DivModRow(i', j' + k' * nyp, row);
    DivModRow(j, k, nyp);
    DivModRow(j', k', nyp);
    assert j + nyp * k == j + k * nyp;
    assert j' + nyp * k' == j' + k' * nyp;
  }

  /** The real buffer is exactly twice the complex buffer, so both views cover it. */
  lemma SizesAgree(nxp: nat, nyp: nat, nzp: nat)
    ensures RealRow(nxp) * nyp * nzp == 2 * (ComplexRow(nxp) * nyp * nzp)
  {
    ProductAssoc(2, ComplexRow(nxp), nyp);
    ProductAssoc(2, ComplexRow(nxp) * nyp, nzp);
  }

  /** A complex cell of the complex buffer occupies two reals of the real buffer. */
  lemma ComplexCellInBuffer(c: int, csize: int, rsize: int)
    requires 0 <= c < csize && rsize == 2 * csize
    ensures 0 <= 2 * c && 2 * c + 1 < rsize
  {
  }

  lemma DivBelow(t: int, a: int, b: int)
    requires a > 0 && 0 <= t < a * b
    ensures 0 <= t / a < b
  {
    var q, m := t / a, t % a;
    assert t == a * q + m;
    if q >= b {
      MulLe(a, b, q);
    }
  }

  /** A position of the logical box in scan order names a cell of the box, and encodes it back. */
  lemma ScanDecode(t: int, nx: int, ny: int, nz: int)
    requires nx > 0 && ny > 0 && 0 <= t < nx * ny * nz
    ensures 0 <= t % nx < nx && 0 <= (t / nx) % ny < ny && 0 <= (t / nx) / ny < nz
    ensures FlatIndex(t % nx, (t / nx) % ny, (t / nx) / ny, nx, ny) == t
  {
    ProductAssoc(nx, ny, nz);
    DivBelow(t, nx, ny * nz);
    DivBelow(t / nx, ny, nz);
    var q := t / nx;
    assert t == t % nx + nx * q;
    assert q == q % ny + ny * (q / ny);
    ProductAssoc(q / ny, nx, ny);
    assert nx * q == nx * (q % ny) + nx * (ny * (q / ny));
    assert nx * (ny * (q / ny)) == (q / ny) * nx * ny;
  }

  /** Cell (i, j, k) of the logical box sits at its flat index in scan order. */
  lemma ScanEncode(i: int, j: int, k: int, nx: int, ny: int, nz: int)
    requires 0 <= i < nx && 0 <= j < ny && 0 <= k < nz
    ensures 0 <= FlatIndex(i, j, k, nx, ny) < nx * ny * nz
    ensures FlatIndex(i, j, k, nx, ny) % nx == i
    ensures (FlatIndex(i, j, k, nx, ny) / nx) % ny == j
    ensures (FlatIndex(i, j, k, nx, ny) / nx) / ny == k
  {
    FlatIndexBounds(i, j, k, nx, ny, nz);
    ProductAssoc(k, nx, ny);
    assert FlatIndex(i, j, k, nx, ny) == i + nx * (j + ny * k);
    DivModRow(i, j + ny * k, nx);
    DivModRow(j, k, ny);
  }

  /**
   * The cells of the logical box nx*ny*nz of a padded buffer (rows of row
   * cells, nyp rows per plane, nzp planes) in scan order: x fastest, then
   * y, then depth.
   */
  function LogicalValues<T>(s: seq<T>, nx: int, ny: int, nz: int, row: int, nyp: int, nzp: int): (r: seq<T>)
    requires 0 < nx <= row && 0 < ny <= nyp && 0 <= nz <= nzp && |s| == row * nyp * nzp
    ensures |r| == nx * ny * nz
  {
    seq(nx * ny * nz, t requires 0 <= t < nx * ny * nz =>
      ScanDecode(t, nx, ny, nz);
      FlatIndexBounds(t % nx, (t / nx) % ny, (t / nx) / ny, row, nyp, nzp);
      s[FlatIndex(t % nx, (t / nx) % ny, (t / nx) / ny, row, nyp)])
  }

  /** Cell (i, j, k) of the logical box is entry FlatIndex(i, j, k, nx, ny) of its scan. */
  lemma LogicalValuesAt<T>(s: seq<T>, nx: int, ny: int, nz: int, row: int, nyp: int, nzp: int, i: int, j: int, k: int)
    requires 0 < nx <= row && 0 < ny <= nyp && 0 <= nz <= nzp && |s| == row * nyp * nzp
    requires 0 <= i < nx && 0 <= j < ny && 0 <= k < nz
    ensures 0 <= FlatIndex(i, j, k, nx, ny) < nx * ny * nz && 0 <= FlatIndex(i, j, k, row, nyp) < |s|
    ensures LogicalValues(s, nx, ny, nz, row, nyp, nzp)[FlatIndex(i, j, k, nx, ny)] == s[FlatIndex(i, j, k, row, nyp)]
  {
    ScanEncode(i, j, k, nx, ny, nz);
    FlatIndexBounds(i, j, k, row, nyp, nzp);
  }

  /** The cell after the end of row j is the start of row j + 1. */
  lemma RowEnd(j: int, k: int, row: int, nyp: int)
    ensures FlatIndex(row, j, k, row, nyp) == FlatIndex(0, j + 1, k, row, nyp)
  {
    assert row * (j + 1) == row * j + row;
  }

  /** The cell after the end of plane k is the start of plane k + 1. */
  lemma PlaneEnd(k: int, row: int, nyp: int)
    ensures FlatIndex(0, nyp, k, row, nyp) == FlatIndex(0, 0, k + 1, row, nyp)
  {
    assert (k + 1) * row * nyp == k * row * nyp + row * nyp;
  }

  /** A scan that has reached row j of plane k has not passed the end of the box. */
  lemma ScanWithin(i: int, j: int, k: int, row: int, nyp: int, nzp: int)
    requires 0 <= i <= row && 0 <= j < nyp && 0 <= k < nzp
    ensures 0 <= FlatIndex(i, j, k, row, nyp) <= row * nyp * nzp
  {
    assert row * j <= row * (nyp - 1) by { MulLe(row, j, nyp - 1); }
    ProductAssoc(k, row, nyp);
    ProductAssoc(row, nyp, nzp);
    assert k * (row * nyp) <= (nzp - 1) * (row * nyp) by { MulLe(row * nyp, k, nzp - 1); }
    assert (nzp - 1) * (row * nyp) + row * nyp == nzp * (row * nyp);
    assert 0 <= row * j && 0 <= k * (row * nyp);
  }

  /** A scan that has finished every plane has covered the whole box. */
  lemma ScanEnd(row: int, nyp: int, nzp: int)
    ensures FlatIndex(0, 0, nzp, row, nyp) == row * nyp * nzp
  {
    ProductAssoc(row, nyp, nzp);
  }

  /** The row holding cell c of a buffer of rows of row cells. */
  function RowOf(c: int, row: int, rows: int): (r: int)
    requires row > 0 && 0 <= c < row * rows
    ensures 0 <= r < rows
  {
    DivBelow(c, row, rows);
    c / row
  }

  /** Cell x of row q lies in a buffer of rows of row cells. */
  lemma RowCellBounds(x: int, q: int, row: int, rows: int)
    requires 0 <= x < row && 0 <= q < rows
    ensures 0 <= x + row * q < row * rows
  {
    RowCell(x, q, row, rows);
  }

  /** Cell x of row q of a buffer of rows of row cells, and its decoding. */
  lemma RowCell(x: int, q: int, row: int, rows: int)
    requires 0 <= x < row && 0 <= q < rows
    ensures 0 <= x + row * q < row * rows
    ensures (x + row * q) % row == x && (x + row * q) / row == q
  {
    MulLe(row, q, rows - 1);
    assert row * (rows - 1) + row == row * rows;
    DivModRow(x, q, row);
  }

  /** Entry (i, j) of an nx by ny table in rows of nx, and its neighbours one row up and down. */
  lemma RowNeighbourBounds(i: int, j: int, nx: int, ny: int)
    requires 0 <= i < nx && 0 <= j < ny
    ensures 0 <= i + nx * j < nx * ny
    ensures j > 0 ==> 0 <= i + nx * j - nx
    ensures j < ny - 1 ==> i + nx * j + nx < nx * ny
  {
    RowCell(i, j, nx, ny);
    if j > 0 {
      MulLe(nx, 1, j);
    }
    if j < ny - 1 {
      RowCell(i, j + 1, nx, ny);
      assert nx * (j + 1) == nx * j + nx;
    }
  }
}
