# CRAVA grids, wells and model file in Dafny

This project models the core of CRAVA, a seismic inversion program. It
covers the following parts:

- **`FFTGrid`**: the padded 3D grid. It holds a buffer that is read either
  as reals or as halved complex rows. It has sequential and random-access
  accessors, cell-by-cell arithmetic in either domain, and the in-place
  FFT with its scaling rules. It also covers the padding geometry (fill
  numbers, tapers, cyclic depth index), statistics over the logical box,
  trace writes and trace interpolation, Hermitian complex white noise, and
  the static bookkeeping of live grids and memory. Modules: `Grid`,
  `Layout`, `Padding`, `Spectrum`, `Stats`.
- **`Corr`**: the posterior covariance object. It holds six covariance
  grids, the cyclic filtered prior time correlation, and the point
  variances and traces read at the origin. Module: `Corr`.
- **`WellData`**: one well's logs. This covers the merging of duplicate
  samples, clipping to limits, resampling onto a uniform time axis,
  linear interpolation of missing samples, and the facies range. Module:
  `WellLogs`.
- **`ModelFile`**: the model-file reader. This covers its tokenizer
  (trimming, quoted parts, splitting, blank restoration), the argument
  counter, the command loop that records commands in a bit mask, the
  handlers of PADDING, WHITENOISE and OUTPUT, and the variogram factory.
  Modules: `ModelFile`, `ModelCommands`, `Flags`.
- **`BlockedLogsForRockPhysics`**: the blocked logs of a well split into
  one row per facies, and the elastic moduli of each cell. Module:
  `RockPhysics`.
- **The string and array helpers of `utils.cpp`**: `copyVector`,
  `copyMatrix`, `findEnd` and `readUntilStop`. Module: `Utils`.

Floating-point values are modelled as `real`. Library mathematics (`sqrt`,
`exp`, `log`, `sin`, `cos`, `pow`) and the FFT library are function values
passed in. Each lemma states the few facts about them that it needs, for
example "the backward transform of the forward transform is N times the
input". The sentinels are `RMISSING = -99999.0` and `IMISSING = -99999`.
`exit(1)` in the source becomes an `ok` result that is false.

Where the source is evidently wrong, the model keeps two things: the code
as written, with a concrete input that shows the defect, and a corrected
member that the rest of the model uses. Both are listed under
"## Findings".

## Model

| member | source | states |
|---|---|---|
| Common.CppRem | src/fftgrid.cpp:2691 | the remainder of C++'s truncating `%`, as in the parity assertion here and the parity test of src/fftgrid.cpp:1224: with the truncated quotient it rebuilds the dividend; it is the usual remainder for a non-negative dividend and -((-a) mod b), in (-b, 0], for a negative one |
| Layout.ComplexRow | src/fftgrid.cpp:37-67 | a complex row has nxp/2+1 cells, enough for the non-redundant half of the spectrum |
| Layout.RealRow | src/fftgrid.cpp:37-67 | a real row is twice the complex row and exceeds nxp by one or two padding reals |
| Layout.FlatIndexBounds | src/fftgrid.cpp:1452-1479 | every cell of the padded box lands inside the buffer |
| Layout.FlatIndexInjective | src/fftgrid.cpp:1452-1479 | distinct cells of the padded box occupy distinct buffer positions |
| Layout.SizesAgree | src/fftgrid.cpp:37-67 | the real buffer is exactly twice the complex buffer, so both views cover the same storage |
| Layout.ScanDecode | src/fftgrid.cpp:992-1027 | a scan-order position of the logical box decodes to a cell of the box and encodes back to itself |
| Layout.ScanEncode | src/fftgrid.cpp:992-1027 | cell (i, j, k) of the logical box sits at position i + nx*j + nx*ny*k of the scan |
| Layout.LogicalValuesAt | src/fftgrid.cpp:992-1027 | the scan of the logical box holds each cell's buffer value at its scan position |
| Padding.FillNumberInside | src/fftgrid.cpp:1318-1357 | inside the logical range a cell is its own source |
| Padding.FillNumberInPadding | src/fftgrid.cpp:1318-1357 | every padding cell copies a cell of the logical range, the nearer end of the cycle |
| Padding.FillNumberBeyondPadding | src/fftgrid.cpp:1318-1357 | positions past the padded length have no source (IMISSING) |
| Padding.FillNumberExamples | src/fftgrid.cpp:1318-1357 | for n = 5, 4 and 3 on 8 cells the fill numbers are 0,1,2,3,4,4,1,0, then 0,1,2,3,3,2,1,0, then 0,1,2,2,1,1,1,0 |
| Padding.DistToBoundaryInside | src/fftgrid.cpp:1373-1415 | the taper distance is 0 inside the logical range |
| Padding.DistToBoundaryBeyondPadding | src/fftgrid.cpp:1373-1415 | outside the padded axis the distance is the source's sentinel |
| Padding.DistToBoundaryInSkirt | src/fftgrid.cpp:1373-1415 | in the padding the distance is strictly positive, and times the taper length min(n, np - n)/2.1 it is the nearer of i - (n - 1) and np - i |
| Padding.ZSimboxIndexCyclic | src/fftgrid.cpp:1359-1370 | for a layer 0 <= k < nzp the box depth index is k or k - nzp, and lies in the window [(nz + nzp)/2 - nzp, (nz + nzp)/2) |
| Padding.ZSimboxIndexInside | src/fftgrid.cpp:1359-1370 | inside the logical depth range a layer is its own index |
| Padding.TaperIsOneInBox | src/fftgrid.cpp:774-777 | inside the logical volume the taper factor is 1, so values are left as they are |
| Padding.PaddedValue | src/fftgrid.cpp:778-783 | a missing value stays missing; taper 1 keeps the value; taper 0 gives the trace mean for parameters and 0 otherwise |
| Padding.CeilLog | src/fftgrid.cpp:2842-2845 | the exponent is the least e with p^e >= n: p^e reaches n and p^(e-1) does not |
| Padding.FindClosestFactorableNumber | src/fftgrid.cpp:2837-2866 | the result is at least n, is a 2-3-5-7 product with exponents in the searched ranges, is at most 2^ceil(log2 n), and is the least 2-3-5-7 product that reaches n over all exponents |
| Spectrum.Mirror | src/fftgrid.cpp:1213-1263 | the conjugate frequency index along an axis of n points is in range, and its own mirror is the index again |
| Spectrum.ConjugateRow | src/fftgrid.cpp:1213-1263 | the conjugate row is a row of the box |
| Spectrum.ConjugateRowInvolution | src/fftgrid.cpp:1213-1263 | taking the conjugate row twice gives back the row |
| Spectrum.ConjugateCell | src/fftgrid.cpp:1213-1263 | the conjugate cell is a cell of the complex buffer |
| Spectrum.ConjugateCellParts | src/fftgrid.cpp:1213-1263 | the conjugate cell lies in the same column, in the conjugate row |
| Spectrum.ConjugateCellInvolution | src/fftgrid.cpp:1213-1263 | the conjugate of the conjugate cell is the cell |
| Spectrum.BoundaryColumnIsSelfConjugate | src/fftgrid.cpp:1224 | the corrected boundary test holds exactly for the stored columns whose x frequency is its own conjugate |
| Spectrum.BoundaryColumnAsWrittenDisagrees | src/fftgrid.cpp:1224 | the test as written misses the Nyquist column for nxp = 8 and accepts a column that is not self-conjugate for nxp = 9 |
| Spectrum.NoiseKindOf | src/fftgrid.cpp:1213-1263 | off the boundary columns a cell is drawn as a pair; on a boundary column it is a real draw exactly when it is its own conjugate and a copy exactly when its conjugate comes earlier |
| Spectrum.DrawsBefore | src/fftgrid.cpp:1213-1263 | the cells before cell c use at most two draws each |
| Stats.CountPresent | src/fftgrid.cpp:992-1027 | the count of present values is at most the length |
| Stats.CountPresentZero | src/fftgrid.cpp:992-1027 | nothing is counted exactly when every value is missing |
| Stats.MinPresentIsLeast | src/fftgrid.cpp:992-1027 | the running minimum keeps its infinite seed exactly when nothing is present; otherwise it is a present value and no present value is below it |
| Stats.MaxPresentIsGreatest | src/fftgrid.cpp:992-1027 | the same for the running maximum |
| Stats.SumBetween | src/fftgrid.cpp:992-1027 | bounds on every present value bound the sum by count times the bound |
| Stats.MeanBetweenExtremes | src/fftgrid.cpp:992-1027 | the mean of the present values lies between their minimum and maximum |
| Stats.MeanWithin | src/fftgrid.cpp:992-1027 | bounds on the present values bound their mean |
| Stats.SumPresentAppend | src/fftgrid.cpp:992-1027 | the sum over a concatenation is the sum of the two sums, as the per-row and per-plane sums add up |
| Grid.AccessModeCode | src/fftgrid.h:72-73 | the access-mode codes lie in 0 to 4, and only NONE has code 0 |
| Grid.NextCursor | src/fftgrid.cpp:1435-1450 | the cursor moves one cell and wraps to 0 after the last cell |
| Grid.CursorAfter | src/fftgrid.cpp:1418-1450 | after n steps the cursor is still a cell of the buffer |
| Grid.CursorAfterIsCyclic | src/fftgrid.cpp:1418-1450 | after n steps the cursor is (c + n) mod size; a full pass returns it to the start |
| Grid.CursorSteps | src/fftgrid.cpp:1418-1450 | one more step from the cursor after n steps is the cursor after n + 1 steps |
| Grid.TransformRoundTrip | src/fftgrid.cpp:1803-1862 | for every kind of cube the forward and inverse transforms, with their scalings, restore every real of the box whose x position is below nxp |
| Grid.RoundTripAt | src/fftgrid.cpp:1803-1862 | the round trip restores one cell, given the unnormalised inverse law at that cell |
| Grid.ComplexGuardAsWrittenOverruns | src/fftgrid.cpp:1558-1565 | the guard as written lets x = 7 through for nxp = 8 and a single row: the flat complex index is past the end of the buffer |
| Grid.CyclicIndexAsWritten | src/fftgrid.cpp:1501-1508 | the cyclic index as written: one wrap of a negative index, then only the upper bound is checked |
| Grid.CyclicIndexAsWrittenUnderruns | src/fftgrid.cpp:1501-1511 | i = -9 with nxp = 8 passes the guard as written and reads buffer position -1 |
| Grid.WrapOnce | src/fftgrid.cpp:1497-1520 | an index in [-np, np) wraps into [0, np) and keeps its residue modulo np |
| Grid.Blend | src/fftgrid.cpp:1522-1544 | a blend at fraction 0 is the first value and at fraction 1 the second |
| Grid.BlendBetween | src/fftgrid.cpp:1522-1544 | a blend at a fraction in [0, 1] lies between its two end values |
| Grid.SquareReal | src/fftgrid.cpp:1706-1744 | squaring keeps the sentinel, and every other result is non-negative |
| Grid.SquareComplex | src/fftgrid.cpp:1706-1744 | a squared spectral cell is its power re^2 + im^2, with zero imaginary part; the sentinel stays |
| Grid.SelfProductAsWritten | src/fftgrid.cpp:1956-1979 | in place on its own buffer the imaginary part of multiply reads the real part it has just overwritten |
| Grid.SelfProductIsNotSquare | src/fftgrid.cpp:1956-1979 | multiplying a spectrum by itself in place is not squaring it: 1 + i gives i, not 2i |
| Grid.ProductWithConjugate | src/fftgrid.cpp:1956-1989 | a cell times its conjugate is its power, as `square` gives it |
| Grid.LogUndoesExp | src/fftgrid.cpp:1746-1784 | where exp gives a positive value that log inverts, `logTransf` undoes `expTransf` |
| Grid.Ceil | src/fftgrid.cpp:654-657 | the ceiling is floor or floor + 1, equals the floor exactly at whole numbers, and lies in [x, x + 1) |
| Grid.FineSample | src/fftgrid.cpp:654-679 | 0 beyond both ends, the end sample within one step of it, the sample itself at whole positions, and otherwise a blend between the two neighbours that stays within them |
| Grid.SmoothTraceInGuardZone | src/fftgrid.cpp:319-360 | the trace becomes the doubly tapered trace: the first and the last floor(smoothLength/dz) samples damped and the rest kept |
| Grid.TaperHead | src/fftgrid.cpp:345-349 | the first loop applies the top taper to the first nSmooth samples only |
| Grid.TaperTail | src/fftgrid.cpp:351-359 | the second loop applies the bottom taper to the last nSmooth samples only |
| Grid.SmoothingZeroesEnds | src/fftgrid.cpp:319-360 | with sin 0 = 0 and cos(pi/2) = 0 the first and the last sample become zero and the samples between the zones are untouched |
| Grid.HeadZeroesFirst | src/fftgrid.cpp:345-349 | the top taper zeroes the first sample |
| Grid.TailZeroesLast | src/fftgrid.cpp:351-359 | the bottom taper zeroes the last sample |
| Grid.SmoothingNeverAmplifies | src/fftgrid.cpp:319-360 | when sine and cosine stay in [-1, 1] no sample grows in magnitude |
| Grid.NoiseScale | src/fftgrid.cpp:1213-1263 | the scale of paired draws is 1/sqrt 2 |
| Grid.GridRegistry.constructor | src/fftgrid.cpp:2869-2876 | the static counters start with no grid, a ceiling of one grid, no memory used and no fatal limit |
| Grid.FftGrid.constructor | src/fftgrid.cpp:37-67 | sizes are stored, the complex row is nxp/2+1 and the real row twice that, so rsize = 2*csize; both cursors are 0, the grid is real, has no storage yet, and has no cube type, angle or statistics |
| Grid.FftGrid.SetType | src/fftgrid.h:22 | the cube type is set and nothing else changes |
| Grid.FftGrid.SetAngle | src/fftgrid.h:23 | the angle is set and nothing else changes |
| Grid.FftGrid.SetAccessMode | src/fftgrid.h:76 | an in-memory grid has no access modes; the call changes nothing |
| Grid.FftGrid.EndAccess | src/fftgrid.h:77 | ending access changes nothing in an in-memory grid |
| Grid.FftGrid.ConsistentSize | src/fftgrid.cpp:2039-2049 | true exactly when all six dimensions equal the grid's |
| Grid.FftGrid.XSimboxIndex | src/fftgrid.h:129 | a padding column copies a column of the logical range |
| Grid.FftGrid.YSimboxIndex | src/fftgrid.h:130 | a padding row copies a row of the logical range |
| Grid.FftGrid.ZSimboxIndex | src/fftgrid.cpp:1359-1370 | the depth index of a layer, cyclic in nzp |
| Grid.FftGrid.CreateGrid | src/fftgrid.cpp:1283-1316 | fresh storage and reset cursors; the memory counters grow by the buffer size and track their peak; failure exactly when the grid count passes a fatal ceiling, in which case nothing more is recorded; otherwise the first grid over the ceiling records a note |
| Grid.FftGrid.CreateRealGrid | src/fftgrid.cpp:1265-1273 | the grid is created in the real domain and counted only when `add` is set |
| Grid.FftGrid.CreateComplexGrid | src/fftgrid.cpp:1275-1281 | the grid is created in the spectral domain and always counted |
| Grid.FftGrid.Release | src/fftgrid.cpp:122-132 | a grid with storage gives back its bytes and its place among the live grids; one without changes nothing |
| Grid.FftGrid.GetNextReal | src/fftgrid.cpp:1435-1450 | returns the real at the read cursor, which moves on cyclically |
| Grid.FftGrid.GetNextComplex | src/fftgrid.cpp:1418-1431 | returns the complex cell at the read cursor, which moves on cyclically over the complex cells |
| Grid.FftGrid.SetNextReal | src/fftgrid.cpp:1639-1653 | writes only the real at the write cursor, which moves on cyclically |
| Grid.FftGrid.SetNextComplex | src/fftgrid.cpp:1603-1637 | writes only the two reals of the complex cell at the write cursor, which moves on cyclically |
| Grid.FftGrid.RealIndex | src/fftgrid.cpp:1452-1479 | the buffer position of a cell of the padded box lies in the buffer and its x position in the row is i |
| Grid.FftGrid.GetRealValue | src/fftgrid.cpp:1452-1479 | the value stored at the cell inside the logical (or extended) box, RMISSING outside it |
| Grid.FftGrid.SetRealValue | src/fftgrid.cpp:1656-1672 | in range, only that cell changes and 0 is returned; out of range, nothing changes and 1 is returned |
| Grid.FftGrid.ComplexIndex | src/fftgrid.cpp:1546-1575 | a cell inside the corrected guard names a complex cell of the buffer |
| Grid.FftGrid.GetComplexValue | src/fftgrid.cpp:1546-1575 | the stored cell inside the corrected guard, (RMISSING, RMISSING) outside it |
| Grid.FftGrid.SetComplexValue | src/fftgrid.cpp:1687-1704 | inside the corrected guard only that cell's two reals change and 0 is returned; otherwise nothing changes and 1 is returned |
| Grid.FftGrid.GetRealValueCyclic | src/fftgrid.cpp:1497-1520 | an index that one wrap brings into the padded box reads that cell; any other gives RMISSING |
| Grid.FftGrid.GetRealValueInterpolated | src/fftgrid.cpp:1522-1544 | RMISSING when the lower layer is missing, the lower value when the upper one is missing or the index is whole, and otherwise a value between the two layers |
| Grid.FftGrid.Square | src/fftgrid.cpp:1706-1744 | every cell of the current domain is squared as SquareReal or SquareComplex says |
| Grid.FftGrid.ExpTransf | src/fftgrid.cpp:1746-1764 | every real is replaced by ExpReal of it |
| Grid.FftGrid.LogTransf | src/fftgrid.cpp:1766-1784 | every real is replaced by LogReal of it |
| Grid.FftGrid.Add | src/fftgrid.cpp:1876-1898 | every real of the buffer becomes the sum of the two grids' reals, which is also the sum of each complex cell |
| Grid.FftGrid.Subtract | src/fftgrid.cpp:1911-1933 | every real of the buffer becomes the difference of the two grids' reals |
| Grid.FftGrid.AddScalar | src/fftgrid.cpp:1899-1909 | every real grows by the constant |
| Grid.FftGrid.ChangeSign | src/fftgrid.cpp:1934-1955 | every real of the buffer is negated, in either domain |
| Grid.FftGrid.Multiply | src/fftgrid.cpp:1956-1979 | real domain: cellwise product; spectral domain: Product of the two cells, or SelfProductAsWritten when the factor is the grid itself |
| Grid.FftGrid.MultiplySpectral | src/fftgrid.cpp:1962-1969 | every complex cell becomes the complex product with the other grid's cell |
| Grid.FftGrid.SelfMultiplySpectral | src/fftgrid.cpp:1962-1969 | on its own buffer every cell becomes SelfProductAsWritten of itself |
| Grid.FftGrid.Conjugate | src/fftgrid.cpp:1981-1989 | every imaginary part is negated and every real part kept |
| Grid.FftGrid.MultiplyByScalar | src/fftgrid.cpp:1991-1999 | every real is multiplied by the constant |
| Grid.FftGrid.RealAbs | src/fftgrid.cpp:1864-1874 | every spectral cell becomes RealAbsCell of itself |
| Grid.RealAbsIsMagnitude | src/fftgrid.cpp:1864-1874 | where `sqrt` gives the non-negative root, the absolute value of a cell has as real part the magnitude of the real part, and imaginary part 0 |
| Grid.FftGrid.FftInPlace | src/fftgrid.cpp:1803-1829 | the buffer becomes the forward transform of the buffer pre-scaled by 1/sqrt N (not for covariances), and the grid is marked spectral |
| Grid.FftGrid.InvFftInPlace | src/fftgrid.cpp:1831-1862 | the buffer becomes the backward transform, scaled by 1/N for covariances and 1/sqrt N otherwise, and the grid is marked real |
| Grid.FftGrid.FftRoundTrip | src/fftgrid.cpp:1803-1862 | transforming forward and back restores every cell of the box |
| Grid.FftGrid.FillInConstant | src/fftgrid.cpp:923-939 | when creation succeeds the value fills every cell with x position below nxp and RMISSING the rest of each row, and the write cursor is back at 0; creation fails only at a fatal grid ceiling |
| Grid.FftGrid.LogicalAt | src/fftgrid.cpp:992-1027 | cell (i, j, k) is entry i + nx*j + nx*ny*k of the logical scan |
| Grid.FftGrid.CalculateStatistics | src/fftgrid.cpp:992-1027 | the recorded minimum, maximum and mean are those of the present values of the logical box; with none present the extrema keep their infinite seeds and the mean is 0 |
| Grid.FftGrid.ScanLogicalBox | src/fftgrid.cpp:999-1020 | the triple loop gives the count, extrema and sum of the present values of the whole logical scan |
| Grid.FftGrid.StatisticsMeaning | src/fftgrid.cpp:992-1027 | the recorded extrema are values of the box that bound every present value, and the mean lies between them |
| Grid.FftGrid.RealIndexOnTrace | src/fftgrid.cpp:684-698 | a cell lies on trace (i, j) exactly when it is in column i of row j |
| Grid.FftGrid.TraceLayersDistinct | src/fftgrid.cpp:684-698 | distinct layers of a trace are distinct buffer positions |
| Grid.FftGrid.SetTrace | src/fftgrid.cpp:684-690 | layer k of the trace becomes trace[k] and nothing off the trace changes; a trace outside the extended box is not written |
| Grid.FftGrid.SetTraceConstant | src/fftgrid.cpp:692-698 | every layer of the trace becomes the value and nothing else changes |
| Grid.FftGrid.InterpolateGridValues | src/fftgrid.cpp:634-681 | layer k of the grid trace is FineSample of the fine trace at the depth of its box layer |
| Grid.SampleFine | src/fftgrid.cpp:654-679 | the per-layer sampling of the fine trace gives FineSample, whose meaning the FineSample row states |
| Grid.FftGrid.FinePositionInBox | src/fftgrid.cpp:654-656 | with matching origins and steps a layer in the box lies at its own index of the fine trace |
| Grid.FftGrid.NeighbourMeanWithin | src/fftgrid.cpp:2657-2695 | bounds on the used neighbours bound their mean |
| Grid.FftGrid.SumNeighbours | src/fftgrid.cpp:2666-2685 | the accumulated sums are the sums of the used neighbours, layer by layer |
| Grid.FftGrid.StoreMeans | src/fftgrid.cpp:2686-2690 | layer k of the trace becomes sum[k]/count, and nothing else changes |
| Grid.FftGrid.InterpolateTrace | src/fftgrid.cpp:2657-2695 | with two or more neighbours holding data the trace becomes their mean and its odd flag is decreased; otherwise grid and flag stay |
| Grid.FftGrid.ConjugateOf | src/fftgrid.cpp:1213-1263 | the conjugate cell is a cell of the complex buffer in the same column |
| Grid.FftGrid.NoiseKindAt | src/fftgrid.cpp:1213-1263 | the treatment of a cell is that of Spectrum.NoiseKindOf |
| Grid.FftGrid.DrawsBefore | src/fftgrid.cpp:1213-1263 | the cells before a cell use at most two draws each |
| Grid.FftGrid.FillInComplexNoise | src/fftgrid.cpp:1213-1263 | every complex cell is filled as its kind says from the successive draws: a real draw, a scaled pair, or the conjugate of an earlier cell |
| Grid.FftGrid.FillNoiseCell | src/fftgrid.cpp:1221-1262 | one cell is filled from the draws starting at d, and the number of draws used is that of its kind |
| Grid.FftGrid.NoiseIsHermitian | src/fftgrid.cpp:1213-1263 | on the boundary columns every cell is the conjugate of its conjugate-frequency cell |
| Grid.FftGrid.HermitianAt | src/fftgrid.cpp:1213-1263 | the same for one cell |
| Grid.FftGrid.SelfConjugateIsReal | src/fftgrid.cpp:1213-1263 | a self-conjugate cell has zero imaginary part |
| Corr.RefKIsCyclicDistance | src/corr.cpp:159-180 | the lag read for layer i is the cyclic distance of i from 0 |
| Corr.FilteredCorrT | src/corr.cpp:159-180 | the filtered correlation has nzp entries |
| Corr.FilteredSymmetric | src/corr.cpp:159-180 | the filtered correlation is cyclically symmetric: entry i equals entry nzp - i |
| Corr.FilteredMeaning | src/corr.cpp:159-180 | lag d of the prior correlation appears at d and at nzp - d; lags from nz on, or all without a prior correlation, are zero |
| Corr.VarianceMatrix | src/corr.cpp:265-288 | the 3x3 point variance is symmetric, with the variances on the diagonal |
| Corr.Origin | src/corr.cpp:291-298 | the value at the origin is buffer position 0 |
| Corr.GetOrigin | src/corr.cpp:291-298 | reads the grid's origin value without changing the grid |
| Corr.CreatePostCov00 | src/corr.cpp:300-313 | the result holds, for every layer of the box, the grid's value at x = y = 0 |
| Corr.ForwardPair | src/corr.cpp:203-220 | both grids end in the spectral domain; one already there is unchanged |
| Corr.ForwardIfNeeded | src/corr.cpp:207-208 | a grid ends in the spectral domain: transformed forward when it was real, unchanged when it was already spectral |
| Corr.BackwardPair | src/corr.cpp:183-200 | both grids end in the real domain; one already there is unchanged |
| Corr.BackwardIfNeeded | src/corr.cpp:183-200 | a grid ends in the real domain: transformed back when it was spectral, unchanged when it was already real |
| Corr.MakeCovarianceGrid | src/corr.cpp:96-121 | a fresh covariance-typed grid of the given sizes, created in the requested domain through the registry |
| Corr.MakeCovarianceGrids | src/corr.cpp:96-121 | six fresh grids of one size sharing no storage |
| Corr.PointVariance | src/corr.cpp:265-288 | a fresh 3x3 array holding VarianceMatrix of the six values |
| Corr.OriginsOf | src/corr.cpp:265-288 | the six origin values in the order variances first |
| Corr.MakePointVariance | src/corr.cpp:265-288 | the point variance read at the origins of the six grids |
| Corr.MakeTraces | src/corr.cpp:273-286 | each trace is the corresponding grid at x = y = 0 |
| Corr.PostCovGrids.constructor | src/corr.cpp:96-121 | the six grids are ready, of one size, with no shared storage |
| Corr.PostCovGrids.FFT | src/corr.cpp:203-220 | all six grids end in the spectral domain; a grid already there is unchanged |
| Corr.PostCovGrids.InvFFT | src/corr.cpp:183-200 | all six grids end in the real domain; a grid already there is unchanged |
| Corr.PostCovGrids.Origins | src/corr.cpp:265-288 | the six origin values, variances first |
| Corr.PostVariances.constructor | src/corr.cpp:265-288 | stores the point variance and the six traces as given |
| Corr.Corr.constructor | src/corr.cpp:14-41 | no filtered correlation, posterior grids or posterior variances exist yet |
| Corr.Corr.SetPriorCorrTFiltered | src/corr.cpp:159-180 | the stored filtered correlation is FilteredCorrT of the prior correlation |
| Corr.Corr.CreatePostGrids | src/corr.cpp:96-121 | six covariance grids of one size, alpha and beta real and the rest spectral; `ok` is false exactly when one of them hits a fatal ceiling |
| Corr.Corr.CreatePostVariances | src/corr.cpp:265-288 | the stored point variance and traces are those read off the grids |
| Flags.AddFlagMeaning | src/modelfile.cpp:151-173 | adding 2^i to a mask without flag i sets that flag and leaves every other one |
| Flags.SetFlagMeaning | src/modelfile.cpp:151-173 | or-ing in flag i sets exactly that flag in addition to those set before |
| Flags.FlagAtLeast | src/modelfile.cpp:331-362 | a mask with flag i is at least 2^i |
| Flags.RemoveFlagMeaning | src/modelfile.cpp:331-362 | taking 2^i from a mask with flag i clears that flag and keeps the others |
| Flags.SetFlagBound | src/modelfile.cpp:151-173 | setting a flag below n keeps the mask below 2^n |
| Flags.BelowLacksFlag | src/modelfile.cpp:331-362 | a mask below 2^i has flag i clear |
| Flags.NoFlag | src/modelfile.cpp:133-140 | the empty mask has no flag |
| Flags.EmptyMask | src/modelfile.cpp:133-140 | the empty mask represents no command |
| Flags.SetFlagAdds | src/modelfile.cpp:151-173 | setting flag i adds command i to the represented set |
| ModelFile.FindChar | src/modelfile.cpp:622-643 | the first index from `from` holding the character, or the length when there is none |
| ModelFile.FindOther | src/modelfile.cpp:577-586 | the first index from `from` not holding the character, or the length |
| ModelFile.DropLeadingShape | src/modelfile.cpp:577-586 | what is dropped is whitespace, and what is kept is empty or starts with a non-whitespace character |
| ModelFile.DropTrailingShape | src/modelfile.cpp:577-586 | what is dropped is whitespace, and what is kept is empty or ends with a non-whitespace character |
| ModelFile.TrimString | src/modelfile.cpp:577-586 | the result is the line without leading and trailing whitespace |
| ModelFile.TrimmedIsSlice | src/modelfile.cpp:577-586 | the trimmed line is a slice of the line, and everything cut off is whitespace |
| ModelFile.TrimmedEnds | src/modelfile.cpp:577-586 | the trimmed line is empty exactly when the line is all whitespace; otherwise it starts and ends with a non-whitespace character |
| ModelFile.TrimIdempotent | src/modelfile.cpp:577-586 | trimming twice is trimming once |
| ModelFile.ProtectMatchedPair | src/modelfile.cpp:600-612 | the three replacements for one matched pair: the blanks between the two apostrophes become apostrophes and the two delimiters become blanks; nothing else changes |
| ModelFile.FindApostropheEnclosedParts | src/modelfile.cpp:588-620 | with an even number of apostrophes the line is protected, with an odd number `ok` is false |
| ModelFile.ProtectRestores | src/modelfile.cpp:588-656 | restoring blanks undoes the protection: a quoted part comes back with its blanks and without its delimiters |
| ModelFile.ProtectKeepsQuotedTogether | src/modelfile.cpp:588-643 | a protected line has no blank inside a quoted part, so splitting keeps each quoted part whole; outside quoted parts it is the original line |
| ModelFile.WordAt | src/modelfile.cpp:622-643 | the next word starts at `startpos` and ends at `endpos` |
| ModelFile.PushWord | src/modelfile.cpp:630-640 | appends the parameters of the word: the word, or the word without a final ';' followed by ";" |
| ModelFile.SplitString | src/modelfile.cpp:622-643 | appends the parameters of the line to the entries already there |
| ModelFile.TokensConcat | src/modelfile.cpp:622-643 | the parameters joined back to back are the line without its blanks: nothing is lost or reordered |
| ModelFile.TokensAreWords | src/modelfile.cpp:622-643 | every parameter is non-empty and blank-free |
| ModelFile.ReintroduceBlanks | src/modelfile.cpp:645-656 | apostrophes become blanks in the parameters from `iStart` on, so none is left there; earlier ones are unchanged |
| ModelFile.NextTerminator | src/modelfile.cpp:2072-2104 | the first terminator at or after `pos`, or the end; everything before it is not a terminator |
| ModelFile.CountAccepted | src/modelfile.cpp:2072-2104 | exactly `min` when max is 0, at least `min` when max is negative, otherwise between min and max |
| ModelFile.GetParNum | src/modelfile.cpp:2072-2104 | the number of arguments up to the next terminator, and whether it breaks the limits |
| ModelFile.IndexOfMeaning | src/modelfile.cpp:144-149 | the index found is the first occurrence of the name; the length means none |
| ModelFile.LookUp | src/modelfile.cpp:144-149 | the linear search returns IndexOf |
| ModelFile.CommandIndex | src/modelfile.cpp:144-149 | a command's number is its position in the command list, or the list length when unknown |
| ModelFile.LookUpCommand | src/modelfile.cpp:144-149 | the loop's search returns CommandIndex of the upper-cased name |
| ModelFile.EmptySlotUnreachable | src/modelfile.cpp:68-113 | the lower-case placeholder in the list is never selected by an upper-cased name |
| ModelFile.ReadCommand | src/modelfile.cpp:151-325 | one pass of the loop performs the command's step: the updated mask, its error count (its own error, plus one when the parameter before the new position is longer than ";"), and the position the loop resumes at, which is the handler's end when it has one |
| ModelFile.RunFromStep | src/modelfile.cpp:142-326 | the run from a command is that command's step followed by the run from the position that step resumes at |
| ModelFile.ReadCommands | src/modelfile.cpp:142-326 | the mask and error count at the end of the loop are those of RunFrom over the parameters, with every handler resuming the loop where it ends; one more error is counted when the last parameter is not a terminator |
| ModelFile.UsedMeaning | src/modelfile.cpp:151-173 | the loop ends with exactly the commands it started with plus the known commands named |
| ModelFile.NoErrorsDistinct | src/modelfile.cpp:151-173 | a run without errors names no unknown command and no command twice |
| ModelFile.UnknownAreErrors | src/modelfile.cpp:296-311 | every unknown command name counts as an error |
| ModelFile.WellsGroupsExample | src/modelfile.cpp:181-182 | a WELLS command whose handler reads a HEADERS group and then a well name, each up to its own ";", is one command without errors; ending it at its first ";" would read the well name as an unknown command |
| ModelCommands.ModelSettings.constructor | src/modelfile.cpp:25 | the settings start with the given padding factors, white-noise component and domain, and no output flags |
| ModelCommands.PaddingAfter | src/modelfile.cpp:1243-1286 | with three arguments each factor in range is taken and the others kept; otherwise nothing changes |
| ModelCommands.PaddingKeepsValid | src/modelfile.cpp:1243-1286 | PADDING never stores a factor out of range, and an accepted command yields valid factors |
| ModelCommands.ReadCommandPadding | src/modelfile.cpp:1243-1286 | stores PaddingAfter and reports an error exactly when PaddingError holds |
| ModelCommands.WhiteNoiseAfter | src/modelfile.cpp:1441-1460 | the component is taken only when it is a number in the accepted range |
| ModelCommands.WhiteNoiseKeepsValid | src/modelfile.cpp:1441-1460 | WHITENOISE never stores a component out of range |
| ModelCommands.ReadCommandWhiteNoise | src/modelfile.cpp:1441-1460 | stores WhiteNoiseAfter and reports an error exactly when WhiteNoiseError holds |
| ModelCommands.KeyIndex | src/modelfile.cpp:1389-1391 | an option's number is its position in the option list, or the list length when unknown |
| ModelCommands.LookUpKey | src/modelfile.cpp:1389-1391 | the loop's search returns KeyIndex |
| ModelCommands.KeysOf | src/modelfile.cpp:1386-1409 | one option number per argument, in order |
| ModelCommands.FoldFlags | src/modelfile.cpp:1386-1409 | a bit of a group is set after the options exactly when it was before or an option names it |
| ModelCommands.FoldDomain | src/modelfile.cpp:1386-1409 | NOTIME keeps only the lowest bit of the domain flag; without it the flag is unchanged |
| ModelCommands.FoldOtherBound | src/modelfile.cpp:1398-1399 | the other flags stay below 2^3 |
| ModelCommands.FinishGrid | src/modelfile.cpp:1414-1425 | FACIESPROB and FACIESPROBRELATIVE are never both set, and every other grid flag is kept |
| ModelCommands.FinishOther | src/modelfile.cpp:1414-1425 | BACKGROUND brings the one-dimensional trend and CORRELATION the prior correlations; the flags set by options are kept |
| ModelCommands.OutputMeaning | src/modelfile.cpp:1323-1438 | all of the above for OUTPUT as a whole |
| ModelCommands.AddKeyFlag | src/modelfile.cpp:1392-1399 | after one option a bit of a group is set exactly when it was set before or the option names it |
| ModelCommands.AddKeyDomain | src/modelfile.cpp:1400-1401 | NOTIME keeps only the lowest bit of the domain flag, and every other option leaves it as it was |
| ModelCommands.AddKeyOther | src/modelfile.cpp:1398-1399 | an option keeps the other flags below 2^3 |
| ModelCommands.ReadOptions | src/modelfile.cpp:1386-1409 | the option loop gives Fold of the option numbers, and reports an unknown option exactly when there is one |
| ModelCommands.ReadCommandOutput | src/modelfile.cpp:1323-1438 | no option, or an unknown one, is an error; otherwise each group of output flags becomes that of OutputResult when it is non-zero, and the domain flag is OutputResult's |
| ModelCommands.AsWrittenStep | src/modelfile.cpp:1386-1410 | where the loop counter goes after an option, as the source writes the loop |
| ModelCommands.AsWrittenSkipsRest | src/modelfile.cpp:1386-1410 | an unknown first option makes the loop as written skip the remaining options |
| ModelCommands.AsWrittenStalls | src/modelfile.cpp:1386-1410 | with more than NKeys + 1 = 30 options and an unknown one at position 30, the loop as written returns to position 30 each time, so it never ends |
| ModelCommands.VarioFor | src/modelfile.cpp:2163-2228 | an unknown type exactly when the name is not a variogram type; a made variogram takes the numeric parameters in order, with azimuth 90 minus the last one when given; a wrong count is neither the full nor the short count |
| ModelCommands.CreateVario | src/modelfile.cpp:2163-2228 | the factory returns the variogram, or the error, that VarioFor describes |
| WellLogs.MergedValueMeaning | src/welldata.cpp:605-654 | a merged value is RMISSING exactly when the group has no present sample, and otherwise lies between its least and greatest present sample |
| WellLogs.MergeCells | src/welldata.cpp:605-654 | slot ii becomes the merged value of the group; nothing else changes |
| WellLogs.MergeCellsDiscrete | src/welldata.cpp:658-677 | slot ii becomes the facies of the group's first sample; nothing else changes |
| WellLogs.GroupEnd | src/welldata.cpp:548-556 | the group ends at or after its start and inside the log; the sample after it, unless that is the last sample, is at least the merge distance from the first |
| WellLogs.GroupEndWithin | src/welldata.cpp:548-556 | every sample of a group after its first lies within the merge distance of the first |
| WellLogs.GroupsPartition | src/welldata.cpp:530-602 | the groups split the samples into consecutive non-empty runs from the start to the last sample, each within the merge distance of its first sample |
| WellLogs.NoMergeWhenSpread | src/welldata.cpp:530-602 | samples at least the merge distance apart are never merged |
| WellLogs.MergedLogAt | src/welldata.cpp:530-602 | entry g of the merged log is the merged value of group g |
| WellLogs.MergeDuplicates | src/welldata.cpp:530-602 | the merged logs hold one merged sample per group, the facies that of the group's first sample |
| WellLogs.MergeAllGroups | src/welldata.cpp:546-576 | the fresh logs hold the merged values of every group, in order |
| WellLogs.MergeNextGroup | src/welldata.cpp:548-575 | merges the group starting at `istart` into slot ii and returns the start of the next group |
| WellLogs.FindGroupEnd | src/welldata.cpp:548-556 | the loop returns GroupEnd |
| WellLogs.MergeGroup | src/welldata.cpp:558-566 | slot ii of every log becomes that group's merged value |
| WellLogs.Clip | src/welldata.cpp:681-729 | a present sample outside [lo, hi] becomes RMISSING; a missing or in-range sample stays |
| WellLogs.CountChanged | src/welldata.cpp:681-729 | the number of differing positions is at most the length, and 0 exactly when the logs are equal |
| WellLogs.ClipSample | src/welldata.cpp:700-721 | resets one sample exactly when it is present and out of limits, and counts the reset |
| WellLogs.InterpolatedBetween | src/welldata.cpp:940-981 | an interpolated sample lies between the two present samples around its gap |
| WellLogs.PrevDefined | src/welldata.cpp:956-958 | the last present sample before t, or -1; every sample between it and t is missing |
| WellLogs.NextDefined | src/welldata.cpp:959-961 | the first present sample after t, or the length; every sample between t and it is missing |
| WellLogs.UniformTimeEnds | src/welldata.cpp:838-868 | the resampled time axis starts at the first and ends at the last time sample |
| WellLogs.Cut | src/welldata.cpp:908-931 | the first raw sample of each interior slot lies inside the log |
| WellLogs.ResampleLog | src/welldata.cpp:871-937 | the end samples are copied and every interior slot holds the mean of the present raw samples of its window, or RMISSING when none |
| WellLogs.FindStart | src/welldata.cpp:908-910 | the search returns the first raw sample of slot 1 |
| WellLogs.ResampleSlot | src/welldata.cpp:912-931 | one slot gathers the present samples of its window and stores their mean |
| WellLogs.ResampleInterior | src/welldata.cpp:912-931 | the end slots are untouched and every interior slot holds the mean of the present raw samples of its window, or RMISSING |
| WellLogs.CutsOrdered | src/welldata.cpp:912-931 | each window ends where the next starts and never passes the last sample |
| WellLogs.WindowIsHalfCell | src/welldata.cpp:871-937 | with rising times slot i gathers exactly the raw samples (the last one aside) whose time lies in its half-cell interval around tr[i] |
| WellLogs.InterpolateLog | src/welldata.cpp:940-981 | every interior run of missing samples is filled on the straight line between its present neighbours; present samples and the missing runs at either end stay |
| WellLogs.FillGap | src/welldata.cpp:960-975 | the missing samples between j0 and j1 take the straight line between them; nothing else changes |
| WellLogs.GapSample | src/welldata.cpp:960-975 | a missing sample inside a gap lies on the line between the gap's ends |
| WellLogs.PresentKept | src/welldata.cpp:940-981 | a present sample is its own interpolation |
| WellLogs.TrailingRun | src/welldata.cpp:940-981 | missing samples after the last present one stay missing |
| WellLogs.LinearAtEnds | src/welldata.cpp:960-975 | the interpolating line passes through both end samples |
| WellLogs.WellData.constructor | src/welldata.cpp:20-44 | the logs are stored as given |
| WellLogs.WellData.RemoveDuplicateLogEntries | src/welldata.cpp:530-602 | the logs become MergeDuplicates of the old logs, and the count of removed samples is the old length minus the number of groups |
| WellLogs.WellData.SetWrongLogEntriesUndefined | src/welldata.cpp:681-729 | each of Vp, Vs and density becomes its clipped log, and each count is the number of samples that changed |
| WellLogs.WellData.GetMinMaxFnr | src/welldata.cpp:1226-1239 | the least and greatest facies number, both numbers of the list |
| WellLogs.WellData.ResampleTime | src/welldata.cpp:838-868 | a missing end sample fails and writes nothing; otherwise the axis has constant step from the first to the last time |
| RockPhysics.Filled | src/blockedlogsforrockphysics.cpp:74-77 | a table of the given shape with every cell the value |
| RockPhysics.AssignBlock | src/blockedlogsforrockphysics.cpp:204-211 | block m of each row whose facies number is the block's facies takes the log's value when both are defined; every other cell is kept |
| RockPhysics.AssignToFacies | src/blockedlogsforrockphysics.cpp:194-213 | without a log the table is unchanged; otherwise each cell whose block has a value and that facies takes the value, and every other cell keeps its own |
| RockPhysics.LastIndexBelow | src/blockedlogsforrockphysics.cpp:116-126 | a found position lies below n and holds the name |
| RockPhysics.LastIndexBelowMeaning | src/blockedlogsforrockphysics.cpp:116-126 | the found position is the last one below n holding the name, and none is found exactly when no position holds it |
| RockPhysics.GetForFacies | src/blockedlogsforrockphysics.cpp:116-191 | the look-up returns RowFor: the row of the last facies with the name, empty when none |
| RockPhysics.RowForMeaning | src/blockedlogsforrockphysics.cpp:116-191 | the row found is that of a facies with the name after which none has it; without one the row is empty |
| RockPhysics.ModuliRow | src/blockedlogsforrockphysics.cpp:94-105 | each block of a row gets ModuliAt of its three values |
| RockPhysics.Moduli | src/blockedlogsforrockphysics.cpp:93-106 | every cell of the bulk and shear tables is the computed moduli where alpha, beta and rho are all defined, RMISSING elsewhere |
| RockPhysics.BlockedLogsForRockPhysics.constructor | src/blockedlogsforrockphysics.cpp:30-108 | porosity all RMISSING; each cell of alpha, beta and rho holds the blocked value where the block has that row's facies, RMISSING elsewhere; moduli cellwise as Moduli says |
| RockPhysics.BlockedLogsForRockPhysics.GetAlphaForFacies | src/blockedlogsforrockphysics.cpp:116-126 | the Vp row of the named facies, as RowFor says |
| RockPhysics.BlockedLogsForRockPhysics.GetBetaForFacies | src/blockedlogsforrockphysics.cpp:129-139 | the Vs row of the named facies |
| RockPhysics.BlockedLogsForRockPhysics.GetRhoForFacies | src/blockedlogsforrockphysics.cpp:142-152 | the density row of the named facies |
| RockPhysics.BlockedLogsForRockPhysics.GetBulkForFacies | src/blockedlogsforrockphysics.cpp:155-165 | the bulk-modulus row of the named facies |
| RockPhysics.BlockedLogsForRockPhysics.GetShearForFacies | src/blockedlogsforrockphysics.cpp:168-178 | the shear-modulus row of the named facies |
| RockPhysics.BlockedLogsForRockPhysics.GetPorosityForFacies | src/blockedlogsforrockphysics.cpp:181-191 | the porosity row of the named facies |
| Utils.CopyVector | libs/lib/utils.cpp:30-47 | the first ndim elements come from `from` and the rest of `to` keeps its values, also when the two arrays are the same; a non-positive ndim copies nothing |
| Utils.CopyMatrix | libs/lib/utils.cpp:50-59 | the ndim1 by ndim2 corner comes from `from` and every other cell keeps its value |
| Utils.FindFrom | libs/lib/utils.cpp:195 | a found position is at or after `pos` and the pattern occurs there |
| Utils.FindFromMeaning | libs/lib/utils.cpp:195 | the found position is the first occurrence at or after `pos`, and none is found exactly when there is no occurrence there |
| Utils.FindEndLoop | libs/lib/utils.cpp:165-185 | the loop returns FindEndAsWritten |
| Utils.ScanMatched | libs/lib/utils.cpp:172-179 | during the scan the last `flag` characters read are the start of the pattern |
| Utils.FindEndAsWrittenSound | libs/lib/utils.cpp:165-185 | the result is -1 or ends an occurrence starting at or after `start`; an empty pattern gives start - 1 |
| Utils.FindEndAsWrittenMissesOverlap | libs/lib/utils.cpp:172-179 | on "aab" the scan as written misses "ab" and returns -1 |
| Utils.FindEnd | libs/lib/utils.cpp:165-185 | the last character of the first occurrence at or after `start`, -1 when there is none or `start` is negative, start - 1 for an empty pattern |
| Utils.FindEndFindsOverlap | libs/lib/utils.cpp:165-185 | the corrected search finds "ab" in "aab", ending at 2 |
| Utils.CopyAfter | libs/lib/utils.cpp:200-205 | the characters from pos + 1 up to the stop |
| Utils.ReadUntilStopAsWritten | libs/lib/utils.cpp:187-206 | as written, when the terminator occurs the output is ReadUntilStopAsWrittenResult: everything after `pos` |
| Utils.ReadUntilStopAsWrittenKeepsStop | libs/lib/utils.cpp:196-198 | on "(ab)c" from 0 with ")" the as-written result is "ab)c", where the intended result is "ab" |
| Utils.ReadUntilStop | libs/lib/utils.cpp:187-206 | ReadUntilStopResult: the characters after `pos` up to the first terminator, or to the end when there is none; empty when the terminator is at `pos` |
| Utils.ReadUntilStopExcludesStop | libs/lib/utils.cpp:187-206 | the corrected output holds no whole occurrence of the terminator |

## Left out

- File and network I/O is not modelled: the grid writers and readers (STORM, SEGY, SGRI, ASCII), FFTFileGrid, the well-file readers and the model-file reading. These produce or consume external data. The fileGrid branch of `createPostGrids` is left out for the same reason.
- FFTW is not modelled. Its transforms are a function value constrained only by the unnormalised inverse law.
- The library mathematics is not implemented: `sqrt`, `exp`, `log`, `sin`, `cos` and `pow` are function values with the facts each lemma needs.
- `fillInFromSeismic`, `fillInFromArray`, `fillInErrCorr`, `fillInParamCorr`, `fillInGenExpCorr`, `InterpolateTrilinear` and `InterpolateBilinearXY` are not modelled. They depend on the simbox and the external grids. Only their per-cell taper arithmetic is kept, in `Padding.TaperAt` and `Padding.PaddedValue`.
- Logging, timing, the monitor output and the `TaskList` messages are not modelled. The registry keeps only the fact that a note was recorded.
- Floating point is modelled as `real`: single-precision rounding, `float` casts and NaN are not modelled. `Padding.CeilLog` is the exact ceiling of log n / log p. The floating-point `log` quotient in the source can round up at exact powers, and that rounding is left out.
- Padding.FindClosestFactorableNumber leaves out the factors 11 and 13. In the source their loops run only with exponent 0, so they multiply by one.
- Padding.FindClosestFactorableNumber computes its exponent bounds with the exact `CeilLog` and its products as unbounded integers. The source uses `float` logarithms, and `float` `pow` cast to `int`, which can round and can overflow for large bounds. The result is the same for the grid sizes in use.
- `sizeof(fftw_real)` is taken to be 4 bytes (`Grid.REAL_BYTES`), the single-precision FFTW real. The FFTW header is not part of this model.
- ModelCommands.ModelSettings.constructor takes the padding factors, the white-noise component and the domain flag as parameters, and starts with zero output flags. These defaults are set in `modelsettings.h` and its source, which are not part of this model.
- The access mode has no state in the model. The in-memory grid ignores it, apart from refusing a negative mode.
- `definitions.h` is not part of this model. `RMISSING = -99999.0` and `IMISSING = -99999` are the values the README assumes.
- The random generator is a sequence of standard normal draws passed to the noise fill.
- The 64-bit command mask is an unbounded natural number. It never overflows, because there are fewer than 64 commands.
- `exit(1)` is an `ok` result that is false, not program termination.
- Grid.FftGrid.CreateRealGrid takes `add`, as the cpp does. The header declares the method without a parameter. `Corr` calls it with `add` set.
- The six posterior covariance grids of `Corr` are grouped in `PostCovGrids`, and the point variance with the six traces in `PostVariances`, instead of being nullable fields.
- The blocking of the well logs is not modelled. The blocked logs are parameters of `RockPhysics.BlockedLogsForRockPhysics.constructor`.
- `DEMTools::CalcElasticParamsFromSeismicParams` is not modelled. It is a function value `elastic`.
- RockPhysics.BlockedLogsForRockPhysics.constructor requires at least one facies. `assignToFacies` reads row 0 to get the number of blocks, which the source does without a check.
- Utils.ReadUntilStopAsWritten requires the terminator to occur. When it does not, the code as written reads past the end of the string.
- WellLogs.ResampleLog requires some raw sample to reach the start of slot 1. The source's first search has no bound and reads past the log otherwise.
- The ModelFile command handlers other than PADDING, WHITENOISE and OUTPUT are not modelled, nor the argument conversion they rely on. For them the model keeps only the outcome of each command, and passes it to the loop. That outcome is an error flag (`failing`). For a handler that reads more than one group, as WELLS does, it is also the position where the handler leaves the loop (`ends`). `atof` and `isNumber` are parameters.
- ModelFile.ReadCommands requires a terminator after every command name the loop visits. Without one, `getParNum` and the handlers read past the end of the parameters.
- ModelFile.CommandStep counts an error for a PREDICTION with any argument. This assumes that the `max` argument of `getParNum` defaults to 0: src/modelfile.cpp:203 passes only `min`, and the default is declared in `modelfile.h`, which is not part of this model.
- `modelsettings.h` is not part of this model, so the ModelSettings flag values are assumed. CORRELATION, BACKGROUND, FACIESPROB and FACIESPROBRELATIVE are taken to be the grid bits their OUTPUT options set (bits 0, 13, 15 and 16). PRIORCORRELATIONS is taken to be the other-flag bit its option sets (bit 2), and BACKGROUND_TREND_1D the next bit, 2^3. With that value the `+=` of src/modelfile.cpp:1421 adds a bit that is still clear, because the options keep the other flags below 2^3 (ModelCommands.FoldOtherBound). So it equals setting the bit, as ModelCommands.FinishOther states.
- WellLogs.WellData.ResampleTime requires at least two samples. With one sample the source divides 0 by 0 and the step is NaN, which `real` does not represent.
- The alternative-command branch of the command loop (src/modelfile.cpp:161-167 and 174-177) is not modelled. Every alternative list is NULL (line 60), so the branch is never taken.
- The necessary-command check after the command loop (src/modelfile.cpp:331-362) is not modelled. It only turns the final mask into messages; the `Flags` lemmas state how that mask decodes.
- WellLogs.WellData.RemoveDuplicateLogEntries leaves the facies log unspecified when no facies log is defined. The source leaves the new facies array uninitialised in that case.
- WellLogs.WellData.GetMinMaxFnr requires a non-empty facies list, because the source reads `faciesNr_[0]` without a check.
- The prior quantities that the `Corr` constructor stores (src/corr.cpp:36-41) are not modelled: `pointVar0_`, `priorVar0_`, `priorCorrT_`, `priorCorrXY_`, `n_` and `dt_`. No modelled operation reads them; `Corr.Corr.SetPriorCorrTFiltered` takes the prior correlation as an argument, as the source does.
- Orchestration code is not part of this model: `crava.cpp`, `main.cpp`, `tasklist.cpp` and the rock-physics library. It drives the modules above but holds none of their logic.

## Findings

| source | as written | input that shows it | evidently intended | confidence | as-written member | corrected member |
|---|---|---|---|---|---|---|
| src/fftgrid.cpp:1558-1565 | the extended guard of the complex accessors bounds x by nxp, the length of a real row | nxp = nx = 8, nyp = nzp = 1, cell (7, 0, 0): complex index 7 in a buffer of 5 complex cells | x below cnxp = nxp/2 + 1 | not executed | Grid.ComplexGuardAsWrittenOverruns | Grid.FftGrid.GetComplexValue |
| src/fftgrid.cpp:1501-1508 | a negative index is wrapped once and then only the upper bound is checked | nxp = 8, i = -9: wrapped to -1 and read at buffer position -1 | refuse an index that one wrap does not bring into [0, nxp) | not executed | Grid.CyclicIndexAsWrittenUnderruns | Grid.FftGrid.GetRealValueCyclic |
| src/fftgrid.cpp:1224 | the Nyquist column is detected by the parity of the cell number `i` | nxp = 8: cell 4 of row 0 not treated as self-conjugate; nxp = 9: cell 9 treated as self-conjugate | test the parity of nxp | not executed | Spectrum.BoundaryColumnAsWrittenDisagrees | Spectrum.BoundaryColumnIsSelfConjugate |
| src/modelfile.cpp:1386-1410 | the error message for an unknown option lists the options using the option loop's own counter | `OUTPUT FOO VP ;`: VP is never read; an unknown option at position 30 of more than 30 options never ends the loop | a separate counter for the message | not executed | ModelCommands.AsWrittenStalls | ModelCommands.ReadOptions |
| libs/lib/utils.cpp:196-198 | the end is set to the end of the string when `find` succeeds, and stays `npos` when it fails | "(ab)c", pos 0, ")" gives "ab)c" | stop at the terminator when there is one | not executed | Utils.ReadUntilStopAsWrittenKeepsStop | Utils.ReadUntilStopExcludesStop |
| libs/lib/utils.cpp:173-180 | a mismatch resets the match count without testing that character against the start of the pattern | "aab" and "ab": -1, although "ab" ends at 2 | find every occurrence | not executed | Utils.FindEndAsWrittenMissesOverlap | Utils.FindEnd |
