// Index arithmetic of the padded grid: where a padding cell takes its value
// from (the "fill number"), how far it lies from the logical volume, the
// depth index of the simulation box, the cubic taper built from those
// distances, and the choice of a padded size that the transform handles well.

module Padding {
  import opened Common

  /**
   * The logical index whose value a cell at position i of a padded axis
   * (logical length n, padded length np) copies. Inside the logical range the
   * index is its own source; in the padding the index folds back towards the
   * nearer end of the cycle; beyond the padding there is no source.
   */
  function FillNumber(i: int, n: nat, np: nat): (r: int)
  {
    if i < np then
      if i < n then i
      else
        var below := np - i - 1;
        var above := i - n + 1;
        if above < below then Max(n - above, n / 2) else Min(below, n / 2)
    else IMISSING
  }

  lemma FillNumberInside(i: int, n: nat, np: nat)
    requires 0 <= i < n && n <= np
    ensures FillNumber(i, n, np) == i
  {
  }

  /** Every padding cell copies a cell of the logical range. */
  lemma FillNumberInPadding(i: int, n: nat, np: nat)
    requires 1 <= n <= i < np
    ensures 0 <= FillNumber(i, n, np) < n
  {
  }

  lemma FillNumberBeyondPadding(i: int, n: nat, np: nat)
    requires i >= np
    ensures FillNumber(i, n, np) == IMISSING
  {
  }

  /** The three worked examples that document the folding rule. */
  lemma FillNumberExamples()
    ensures seq(8, i => FillNumber(i, 5, 8)) == [0, 1, 2, 3, 4, 4, 1, 0]
    ensures seq(8, i => FillNumber(i, 4, 8)) == [0, 1, 2, 3, 3, 2, 1, 0]
    ensures seq(8, i => FillNumber(i, 3, 8)) == [0, 1, 2, 2, 1, 1, 1, 0]
  {
  }

  /**
   * Distance, in taper lengths, from a padding cell to the nearer edge of the
   * logical range along one cyclic axis; zero inside the range.
   */
  function DistToBoundary(i: int, n: nat, np: nat): (r: real)
    requires i < np ==> i < n || Min(n, np - n) > 0
  {
    if i < np then
      if i < n then 0.0
      else
        var taperLength := Min(n, np - n) as real / 2.1;
        var below := np - i;
        var above := i - (n - 1);
        if above < below then above as real / taperLength else below as real / taperLength
    else RMISSING
  }

  lemma DistToBoundaryInside(i: int, n: nat, np: nat)
    requires 0 <= i < n <= np
    ensures DistToBoundary(i, n, np) == 0.0
  {
  }

  lemma DistToBoundaryBeyondPadding(i: int, n: nat, np: nat)
    requires i >= np
    ensures DistToBoundary(i, n, np) == RMISSING
  {
  }

  /**
   * In the skirt the distance is the nearer of the two cyclic distances,
   * scaled by the taper length, and so strictly positive.
   */
  lemma DistToBoundaryInSkirt(i: int, n: nat, np: nat)
    requires 1 <= n <= i < np
    ensures DistToBoundary(i, n, np) > 0.0
    ensures var t := Min(n, np - n) as real / 2.1;
            DistToBoundary(i, n, np) * t == Min(i - (n - 1), np - i) as real
  {
    var t := Min(n, np - n) as real / 2.1;
    assert t > 0.0;
    var d := DistToBoundary(i, n, np);
    var m := Min(i - (n - 1), np - i) as real;
    assert m >= 1.0;
    assert d == m / t;
    DivPositive(m, t);
  }

  lemma DivPositive(a: real, b: real)
    requires a > 0.0 && b > 0.0
    ensures a / b > 0.0 && (a / b) * b == a
  {
  }

  /**
   * The depth index in the simulation box of layer k of the padded grid: the
   * lower half of the padding continues below the box, the upper half wraps
   * round to negative indices above it.
   */
  function ZSimboxIndex(k: int, nz: nat, nzp: nat): (r: int)
  {
    if k < (nz + nzp) / 2 then k else k - nzp
  }

  /** The box index is congruent to k modulo nzp and lies in a window of length nzp. */
  lemma ZSimboxIndexCyclic(k: int, nz: nat, nzp: nat)
    requires nz <= nzp
    ensures var r := ZSimboxIndex(k, nz, nzp);
            0 <= k < nzp ==> (r == k || r == k - nzp) && (nz + nzp) / 2 - nzp <= r < (nz + nzp) / 2
  {
  }

  lemma ZSimboxIndexInside(k: int, nz: nat, nzp: nat)
    requires 0 <= k < nz <= nzp
    ensures ZSimboxIndex(k, nz, nzp) == k
  {
  }

  /** The taper factor pow(max(1 - dx^2 - dy^2 - dz^2, 0), 3). */
  function Taper(m: MathLib, dx: real, dy: real, dz: real): (r: real)
  {
    var base := 1.0 - dx * dx - dy * dy - dz * dz;
    m.pow(if base > 0.0 then base else 0.0, 3.0)
  }

  /** The taper of cell (i, j, k) of a padded grid. */
  function TaperAt(m: MathLib, i: int, j: int, k: int,
                   nx: nat, ny: nat, nz: nat, nxp: nat, nyp: nat, nzp: nat): (r: real)
    requires 0 <= i < nxp && 0 <= j < nyp && 0 <= k < nzp
    requires nx <= nxp && ny <= nyp && nz <= nzp && nx >= 1 && ny >= 1 && nz >= 1
  {
    Taper(m, DistToBoundary(i, nx, nxp), DistToBoundary(j, ny, nyp), DistToBoundary(k, nz, nzp))
  }

  /** Inside the logical volume the taper leaves values untouched. */
  lemma TaperIsOneInBox(m: MathLib, i: int, j: int, k: int,
                        nx: nat, ny: nat, nz: nat, nxp: nat, nyp: nat, nzp: nat)
    requires m.pow(1.0, 3.0) == 1.0
    requires 0 <= i < nx <= nxp && 0 <= j < ny <= nyp && 0 <= k < nz <= nzp
    ensures TaperAt(m, i, j, k, nx, ny, nz, nxp, nyp, nzp) == 1.0
  {
    DistToBoundaryInside(i, nx, nxp);
    DistToBoundaryInside(j, ny, nyp);
    DistToBoundaryInside(k, nz, nzp);
  }

  /**
   * The value a padded cell receives from a resampled value: parameters blend
   * towards the trace mean with the taper, other cubes are damped by it;
   * a missing value stays missing.
   */
  function PaddedValue(isParameter: bool, mult: real, value: real, mean: real): (r: real)
    ensures value == RMISSING ==> r == RMISSING
    ensures mult == 1.0 ==> r == value
    ensures mult == 0.0 && value != RMISSING ==> r == (if isParameter then mean else 0.0)
  {
    if value == RMISSING then value
    else if isParameter then mult * value + (1.0 - mult) * mean
    else value * mult
  }

  // ---- padded sizes the transform handles well ----

  /** p to the power e. */
  function Power(p: nat, e: nat): (r: nat)
    requires p >= 1
    ensures r >= 1
  {
    if e == 0 then 1 else p * Power(p, e - 1)
  }

  /** The product 2^a 3^b 5^c 7^d. */
  function Factored(a: nat, b: nat, c: nat, d: nat): (r: nat)
    ensures r >= 1
  {
    Power(2, a) * Power(3, b) * Power(5, c) * Power(7, d)
  }

  /** The smallest e with p^e >= n: the value ceil(log n / log p). */
  function CeilLog(p: nat, n: nat): (e: nat)
    requires p >= 2
    ensures Power(p, e) >= n
    ensures e > 0 ==> Power(p, e - 1) < n
    decreases n
  {
    if n <= 1 then 0
    else
      CeilDivShrinks(p, n);
      var e' := CeilLog(p, (n + p - 1) / p);
      CeilLogStep(p, n, e');
      e' + 1
  }

  /** Dividing by p, rounding up, makes a number above 1 smaller. */
  lemma CeilDivShrinks(p: nat, n: nat)
    requires p >= 2 && n > 1
    ensures 0 <= (n + p - 1) / p < n
  {
    MulMono(n - 1, 1, p - 1);
    assert n * p - (n + p - 1) == (n - 1) * (p - 1);
    DivLess(n + p - 1, p, n);
  }

  /** A number below k * p has a quotient by p below k. */
  lemma DivLess(a: nat, p: nat, k: nat)
    requires p > 0 && a < k * p
    ensures a / p < k
  {
    var q := a / p;
    assert a == q * p + a % p;
    if q >= k {
      MulMono(p, k, q);
    }
  }

  /** The rounded-up quotient q of n by p brackets n between (q - 1) * p and q * p. */
  lemma CeilDivBounds(p: nat, n: nat)
    requires p >= 2
    ensures (n + p - 1) / p * p >= n
    ensures ((n + p - 1) / p - 1) * p < n
  {
    var q := (n + p - 1) / p;
    var m := (n + p - 1) % p;
    assert n + p - 1 == q * p + m && 0 <= m < p;
  }

  lemma CeilLogStep(p: nat, n: nat, e': nat)
    requires p >= 2 && n > 1
    requires Power(p, e') >= (n + p - 1) / p
    requires e' > 0 ==> Power(p, e' - 1) < (n + p - 1) / p
    ensures Power(p, e' + 1) >= n
    ensures Power(p, e') < n
  {
    var q := (n + p - 1) / p;
    CeilDivBounds(p, n);
    PowerAbove(p, e', q);
    if e' > 0 {
      PowerBelow(p, e', q);
    } else {
      assert Power(p, e') == 1;
    }
  }

  /** One more factor p lifts a power at least q to at least q * p. */
  lemma PowerAbove(p: nat, e: nat, q: int)
    requires p >= 2 && Power(p, e) >= q
    ensures Power(p, e + 1) >= q * p
  {
    assert Power(p, e + 1) == p * Power(p, e);
    if q >= 0 {
      MulMono(p, q, Power(p, e));
    }
  }

  /** A power whose predecessor is below q is at most (q - 1) * p. */
  lemma PowerBelow(p: nat, e: nat, q: int)
    requires p >= 2 && e > 0 && Power(p, e - 1) < q
    ensures Power(p, e) <= (q - 1) * p
  {
    assert Power(p, e) == p * Power(p, e - 1);
    MulMono(p, Power(p, e - 1), q - 1);
  }

  lemma MulMono(p: nat, a: nat, b: nat)
    requires a <= b
    ensures p * a <= p * b
  {
  }

  /** Powers grow with the exponent. */
  lemma {:induction false} PowerMono(p: nat, e: nat, f: nat)
    requires p >= 1 && e <= f
    ensures Power(p, e) <= Power(p, f)
    decreases f
  {
    if e < f {
      PowerMono(p, e, f - 1);
      MulMono(Power(p, f - 1), 1, p);
    }
  }

  /** An exponent past ceil(log n / log p) gives a power of at least 2n. */
  lemma PowerBeyondCeilLog(p: nat, n: nat, e: nat)
    requires p >= 2 && n >= 1 && e > CeilLog(p, n)
    ensures Power(p, e) >= 2 * n
  {
    var c := CeilLog(p, n);
    PowerAbove(p, c, n);
    MulMono(n, 2, p);
    PowerMono(p, c + 1, e);
  }

  /** 2^ceil(log2 n) is below 2n. */
  lemma Power2CeilLogBelow(n: nat)
    requires n >= 1
    ensures Power(2, CeilLog(2, n)) < 2 * n
  {
    if CeilLog(2, n) > 0 {
      PowerBelow(2, CeilLog(2, n), n);
    }
  }

  /** Each of the four powers divides its product, so none exceeds it. */
  lemma FactoredAbovePowers(a: nat, b: nat, c: nat, d: nat)
    ensures Factored(a, b, c, d) >= Power(2, a) && Factored(a, b, c, d) >= Power(3, b)
    ensures Factored(a, b, c, d) >= Power(5, c) && Factored(a, b, c, d) >= Power(7, d)
  {
    var x, y, z, w := Power(2, a), Power(3, b), Power(5, c), Power(7, d);
    MulMono(x, 1, y);
    MulMono(y, 1, x);
    MulMono(x * y, 1, z);
    MulMono(z, 1, x * y);
    MulMono(x * y * z, 1, w);
    MulMono(w, 1, x * y * z);
  }

  /** A product with some exponent outside the searched ranges is at least
      2n, so above the first candidate 2^ceil(log2 n). */
  lemma OutsideRangesAbove(n: nat, a: nat, b: nat, c: nat, d: nat)
    requires n >= 1
    requires !InRanges(a, b, c, d, CeilLog(2, n), CeilLog(3, n), CeilLog(5, n), CeilLog(7, n))
    ensures Factored(a, b, c, d) > Power(2, CeilLog(2, n))
  {
    FactoredAbovePowers(a, b, c, d);
    Power2CeilLogBelow(n);
    if a > CeilLog(2, n) {
      PowerBeyondCeilLog(2, n, a);
    } else if b > CeilLog(3, n) {
      PowerBeyondCeilLog(3, n, b);
    } else if c > CeilLog(5, n) {
      PowerBeyondCeilLog(5, n, c);
    } else {
      PowerBeyondCeilLog(7, n, d);
    }
  }

  /** The exponent ranges the search runs over. */
  predicate InRanges(a: nat, b: nat, c: nat, d: nat, e2: nat, e3: nat, e5: nat, e7: nat)
  {
    a <= e2 && b <= e3 && c <= e5 && d <= e7
  }

  /**
   * The padded length used for an axis of logical length n: the smallest
   * product 2^a 3^b 5^c 7^d that is at least n, searched with exponents up to
   * ceil(log n / log p), starting from 2^ceil(log2 n).
   */
  method FindClosestFactorableNumber(leastint: int) returns (closest: int)
    requires leastint >= 1
    ensures closest >= leastint
    ensures exists a, b, c, d :: InRanges(a, b, c, d, CeilLog(2, leastint), CeilLog(3, leastint),
                                          CeilLog(5, leastint), CeilLog(7, leastint))
                                 && Factored(a, b, c, d) == closest
    ensures forall a, b, c, d :: (InRanges(a, b, c, d, CeilLog(2, leastint), CeilLog(3, leastint),
                                          CeilLog(5, leastint), CeilLog(7, leastint))
                                 && Factored(a, b, c, d) >= leastint) ==> Factored(a, b, c, d) >= closest
    ensures closest <= Power(2, CeilLog(2, leastint))
    ensures forall a: nat, b: nat, c: nat, d: nat :: Factored(a, b, c, d) >= leastint ==> Factored(a, b, c, d) >= closest
  {
    var e2, e3, e5, e7 := CeilLog(2, leastint), CeilLog(3, leastint), CeilLog(5, leastint), CeilLog(7, leastint);
    closest := Power(2, e2);
    assert Factored(e2, 0, 0, 0) == closest;
    ghost var wa, wb, wc, wd := e2, 0, 0, 0;
    var i := 0;
    while i <= e2
      invariant 0 <= i <= e2 + 1
      invariant leastint <= closest <= Power(2, e2)
      invariant InRanges(wa, wb, wc, wd, e2, e3, e5, e7) && Factored(wa, wb, wc, wd) == closest
      invariant forall a, b, c, d :: (a < i && InRanges(a, b, c, d, e2, e3, e5, e7)
                  && Factored(a, b, c, d) >= leastint) ==> Factored(a, b, c, d) >= closest
    {
      var j := 0;
      while j <= e3
        invariant 0 <= j <= e3 + 1
        invariant leastint <= closest <= Power(2, e2)
        invariant InRanges(wa, wb, wc, wd, e2, e3, e5, e7) && Factored(wa, wb, wc, wd) == closest
        invariant forall a, b, c, d :: ((a < i || (a == i && b < j)) && InRanges(a, b, c, d, e2, e3, e5, e7)
                    && Factored(a, b, c, d) >= leastint) ==> Factored(a, b, c, d) >= closest
      {
        var k := 0;
        while k <= e5
          invariant 0 <= k <= e5 + 1
          invariant leastint <= closest <= Power(2, e2)
          invariant InRanges(wa, wb, wc, wd, e2, e3, e5, e7) && Factored(wa, wb, wc, wd) == closest
          invariant forall a, b, c, d :: ((a < i || (a == i && b < j) || (a == i && b == j && c < k))
                      && InRanges(a, b, c, d, e2, e3, e5, e7)
                      && Factored(a, b, c, d) >= leastint) ==> Factored(a, b, c, d) >= closest
        {
          var l := 0;
          while l <= e7
            invariant 0 <= l <= e7 + 1
            invariant leastint <= closest <= Power(2, e2)
            invariant InRanges(wa, wb, wc, wd, e2, e3, e5, e7) && Factored(wa, wb, wc, wd) == closest
            invariant forall a, b, c, d :: ((a < i || (a == i && b < j) || (a == i && b == j && c < k)
                                            || (a == i && b == j && c == k && d < l))
                        && InRanges(a, b, c, d, e2, e3, e5, e7)
                        && Factored(a, b, c, d) >= leastint) ==> Factored(a, b, c, d) >= closest
          {
            var factor := Factored(i, j, k, l);
            if factor >= leastint && factor < closest {
              closest := factor;
              wa, wb, wc, wd := i, j, k, l;
            }
            l := l + 1;
          }
          k := k + 1;
        }
        j := j + 1;
      }
      i := i + 1;
    }
    forall a: nat, b: nat, c: nat, d: nat | Factored(a, b, c, d) >= leastint
      ensures Factored(a, b, c, d) >= closest
    {
      if !InRanges(a, b, c, d, e2, e3, e5, e7) {
        OutsideRangesAbove(leastint, a, b, c, d);
      }
    }
  }
}
