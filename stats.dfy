// Summary statistics of a sequence of grid values in which RMISSING marks
// cells without a value: the count, sum, minimum and maximum of the values
// that are present. Each is defined by peeling off the last element, the
// order in which a scan accumulates them.

module Stats {
  import opened Common

  function CountPresent(s: seq<real>): (r: nat)
    ensures r <= |s|
  {
    if s == [] then 0
    else CountPresent(s[..|s| - 1]) + (if s[|s| - 1] != RMISSING then 1 else 0)
  }

  function SumPresent(s: seq<real>): real
  {
    if s == [] then 0.0
    else SumPresent(s[..|s| - 1]) + (if s[|s| - 1] != RMISSING then s[|s| - 1] else 0.0)
  }

  /** The running minimum after seeing v: a present v below it replaces it. */
  function Lower(cur: ExtReal, v: real): ExtReal
  {
    if v == RMISSING then cur
    else match cur
      case PosInfinity => Finite(v)
      case Finite(m) => if v < m then Finite(v) else cur
      case NegInfinity => cur
  }

  /** The running maximum after seeing v: a present v above it replaces it. */
  function Higher(cur: ExtReal, v: real): ExtReal
  {
    if v == RMISSING then cur
    else match cur
      case NegInfinity => Finite(v)
      case Finite(m) => if v > m then Finite(v) else cur
      case PosInfinity => cur
  }

  function MinPresent(s: seq<real>): ExtReal
  {
    if s == [] then PosInfinity else Lower(MinPresent(s[..|s| - 1]), s[|s| - 1])
  }

  function MaxPresent(s: seq<real>): ExtReal
  {
    if s == [] then NegInfinity else Higher(MaxPresent(s[..|s| - 1]), s[|s| - 1])
  }

  predicate IsPresentAt(s: seq<real>, t: int)
  {
    0 <= t < |s| && s[t] != RMISSING
  }

  /** Nothing is counted exactly when every entry is missing. */
  lemma {:induction false} CountPresentZero(s: seq<real>)
    ensures CountPresent(s) == 0 <==> forall t :: 0 <= t < |s| ==> !IsPresentAt(s, t)
  {
    if s != [] {
      var p := s[..|s| - 1];
      CountPresentZero(p);
      assert forall t :: IsPresentAt(p, t) ==> IsPresentAt(s, t);
      assert forall t :: 0 <= t < |s| - 1 && IsPresentAt(s, t) ==> IsPresentAt(p, t);
      if s[|s| - 1] != RMISSING {
        assert IsPresentAt(s, |s| - 1);
      }
    }
  }

  /**
   * The minimum stays +infinity exactly when nothing is present; otherwise it
   * is one of the present values and no present value is below it.
   */
  lemma {:induction false} MinPresentIsLeast(s: seq<real>)
    ensures MinPresent(s) != NegInfinity
    ensures MinPresent(s) == PosInfinity <==> CountPresent(s) == 0
    ensures MinPresent(s).Finite? ==>
              (exists t :: IsPresentAt(s, t) && s[t] == MinPresent(s).v) &&
              (forall t :: IsPresentAt(s, t) ==> MinPresent(s).v <= s[t])
  {
    if s != [] {
      var p, x := s[..|s| - 1], s[|s| - 1];
      MinPresentIsLeast(p);
      CountPresentZero(p);
      CountPresentZero(s);
      assert forall t :: IsPresentAt(p, t) ==> IsPresentAt(s, t) && s[t] == p[t];
      if x != RMISSING {
        assert IsPresentAt(s, |s| - 1);
      }
      if MinPresent(s).Finite? {
        forall t | IsPresentAt(s, t) ensures MinPresent(s).v <= s[t] {
          if t < |s| - 1 { assert IsPresentAt(p, t); }
        }
        if MinPresent(s) == MinPresent(p) {
          var t :| IsPresentAt(p, t) && p[t] == MinPresent(p).v;
          assert IsPresentAt(s, t) && s[t] == MinPresent(s).v;
        } else {
          assert IsPresentAt(s, |s| - 1) && s[|s| - 1] == MinPresent(s).v;
        }
      }
    }
  }

  /**
   * The maximum stays -infinity exactly when nothing is present; otherwise it
   * is one of the present values and no present value is above it.
   */
  lemma {:induction false} MaxPresentIsGreatest(s: seq<real>)
    ensures MaxPresent(s) != PosInfinity
    ensures MaxPresent(s) == NegInfinity <==> CountPresent(s) == 0
    ensures MaxPresent(s).Finite? ==>
              (exists t :: IsPresentAt(s, t) && s[t] == MaxPresent(s).v) &&
              (forall t :: IsPresentAt(s, t) ==> s[t] <= MaxPresent(s).v)
  {
    if s != [] {
      var p, x := s[..|s| - 1], s[|s| - 1];
      MaxPresentIsGreatest(p);
      CountPresentZero(p);
      CountPresentZero(s);
      assert forall t :: IsPresentAt(p, t) ==> IsPresentAt(s, t) && s[t] == p[t];
      if x != RMISSING {
        assert IsPresentAt(s, |s| - 1);
      }
      if MaxPresent(s).Finite? {
        forall t | IsPresentAt(s, t) ensures s[t] <= MaxPresent(s).v {
          if t < |s| - 1 { assert IsPresentAt(p, t); }
        }
        if MaxPresent(s) == MaxPresent(p) {
          var t :| IsPresentAt(p, t) && p[t] == MaxPresent(p).v;
          assert IsPresentAt(s, t) && s[t] == MaxPresent(s).v;
        } else {
          assert IsPresentAt(s, |s| - 1) && s[|s| - 1] == MaxPresent(s).v;
        }
      }
    }
  }

  /** v counted once for every present entry of s. */
  function PresentTimes(s: seq<real>, v: real): real
  {
    if s == [] then 0.0
    else PresentTimes(s[..|s| - 1], v) + (if s[|s| - 1] != RMISSING then v else 0.0)
  }

  lemma {:induction false} PresentTimesIsProduct(s: seq<real>, v: real)
    ensures PresentTimes(s, v) == CountPresent(s) as real * v
  {
    if s != [] {
      PresentTimesIsProduct(s[..|s| - 1], v);
      var c := CountPresent(s[..|s| - 1]) as real;
      assert (c + 1.0) * v == c * v + v;
    }
  }

  /** A bound on every present value bounds the sum by the count. */
  lemma SumBetween(s: seq<real>, lo: real, hi: real)
    requires forall t :: IsPresentAt(s, t) ==> lo <= s[t] <= hi
    ensures CountPresent(s) as real * lo <= SumPresent(s) <= CountPresent(s) as real * hi
  {
    SumBetweenTimes(s, lo, hi);
    PresentTimesIsProduct(s, lo);
    PresentTimesIsProduct(s, hi);
  }

  lemma {:induction false} SumBetweenTimes(s: seq<real>, lo: real, hi: real)
    requires forall t :: IsPresentAt(s, t) ==> lo <= s[t] <= hi
    ensures PresentTimes(s, lo) <= SumPresent(s) <= PresentTimes(s, hi)
  {
    if s != [] {
      var p := s[..|s| - 1];
      forall t | IsPresentAt(p, t) ensures lo <= p[t] <= hi {
        assert IsPresentAt(s, t);
      }
      SumBetweenTimes(p, lo, hi);
      if s[|s| - 1] != RMISSING {
        assert IsPresentAt(s, |s| - 1);
      }
    }
  }

  /** The mean of the present values lies between their minimum and maximum. */
  lemma MeanBetweenExtremes(s: seq<real>)
    requires CountPresent(s) > 0
    ensures MinPresent(s).Finite? && MaxPresent(s).Finite?
    ensures MinPresent(s).v <= SumPresent(s) / CountPresent(s) as real <= MaxPresent(s).v
  {
    MinPresentIsLeast(s);
    MaxPresentIsGreatest(s);
    MeanWithin(s, MinPresent(s).v, MaxPresent(s).v);
  }

  /** Bounds on the present values bound their mean. */
  lemma MeanWithin(s: seq<real>, lo: real, hi: real)
    requires CountPresent(s) > 0
    requires forall t :: IsPresentAt(s, t) ==> lo <= s[t] <= hi
    ensures lo <= SumPresent(s) / CountPresent(s) as real <= hi
  {
    SumBetween(s, lo, hi);
    DivideBounds(SumPresent(s), CountPresent(s) as real, lo, hi);
  }

  lemma DivideBounds(sum: real, n: real, lo: real, hi: real)
    requires n > 0.0 && n * lo <= sum <= n * hi
    ensures lo <= sum / n <= hi
  {
    var q := sum / n;
    assert n * q == sum;
    ScaleStrict(n, q, lo);
    ScaleStrict(n, hi, q);
  }

  lemma ScaleStrict(n: real, a: real, b: real)
    requires n > 0.0
    ensures a < b ==> n * a < n * b
  {
    if a < b {
      assert n * b - n * a == n * (b - a);
    }
  }

  /** The sum of the present values of a concatenation is the sum of the two sums. */
  lemma {:induction false} SumPresentAppend(a: seq<real>, b: seq<real>)
    ensures SumPresent(a + b) == SumPresent(a) + SumPresent(b)
  {
    if b != [] {
      var b' := b[..|b| - 1];
      assert (a + b)[..|a + b| - 1] == a + b';
      SumPresentAppend(a, b');
    } else {
      assert a + b == a;
    }
  }

  /** One more element of a slice: its statistics extend by the element's value. */
  lemma SliceStep(lv: seq<real>, a: int, p: int)
    requires 0 <= a <= p < |lv|
    ensures lv[a..p + 1][..p - a] == lv[a..p] && lv[a..p + 1][p - a] == lv[p]
    ensures SumPresent(lv[a..p + 1]) == SumPresent(lv[a..p]) + (if lv[p] != RMISSING then lv[p] else 0.0)
    ensures CountPresent(lv[a..p + 1]) == CountPresent(lv[a..p]) + (if lv[p] != RMISSING then 1 else 0)
    ensures a == 0 ==> CountPresent(lv[..p + 1]) == CountPresent(lv[..p]) + (if lv[p] != RMISSING then 1 else 0)
    ensures a == 0 ==> MinPresent(lv[..p + 1]) == Lower(MinPresent(lv[..p]), lv[p])
    ensures a == 0 ==> MaxPresent(lv[..p + 1]) == Higher(MaxPresent(lv[..p]), lv[p])
  {
    assert lv[a..p + 1][..p - a] == lv[a..p];
  }
}
