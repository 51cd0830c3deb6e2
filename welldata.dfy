// Processing of the logs of one well: time (z), x, y, Vp (alpha), Vs
// (beta), density (rho) and an optional facies log, all sampled at the same
// nd positions, with RMISSING marking a sample without a value.

module WellLogs {
  import opened Common
  import Stats

  // ---- merging a group of samples ----

  /** The mean of the present samples of s, or RMISSING when none is present. */
  function MergedValue(s: seq<real>): real
  {
    if Stats.CountPresent(s) == 0 then RMISSING
    else Stats.SumPresent(s) / Stats.CountPresent(s) as real
  }

  /**
   * A merged value is RMISSING exactly when the group has no present sample;
   * otherwise it lies between the least and the greatest present sample.
   */
  lemma MergedValueMeaning(s: seq<real>)
    ensures Stats.CountPresent(s) == 0 ==> MergedValue(s) == RMISSING
    ensures Stats.CountPresent(s) > 0 ==>
              Stats.MinPresent(s).Finite? && Stats.MaxPresent(s).Finite? &&
              Stats.MinPresent(s).v <= MergedValue(s) <= Stats.MaxPresent(s).v
  {
    if Stats.CountPresent(s) > 0 {
      Stats.MeanBetweenExtremes(s);
    }
  }

  /**
   * Writes into slot ii the mean of the present samples log[istart..iend],
   * or RMISSING when there are none (both the double and the float version).
   */
  method MergeCells(resampled: array<real>, log: seq<real>, ii: int, istart: int, iend: int)
    requires 0 <= ii < resampled.Length && 0 <= istart && iend < |log| && istart <= iend + 1
    modifies resampled
    ensures resampled[..] == old(resampled[..])[ii := MergedValue(log[istart..iend + 1])]
  {
    var nSample := 0;
    resampled[ii] := 0.0;
    var i := istart;
    while i < iend + 1
      invariant istart <= i <= iend + 1
      invariant nSample == Stats.CountPresent(log[istart..i])
      invariant resampled[..] == old(resampled[..])[ii := Stats.SumPresent(log[istart..i])]
    {
      assert log[istart..i + 1][..i - istart] == log[istart..i];
      if log[i] != RMISSING {
        resampled[ii] := resampled[ii] + log[i];
        nSample := nSample + 1;
      }
      i := i + 1;
    }
    if nSample == 0 {
      resampled[ii] := RMISSING;
    } else {
      resampled[ii] := resampled[ii] / nSample as real;
    }
  }

  /** The facies of a merged group is the facies of its first sample. */
  method MergeCellsDiscrete(resampled: array<int>, log: seq<int>, ii: int, istart: int, iend: int)
    requires 0 <= ii < resampled.Length && 0 <= istart <= iend < |log|
    modifies resampled
    ensures resampled[..] == old(resampled[..])[ii := log[istart]]
  {
    var nSample := 0;
    var i := istart;
    while i < iend + 1
      invariant istart <= i <= iend + 1
    {
      if log[i] != IMISSING {
        nSample := nSample + 1;
      }
      i := i + 1;
    }
    resampled[ii] := log[istart];
  }

  // ---- grouping of samples closer than the merge distance ----

  /** The end of the look-ahead from istart: the first position not within dist of istart, or the last position. */
  function ScanAhead(z: seq<real>, istart: int, iend: int, dist: real): (r: int)
    requires 0 <= istart < iend <= |z| - 1
    ensures iend <= r <= |z| - 1
    ensures r < |z| - 1 ==> z[r] - z[istart] >= dist
    decreases |z| - iend
  {
    if z[iend] - z[istart] < dist && iend < |z| - 1 then ScanAhead(z, istart, iend + 1, dist) else iend
  }

  /** The last sample of the group that starts at istart. */
  function GroupEnd(z: seq<real>, istart: int, dist: real): (r: int)
    requires 0 <= istart < |z|
    ensures istart <= r < |z|
    ensures r + 1 < |z| - 1 ==> z[r + 1] - z[istart] >= dist
  {
    if istart == |z| - 1 then istart else ScanAhead(z, istart, istart + 1, dist) - 1
  }

  /** Every sample the look-ahead passed over is within dist of istart. */
  lemma {:induction false} ScanAheadWithin(z: seq<real>, istart: int, iend: int, dist: real)
    requires 0 <= istart < iend <= |z| - 1
    ensures forall t :: iend <= t < ScanAhead(z, istart, iend, dist) ==> z[t] - z[istart] < dist
    decreases |z| - iend
  {
    if z[iend] - z[istart] < dist && iend < |z| - 1 {
      ScanAheadWithin(z, istart, iend + 1, dist);
    }
  }

  /** Every sample of a group after its first is within dist of the first. */
  lemma GroupEndWithin(z: seq<real>, istart: int, dist: real)
    requires 0 <= istart < |z|
    ensures forall t :: istart < t <= GroupEnd(z, istart, dist) ==> z[t] - z[istart] < dist
  {
    if istart < |z| - 1 {
      ScanAheadWithin(z, istart, istart + 1, dist);
    }
  }

  /** The groups (first, last) into which the samples from istart on are merged. */
  function Groups(z: seq<real>, istart: int, dist: real): seq<(int, int)>
    requires 0 <= istart <= |z|
    decreases |z| - istart
  {
    if istart == |z| then []
    else
      var e := GroupEnd(z, istart, dist);
      [(istart, e)] + Groups(z, e + 1, dist)
  }

  /** done are the groups of the samples from s up to, not including, e. */
  ghost predicate GroupedBetween(z: seq<real>, done: seq<(int, int)>, s: int, e: int, dist: real)
    decreases |done|
  {
    if done == [] then s == e
    else 0 <= s < |z| && done[0] == (s, GroupEnd(z, s, dist)) &&
         GroupedBetween(z, done[1..], GroupEnd(z, s, dist) + 1, e, dist)
  }

  /** One more group extends the chain. */
  lemma {:induction false} GroupedStep(z: seq<real>, done: seq<(int, int)>, s: int, istart: int, iend: int,
                                       next: int, dist: real)
    requires GroupedBetween(z, done, s, istart, dist) && 0 <= istart < |z| && iend == GroupEnd(z, istart, dist)
    requires next == iend + 1
    ensures GroupedBetween(z, done + [(istart, iend)], s, next, dist)
    decreases |done|
  {
    if done != [] {
      GroupedStep(z, done[1..], GroupEnd(z, s, dist) + 1, istart, iend, next, dist);
      assert (done + [(istart, iend)])[1..] == done[1..] + [(istart, iend)];
    }
  }

  /** A chain of groups from s to the last sample is the grouping from s. */
  lemma {:induction false} GroupedIsGroups(z: seq<real>, done: seq<(int, int)>, s: int, dist: real)
    requires 0 <= s <= |z| && GroupedBetween(z, done, s, |z|, dist)
    ensures done == Groups(z, s, dist)
    decreases |done|
  {
    if done != [] {
      GroupedIsGroups(z, done[1..], GroupEnd(z, s, dist) + 1, dist);
      assert done == [done[0]] + done[1..];
    }
  }

  /** A chain of groups lies within the samples. */
  lemma {:induction false} GroupedWithin(z: seq<real>, done: seq<(int, int)>, s: int, e: int, dist: real)
    requires GroupedBetween(z, done, s, e, dist)
    ensures GroupsWithin(done, |z|)
    decreases |done|
  {
    if done != [] {
      GroupedWithin(z, done[1..], GroupEnd(z, s, dist) + 1, e, dist);
      assert forall g :: 1 <= g < |done| ==> done[g] == done[1..][g - 1];
    }
  }

  ghost predicate GroupsWithin(gs: seq<(int, int)>, n: int)
  {
    forall g :: 0 <= g < |gs| ==> 0 <= gs[g].0 <= gs[g].1 < n
  }

  /**
   * The groups cut the samples from istart on into consecutive, non-empty
   * runs: the first starts at istart, each starts right after the previous
   * one ends, the last ends at the last sample, and every sample of a group
   * lies within dist of the group's first sample.
   */
  lemma {:induction false} GroupsPartition(z: seq<real>, istart: int, dist: real)
    requires 0 <= istart <= |z|
    ensures var gs := Groups(z, istart, dist);
            |gs| <= |z| - istart &&
            (|gs| == 0 <==> istart == |z|) &&
            (|gs| > 0 ==> gs[0].0 == istart && gs[|gs| - 1].1 == |z| - 1) &&
            (forall g :: 0 <= g < |gs| ==> istart <= gs[g].0 <= gs[g].1 < |z|) &&
            (forall g :: 0 <= g < |gs| - 1 ==> gs[g].1 + 1 == gs[g + 1].0) &&
            (forall g, t :: 0 <= g < |gs| && gs[g].0 < t <= gs[g].1 ==> z[t] - z[gs[g].0] < dist)
    decreases |z| - istart
  {
    if istart < |z| {
      var e := GroupEnd(z, istart, dist);
      GroupEndWithin(z, istart, dist);
      GroupsPartition(z, e + 1, dist);
      var rest := Groups(z, e + 1, dist);
      assert Groups(z, istart, dist) == [(istart, e)] + rest;
    }
  }

  /** Samples at least dist apart are never merged. */
  lemma {:induction false} NoMergeWhenSpread(z: seq<real>, istart: int, dist: real)
    requires 0 <= istart <= |z|
    requires forall t :: istart <= t < |z| - 1 ==> z[t + 1] - z[t] >= dist
    ensures |Groups(z, istart, dist)| == |z| - istart
    decreases |z| - istart
  {
    if istart < |z| {
      assert GroupEnd(z, istart, dist) == istart;
      NoMergeWhenSpread(z, istart + 1, dist);
    }
  }

  /** The merged value of group g of log (a group outside the log merges to RMISSING). */
  ghost function GroupMean(log: seq<real>, g: (int, int)): real
  {
    if 0 <= g.0 <= g.1 < |log| then MergedValue(log[g.0..g.1 + 1]) else RMISSING
  }

  /** The facies of group g of log: that of its first sample. */
  ghost function GroupFacies(log: seq<int>, g: (int, int)): int
  {
    if 0 <= g.0 < |log| then log[g.0] else IMISSING
  }

  /** One merged sample per group. */
  ghost function MergedLog(log: seq<real>, gs: seq<(int, int)>): (r: seq<real>)
    ensures |r| == |gs|
  {
    if gs == [] then [] else MergedLog(log, gs[..|gs| - 1]) + [GroupMean(log, gs[|gs| - 1])]
  }

  /** One facies per group. */
  ghost function FirstSamples(log: seq<int>, gs: seq<(int, int)>): (r: seq<int>)
    ensures |r| == |gs|
  {
    if gs == [] then [] else FirstSamples(log, gs[..|gs| - 1]) + [GroupFacies(log, gs[|gs| - 1])]
  }

  /** Entry g of the merged log is the merged value of group g. */
  lemma {:induction false} MergedLogAt(log: seq<real>, gs: seq<(int, int)>, g: int)
    requires 0 <= g < |gs|
    ensures MergedLog(log, gs)[g] == GroupMean(log, gs[g])
  {
    if g < |gs| - 1 {
      MergedLogAt(log, gs[..|gs| - 1], g);
    }
  }

  /** The first |gs| entries of out are the merged values of the groups gs of log. */
  ghost predicate MergedBy(out: seq<real>, log: seq<real>, gs: seq<(int, int)>)
  {
    |gs| <= |out| && out[..|gs|] == MergedLog(log, gs)
  }

  /** The first |gs| entries of out are the facies of the first samples of the groups gs. */
  ghost predicate FirstOfGroups(out: seq<int>, log: seq<int>, gs: seq<(int, int)>)
  {
    |gs| <= |out| && out[..|gs|] == FirstSamples(log, gs)
  }

  lemma MergedByStep(out: seq<real>, out': seq<real>, log: seq<real>, gs: seq<(int, int)>, lo: int, hi: int)
    requires MergedBy(out, log, gs) && |gs| < |out|
    requires out' == out[|gs| := GroupMean(log, (lo, hi))]
    ensures MergedBy(out', log, gs + [(lo, hi)])
  {
    var gs' := gs + [(lo, hi)];
    assert gs'[..|gs'| - 1] == gs;
    assert out'[..|gs'|] == out[..|gs|] + [GroupMean(log, (lo, hi))];
  }

  lemma FirstOfGroupsStep(out: seq<int>, out': seq<int>, log: seq<int>, gs: seq<(int, int)>, lo: int, hi: int)
    requires FirstOfGroups(out, log, gs) && |gs| < |out|
    requires out' == out[|gs| := GroupFacies(log, (lo, hi))]
    ensures FirstOfGroups(out', log, gs + [(lo, hi)])
  {
    var gs' := gs + [(lo, hi)];
    assert gs'[..|gs'| - 1] == gs;
    assert out'[..|gs'|] == out[..|gs|] + [GroupFacies(log, (lo, hi))];
  }

  // ---- merging samples closer than the merge distance ----

  /** The seven logs of a well: x, y, time, Vp, Vs, density and facies. */
  datatype Logs = Logs(x: seq<real>, y: seq<real>, z: seq<real>, alpha: seq<real>, beta: seq<real>,
                       rho: seq<real>, facies: seq<int>)

  predicate SameLength(l: Logs)
  {
    |l.x| == |l.z| && |l.y| == |l.z| && |l.alpha| == |l.z| && |l.beta| == |l.z| &&
    |l.rho| == |l.z| && |l.facies| == |l.z|
  }

  /** The merged logs, one entry per group of samples closer than minMergeDist. */
  method MergeDuplicates(l: Logs, faciesDefined: bool, minMergeDist: real) returns (m: Logs, ghost gs: seq<(int, int)>)
    requires SameLength(l)
    ensures gs == Groups(l.z, 0, minMergeDist) && |gs| <= |l.z|
    ensures m.z == MergedLog(l.z, gs) && m.x == MergedLog(l.x, gs) && m.y == MergedLog(l.y, gs)
    ensures m.alpha == MergedLog(l.alpha, gs) && m.beta == MergedLog(l.beta, gs) && m.rho == MergedLog(l.rho, gs)
    ensures SameLength(m) && |m.z| == |gs|
    ensures faciesDefined ==> m.facies == FirstSamples(l.facies, gs)
  {
    var zr, xr, yr, ar, br, rr, fr, ii;
    zr, xr, yr, ar, br, rr, fr, ii, gs := MergeAllGroups(l, faciesDefined, minMergeDist);
    assert zr[..][..ii] == zr[..ii] && xr[..][..ii] == xr[..ii] && yr[..][..ii] == yr[..ii];
    assert ar[..][..ii] == ar[..ii] && br[..][..ii] == br[..ii] && rr[..][..ii] == rr[..ii];
    assert fr[..][..ii] == fr[..ii];
    m := Logs(xr[..ii], yr[..ii], zr[..ii], ar[..ii], br[..ii], rr[..ii], fr[..ii]);
  }

  /** Runs over the groups, merging each into the next slot of fresh resampled logs. */
  method MergeAllGroups(l: Logs, faciesDefined: bool, minMergeDist: real)
    returns (zr: array<real>, xr: array<real>, yr: array<real>, ar: array<real>, br: array<real>,
             rr: array<real>, fr: array<int>, ii: int, ghost done: seq<(int, int)>)
    requires SameLength(l)
    ensures fr.Length == |l.z|
    ensures done == Groups(l.z, 0, minMergeDist) && ii == |done| <= |l.z|
    ensures MergedInto(zr, xr, yr, ar, br, rr, fr, l, faciesDefined, done)
  {
    var nd := |l.z|;
    zr, xr, yr := new real[nd], new real[nd], new real[nd];
    ar, br, rr := new real[nd], new real[nd], new real[nd];
    fr := new int[nd];
    ii := 0;
    var istart := 0;
    done := [];
    while istart < nd
      invariant 0 <= ii <= istart <= nd && ii == |done|
      invariant GroupedBetween(l.z, done, 0, istart, minMergeDist)
      invariant MergedInto(zr, xr, yr, ar, br, rr, fr, l, faciesDefined, done)
    {
      istart, done := MergeNextGroup(zr, xr, yr, ar, br, rr, fr, l, faciesDefined, ii, istart, minMergeDist, done);
      ii := ii + 1;
    }
    GroupedIsGroups(l.z, done, 0, minMergeDist);
  }

  /** Finds the group starting at istart, merges it into slot ii and returns where the next group starts. */
  method MergeNextGroup(zr: array<real>, xr: array<real>, yr: array<real>, ar: array<real>, br: array<real>,
                        rr: array<real>, fr: array<int>, l: Logs, faciesDefined: bool,
                        ii: int, istart: int, minMergeDist: real, ghost done: seq<(int, int)>)
    returns (next: int, ghost done': seq<(int, int)>)
    requires SameLength(l) && 0 <= ii <= istart < |l.z| && ii == |done|
    requires zr.Length == |l.z| && xr.Length == |l.z| && yr.Length == |l.z| && ar.Length == |l.z|
    requires br.Length == |l.z| && rr.Length == |l.z| && fr.Length == |l.z|
    requires zr != xr && zr != yr && zr != ar && zr != br && zr != rr && xr != yr && xr != ar && xr != br
    requires xr != rr && yr != ar && yr != br && yr != rr && ar != br && ar != rr && br != rr
    requires GroupedBetween(l.z, done, 0, istart, minMergeDist)
    requires MergedInto(zr, xr, yr, ar, br, rr, fr, l, faciesDefined, done)
    modifies zr, xr, yr, ar, br, rr, fr
    ensures istart < next <= |l.z| && |done'| == ii + 1
    ensures GroupedBetween(l.z, done', 0, next, minMergeDist)
    ensures MergedInto(zr, xr, yr, ar, br, rr, fr, l, faciesDefined, done')
  {
    var iend := FindGroupEnd(l.z, istart, minMergeDist);
    next := iend + 1;
    done' := done + [(istart, iend)];
    GroupedStep(l.z, done, 0, istart, iend, next, minMergeDist);
    MergeGroup(zr, xr, yr, ar, br, rr, fr, l, faciesDefined, ii, istart, iend, done);
  }

  /**
   * The last sample of the group starting at istart: look ahead while the
   * samples stay within minMergeDist of istart, then step back one.
   */
  method FindGroupEnd(zpos: seq<real>, istart: int, minMergeDist: real) returns (iend: int)
    requires 0 <= istart < |zpos|
    ensures iend == GroupEnd(zpos, istart, minMergeDist)
    ensures istart <= iend < |zpos|
  {
    var nd := |zpos|;
    if istart == nd - 1 {
      iend := istart;
    } else {
      iend := istart + 1;
      while zpos[iend] - zpos[istart] < minMergeDist && iend < nd - 1
        invariant istart < iend <= nd - 1
        invariant ScanAhead(zpos, istart, iend, minMergeDist) == ScanAhead(zpos, istart, istart + 1, minMergeDist)
        decreases nd - iend
      {
        iend := iend + 1;
      }
      iend := iend - 1;
    }
  }

  /** The resampled logs hold the merged values of the groups done so far. */
  ghost predicate MergedInto(zr: array<real>, xr: array<real>, yr: array<real>, ar: array<real>,
                             br: array<real>, rr: array<real>, fr: array<int>, l: Logs, faciesDefined: bool,
                             done: seq<(int, int)>)
    reads zr, xr, yr, ar, br, rr, fr
  {
    MergedBy(zr[..], l.z, done) && MergedBy(xr[..], l.x, done) && MergedBy(yr[..], l.y, done) &&
    MergedBy(ar[..], l.alpha, done) && MergedBy(br[..], l.beta, done) && MergedBy(rr[..], l.rho, done) &&
    (faciesDefined ==> FirstOfGroups(fr[..], l.facies, done))
  }

  /** Merges one group into slot ii of every resampled log. */
  method MergeGroup(zr: array<real>, xr: array<real>, yr: array<real>, ar: array<real>, br: array<real>,
                    rr: array<real>, fr: array<int>, l: Logs, faciesDefined: bool,
                    ii: int, istart: int, iend: int, ghost done: seq<(int, int)>)
    requires SameLength(l) && 0 <= ii < |l.z| && 0 <= istart <= iend < |l.z| && ii == |done|
    requires zr.Length == |l.z| && xr.Length == |l.z| && yr.Length == |l.z| && ar.Length == |l.z|
    requires br.Length == |l.z| && rr.Length == |l.z| && fr.Length == |l.z|
    requires zr != xr && zr != yr && zr != ar && zr != br && zr != rr && xr != yr && xr != ar && xr != br
    requires xr != rr && yr != ar && yr != br && yr != rr && ar != br && ar != rr && br != rr
    requires MergedInto(zr, xr, yr, ar, br, rr, fr, l, faciesDefined, done)
    modifies zr, xr, yr, ar, br, rr, fr
    ensures MergedInto(zr, xr, yr, ar, br, rr, fr, l, faciesDefined, done + [(istart, iend)])
  {
    ghost var s := zr[..];
    MergeCells(zr, l.z, ii, istart, iend);
    MergedByStep(s, zr[..], l.z, done, istart, iend);
    s := xr[..];
    MergeCells(xr, l.x, ii, istart, iend);
    MergedByStep(s, xr[..], l.x, done, istart, iend);
    s := yr[..];
    MergeCells(yr, l.y, ii, istart, iend);
    MergedByStep(s, yr[..], l.y, done, istart, iend);
    s := ar[..];
    MergeCells(ar, l.alpha, ii, istart, iend);
    MergedByStep(s, ar[..], l.alpha, done, istart, iend);
    s := br[..];
    MergeCells(br, l.beta, ii, istart, iend);
    MergedByStep(s, br[..], l.beta, done, istart, iend);
    s := rr[..];
    MergeCells(rr, l.rho, ii, istart, iend);
    MergedByStep(s, rr[..], l.rho, done, istart, iend);
    if faciesDefined {
      ghost var f := fr[..];
      MergeCellsDiscrete(fr, l.facies, ii, istart, iend);
      FirstOfGroupsStep(f, fr[..], l.facies, done, istart, iend);
    }
  }

  // ---- range filtering ----

  /** A sample outside [lo, hi] becomes RMISSING; a missing or in-range sample stays. */
  function Clip(v: real, lo: real, hi: real): (r: real)
    ensures r == v || r == RMISSING
    ensures r != RMISSING ==> lo <= r <= hi
    ensures lo <= v <= hi ==> r == v
    ensures v == RMISSING ==> r == RMISSING
  {
    if v != RMISSING && (v < lo || v > hi) then RMISSING else v
  }

  /** The number of positions where a and b differ. */
  function CountChanged(a: seq<real>, b: seq<real>): (r: nat)
    requires |a| == |b|
    ensures r <= |a|
    ensures r == 0 <==> a == b
  {
    if a == [] then 0
    else CountChanged(a[..|a| - 1], b[..|b| - 1]) + (if a[|a| - 1] != b[|b| - 1] then 1 else 0)
  }

  // ---- interpolation of interior gaps ----

  /** The last position before t with a present sample, or -1. */
  function PrevDefined(s: seq<real>, t: int): (r: int)
    requires 0 <= t <= |s|
    ensures -1 <= r < t
    ensures r >= 0 ==> s[r] != RMISSING
    ensures forall u :: r < u < t ==> s[u] == RMISSING
  {
    if t == 0 then -1 else if s[t - 1] != RMISSING then t - 1 else PrevDefined(s, t - 1)
  }

  /** The first position after t with a present sample, or |s|. */
  function NextDefined(s: seq<real>, t: int): (r: int)
    requires -1 <= t < |s|
    ensures t < r <= |s|
    ensures r < |s| ==> s[r] != RMISSING
    ensures forall u :: t < u < r ==> s[u] == RMISSING
    decreases |s| - t
  {
    if t + 1 >= |s| then |s| else if s[t + 1] != RMISSING then t + 1 else NextDefined(s, t + 1)
  }

  /**
   * The interpolated log at t: a present sample stays, a missing sample
   * between two present ones lies on the straight line between them, and a
   * missing sample before the first or after the last present one stays
   * missing.
   */
  function Interpolated(s: seq<real>, t: int): real
    requires 0 <= t < |s|
  {
    if s[t] != RMISSING then s[t]
    else
      var j0, j1 := PrevDefined(s, t), NextDefined(s, t);
      if j0 < 0 || j1 >= |s| then s[t]
      else LinearAt(s[j0], s[j1], j0, j1, t)
  }

  /** The straight line through (j0, l0) and (j1, l1), at t. */
  function LinearAt(l0: real, l1: real, j0: int, j1: int, t: int): real
    requires j0 < j1
  {
    Slope(l0, l1, j0, j1) * (t - j0) as real + l0
  }

  /** The slope of the straight line through (j0, l0) and (j1, l1). */
  function Slope(l0: real, l1: real, j0: int, j1: int): real
    requires j0 < j1
  {
    (l1 - l0) / (j1 - j0) as real
  }

  /** An interpolated sample lies between the two present samples around its gap. */
  lemma InterpolatedBetween(s: seq<real>, t: int)
    requires 0 <= t < |s| && s[t] == RMISSING
    requires 0 <= PrevDefined(s, t) && NextDefined(s, t) < |s|
    ensures var l0, l1 := s[PrevDefined(s, t)], s[NextDefined(s, t)];
            RealMin(l0, l1) <= Interpolated(s, t) <= RealMax(l0, l1)
  {
    var j0, j1 := PrevDefined(s, t), NextDefined(s, t);
    LinearAtBetween(s[j0], s[j1], j0, j1, t);
  }

  /** Between its two ends the straight line stays within the end values. */
  lemma LinearAtBetween(l0: real, l1: real, j0: int, j1: int, t: int)
    requires j0 < t < j1
    ensures RealMin(l0, l1) <= LinearAt(l0, l1, j0, j1, t) <= RealMax(l0, l1)
  {
    LinearBetween(l0, l1, (t - j0) as real, (j1 - j0) as real);
  }

  lemma LinearBetween(l0: real, l1: real, d: real, n: real)
    requires 0.0 < d < n
    ensures RealMin(l0, l1) <= (l1 - l0) / n * d + l0 <= RealMax(l0, l1)
  {
    var w := d / n;
    assert n * w == d;
    Stats.ScaleStrict(n, w, 0.0);
    Stats.ScaleStrict(n, 1.0, w);
    assert 0.0 < w < 1.0;
    assert (l1 - l0) / n * d == w * (l1 - l0);
    if l0 <= l1 {
      assert 0.0 <= w * (l1 - l0) <= l1 - l0;
    } else {
      assert l1 - l0 <= w * (l1 - l0) <= 0.0;
    }
  }

  function RealMin(a: real, b: real): real { if a <= b then a else b }
  function RealMax(a: real, b: real): real { if a <= b then b else a }

  // ---- uniform time axis ----

  /** The resampled time axis has its ends at the first and the last sample. */
  lemma UniformTimeEnds(z0: real, zEnd: real, nd: int)
    requires nd >= 2
    ensures z0 + (nd - 1) as real * ((zEnd - z0) / (nd - 1) as real) == zEnd
  {
    var n := (nd - 1) as real;
    assert n * ((zEnd - z0) / n) == zEnd - z0;
  }

  // ---- resampling onto the uniform time axis ----

  /** The first index from j on whose time is at least bound, or |time| when there is none. */
  function FirstAtOrAbove(time: seq<real>, bound: real, j: int): (r: int)
    requires 0 <= j <= |time|
    ensures j <= r <= |time|
    ensures r < |time| ==> time[r] >= bound
    ensures forall u :: j <= u < r ==> time[u] < bound
    decreases |time| - j
  {
    if j == |time| || time[j] >= bound then j else FirstAtOrAbove(time, bound, j + 1)
  }

  /**
   * Where the gathering of one resampled slot stops, starting at j: the
   * first index from j whose time reaches bound, but never beyond the last
   * sample.
   */
  function WindowEnd(time: seq<real>, bound: real, j: int): (r: int)
    requires 0 <= j < |time|
    ensures j <= r < |time|
    ensures r == |time| - 1 || time[r] >= bound
    ensures forall u :: j <= u < r ==> time[u] < bound
    decreases |time| - j
  {
    if time[j] < bound && j < |time| - 1 then WindowEnd(time, bound, j + 1) else j
  }

  /** The time at which the samples of resampled slot i start. */
  function WindowLow(tr: seq<real>, dt: real, i: int): real
    requires 1 <= i < |tr|
  {
    if i == 1 then tr[1] - 0.5 * dt else tr[i - 1] + 0.5 * dt
  }

  /** The first raw sample gathered into resampled slot i, for 1 <= i < |time|. */
  function Cut(time: seq<real>, tr: seq<real>, dt: real, i: int): (r: int)
    requires 2 <= |time| == |tr| && 1 <= i < |time|
    requires FirstAtOrAbove(time, tr[1] - 0.5 * dt, 0) < |time|
    ensures 0 <= r < |time|
    ensures r < |time| - 1 ==> time[r] >= WindowLow(tr, dt, i)
    decreases i
  {
    if i == 1 then FirstAtOrAbove(time, tr[1] - 0.5 * dt, 0)
    else WindowEnd(time, tr[i - 1] + 0.5 * dt, Cut(time, tr, dt, i - 1))
  }

  /**
   * Resamples a log onto the uniform time axis tr: the two end samples are
   * copied, and every interior slot i holds the mean of the present raw
   * samples from Cut(i) up to Cut(i + 1), or RMISSING when there are none.
   * The first search has no bound of its own, so some sample must reach
   * the start of slot 1.
   */
  method ResampleLog(resampled: array<real>, log: seq<real>, time: seq<real>, tr: seq<real>, dt: real)
    requires 2 <= |log| == |time| == |tr| == resampled.Length
    requires FirstAtOrAbove(time, tr[1] - 0.5 * dt, 0) < |time|
    modifies resampled
    ensures resampled[0] == log[0] && resampled[|log| - 1] == log[|log| - 1]
    ensures forall i :: 1 <= i < |log| - 1 ==>
              resampled[i] == MergedValue(log[Cut(time, tr, dt, i)..Cut(time, tr, dt, i + 1)])
  {
    var nd := |log|;
    for i := 0 to nd
      invariant forall t :: 0 <= t < i ==> resampled[t] == RMISSING
    {
      resampled[i] := RMISSING;
    }
    resampled[0] := log[0];
    resampled[nd - 1] := log[nd - 1];
    var j := FindStart(time, tr[1] - 0.5 * dt);
    ResampleInterior(resampled, log, time, tr, dt, j);
  }

  /** The search for the first raw sample of slot 1, which relies on there being one. */
  method FindStart(time: seq<real>, bound: real) returns (j: int)
    requires FirstAtOrAbove(time, bound, 0) < |time|
    ensures j == FirstAtOrAbove(time, bound, 0)
  {
    j := 0;
    while time[j] < bound
      invariant 0 <= j <= FirstAtOrAbove(time, bound, 0)
      decreases |time| - j
    {
      j := j + 1;
    }
  }

  /** The loop over the interior slots of ResampleLog, starting from the first raw sample of slot 1. */
  method ResampleInterior(resampled: array<real>, log: seq<real>, time: seq<real>, tr: seq<real>, dt: real, j0: int)
    requires 2 <= |log| == |time| == |tr| == resampled.Length
    requires FirstAtOrAbove(time, tr[1] - 0.5 * dt, 0) < |time| && j0 == FirstAtOrAbove(time, tr[1] - 0.5 * dt, 0)
    requires forall t :: 1 <= t < |log| - 1 ==> resampled[t] == RMISSING
    modifies resampled
    ensures resampled[0] == old(resampled[0]) && resampled[|log| - 1] == old(resampled[|log| - 1])
    ensures forall i :: 1 <= i < |log| - 1 ==>
              resampled[i] == MergedValue(log[Cut(time, tr, dt, i)..Cut(time, tr, dt, i + 1)])
  {
    var nd := |log|;
    var j := j0;
    for i := 1 to nd - 1
      invariant j == Cut(time, tr, dt, i)
      invariant resampled[0] == old(resampled[0]) && resampled[nd - 1] == old(resampled[nd - 1])
      invariant forall t :: 1 <= t < i ==>
                  resampled[t] == MergedValue(log[Cut(time, tr, dt, t)..Cut(time, tr, dt, t + 1)])
      invariant forall t :: i <= t < nd - 1 ==> resampled[t] == RMISSING
    {
      CutStep(time, tr, dt, i, i + 1);
      j := ResampleSlot(resampled, log, time, i, tr[i] + 0.5 * dt, j);
    }
  }

  lemma CutStep(time: seq<real>, tr: seq<real>, dt: real, i: int, next: int)
    requires 2 <= |time| == |tr| && 1 <= i < |time| - 1 && next == i + 1
    requires FirstAtOrAbove(time, tr[1] - 0.5 * dt, 0) < |time|
    ensures Cut(time, tr, dt, next) == WindowEnd(time, tr[i] + 0.5 * dt, Cut(time, tr, dt, i))
  {
  }

  /**
   * The gathering loop of one interior slot i: sums and counts the present
   * samples from j0 while their time stays below bound, and stores their
   * mean when there is one.
   */
  method ResampleSlot(resampled: array<real>, log: seq<real>, time: seq<real>, i: int, bound: real, j0: int)
    returns (j: int)
    requires |log| == |time| == resampled.Length && 0 <= i < resampled.Length && 0 <= j0 < |time|
    requires resampled[i] == RMISSING
    modifies resampled
    ensures j == WindowEnd(time, bound, j0)
    ensures resampled[..] == old(resampled[..])[i := MergedValue(log[j0..j])]
  {
    var nd := |log|;
    var value := 0.0;
    var count := 0;
    j := j0;
    assert log[j0..j0] == [];
    while time[j] < bound && j < nd - 1
      invariant j0 <= j <= WindowEnd(time, bound, j0) && unchanged(resampled)
      invariant value == Stats.SumPresent(log[j0..j]) && count == Stats.CountPresent(log[j0..j])
      decreases nd - j
    {
      Stats.SliceStep(log, j0, j);
      if log[j] != RMISSING {
        value := value + log[j];
        count := count + 1;
      }
      j := j + 1;
    }
    if count > 0 {
      resampled[i] := value / count as real;
    } else {
      assert resampled[..] == resampled[..][i := RMISSING];
    }
  }

  /** Each gathering window ends where the next one starts, and never passes the last sample. */
  lemma CutsOrdered(time: seq<real>, tr: seq<real>, dt: real, i: int)
    requires 2 <= |time| == |tr| && 1 <= i < |time| - 1
    requires FirstAtOrAbove(time, tr[1] - 0.5 * dt, 0) < |time|
    ensures Cut(time, tr, dt, i) <= Cut(time, tr, dt, i + 1) <= |time| - 1
    ensures forall u :: Cut(time, tr, dt, i) <= u < Cut(time, tr, dt, i + 1) ==> time[u] < tr[i] + 0.5 * dt
  {
  }

  /**
   * With increasing raw and resampled times and a step of at least 0, every
   * raw sample before Cut(i) lies before the start of slot i.
   */
  lemma {:induction false} BeforeCut(time: seq<real>, tr: seq<real>, dt: real, i: int)
    requires 2 <= |time| == |tr| && 1 <= i < |time|
    requires FirstAtOrAbove(time, tr[1] - 0.5 * dt, 0) < |time|
    requires dt >= 0.0 && forall a, b :: 0 <= a <= b < |tr| ==> tr[a] <= tr[b]
    ensures forall u :: 0 <= u < Cut(time, tr, dt, i) ==> time[u] < WindowLow(tr, dt, i)
    decreases i
  {
    if i > 1 {
      BeforeCut(time, tr, dt, i - 1);
      var c := Cut(time, tr, dt, i - 1);
      assert WindowLow(tr, dt, i - 1) <= WindowLow(tr, dt, i) by {
        if i > 2 {
          assert tr[i - 2] <= tr[i - 1];
        }
      }
    }
  }

  /**
   * With increasing raw and resampled times, slot i gathers exactly the raw
   * samples, the last one excepted, whose time lies in the half-open
   * interval from WindowLow(i) to tr[i] + dt/2.
   */
  lemma WindowIsHalfCell(time: seq<real>, tr: seq<real>, dt: real, i: int, u: int)
    requires 2 <= |time| == |tr| && 1 <= i < |time| - 1 && 0 <= u < |time| - 1
    requires FirstAtOrAbove(time, tr[1] - 0.5 * dt, 0) < |time|
    requires dt >= 0.0 && forall a, b :: 0 <= a <= b < |tr| ==> tr[a] <= tr[b]
    requires forall a, b :: 0 <= a <= b < |time| ==> time[a] <= time[b]
    ensures Cut(time, tr, dt, i) <= u < Cut(time, tr, dt, i + 1) <==>
            WindowLow(tr, dt, i) <= time[u] < tr[i] + 0.5 * dt
  {
    var lo, hi := Cut(time, tr, dt, i), Cut(time, tr, dt, i + 1);
    CutsOrdered(time, tr, dt, i);
    BeforeCut(time, tr, dt, i);
    if lo <= u < hi {
      assert time[lo] <= time[u];
    } else if u >= hi {
      assert time[hi] <= time[u];
    }
  }

  // ---- linear interpolation of interior gaps ----

  /** The first i samples of out are interpolated, the rest still copies of s. */
  ghost predicate InterpolatedUpTo(out: seq<real>, s: seq<real>, i: int)
  {
    |out| == |s| && 0 <= i <= |s| &&
    (forall t :: 0 <= t < i ==> out[t] == Interpolated(s, t)) &&
    (forall t :: i <= t < |s| ==> out[t] == s[t])
  }

  /**
   * Fills every interior run of missing samples of s by linear
   * interpolation between the present samples around it, leaving present
   * samples and the missing runs at either end as they are.
   */
  method InterpolateLog(interpolated: array<real>, s: seq<real>)
    requires interpolated.Length == |s|
    modifies interpolated
    ensures forall t :: 0 <= t < |s| ==> interpolated[t] == Interpolated(s, t)
  {
    var nd := |s|;
    for i := 0 to nd
      invariant forall t :: 0 <= t < i ==> interpolated[t] == s[t]
    {
      interpolated[i] := s[i];
    }
    var i := 0;
    while i < nd && s[i] == RMISSING
      invariant 0 <= i <= nd && InterpolatedUpTo(interpolated[..], s, i)
      invariant forall u :: 0 <= u < i ==> s[u] == RMISSING
    {
      i := i + 1;
    }
    while i < nd
      invariant 0 <= i <= nd && InterpolatedUpTo(interpolated[..], s, i)
      invariant i < nd && s[i] == RMISSING ==> 0 < i && s[i - 1] != RMISSING
      decreases nd - i
    {
      if s[i] == RMISSING {
        var lastNonmissing := i - 1;
        while i < nd && s[i] == RMISSING
          invariant lastNonmissing < i <= nd && InterpolatedUpTo(interpolated[..], s, lastNonmissing + 1)
          invariant forall u :: lastNonmissing < u < i ==> s[u] == RMISSING
        {
          i := i + 1;
        }
        if i < nd {
          FillGap(interpolated, s, lastNonmissing, i);
        } else {
          TrailingRun(interpolated[..], s, lastNonmissing + 1);
        }
      } else {
        PresentKept(interpolated[..], s, i, i + 1);
        i := i + 1;
      }
    }
    assert InterpolatedUpTo(interpolated[..], s, nd);
  }

  /** Writes the straight line from sample j0 to sample j1 over the missing samples between them. */
  method FillGap(interpolated: array<real>, s: seq<real>, j0: int, j1: int)
    requires interpolated.Length == |s| && 0 <= j0 < j1 < |s|
    requires s[j0] != RMISSING && s[j1] != RMISSING && forall u :: j0 < u < j1 ==> s[u] == RMISSING
    requires InterpolatedUpTo(interpolated[..], s, j0 + 1)
    modifies interpolated
    ensures InterpolatedUpTo(interpolated[..], s, j1)
  {
    var l0, l1 := s[j0], s[j1];
    var a := Slope(l0, l1, j0, j1);
    for j := j0 + 1 to j1
      invariant InterpolatedUpTo(interpolated[..], s, j)
    {
      StoreLinear(interpolated, s, j0, j1, a, j, j + 1);
    }
  }

  /** Stores the value of the line of slope a from sample j0 at the missing sample j of the gap. */
  method StoreLinear(interpolated: array<real>, s: seq<real>, j0: int, j1: int, a: real, j: int, next: int)
    requires interpolated.Length == |s| && 0 <= j0 < j < j1 < |s| && next == j + 1
    requires s[j0] != RMISSING && s[j1] != RMISSING && forall u :: j0 < u < j1 ==> s[u] == RMISSING
    requires a == Slope(s[j0], s[j1], j0, j1) && InterpolatedUpTo(interpolated[..], s, j)
    modifies interpolated
    ensures InterpolatedUpTo(interpolated[..], s, next)
  {
    GapSample(s, j0, j1, j);
    LinearValue(s[j0], s[j1], j0, j1, a, j);
    ghost var o := interpolated[..];
    interpolated[j] := a * (j - j0) as real + s[j0];
    InterpolatedStep(o, interpolated[..], s, j, next);
  }

  lemma LinearValue(l0: real, l1: real, j0: int, j1: int, a: real, j: int)
    requires j0 < j1 && a == Slope(l0, l1, j0, j1)
    ensures a * (j - j0) as real + l0 == LinearAt(l0, l1, j0, j1, j)
  {
  }

  /** A missing sample strictly inside a gap lies on the line between the gap's ends. */
  lemma GapSample(s: seq<real>, j0: int, j1: int, t: int)
    requires 0 <= j0 < t < j1 < |s|
    requires s[j0] != RMISSING && s[j1] != RMISSING && forall u :: j0 < u < j1 ==> s[u] == RMISSING
    ensures Interpolated(s, t) == LinearAt(s[j0], s[j1], j0, j1, t)
  {
    var p, q := PrevDefined(s, t), NextDefined(s, t);
    assert p == j0;
    assert q == j1;
  }

  lemma InterpolatedStep(o: seq<real>, o': seq<real>, s: seq<real>, j: int, next: int)
    requires InterpolatedUpTo(o, s, j) && j < |s| && next == j + 1 && o' == o[j := Interpolated(s, j)]
    ensures InterpolatedUpTo(o', s, next)
  {
  }

  /** A present sample is its own interpolation. */
  lemma PresentKept(o: seq<real>, s: seq<real>, i: int, next: int)
    requires InterpolatedUpTo(o, s, i) && i < |s| && s[i] != RMISSING && next == i + 1
    ensures InterpolatedUpTo(o, s, next)
  {
  }

  /** Missing samples after the last present one stay missing. */
  lemma TrailingRun(o: seq<real>, s: seq<real>, i: int)
    requires InterpolatedUpTo(o, s, i) && forall u :: i <= u < |s| ==> s[u] == RMISSING
    ensures InterpolatedUpTo(o, s, |s|)
  {
    forall t | i <= t < |s|
      ensures o[t] == Interpolated(s, t)
    {
      var q := NextDefined(s, t);
      assert q == |s|;
    }
  }

  /** The interpolating line passes through both of its end samples. */
  lemma LinearAtEnds(l0: real, l1: real, j0: int, j1: int)
    requires j0 < j1
    ensures LinearAt(l0, l1, j0, j1, j0) == l0
    ensures LinearAt(l0, l1, j0, j1, j1) == l1
  {
    var n := (j1 - j0) as real;
    assert (l1 - l0) / n * n == l1 - l0;
  }

  /** The samples and the state of one well. */
  class WellData {
    var nd: int
    var xpos: seq<real>
    var ypos: seq<real>
    var zpos: seq<real>
    var alpha: seq<real>
    var beta: seq<real>
    var rho: seq<real>
    var facies: seq<int>
    var faciesLogDefined: bool
    /** The facies numbers used by the well, nFacies of them. */
    var faciesNr: seq<int>
    var nFacies: int

    ghost predicate Valid()
      reads this
    {
      nd >= 0 && |xpos| == nd && |ypos| == nd && |zpos| == nd &&
      |alpha| == nd && |beta| == nd && |rho| == nd && |facies| == nd &&
      0 <= nFacies <= |faciesNr|
    }

    /** A well with the given samples, as the well-file reader leaves it. */
    constructor (x: seq<real>, y: seq<real>, z: seq<real>, a: seq<real>, b: seq<real>, r: seq<real>,
                 f: seq<int>, faciesDefined: bool, fnr: seq<int>)
      requires |y| == |x| && |z| == |x| && |a| == |x| && |b| == |x| && |r| == |x| && |f| == |x|
      ensures Valid()
      ensures nd == |x| && xpos == x && ypos == y && zpos == z && alpha == a && beta == b && rho == r
      ensures facies == f && faciesLogDefined == faciesDefined && faciesNr == fnr && nFacies == |fnr|
    {
      nd := |x|;
      xpos, ypos, zpos := x, y, z;
      alpha, beta, rho := a, b, r;
      facies, faciesLogDefined := f, faciesDefined;
      faciesNr, nFacies := fnr, |fnr|;
    }

    /** The logs of the well, bundled. */
    function Samples(): (r: Logs)
      reads this
      ensures r.z == zpos && r.facies == facies
    {
      Logs(xpos, ypos, zpos, alpha, beta, rho, facies)
    }

    /**
     * Merges each group of consecutive samples closer in time than
     * minMergeDist to its first sample into one sample holding the mean of
     * the group's present values (the facies of its first sample), and
     * returns how many samples disappeared, together with the groups.
     * Without a facies log the facies entries are left without meaning.
     */
    method RemoveDuplicateLogEntries(minMergeDist: real) returns (nMerges: int, ghost gs: seq<(int, int)>)
      requires Valid()
      modifies this`nd, this`xpos, this`ypos, this`zpos, this`alpha, this`beta, this`rho, this`facies
      ensures gs == Groups(old(zpos), 0, minMergeDist)
      ensures Valid()
      ensures nd == |gs| && nMerges == old(nd) - nd >= 0
      ensures zpos == MergedLog(old(zpos), gs) && xpos == MergedLog(old(xpos), gs)
      ensures ypos == MergedLog(old(ypos), gs) && alpha == MergedLog(old(alpha), gs)
      ensures beta == MergedLog(old(beta), gs) && rho == MergedLog(old(rho), gs)
      ensures faciesLogDefined ==> facies == FirstSamples(old(facies), gs)
    {
      var m;
      m, gs := MergeDuplicates(Samples(), faciesLogDefined, minMergeDist);
      var ii := |m.z|;
      nMerges := nd - ii;
      SetSamples(m);
    }

    /** Replaces the logs of the well by l. */
    method SetSamples(l: Logs)
      requires Valid() && SameLength(l)
      modifies this`nd, this`xpos, this`ypos, this`zpos, this`alpha, this`beta, this`rho, this`facies
      ensures Valid() && nd == |l.z| && Samples() == l
    {
      nd := |l.z|;
      xpos, ypos, zpos := l.x, l.y, l.z;
      alpha, beta, rho := l.alpha, l.beta, l.rho;
      facies := l.facies;
    }

    /**
     * Sets every present Vp, Vs and density sample outside its limits to
     * RMISSING and returns how many samples of each log were reset.
     */
    method SetWrongLogEntriesUndefined(alphaMin: real, alphaMax: real, betaMin: real, betaMax: real,
                                       rhoMin: real, rhoMax: real)
      returns (countAlpha: int, countBeta: int, countRho: int)
      requires Valid()
      modifies this`alpha, this`beta, this`rho
      ensures Valid()
      ensures forall i :: 0 <= i < nd ==> alpha[i] == Clip(old(alpha[i]), alphaMin, alphaMax)
      ensures forall i :: 0 <= i < nd ==> beta[i] == Clip(old(beta[i]), betaMin, betaMax)
      ensures forall i :: 0 <= i < nd ==> rho[i] == Clip(old(rho[i]), rhoMin, rhoMax)
      ensures countAlpha == CountChanged(old(alpha), alpha)
      ensures countBeta == CountChanged(old(beta), beta)
      ensures countRho == CountChanged(old(rho), rho)
    {
      countAlpha, countBeta, countRho := 0, 0, 0;
      var a, b, r := alpha, beta, rho;
      for i := 0 to nd
        invariant unchanged(this)
        invariant ClippedPrefix(alpha, a, i, alphaMin, alphaMax, countAlpha)
        invariant ClippedPrefix(beta, b, i, betaMin, betaMax, countBeta)
        invariant ClippedPrefix(rho, r, i, rhoMin, rhoMax, countRho)
      {
        a, countAlpha := ClipSample(alpha, a, i, alphaMin, alphaMax, countAlpha);
        b, countBeta := ClipSample(beta, b, i, betaMin, betaMax, countBeta);
        r, countRho := ClipSample(rho, r, i, rhoMin, rhoMax, countRho);
      }
      ClippedPrefixDone(alpha, a, alphaMin, alphaMax, countAlpha);
      ClippedPrefixDone(beta, b, betaMin, betaMax, countBeta);
      ClippedPrefixDone(rho, r, rhoMin, rhoMax, countRho);
      alpha, beta, rho := a, b, r;
    }

    /**
     * The least and the greatest of the facies numbers of the well; the
     * first number is read even when nFacies is 0.
     */
    method GetMinMaxFnr() returns (min: int, max: int)
      requires Valid() && |faciesNr| > 0
      ensures forall i :: 0 <= i < nFacies ==> min <= faciesNr[i] <= max
      ensures min <= faciesNr[0] <= max
      ensures exists i :: 0 <= i < Max(nFacies, 1) && faciesNr[i] == min
      ensures exists i :: 0 <= i < Max(nFacies, 1) && faciesNr[i] == max
    {
      min, max := faciesNr[0], faciesNr[0];
      var i := 1;
      while i < nFacies
        invariant 1 <= i <= Max(nFacies, 1)
        invariant forall t :: 0 <= t < i ==> min <= faciesNr[t] <= max
        invariant exists t :: 0 <= t < i && faciesNr[t] == min
        invariant exists t :: 0 <= t < i && faciesNr[t] == max
      {
        if faciesNr[i] < min {
          min := faciesNr[i];
        }
        if faciesNr[i] > max {
          max := faciesNr[i];
        }
        i := i + 1;
      }
    }

    /**
     * Fills a time axis of nd samples with constant step from the first to
     * the last sample of the time log, and returns the step. A missing end
     * sample is fatal: ok is then false and nothing is written.
     */
    method ResampleTime(timeResampled: array<real>) returns (dt: real, ok: bool)
      requires Valid() && nd >= 2 && timeResampled.Length >= nd
      modifies timeResampled
      ensures ok <==> zpos[0] != RMISSING && zpos[nd - 1] != RMISSING
      ensures ok ==> dt == (zpos[nd - 1] - zpos[0]) / (nd - 1) as real
      ensures ok ==> forall i :: 0 <= i < nd ==> timeResampled[i] == zpos[0] + i as real * dt
      ensures ok ==> forall i :: nd <= i < timeResampled.Length ==> timeResampled[i] == old(timeResampled[i])
      ensures !ok ==> timeResampled[..] == old(timeResampled[..])
    {
      var timeBegin, timeEnd := zpos[0], zpos[nd - 1];
      dt := 0.0;
      if timeBegin != RMISSING && timeEnd != RMISSING {
        dt := (timeEnd - timeBegin) / (nd - 1) as real;
        var i := 0;
        while i < nd
          invariant 0 <= i <= nd
          invariant forall t :: 0 <= t < i ==> timeResampled[t] == timeBegin + t as real * dt
          invariant forall t :: i <= t < timeResampled.Length ==> timeResampled[t] == old(timeResampled[t])
        {
          timeResampled[i] := timeBegin + i as real * dt;
          i := i + 1;
        }
        ok := true;
      } else {
        ok := false;
      }
    }
  }

  /** Resets sample i of log to RMISSING when it is present and outside [lo, hi], counting the reset. */
  method ClipSample(ghost orig: seq<real>, log: seq<real>, i: int, lo: real, hi: real, count: int)
    returns (log': seq<real>, count': int)
    requires ClippedPrefix(orig, log, i, lo, hi, count) && i < |orig|
    ensures ClippedPrefix(orig, log', i + 1, lo, hi, count')
  {
    log', count' := log, count;
    if log[i] != RMISSING && (log[i] < lo || log[i] > hi) {
      log' := log[i := RMISSING];
      count' := count + 1;
    }
    ClippedPrefixStep(orig, log, log', i, i + 1, lo, hi, count, count');
  }

  /** The first i samples of b are those of a clipped to [lo, hi], count of them changed; the rest are a's. */
  ghost predicate ClippedPrefix(a: seq<real>, b: seq<real>, i: int, lo: real, hi: real, count: int)
  {
    |a| == |b| && 0 <= i <= |a| && b[i..] == a[i..] &&
    (forall t :: 0 <= t < i ==> b[t] == Clip(a[t], lo, hi)) &&
    count == CountChanged(a[..i], b[..i])
  }

  lemma ClippedPrefixStep(a: seq<real>, mid: seq<real>, b: seq<real>, i: int, next: int, lo: real, hi: real,
                          count: int, count': int)
    requires ClippedPrefix(a, mid, i, lo, hi, count) && i < |a| && next == i + 1
    requires mid[i] != RMISSING && (mid[i] < lo || mid[i] > hi) ==> b == mid[i := RMISSING] && count' == count + 1
    requires !(mid[i] != RMISSING && (mid[i] < lo || mid[i] > hi)) ==> b == mid && count' == count
    ensures ClippedPrefix(a, b, next, lo, hi, count')
  {
    assert a[i] == mid[i] by { assert mid[i..][0] == a[i..][0]; }
    assert a[..i + 1][..i] == a[..i];
    assert b[..i + 1][..i] == b[..i] == mid[..i];
    assert b[i + 1..] == mid[i + 1..] by {
      assert forall t :: i + 1 <= t < |b| ==> b[t] == mid[t];
    }
    assert mid[i + 1..] == a[i + 1..] by {
      assert mid[i + 1..] == mid[i..][1..] && a[i + 1..] == a[i..][1..];
    }
  }

  lemma ClippedPrefixDone(a: seq<real>, b: seq<real>, lo: real, hi: real, count: int)
    requires ClippedPrefix(a, b, |a|, lo, hi, count)
    ensures forall t :: 0 <= t < |a| ==> b[t] == Clip(a[t], lo, hi)
    ensures count == CountChanged(a, b)
  {
    assert a[..|a|] == a && b[..|b|] == b;
  }
}
