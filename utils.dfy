// Array copies and the two string scanners of the utility library
// (libs/lib/utils.cpp). The copies work in place on arrays; `findEnd` is a
// scan with a local loop; `readUntilStop` builds its output one character at
// a time. Both scanners are modelled as written, next to the behaviour their
// names and comments evidently intend.

module Utils {
  import opened Common

  // ---------------------------------------------------------------------
  // Copies
  // ---------------------------------------------------------------------

  /** `copyVector` (for int and for float): the first `ndim` elements of
      `from` are copied into `to`, and the rest of `to` keeps its values. A
      non-positive `ndim` copies nothing. The two arrays may be the same. */
  method CopyVector<T>(from: array<T>, to: array<T>, ndim: int)
    requires ndim <= from.Length && ndim <= to.Length
    modifies to
    ensures forall i :: 0 <= i < to.Length ==> to[i] == if i < ndim then old(from[i]) else old(to[i])
  {
    var n := if ndim < 0 then 0 else ndim;
    for i := 0 to n
      invariant forall k :: 0 <= k < to.Length ==> to[k] == if k < i then old(from[k]) else old(to[k])
      invariant forall k :: i <= k < from.Length ==> from[k] == old(from[k])
    {
      to[i] := from[i];
    }
  }

  /** `copyMatrix`: the `ndim1` by `ndim2` corner of `from` is copied into
      `to`, and every other cell of `to` keeps its value. */
  method CopyMatrix(from: array2<real>, to: array2<real>, ndim1: int, ndim2: int)
    requires ndim1 <= from.Length0 && ndim1 <= to.Length0
    requires ndim2 <= from.Length1 && ndim2 <= to.Length1
    modifies to
    ensures forall i, j :: 0 <= i < to.Length0 && 0 <= j < to.Length1 ==>
      to[i, j] == if i < ndim1 && j < ndim2 then old(from[i, j]) else old(to[i, j])
  {
    var n1 := if ndim1 < 0 then 0 else ndim1;
    var n2 := if ndim2 < 0 then 0 else ndim2;
    for i := 0 to n1
      invariant forall a, b :: 0 <= a < to.Length0 && 0 <= b < to.Length1 ==>
        to[a, b] == if a < i && b < n2 then old(from[a, b]) else old(to[a, b])
      invariant forall a, b :: i <= a < from.Length0 && 0 <= b < from.Length1 ==> from[a, b] == old(from[a, b])
    {
      for j := 0 to n2
        invariant forall a, b :: 0 <= a < to.Length0 && 0 <= b < to.Length1 ==>
          to[a, b] == if (a < i && b < n2) || (a == i && b < j) then old(from[a, b]) else old(to[a, b])
        invariant forall a, b :: i <= a < from.Length0 && 0 <= b < from.Length1 && (a > i || b >= j) ==>
          from[a, b] == old(from[a, b])
      {
        to[i, j] := from[i, j];
      }
    }
  }

  // ---------------------------------------------------------------------
  // Occurrences of one string in another
  // ---------------------------------------------------------------------

  /** `t` occurs in `s` starting at `p`. */
  predicate OccursAt(s: string, t: string, p: int)
  {
    0 <= p && p + |t| <= |s| && s[p..p + |t|] == t
  }

  /** `std::string::find(t, pos)`: the first position at or after `pos`
      where `t` occurs in `s`, or None (`npos`). */
  function FindFrom(s: string, t: string, pos: nat): (r: Option<nat>)
    ensures r.Some? ==> pos <= r.value && OccursAt(s, t, r.value)
    decreases |s| + 1 - pos
  {
    if pos + |t| > |s| then None
    else if s[pos..pos + |t|] == t then Some(pos)
    else FindFrom(s, t, pos + 1)
  }

  /** The position found is the first occurrence at or after `pos`, and
      none is found exactly when `t` does not occur at or after `pos`. */
  lemma {:induction false} FindFromMeaning(s: string, t: string, pos: nat)
    ensures var r := FindFrom(s, t, pos);
      && (r.Some? ==> forall p :: pos <= p < r.value ==> !OccursAt(s, t, p))
      && (r.None? <==> forall p :: pos <= p ==> !OccursAt(s, t, p))
    decreases |s| + 1 - pos
  {
    if pos + |t| <= |s| && s[pos..pos + |t|] != t {
      FindFromMeaning(s, t, pos + 1);
    }
  }

  // ---------------------------------------------------------------------
  // findEnd
  // ---------------------------------------------------------------------

  /** The loop of `findEnd` from position `i` with `flag` characters of
      `find` matched: the final position and match count. A mismatch resets
      the count without testing the same character against the start of
      `find` again. */
  function Scan(seek: string, find: string, i: nat, flag: nat): (r: (nat, nat))
    requires flag <= |find|
    ensures r.1 <= |find| && i <= r.0
    decreases |seek| - i
  {
    if flag < |find| && i < |seek| then
      Scan(seek, find, i + 1, if seek[i] == find[flag] then flag + 1 else 0)
    else (i, flag)
  }

  /** `findEnd` as written: the position of the last character of the first
      match the scan completes from `start`, `start - 1` when `find` is
      empty, and -1 otherwise. A negative `start` becomes a huge unsigned
      position, so the loop does not run. */
  function FindEndAsWritten(seek: string, start: int, find: string): (r: int)
  {
    if start < 0 then (if |find| == 0 then start - 1 else -1)
    else
      var (i, flag) := Scan(seek, find, start, 0);
      if flag == |find| then i - 1 else -1
  }

  /** The loop of `findEnd`: it computes the scan. */
  method FindEndLoop(seek: string, start: int, find: string) returns (r: int)
    ensures r == FindEndAsWritten(seek, start, find)
  {
    if start < 0 {
      r := if |find| == 0 then start - 1 else -1;
      return;
    }
    var i: nat := start;
    var flag: nat := 0;
    while flag < |find| && i < |seek|
      invariant flag <= |find|
      invariant Scan(seek, find, i, flag) == Scan(seek, find, start, 0)
      decreases |seek| - i
    {
      if seek[i] == find[flag] {
        flag := flag + 1;
      } else {
        flag := 0;
      }
      i := i + 1;
    }
    r := if flag == |find| then i - 1 else -1;
  }

  /** While the scan runs, the last `flag` characters before `i` are the
      first `flag` characters of `find`, and they lie at or after the
      position it started from. */
  lemma {:induction false} ScanMatched(seek: string, find: string, start: nat, i: nat, flag: nat)
    requires flag <= |find| && start + flag <= i <= |seek|
    requires seek[i - flag..i] == find[..flag]
    ensures var (j, fl) := Scan(seek, find, i, flag);
      start + fl <= j <= |seek| && seek[j - fl..j] == find[..fl]
    decreases |seek| - i
  {
    if flag < |find| && i < |seek| {
      if seek[i] == find[flag] {
        assert seek[i - flag..i + 1] == seek[i - flag..i] + [seek[i]];
        assert find[..flag + 1] == find[..flag] + [find[flag]];
        ScanMatched(seek, find, start, i + 1, flag + 1);
      } else {
        ScanMatched(seek, find, start, i + 1, 0);
      }
    }
  }

  /** What `findEnd` promises: -1, or the position of the last character
      of an occurrence of `find` that starts at or after `start`. With an
      empty `find` the result is `start - 1`. */
  lemma FindEndAsWrittenSound(seek: string, start: int, find: string)
    ensures var r := FindEndAsWritten(seek, start, find);
      && (|find| == 0 ==> r == start - 1)
      && (|find| > 0 && r != -1 ==> start <= r - |find| + 1 && OccursAt(seek, find, r - |find| + 1))
  {
    if start >= 0 {
      if start <= |seek| {
        ScanMatched(seek, find, start, start, 0);
      }
      var (i, flag) := Scan(seek, find, start, 0);
      if |find| > 0 && flag == |find| {
        assert find[..flag] == find;
      }
    }
  }

  /** The scan misses an occurrence that begins inside a partial match:
      "ab" ends at position 2 of "aab", but the scan returns -1. */
  lemma FindEndAsWrittenMissesOverlap()
    ensures OccursAt("aab", "ab", 1)
    ensures FindEndAsWritten("aab", 0, "ab") == -1
  {
    assert "aab"[1..3] == "ab";
    assert Scan("aab", "ab", 0, 0) == Scan("aab", "ab", 1, 1);
    assert Scan("aab", "ab", 1, 1) == Scan("aab", "ab", 2, 0);
    assert Scan("aab", "ab", 2, 0) == Scan("aab", "ab", 3, 0);
  }

  /** `findEnd` as its name and callers intend: the position of the last
      character of the first occurrence of `find` at or after `start`, or
      -1 when there is none; an empty `find` still gives `start - 1`. */
  method FindEnd(seek: string, start: int, find: string) returns (r: int)
    ensures |find| == 0 ==> r == start - 1
    ensures |find| > 0 && start >= 0 ==> r == match FindFrom(seek, find, start) case None => -1 case Some(p) => p + |find| - 1
    ensures |find| > 0 && start < 0 ==> r == -1
  {
    if |find| == 0 {
      return start - 1;
    }
    if start < 0 {
      return -1;
    }
    r := -1;
    var p: nat := start;
    while p + |find| <= |seek|
      invariant start <= p
      invariant FindFrom(seek, find, p) == FindFrom(seek, find, start)
      decreases |seek| - p
    {
      if seek[p..p + |find|] == find {
        return p + |find| - 1;
      }
      p := p + 1;
    }
  }

  /** The intended `findEnd` finds the occurrence the scan misses. */
  lemma FindEndFindsOverlap()
    ensures FindFrom("aab", "ab", 0) == Some(1)
  {
    assert "aab"[0..2] != "ab" by { assert "aab"[0..2][1] == 'a'; }
    assert "aab"[1..3] == "ab";
  }

  // ---------------------------------------------------------------------
  // readUntilStop
  // ---------------------------------------------------------------------

  /** The characters of `in` from `pos + 1` up to `stop`. */
  method CopyAfter(pos: nat, text: string, stop: nat) returns (out: string)
    requires pos + 1 <= stop <= |text|
    ensures out == text[pos + 1..stop]
  {
    out := "";
    var i := 0;
    while i < stop - pos - 1
      invariant 0 <= i <= stop - pos - 1
      invariant out == text[pos + 1..pos + 1 + i]
    {
      out := out + [text[pos + 1 + i]];
      i := i + 1;
    }
  }

  /** What `readUntilStop` as written returns. The test on the result of
      `find` is the wrong way round: when `read` occurs at or after `pos`
      the end becomes the end of `in`, so the output runs past the
      terminator to the end of the string. When `read` does not occur the
      end stays `npos` and the loop reads past the end of `in`, so that case
      is excluded. */
  function ReadUntilStopAsWrittenResult(pos: nat, text: string, read: string): string
    requires pos < |text| && FindFrom(text, read, pos).Some?
  {
    var stop := |text|;
    text[pos + 1..stop]
  }

  /** What `readUntilStop` is meant to return: the characters after `pos`
      up to the first occurrence of `read` at or after `pos`, or to the end
      of `in` when there is none; empty when the terminator is at `pos`
      itself. */
  function ReadUntilStopResult(pos: nat, text: string, read: string): string
    requires pos < |text|
  {
    match FindFrom(text, read, pos)
    case None => text[pos + 1..]
    case Some(q) => if q == pos then "" else text[pos + 1..q]
  }

  /** `readUntilStop` as written: its copy loop produces the as-written
      result, every character after `pos`. */
  method ReadUntilStopAsWritten(pos: int, text: string, read: string) returns (out: string)
    requires 0 <= pos < |text|
    requires FindFrom(text, read, pos).Some?
    ensures out == text[pos + 1..]
    ensures out == ReadUntilStopAsWrittenResult(pos, text, read)
  {
    var stop := |text|;
    out := CopyAfter(pos, text, stop);
  }

  /** `readUntilStop` as its comment describes it, with the test on the
      result of `find` the right way round. */
  method ReadUntilStop(pos: int, text: string, read: string) returns (out: string)
    requires 0 <= pos < |text|
    ensures match FindFrom(text, read, pos)
      case None => out == text[pos + 1..]
      case Some(q) => out == if q == pos then "" else text[pos + 1..q]
    ensures out == ReadUntilStopResult(pos, text, read)
  {
    var found := FindFrom(text, read, pos);
    var stop := if found.Some? then found.value else |text|;
    if stop == pos {
      out := "";
    } else {
      out := CopyAfter(pos, text, stop);
    }
  }

  /** The output of the intended `readUntilStop` holds no occurrence of the
      terminator that lies wholly inside it. */
  lemma ReadUntilStopExcludesStop(pos: nat, text: string, read: string, q: nat)
    requires pos < |text| && FindFrom(text, read, pos) == Some(q) && pos < q
    ensures forall p :: pos + 1 <= p && p + |read| <= q ==> !OccursAt(text, read, p)
  {
    FindFromMeaning(text, read, pos);
  }

  /** On "(ab)c" from the opening parenthesis, the code as written returns
      "ab)c" where "ab" is meant. */
  lemma ReadUntilStopAsWrittenKeepsStop()
    ensures FindFrom("(ab)c", ")", 0) == Some(3)
    ensures ReadUntilStopAsWrittenResult(0, "(ab)c", ")") == "ab)c"
    ensures ReadUntilStopResult(0, "(ab)c", ")") == "ab"
  {
    assert "(ab)c"[0..1] != ")" by { assert "(ab)c"[0..1][0] == '('; }
    assert "(ab)c"[1..2] != ")" by { assert "(ab)c"[1..2][0] == 'a'; }
    assert "(ab)c"[2..3] != ")" by { assert "(ab)c"[2..3][0] == 'b'; }
    assert "(ab)c"[3..4] == ")";
  }
}
