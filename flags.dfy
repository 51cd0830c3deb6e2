// The mask in which the model-file reader records the commands it has read
// (src/modelfile.cpp, lines 133-173 and 335-362). Command `i` owns the
// value 2^i; the reader tests it with a bitwise and, adds it with a bitwise
// or, and later reads the mask back bit by bit with `% 2` and `/= 2`. The
// mask is modelled as the natural number it holds, and a flag as a binary
// digit of it.

module Flags {
  import opened Common

  /** Whether binary digit `i` of `m` is one: `m % 2` after `i` halvings, as
      the reader decodes the mask. */
  predicate HasFlag(m: nat, i: nat)
  {
    if i == 0 then m % 2 == 1 else HasFlag(m / 2, i - 1)
  }

  /** `m` with flag `i` set, the bitwise or of `m` and 2^i. */
  function SetFlag(m: nat, i: nat): nat
  {
    if HasFlag(m, i) then m else m + Pow2(i)
  }

  /** The mask `m` holds exactly the commands in `used` among the first 64. */
  ghost predicate Represents(m: nat, used: set<nat>)
  {
    forall i: nat :: i < 64 ==> (HasFlag(m, i) <==> i in used)
  }

  /** Adding 2^i to a mask that lacks flag `i` sets that flag and leaves
      every other one as it was. */
  lemma {:induction false} AddFlagMeaning(m: nat, i: nat, j: nat)
    requires !HasFlag(m, i)
    ensures HasFlag(m + Pow2(i), j) <==> HasFlag(m, j) || i == j
  {
    if i == 0 {
      assert (m + 1) / 2 == m / 2;
      if j > 0 {
        assert HasFlag(m + 1, j) == HasFlag(m / 2, j - 1);
      }
    } else {
      assert (m + Pow2(i)) / 2 == m / 2 + Pow2(i - 1);
      assert (m + Pow2(i)) % 2 == m % 2;
      if j > 0 {
        AddFlagMeaning(m / 2, i - 1, j - 1);
      }
    }
  }

  /** Setting flag `i` sets that flag and leaves every other one as it was. */
  lemma SetFlagMeaning(m: nat, i: nat, j: nat)
    ensures HasFlag(SetFlag(m, i), j) <==> HasFlag(m, j) || i == j
  {
    if !HasFlag(m, i) {
      AddFlagMeaning(m, i, j);
    }
  }

  /** A mask with flag `i` set is at least 2^i. */
  lemma {:induction false} FlagAtLeast(m: nat, i: nat)
    requires HasFlag(m, i)
    ensures m >= Pow2(i)
  {
    if i > 0 {
      FlagAtLeast(m / 2, i - 1);
    }
  }

  /** Taking 2^i from a mask with flag `i` clears that flag and leaves every
      other one as it was. */
  lemma {:induction false} RemoveFlagMeaning(m: nat, i: nat, j: nat)
    requires HasFlag(m, i)
    ensures m >= Pow2(i)
    ensures HasFlag(m - Pow2(i), j) <==> HasFlag(m, j) && i != j
  {
    FlagAtLeast(m, i);
    if i == 0 {
      assert (m - 1) / 2 == m / 2;
      if j > 0 {
        assert HasFlag(m - 1, j) == HasFlag(m / 2, j - 1);
      }
    } else {
      assert (m - Pow2(i)) / 2 == m / 2 - Pow2(i - 1);
      assert (m - Pow2(i)) % 2 == m % 2;
      if j > 0 {
        RemoveFlagMeaning(m / 2, i - 1, j - 1);
      }
    }
  }

  /** Setting a flag below `n` keeps a mask below 2^n. */
  lemma {:induction false} SetFlagBound(m: nat, i: nat, n: nat)
    requires m < Pow2(n) && i < n
    ensures SetFlag(m, i) < Pow2(n)
  {
    if !HasFlag(m, i) {
      if i == 0 {
        assert m % 2 == 0;
      } else {
        SetFlagBound(m / 2, i - 1, n - 1);
        assert SetFlag(m / 2, i - 1) == m / 2 + Pow2(i - 1);
      }
    }
  }

  /** A mask below 2^i has flag `i` clear. */
  lemma BelowLacksFlag(m: nat, i: nat)
    requires m < Pow2(i)
    ensures !HasFlag(m, i)
  {
    if HasFlag(m, i) {
      FlagAtLeast(m, i);
    }
  }

  /** No flag is set in the empty mask. */
  lemma {:induction false} NoFlag(j: nat)
    ensures !HasFlag(0, j)
  {
    if j > 0 {
      NoFlag(j - 1);
    }
  }

  /** The empty mask holds no command. */
  lemma EmptyMask()
    ensures Represents(0, {})
  {
    forall i: nat | i < 64
      ensures !HasFlag(0, i)
    {
      NoFlag(i);
    }
  }

  /** Adding flag `i` adds command `i`. */
  lemma SetFlagAdds(m: nat, used: set<nat>, i: nat)
    requires Represents(m, used)
    ensures Represents(SetFlag(m, i), used + {i})
  {
    forall j: nat | j < 64
      ensures HasFlag(SetFlag(m, i), j) <==> j in used + {i}
    {
      SetFlagMeaning(m, i, j);
    }
  }
}
