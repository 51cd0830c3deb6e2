/**
 * The argument checks of the model-file commands PADDING, WHITENOISE and
 * OUTPUT, and the variogram factory the correlation commands share
 * (src/modelfile.cpp). The model settings these handlers fill are kept in a
 * `ModelSettings` object; `atof` and `isNumber`, the source's conversions
 * from text, are parameters.
 */
module ModelCommands {
  import opened Common
  import opened Flags
  import opened ModelFile

  /** The part of the model settings the handlers below write. */
  class ModelSettings {
    var xPadFac: real
    var yPadFac: real
    var zPadFac: real
    var wnc: real
    var formatFlag: nat
    var gridFlag: nat
    var wellFlag: nat
    var otherFlag: nat
    var domainFlag: nat

    constructor (xPad: real, yPad: real, zPad: real, wnc0: real, domain: nat)
      ensures xPadFac == xPad && yPadFac == yPad && zPadFac == zPad && wnc == wnc0
      ensures formatFlag == 0 && gridFlag == 0 && wellFlag == 0 && otherFlag == 0 && domainFlag == domain
    {
      xPadFac, yPadFac, zPadFac, wnc := xPad, yPad, zPad, wnc0;
      formatFlag, gridFlag, wellFlag, otherFlag, domainFlag := 0, 0, 0, 0, domain;
    }
  }

  // ---------------------------------------------------------------------
  // PADDING
  // ---------------------------------------------------------------------

  /** A padding factor in x: a number in [0, 1]. */
  predicate XPadOk(p: string, atof: string -> real, isNumber: string -> bool)
  {
    !(atof(p) > 1.0 || atof(p) < 0.0 || !isNumber(p))
  }

  /** A padding factor in y or z: a number in (0, 1]. */
  predicate YZPadOk(p: string, atof: string -> real, isNumber: string -> bool)
  {
    !(atof(p) > 1.0 || atof(p) <= 0.0 || !isNumber(p))
  }

  /** Factors every stage of the program may rely on. */
  predicate PaddingValid(pad: (real, real, real))
  {
    0.0 <= pad.0 <= 1.0 && 0.0 < pad.1 <= 1.0 && 0.0 < pad.2 <= 1.0
  }

  /** Whether PADDING with arguments from `pos` is an error: not exactly
      three arguments, or one of them out of range or not a number. */
  predicate PaddingError(ps: seq<string>, pos: nat, atof: string -> real, isNumber: string -> bool)
    requires pos <= |ps| && NextTerminator(ps, pos) < |ps|
  {
    NextTerminator(ps, pos) != pos + 3 ||
    !XPadOk(ps[pos], atof, isNumber) || !YZPadOk(ps[pos + 1], atof, isNumber) || !YZPadOk(ps[pos + 2], atof, isNumber)
  }

  /** The factors after PADDING, given `pad` before it: with three
      arguments, each factor that checks out is taken and the others kept. */
  function PaddingAfter(ps: seq<string>, pos: nat, pad: (real, real, real), atof: string -> real, isNumber: string -> bool): (r: (real, real, real))
    requires pos <= |ps| && NextTerminator(ps, pos) < |ps|
    ensures !PaddingError(ps, pos, atof, isNumber) ==> r == (atof(ps[pos]), atof(ps[pos + 1]), atof(ps[pos + 2]))
    ensures NextTerminator(ps, pos) != pos + 3 ==> r == pad
  {
    if NextTerminator(ps, pos) != pos + 3 then pad
    else
      (if XPadOk(ps[pos], atof, isNumber) then atof(ps[pos]) else pad.0,
       if YZPadOk(ps[pos + 1], atof, isNumber) then atof(ps[pos + 1]) else pad.1,
       if YZPadOk(ps[pos + 2], atof, isNumber) then atof(ps[pos + 2]) else pad.2)
  }

  /** PADDING never stores a factor out of range: valid factors stay valid,
      whatever the arguments, and an accepted command yields valid ones. */
  lemma PaddingKeepsValid(ps: seq<string>, pos: nat, pad: (real, real, real), atof: string -> real, isNumber: string -> bool)
    requires pos <= |ps| && NextTerminator(ps, pos) < |ps|
    ensures PaddingValid(pad) ==> PaddingValid(PaddingAfter(ps, pos, pad, atof, isNumber))
    ensures !PaddingError(ps, pos, atof, isNumber) ==> PaddingValid(PaddingAfter(ps, pos, pad, atof, isNumber))
  {
  }

  /** The handler of PADDING: exactly three arguments, x in [0, 1], y and z
      in (0, 1]; each valid factor is stored even when another one is not. */
  method ReadCommandPadding(ps: seq<string>, pos: nat, st: ModelSettings, atof: string -> real, isNumber: string -> bool)
    returns (next: nat, error: bool)
    requires pos <= |ps| && NextTerminator(ps, pos) < |ps|
    modifies st
    ensures next == NextTerminator(ps, pos) + 1
    ensures error <==> PaddingError(ps, pos, atof, isNumber)
    ensures (st.xPadFac, st.yPadFac, st.zPadFac) == PaddingAfter(ps, pos, old((st.xPadFac, st.yPadFac, st.zPadFac)), atof, isNumber)
    ensures st.wnc == old(st.wnc) && st.formatFlag == old(st.formatFlag) && st.gridFlag == old(st.gridFlag)
    ensures st.wellFlag == old(st.wellFlag) && st.otherFlag == old(st.otherFlag) && st.domainFlag == old(st.domainFlag)
  {
    var nPar;
    nPar, error := GetParNum(ps, pos, 3, 0);
    if !error {
      var xPadFac := atof(ps[pos]);
      if xPadFac > 1.0 || xPadFac < 0.0 || !isNumber(ps[pos]) {
        error := true;
      } else {
        st.xPadFac := xPadFac;
      }
      var yPadFac := atof(ps[pos + 1]);
      if yPadFac > 1.0 || yPadFac <= 0.0 || !isNumber(ps[pos + 1]) {
        error := true;
      } else {
        st.yPadFac := yPadFac;
      }
      var zPadFac := atof(ps[pos + 2]);
      if zPadFac > 1.0 || zPadFac <= 0.0 || !isNumber(ps[pos + 2]) {
        error := true;
      } else {
        st.zPadFac := zPadFac;
      }
    }
    next := pos + nPar + 1;
  }

  // ---------------------------------------------------------------------
  // WHITENOISE
  // ---------------------------------------------------------------------

  /** The accepted white-noise component, [0.00005, 0.1000001]. */
  predicate WncOk(w: real)
  {
    !(w < 0.00005 || w > 0.1000001)
  }

  /** Whether WHITENOISE with arguments from `pos` is an error. */
  predicate WhiteNoiseError(ps: seq<string>, pos: nat, atof: string -> real)
    requires pos <= |ps| && NextTerminator(ps, pos) < |ps|
  {
    NextTerminator(ps, pos) != pos + 1 || !WncOk(atof(ps[pos]))
  }

  /** The white-noise component after WHITENOISE, given `wnc` before it. */
  function WhiteNoiseAfter(ps: seq<string>, pos: nat, wnc: real, atof: string -> real): (r: real)
    requires pos <= |ps| && NextTerminator(ps, pos) < |ps|
    ensures WhiteNoiseError(ps, pos, atof) ==> r == wnc
    ensures !WhiteNoiseError(ps, pos, atof) ==> r == atof(ps[pos])
  {
    if NextTerminator(ps, pos) == pos + 1 && WncOk(atof(ps[pos])) then atof(ps[pos]) else wnc
  }

  /** WHITENOISE never stores a component out of range. */
  lemma WhiteNoiseKeepsValid(ps: seq<string>, pos: nat, wnc: real, atof: string -> real)
    requires pos <= |ps| && NextTerminator(ps, pos) < |ps|
    ensures WncOk(wnc) ==> WncOk(WhiteNoiseAfter(ps, pos, wnc, atof))
    ensures !WhiteNoiseError(ps, pos, atof) ==> WncOk(WhiteNoiseAfter(ps, pos, wnc, atof))
  {
  }

  /** The handler of WHITENOISE: one argument within the accepted range. */
  method ReadCommandWhiteNoise(ps: seq<string>, pos: nat, st: ModelSettings, atof: string -> real)
    returns (next: nat, error: bool)
    requires pos <= |ps| && NextTerminator(ps, pos) < |ps|
    modifies st
    ensures next == NextTerminator(ps, pos) + 1
    ensures error <==> WhiteNoiseError(ps, pos, atof)
    ensures st.wnc == WhiteNoiseAfter(ps, pos, old(st.wnc), atof)
    ensures st.xPadFac == old(st.xPadFac) && st.yPadFac == old(st.yPadFac) && st.zPadFac == old(st.zPadFac)
    ensures st.formatFlag == old(st.formatFlag) && st.gridFlag == old(st.gridFlag) && st.wellFlag == old(st.wellFlag)
    ensures st.otherFlag == old(st.otherFlag) && st.domainFlag == old(st.domainFlag)
  {
    var nPar;
    nPar, error := GetParNum(ps, pos, 1, 0);
    if !error {
      var wnc := atof(ps[pos]);
      if wnc < 0.00005 || wnc > 0.1000001 {
        error := true;
      } else {
        st.wnc := wnc;
      }
    }
    next := pos + nPar + 1;
  }

  // ---------------------------------------------------------------------
  // OUTPUT
  // ---------------------------------------------------------------------

  /** The options of OUTPUT, in the order that assigns their flags. */
  const Keywords: seq<string> := [
    "STORM", "SEGY", "ASCII", "SGRI",
    "CORRELATION", "RESIDUALS", "VP", "VS", "RHO", "LAMELAMBDA", "LAMEMU", "POISSONRATIO",
    "AI", "SI", "VPVSRATIO", "MURHO", "LAMBDARHO", "BACKGROUND", "BACKGROUND_TREND",
    "FACIESPROB", "FACIESPROBRELATIVE", "EXTRA_GRIDS",
    "WELLS", "BLOCKED_WELLS", "BLOCKED_LOGS",
    "WAVELETS", "EXTRA_SURFACES", "PRIORCORRELATIONS",
    "NOTIME"]

  /** The number of options, `|Keywords|`. */
  const NKeys: nat := 29

  // Grid flags named by the source (bit numbers, key minus 4).
  const Correlation: nat := 0
  const Background: nat := 13
  const FaciesProb: nat := 15
  const FaciesProbRelative: nat := 16
  // Other flags (bit numbers, key minus 25, and the one-dimensional trend).
  const PriorCorrelations: nat := 2
  const BackgroundTrend1D: nat := 3

  /** The number of the option an argument names, or `NKeys`. */
  function KeyIndex(p: string): (k: nat)
    ensures k <= NKeys
  {
    IndexOf(Keywords, Uppercase(p))
  }

  /** The look-up of an option in the handler's loop. */
  method LookUpKey(p: string) returns (k: nat)
    ensures k == KeyIndex(p)
  {
    var flag := Uppercase(p);
    k := LookUp(Keywords, flag);
  }

  /** The five output flags OUTPUT fills. */
  datatype OutputFlags = OutputFlags(format: nat, grid: nat, well: nat, other: nat, domain: nat)

  /** The flag groups the options fall into. */
  datatype Group = FormatGroup | GridGroup | WellGroup | OtherGroup

  /** The group and the bit an option below NOTIME sets. */
  function KeyFlag(key: nat): (Group, nat)
    requires key < 28
  {
    if key < 4 then (FormatGroup, key)
    else if key < 22 then (GridGroup, key - 4)
    else if key < 25 then (WellGroup, key - 22)
    else (OtherGroup, key - 25)
  }

  /** The flags of group `g`. */
  function FlagsOf(f: OutputFlags, g: Group): nat
  {
    match g
    case FormatGroup => f.format
    case GridGroup => f.grid
    case WellGroup => f.well
    case OtherGroup => f.other
  }

  /** The flags after option number `key`: its bit set in its group, for
      NOTIME the domain flag anded with 1, and nothing for an unknown one. */
  function AddKey(f: OutputFlags, key: nat): OutputFlags
  {
    if key < 4 then f.(format := SetFlag(f.format, key))
    else if key < 22 then f.(grid := SetFlag(f.grid, key - 4))
    else if key < 25 then f.(well := SetFlag(f.well, key - 22))
    else if key < 28 then f.(other := SetFlag(f.other, key - 25))
    else if key < 29 then f.(domain := f.domain % 2)
    else f
  }

  /** The option numbers of the arguments `ps[a..b]`, in order. */
  function KeysOf(ps: seq<string>, a: nat, b: nat): (keys: seq<nat>)
    requires a <= b <= |ps|
    ensures |keys| == b - a
  {
    seq<nat>(b - a, j requires 0 <= j < b - a => KeyIndex(ps[a + j]))
  }

  /** The flags after the first `n` options of `keys`, in order, from `f`. */
  function Fold(keys: seq<nat>, n: nat, f: OutputFlags): OutputFlags
    requires n <= |keys|
  {
    if n == 0 then f else AddKey(Fold(keys, n - 1, f), keys[n - 1])
  }

  /** Whether one of the first `n` options of `keys` is unknown. */
  predicate AnyUnknown(keys: seq<nat>, n: nat)
    requires n <= |keys|
  {
    n > 0 && (AnyUnknown(keys, n - 1) || keys[n - 1] >= NKeys)
  }

  /** Whether option `key` sets bit `bit` of group `g`. */
  predicate Names(key: nat, g: Group, bit: nat)
  {
    key < 28 && KeyFlag(key) == (g, bit)
  }

  /** Whether one of the first `n` options of `keys` asks for bit `bit` of
      group `g`. */
  predicate Requested(keys: seq<nat>, n: nat, g: Group, bit: nat)
    requires n <= |keys|
  {
    n > 0 && (Requested(keys, n - 1, g, bit) || Names(keys[n - 1], g, bit))
  }

  /** Whether one of the first `n` options of `keys` is NOTIME. */
  predicate NoTimeRequested(keys: seq<nat>, n: nat)
    requires n <= |keys|
  {
    n > 0 && (NoTimeRequested(keys, n - 1) || keys[n - 1] == 28)
  }

  /** One option sets the bit it names in its group and no other. */
  lemma AddKeyFlag(f: OutputFlags, key: nat, g: Group, bit: nat)
    ensures HasFlag(FlagsOf(AddKey(f, key), g), bit) <==> HasFlag(FlagsOf(f, g), bit) || Names(key, g, bit)
  {
    if key < 28 {
      var (g', b') := KeyFlag(key);
      if g' == g {
        SetFlagMeaning(FlagsOf(f, g), b', bit);
      }
    }
  }

  /** NOTIME keeps the lowest bit of the domain flag; other options leave it. */
  lemma AddKeyDomain(f: OutputFlags, key: nat)
    ensures AddKey(f, key).domain == if key == 28 then f.domain % 2 else f.domain
  {
  }

  /** One option keeps the other flags below the one-dimensional trend's bit. */
  lemma AddKeyOther(f: OutputFlags, key: nat)
    requires f.other < Pow2(BackgroundTrend1D)
    ensures AddKey(f, key).other < Pow2(BackgroundTrend1D)
  {
    if 25 <= key < 28 {
      SetFlagBound(f.other, key - 25, BackgroundTrend1D);
    }
  }

  /** The options set exactly the bits they name: bit `bit` of group `g` is
      set afterwards iff it was before or one of the options names it. */
  lemma {:induction false} FoldFlags(keys: seq<nat>, n: nat, f: OutputFlags, g: Group, bit: nat)
    requires n <= |keys|
    ensures HasFlag(FlagsOf(Fold(keys, n, f), g), bit) <==> HasFlag(FlagsOf(f, g), bit) || Requested(keys, n, g, bit)
  {
    if n > 0 {
      FoldFlags(keys, n - 1, f, g, bit);
      AddKeyFlag(Fold(keys, n - 1, f), keys[n - 1], g, bit);
    }
  }

  /** NOTIME keeps only the lowest bit of the domain flag; without it the
      domain flag is unchanged. */
  lemma {:induction false} FoldDomain(keys: seq<nat>, n: nat, f: OutputFlags)
    requires n <= |keys|
    ensures Fold(keys, n, f).domain == if NoTimeRequested(keys, n) then f.domain % 2 else f.domain
  {
    if n > 0 {
      FoldDomain(keys, n - 1, f);
      AddKeyDomain(Fold(keys, n - 1, f), keys[n - 1]);
      assert f.domain % 2 % 2 == f.domain % 2;
    }
  }

  /** The other flags stay below 2^3 while only options set them. */
  lemma {:induction false} FoldOtherBound(keys: seq<nat>, n: nat, f: OutputFlags)
    requires n <= |keys| && f.other < Pow2(BackgroundTrend1D)
    ensures Fold(keys, n, f).other < Pow2(BackgroundTrend1D)
  {
    if n > 0 {
      FoldOtherBound(keys, n - 1, f);
      AddKeyOther(Fold(keys, n - 1, f), keys[n - 1]);
    }
  }

  /** The rules applied after the options: FACIESPROBRELATIVE is dropped
      when FACIESPROB is also wanted; BACKGROUND adds the one-dimensional
      background trend to the other flags, and CORRELATION adds
      PRIORCORRELATIONS. */
  function Finish(f: OutputFlags): OutputFlags
  {
    var g := if HasFlag(f.grid, FaciesProb) && HasFlag(f.grid, FaciesProbRelative)
      then FlagAtLeast(f.grid, FaciesProbRelative); f.grid - Pow2(FaciesProbRelative) else f.grid;
    var o := if HasFlag(g, Background) then f.other + Pow2(BackgroundTrend1D) else f.other;
    var o' := if HasFlag(g, Correlation) then SetFlag(o, PriorCorrelations) else o;
    f.(grid := g, other := o')
  }

  lemma FinishGridAt(f: OutputFlags, j: nat)
    ensures HasFlag(Finish(f).grid, j) <==> HasFlag(f.grid, j) && !(j == FaciesProbRelative && HasFlag(f.grid, FaciesProb))
  {
    if HasFlag(f.grid, FaciesProb) && HasFlag(f.grid, FaciesProbRelative) {
      RemoveFlagMeaning(f.grid, FaciesProbRelative, j);
    }
  }

  /** After the rules FACIESPROB and FACIESPROBRELATIVE are never both set,
      and every other grid flag is as the options left it. */
  lemma FinishGrid(f: OutputFlags)
    ensures !(HasFlag(Finish(f).grid, FaciesProb) && HasFlag(Finish(f).grid, FaciesProbRelative))
    ensures forall j: nat {:trigger HasFlag(Finish(f).grid, j)} :: j != FaciesProbRelative ==> (HasFlag(Finish(f).grid, j) <==> HasFlag(f.grid, j))
    ensures HasFlag(f.grid, FaciesProbRelative) && !HasFlag(f.grid, FaciesProb) ==> HasFlag(Finish(f).grid, FaciesProbRelative)
  {
    FinishGridAt(f, FaciesProb);
    FinishGridAt(f, FaciesProbRelative);
    forall j: nat | j != FaciesProbRelative
      ensures HasFlag(Finish(f).grid, j) <==> HasFlag(f.grid, j)
    {
      FinishGridAt(f, j);
    }
  }

  /** With other flags below 2^3, the rules set the one-dimensional trend
      exactly when BACKGROUND is wanted, add PRIORCORRELATIONS when
      CORRELATION is, and keep the flags the options set. */
  lemma FinishOther(f: OutputFlags)
    requires f.other < Pow2(BackgroundTrend1D)
    ensures HasFlag(Finish(f).other, BackgroundTrend1D) <==> HasFlag(f.grid, Background)
    ensures HasFlag(f.grid, Correlation) ==> HasFlag(Finish(f).other, PriorCorrelations)
    ensures forall j: nat {:trigger HasFlag(f.other, j)} :: HasFlag(f.other, j) ==> HasFlag(Finish(f).other, j)
  {
    var g := Finish(f).grid;
    FinishGridAt(f, Background);
    FinishGridAt(f, Correlation);
    var o := if HasFlag(g, Background) then f.other + Pow2(BackgroundTrend1D) else f.other;
    BelowLacksFlag(f.other, BackgroundTrend1D);
    forall j: nat
      ensures HasFlag(o, j) <==> HasFlag(f.other, j) || (j == BackgroundTrend1D && HasFlag(g, Background))
    {
      if HasFlag(g, Background) {
        AddFlagMeaning(f.other, BackgroundTrend1D, j);
      }
    }
    forall j: nat
      ensures HasFlag(Finish(f).other, j) <==> HasFlag(o, j) || (j == PriorCorrelations && HasFlag(g, Correlation))
    {
      if HasFlag(g, Correlation) {
        SetFlagMeaning(o, PriorCorrelations, j);
      }
    }
  }

  /** The flags OUTPUT computes from the option numbers `keys`, starting
      from zero and the current domain flag. */
  function OutputResult(keys: seq<nat>, domain: nat): OutputFlags
  {
    Finish(Fold(keys, |keys|, OutputFlags(0, 0, 0, 0, domain)))
  }

  /** What the source promises of OUTPUT: format, grid, well and other
      flags hold exactly the options named, FACIESPROB wins over
      FACIESPROBRELATIVE, BACKGROUND brings the trend and CORRELATION the
      prior correlations, and NOTIME keeps the lowest bit of the domain. */
  lemma OutputMeaning(keys: seq<nat>, domain: nat, g: Group, bit: nat)
    ensures var r := OutputResult(keys, domain); var n := |keys|;
      && (g != GridGroup && g != OtherGroup ==> (HasFlag(FlagsOf(r, g), bit) <==> Requested(keys, n, g, bit)))
      && (g == GridGroup && bit != FaciesProbRelative ==> (HasFlag(r.grid, bit) <==> Requested(keys, n, g, bit)))
      && !(HasFlag(r.grid, FaciesProb) && HasFlag(r.grid, FaciesProbRelative))
      && (HasFlag(r.other, BackgroundTrend1D) <==> Requested(keys, n, GridGroup, Background))
      && (Requested(keys, n, GridGroup, Correlation) ==> HasFlag(r.other, PriorCorrelations))
      && (g == OtherGroup && Requested(keys, n, g, bit) ==> HasFlag(r.other, bit))
      && r.domain == if NoTimeRequested(keys, n) then domain % 2 else domain
  {
    var f0 := OutputFlags(0, 0, 0, 0, domain);
    var f := Fold(keys, |keys|, f0);
    NoFlag(bit);
    NoFlag(Background);
    NoFlag(Correlation);
    FoldFlags(keys, |keys|, f0, g, bit);
    FoldFlags(keys, |keys|, f0, GridGroup, Background);
    FoldFlags(keys, |keys|, f0, GridGroup, Correlation);
    FoldOtherBound(keys, |keys|, f0);
    FoldDomain(keys, |keys|, f0);
    FinishGrid(f);
    FinishOther(f);
  }

  /** The buckets of the option loop: option `key` sets its bit in its
      group; `unknown` reports an option that is not in `Keywords`. */
  method ApplyKey(f: OutputFlags, key: nat) returns (f': OutputFlags, unknown: bool)
    ensures f' == AddKey(f, key) && (unknown <==> key >= NKeys)
  {
    f', unknown := f, false;
    if key < 4 {
      f' := f.(format := SetFlag(f.format, key));
    } else if key < 22 {
      f' := f.(grid := SetFlag(f.grid, key - 4));
    } else if key < 25 {
      f' := f.(well := SetFlag(f.well, key - 22));
    } else if key < 28 {
      f' := f.(other := SetFlag(f.other, key - 25));
    } else if key < 29 {
      f' := f.(domain := f.domain % 2);
    } else {
      unknown := true;
    }
  }

  /** The option loop of OUTPUT: every argument of `ps[pos..end]` is looked
      up and sets its flag, starting from zero and the domain flag `domain`;
      `unknown` reports whether one of them is not an option. */
  method ReadOptions(ps: seq<string>, pos: nat, end: nat, domain: nat) returns (f: OutputFlags, unknown: bool)
    requires pos <= end <= |ps|
    ensures var keys := KeysOf(ps, pos, end);
      f == Fold(keys, |keys|, OutputFlags(0, 0, 0, 0, domain)) && (unknown <==> AnyUnknown(keys, |keys|))
  {
    f, unknown := OutputFlags(0, 0, 0, 0, domain), false;
    ghost var keys := KeysOf(ps, pos, end);
    for i := 0 to end - pos
      invariant f == Fold(keys, i, OutputFlags(0, 0, 0, 0, domain))
      invariant unknown <==> AnyUnknown(keys, i)
    {
      var key := LookUpKey(ps[pos + i]);
      var u;
      f, u := ApplyKey(f, key);
      if u {
        unknown := true;
      }
    }
  }

  /** The handler of OUTPUT: at least one option; every option is looked up
      and sets its flag, an unknown one is an error; then the rules of
      `Finish` apply, the four flag groups are stored when non-zero, and the
      domain flag always. */
  method ReadCommandOutput(ps: seq<string>, pos: nat, st: ModelSettings) returns (next: nat, error: bool)
    requires pos <= |ps| && NextTerminator(ps, pos) < |ps|
    modifies st
    ensures next == NextTerminator(ps, pos) + 1
    ensures var keys := KeysOf(ps, pos, NextTerminator(ps, pos));
      error <==> NextTerminator(ps, pos) == pos || AnyUnknown(keys, |keys|)
    ensures NextTerminator(ps, pos) == pos ==> unchanged(st)
    ensures NextTerminator(ps, pos) > pos ==>
      var r := OutputResult(KeysOf(ps, pos, NextTerminator(ps, pos)), old(st.domainFlag));
      && st.formatFlag == (if r.format != 0 then r.format else old(st.formatFlag))
      && st.gridFlag == (if r.grid != 0 then r.grid else old(st.gridFlag))
      && st.wellFlag == (if r.well != 0 then r.well else old(st.wellFlag))
      && st.otherFlag == (if r.other != 0 then r.other else old(st.otherFlag))
      && st.domainFlag == r.domain
    ensures st.xPadFac == old(st.xPadFac) && st.yPadFac == old(st.yPadFac) && st.zPadFac == old(st.zPadFac)
    ensures st.wnc == old(st.wnc)
  {
    var nPar;
    nPar, error := GetParNum(ps, pos, 1, -1);
    if !error {
      var f, unknown := ReadOptions(ps, pos, pos + nPar, st.domainFlag);
      error := unknown;
      f := Finish(f);
      if f.format != 0 {
        st.formatFlag := f.format;
      }
      if f.grid != 0 {
        st.gridFlag := f.grid;
      }
      if f.well != 0 {
        st.wellFlag := f.well;
      }
      if f.other != 0 {
        st.otherFlag := f.other;
      }
      st.domainFlag := f.domain;
    }
    next := pos + nPar + 1;
  }

  /** The option loop as the source writes it: the message for an unknown
      option lists the options with the loop's own counter, which leaves it
      at `NKeys` before the loop's increment. This is where the counter goes
      after option `i` of `keys` (the option numbers). */
  function AsWrittenStep(keys: seq<nat>, i: nat): (next: nat)
    requires i < |keys|
    ensures keys[i] < NKeys ==> next == i + 1
  {
    if keys[i] >= NKeys then NKeys + 1 else i + 1
  }

  /** An unknown first option ends the loop as written: the second one (VP
      here) is never read. */
  lemma AsWrittenSkipsRest()
    ensures AsWrittenStep([NKeys, 6], 0) >= |[NKeys, 6]|
  {
  }

  /** With more than 30 options and an unknown one at position 30 the loop as
      written comes back to position 30 each time: it never ends. */
  lemma AsWrittenStalls(keys: seq<nat>)
    requires |keys| > NKeys + 1 && keys[NKeys + 1] >= NKeys
    ensures AsWrittenStep(keys, NKeys + 1) == NKeys + 1
  {
  }

  // ---------------------------------------------------------------------
  // Variograms
  // ---------------------------------------------------------------------

  /** The variogram types and the number of parameters each takes in full:
      two ranges (and for GENEXP a power before them), then an azimuth. */
  const VarioTypes: seq<string> := ["SPHERICAL", "GENEXP"]
  const VarioPar: seq<nat> := [3, 4]

  /** A variogram: its numeric parameters in the order given, and the
      internal angle `90 - azimuth` when an azimuth was given. */
  datatype Vario = Spherical(args: seq<real>, angle: Option<real>) | GenExp(args: seq<real>, angle: Option<real>)

  datatype VarioResult = Made(vario: Vario) | UnknownType | WrongCount(needed: nat, given: int)

  /** The variogram `param[0..nPar]` describes. */
  function VarioFor(param: seq<string>, nPar: nat, atof: string -> real): (r: VarioResult)
    requires 1 <= nPar <= |param|
    ensures r.UnknownType? <==> IndexOf(VarioTypes, Uppercase(param[0])) == 2
    ensures r.Made? ==> |r.vario.args| + (if r.vario.angle.Some? then 1 else 0) == nPar - 1
    ensures r.Made? ==> forall j :: 0 <= j < |r.vario.args| ==> r.vario.args[j] == atof(param[j + 1])
    ensures r.Made? && r.vario.angle.Some? ==> r.vario.angle.value == 90.0 - atof(param[nPar - 1])
    ensures r.WrongCount? ==> r.given == nPar - 1 && r.given != r.needed && r.given != r.needed - 2
  {
    var i := IndexOf(VarioTypes, Uppercase(param[0]));
    if i == 2 then UnknownType
    else if nPar - 1 == VarioPar[i] then
      if i == 0 then Made(Spherical([atof(param[1]), atof(param[2])], Some(90.0 - atof(param[3]))))
      else Made(GenExp([atof(param[1]), atof(param[2]), atof(param[3])], Some(90.0 - atof(param[4]))))
    else if nPar - 1 == VarioPar[i] - 2 then
      if i == 0 then Made(Spherical([atof(param[1])], None))
      else Made(GenExp([atof(param[1]), atof(param[2])], None))
    else WrongCount(VarioPar[i], nPar - 1)
  }

  /** The variogram factory: looks the type up, then takes the full form
      (all parameters, azimuth last) or the short form (ranges only, two
      fewer); any other count is an error, as is an unknown type. */
  method CreateVario(param: seq<string>, nPar: nat, atof: string -> real) returns (r: VarioResult)
    requires 1 <= nPar <= |param|
    ensures r == VarioFor(param, nPar, atof)
  {
    var vTypeIn := Uppercase(param[0]);
    var i := LookUp(VarioTypes, vTypeIn);
    if i == |VarioTypes| || nPar - 1 == VarioPar[i] || nPar - 1 == VarioPar[i] - 2 {
      if i == 0 {
        if nPar - 1 == VarioPar[i] {
          var rot := 90.0 - atof(param[3]);
          r := Made(Spherical([atof(param[1]), atof(param[2])], Some(rot)));
        } else {
          r := Made(Spherical([atof(param[1])], None));
        }
      } else if i == 1 {
        if nPar - 1 == VarioPar[i] {
          var rot := 90.0 - atof(param[4]);
          r := Made(GenExp([atof(param[1]), atof(param[2]), atof(param[3])], Some(rot)));
        } else {
          r := Made(GenExp([atof(param[1]), atof(param[2])], None));
        }
      } else {
        r := UnknownType;
      }
    } else {
      r := WrongCount(VarioPar[i], nPar - 1);
    }
  }
}
