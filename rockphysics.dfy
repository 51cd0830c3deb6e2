/**
 * The blocked well logs split by facies, for rock physics
 * (src/blockedlogsforrockphysics.cpp). One table per log, one row per
 * facies and one column per block: a cell holds the blocked value where the
 * block has that facies, and RMISSING elsewhere. The blocking itself and the
 * conversion from velocities and density to elastic moduli are not part of
 * this model: the blocked logs are parameters, and so is the conversion.
 */
module RockPhysics {
  import opened Common

  /** A table of `rows` rows of `cols` copies of `v`. */
  function Filled(rows: nat, cols: nat, v: real): (t: seq<seq<real>>)
    ensures |t| == rows && forall j :: 0 <= j < rows ==> t[j] == seq(cols, _ => v)
  {
    seq(rows, _ => seq(cols, _ => v))
  }

  /** Every row of `t` has `cols` cells. */
  predicate Rectangular(t: seq<seq<real>>, cols: nat)
  {
    forall j :: 0 <= j < |t| ==> |t[j]| == cols
  }

  // ---------------------------------------------------------------------
  // Assigning a blocked log to the facies
  // ---------------------------------------------------------------------

  /** Whether block `m` carries a value for the facies numbered `number`. */
  predicate Hit(wellLog: seq<real>, faciesLog: seq<int>, number: int, m: int)
    requires 0 <= m < |wellLog| && m < |faciesLog|
  {
    wellLog[m] != RMISSING && faciesLog[m] != IMISSING && number == faciesLog[m]
  }

  /** The cell of block `m` in the row of facies `number` after the
      assignment, where `before` is the cell before it. */
  function Assigned(wellLog: seq<real>, faciesLog: seq<int>, number: int, m: int, before: real): real
    requires 0 <= m < |wellLog| && m < |faciesLog|
  {
    if Hit(wellLog, faciesLog, number, m) then wellLog[m] else before
  }

  /** What the source demands of `assignToFacies`: a table with a first row
      whose length gives the blocks, logs that cover them, and a number for
      every facies. Nothing is demanded without a log. */
  predicate AssignArgsOk(wellLog: Option<seq<real>>, faciesLog: seq<int>, faciesNumbers: seq<int>, table: seq<seq<real>>)
  {
    wellLog.Some? ==>
      |table| >= 1 && Rectangular(table, |table[0]|) &&
      |wellLog.value| >= |table[0]| && |faciesLog| >= |table[0]| && |faciesNumbers| >= |table|
  }

  /** `t` holds, in block `m` of each row `j` whose facies number is the
      block's facies, the log's value, when both are defined. */
  method AssignBlock(wellLog: seq<real>, faciesLog: seq<int>, faciesNumbers: seq<int>, table: seq<seq<real>>, m: nat)
    returns (t: seq<seq<real>>)
    requires |table| >= 1 && Rectangular(table, |table[0]|) && m < |table[0]|
    requires |wellLog| >= |table[0]| && |faciesLog| >= |table[0]| && |faciesNumbers| >= |table|
    requires wellLog[m] != RMISSING && faciesLog[m] != IMISSING
    ensures |t| == |table| && Rectangular(t, |table[0]|)
    ensures forall j, k :: 0 <= j < |t| && 0 <= k < |table[0]| ==>
      t[j][k] == if k == m && Hit(wellLog, faciesLog, faciesNumbers[j], m) then wellLog[m] else table[j][k]
  {
    t := table;
    for j := 0 to |table|
      invariant |t| == |table| && Rectangular(t, |table[0]|)
      invariant forall j', k :: 0 <= j' < |t| && 0 <= k < |table[0]| ==>
        t[j'][k] == if j' < j && k == m && Hit(wellLog, faciesLog, faciesNumbers[j'], m) then wellLog[m] else table[j'][k]
    {
      if faciesNumbers[j] == faciesLog[m] {
        t := t[j := t[j][m := wellLog[m]]];
      }
    }
  }

  /** The table after `assignToFacies`: without a log nothing changes;
      otherwise each cell whose block has a defined value and a defined
      facies equal to the row's facies number takes the value, and every
      other cell keeps its own. */
  method AssignToFacies(wellLog: Option<seq<real>>, faciesLog: seq<int>, faciesNumbers: seq<int>, table: seq<seq<real>>)
    returns (t: seq<seq<real>>)
    requires AssignArgsOk(wellLog, faciesLog, faciesNumbers, table)
    ensures wellLog.None? ==> t == table
    ensures wellLog.Some? ==> |t| == |table| && Rectangular(t, |table[0]|)
    ensures wellLog.Some? ==> forall j, m :: 0 <= j < |t| && 0 <= m < |table[0]| ==>
      t[j][m] == Assigned(wellLog.value, faciesLog, faciesNumbers[j], m, table[j][m])
  {
    t := table;
    if wellLog.Some? {
      var log := wellLog.value;
      var nBlocks := |table[0]|;
      for m := 0 to nBlocks
        invariant |t| == |table| && Rectangular(t, nBlocks)
        invariant forall j, k :: 0 <= j < |t| && 0 <= k < nBlocks ==>
          t[j][k] == if k < m then Assigned(log, faciesLog, faciesNumbers[j], k, table[j][k]) else table[j][k]
      {
        if log[m] != RMISSING && faciesLog[m] != IMISSING {
          t := AssignBlock(log, faciesLog, faciesNumbers, t, m);
        }
      }
    }
  }

  // ---------------------------------------------------------------------
  // Looking a facies up by name
  // ---------------------------------------------------------------------

  /** The last position below `n` that holds `name`, if any. */
  function LastIndexBelow(names: seq<string>, name: string, n: nat): (r: Option<nat>)
    requires n <= |names|
    ensures r.Some? ==> r.value < n
  {
    if n == 0 then None
    else if names[n - 1] == name then Some(n - 1)
    else LastIndexBelow(names, name, n - 1)
  }

  /** The position found is the last one below `n` that holds `name`, and
      there is none exactly when no position below `n` holds it. */
  lemma {:induction false} LastIndexBelowMeaning(names: seq<string>, name: string, n: nat)
    requires n <= |names|
    ensures var r := LastIndexBelow(names, name, n);
      && (r.Some? ==> names[r.value] == name && forall i :: r.value < i < n ==> names[i] != name)
      && (r.None? <==> forall i :: 0 <= i < n ==> names[i] != name)
  {
    if n > 0 && names[n - 1] != name {
      LastIndexBelowMeaning(names, name, n - 1);
    }
  }

  /** The row of the last facies called `name`, or the empty row. */
  function RowFor(names: seq<string>, table: seq<seq<real>>, name: string): (r: seq<real>)
    requires |table| >= |names|
  {
    match LastIndexBelow(names, name, |names|)
    case None => []
    case Some(i) => table[i]
  }

  /** The look-up of `get...ForFacies`: every facies called `name` is
      visited in order, and the last one's row is returned. */
  method GetForFacies(names: seq<string>, table: seq<seq<real>>, name: string) returns (r: seq<real>)
    requires |table| >= |names|
    ensures r == RowFor(names, table, name)
  {
    r := [];
    for i := 0 to |names|
      invariant r == match LastIndexBelow(names, name, i) case None => [] case Some(k) => table[k]
    {
      if name == names[i] {
        r := table[i];
      }
    }
  }

  /** The row found is the row of a facies with that name after which none
      has it; without such a facies the row is empty. */
  lemma RowForMeaning(names: seq<string>, table: seq<seq<real>>, name: string)
    requires |table| >= |names|
    ensures (forall i :: 0 <= i < |names| ==> names[i] != name) ==> RowFor(names, table, name) == []
    ensures forall i :: 0 <= i < |names| && names[i] == name && (forall i' :: i < i' < |names| ==> names[i'] != name) ==>
      RowFor(names, table, name) == table[i]
  {
    LastIndexBelowMeaning(names, name, |names|);
  }

  // ---------------------------------------------------------------------
  // Elastic moduli
  // ---------------------------------------------------------------------

  /** The moduli (bulk, shear) of a cell: computed where alpha, beta and rho
      are all defined, RMISSING elsewhere. */
  function ModuliAt(a: real, b: real, r: real, elastic: (real, real, real) -> (real, real)): (real, real)
  {
    if a != RMISSING && b != RMISSING && r != RMISSING then elastic(a, b, r) else (RMISSING, RMISSING)
  }

  /** The bulk and shear tables of row `i`, block by block. */
  method ModuliRow(alpha: seq<real>, beta: seq<real>, rho: seq<real>, elastic: (real, real, real) -> (real, real))
    returns (bulk: seq<real>, shear: seq<real>)
    requires |beta| == |alpha| && |rho| == |alpha|
    ensures |bulk| == |alpha| && |shear| == |alpha|
    ensures forall j :: 0 <= j < |alpha| ==> (bulk[j], shear[j]) == ModuliAt(alpha[j], beta[j], rho[j], elastic)
  {
    bulk, shear := seq(|alpha|, _ => RMISSING), seq(|alpha|, _ => RMISSING);
    for j := 0 to |alpha|
      invariant |bulk| == |alpha| && |shear| == |alpha|
      invariant forall j' :: 0 <= j' < j ==> (bulk[j'], shear[j']) == ModuliAt(alpha[j'], beta[j'], rho[j'], elastic)
      invariant forall j' :: j <= j' < |alpha| ==> bulk[j'] == RMISSING && shear[j'] == RMISSING
    {
      if alpha[j] != RMISSING && beta[j] != RMISSING && rho[j] != RMISSING {
        var moduli := elastic(alpha[j], beta[j], rho[j]);
        bulk := bulk[j := moduli.0];
        shear := shear[j := moduli.1];
      }
    }
  }

  /** The blocked logs of one well split by facies. */
  class BlockedLogsForRockPhysics {
    const faciesNames: seq<string>
    const alpha: seq<seq<real>>
    const beta: seq<seq<real>>
    const rho: seq<seq<real>>
    const porosity: seq<seq<real>>
    const bulkModulus: seq<seq<real>>
    const shearModulus: seq<seq<real>>

    /** The tables of six logs from the blocked alpha, beta, rho and facies
        logs of a well with facies `names` numbered `faciesNr`; the blocked
        porosity log does not exist yet, so its table stays missing. */
    constructor (names: seq<string>, faciesNr: seq<int>, nBlocks: nat,
                 blockedAlpha: seq<real>, blockedBeta: seq<real>, blockedRho: seq<real>, blockedFacies: seq<int>,
                 elastic: (real, real, real) -> (real, real))
      requires |names| >= 1 && |faciesNr| >= |names|
      requires |blockedAlpha| >= nBlocks && |blockedBeta| >= nBlocks && |blockedRho| >= nBlocks && |blockedFacies| >= nBlocks
      ensures faciesNames == names
      ensures porosity == Filled(|names|, nBlocks, RMISSING)
      ensures |alpha| == |names| && Rectangular(alpha, nBlocks)
      ensures |beta| == |names| && Rectangular(beta, nBlocks)
      ensures |rho| == |names| && Rectangular(rho, nBlocks)
      ensures forall j, m :: 0 <= j < |names| && 0 <= m < nBlocks ==>
        && alpha[j][m] == Assigned(blockedAlpha, blockedFacies, faciesNr[j], m, RMISSING)
        && beta[j][m] == Assigned(blockedBeta, blockedFacies, faciesNr[j], m, RMISSING)
        && rho[j][m] == Assigned(blockedRho, blockedFacies, faciesNr[j], m, RMISSING)
      ensures |bulkModulus| == |names| && |shearModulus| == |names|
      ensures Rectangular(bulkModulus, nBlocks) && Rectangular(shearModulus, nBlocks)
      ensures forall j, m :: 0 <= j < |names| && 0 <= m < nBlocks ==>
        (bulkModulus[j][m], shearModulus[j][m]) == ModuliAt(alpha[j][m], beta[j][m], rho[j][m], elastic)
    {
      faciesNames := names;
      var empty := Filled(|names|, nBlocks, RMISSING);
      var a := AssignToFacies(Some(blockedAlpha), blockedFacies, faciesNr, empty);
      var b := AssignToFacies(Some(blockedBeta), blockedFacies, faciesNr, empty);
      var r := AssignToFacies(Some(blockedRho), blockedFacies, faciesNr, empty);
      var p := AssignToFacies(None, blockedFacies, faciesNr, empty);
      alpha, beta, rho, porosity := a, b, r, p;
      var bulk, shear := Moduli(a, b, r, nBlocks, elastic);
      bulkModulus, shearModulus := bulk, shear;
    }

    method GetAlphaForFacies(name: string) returns (r: seq<real>)
      requires |alpha| >= |faciesNames|
      ensures r == RowFor(faciesNames, alpha, name)
    {
      r := GetForFacies(faciesNames, alpha, name);
    }

    method GetBetaForFacies(name: string) returns (r: seq<real>)
      requires |beta| >= |faciesNames|
      ensures r == RowFor(faciesNames, beta, name)
    {
      r := GetForFacies(faciesNames, beta, name);
    }

    method GetRhoForFacies(name: string) returns (r: seq<real>)
      requires |rho| >= |faciesNames|
      ensures r == RowFor(faciesNames, rho, name)
    {
      r := GetForFacies(faciesNames, rho, name);
    }

    method GetBulkForFacies(name: string) returns (r: seq<real>)
      requires |bulkModulus| >= |faciesNames|
      ensures r == RowFor(faciesNames, bulkModulus, name)
    {
      r := GetForFacies(faciesNames, bulkModulus, name);
    }

    method GetShearForFacies(name: string) returns (r: seq<real>)
      requires |shearModulus| >= |faciesNames|
      ensures r == RowFor(faciesNames, shearModulus, name)
    {
      r := GetForFacies(faciesNames, shearModulus, name);
    }

    method GetPorosityForFacies(name: string) returns (r: seq<real>)
      requires |porosity| >= |faciesNames|
      ensures r == RowFor(faciesNames, porosity, name)
    {
      r := GetForFacies(faciesNames, porosity, name);
    }
  }

  /** The bulk and shear tables of the constructor's double loop. */
  method Moduli(alpha: seq<seq<real>>, beta: seq<seq<real>>, rho: seq<seq<real>>, nBlocks: nat,
                elastic: (real, real, real) -> (real, real))
    returns (bulk: seq<seq<real>>, shear: seq<seq<real>>)
    requires |beta| == |alpha| && |rho| == |alpha|
    requires Rectangular(alpha, nBlocks) && Rectangular(beta, nBlocks) && Rectangular(rho, nBlocks)
    ensures |bulk| == |alpha| && |shear| == |alpha| && Rectangular(bulk, nBlocks) && Rectangular(shear, nBlocks)
    ensures forall i, j :: 0 <= i < |alpha| && 0 <= j < nBlocks ==>
      (bulk[i][j], shear[i][j]) == ModuliAt(alpha[i][j], beta[i][j], rho[i][j], elastic)
  {
    bulk, shear := [], [];
    for i := 0 to |alpha|
      invariant |bulk| == i && |shear| == i && Rectangular(bulk, nBlocks) && Rectangular(shear, nBlocks)
      invariant forall i', j :: 0 <= i' < i && 0 <= j < nBlocks ==>
        (bulk[i'][j], shear[i'][j]) == ModuliAt(alpha[i'][j], beta[i'][j], rho[i'][j], elastic)
    {
      var b, s := ModuliRow(alpha[i], beta[i], rho[i], elastic);
      bulk, shear := bulk + [b], shear + [s];
    }
  }
}
