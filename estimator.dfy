/**
 * get_chemical_potentials: the linear system handed to the least-squares solver, built
 * from the (filtered) per-atom data and the filter's retained fraction p.
 */
module Estimator {
  import opened Common
  import opened Reductions
  import opened Tables
  import opened Filters
  import opened TypePairs

  /** coefficient_matrix (one row per equation) and the right-hand side b. */
  datatype LinearSystem = LinearSystem(a: seq<seq<real>>, b: seq<real>)

  /** data[i, 0].astype(int): the 1-based species of the atom occupying the site. */
  function InitType(row: seq<real>): int
    requires |row| > 0
  {
    Trunc(row[0])
  }

  /** The energy column of the atom's own species, init_type - 1 under Python's index rules. */
  function OwnSpecies(row: seq<real>, n: nat): Option<nat>
    requires |row| > 0
  {
    PyIndex(n, InitType(row) - 1)
  }

  /** Every atom's own species indexes the occupying-energy block (else line 109 raises IndexError). */
  predicate SpeciesIndexable(t: Table, n: nat)
    requires t.Valid() && t.width > 0
  {
    forall r | r in t.rows :: OwnSpecies(r, n).Some?
  }

  /** occupying_energies after `*= p`: species k of atom i is p * data[i, 1 + k]. */
  function Energies(t: Table, p: real): (e: seq<seq<real>>)
    requires t.Valid() && t.width >= 4
    ensures |e| == |t.rows|
    ensures forall i :: 0 <= i < |e| ==> |e[i]| == t.width - 4
  {
    seq(|t.rows|, i requires 0 <= i < |t.rows| =>
      seq(t.width - 4, k requires 0 <= k < t.width - 4 => p * t.rows[i][1 + k]))
  }

  /** occupying_energies[:, t1] - occupying_energies[:, t2]. */
  function PairDifferences(e: seq<seq<real>>, t1: nat, t2: nat): (d: seq<real>)
    requires forall i :: 0 <= i < |e| ==> t1 < |e[i]| && t2 < |e[i]|
  {
    seq(|e|, i requires 0 <= i < |e| => e[i][t1] - e[i][t2])
  }

  /** Entry k of the coefficient row of pair (t1, t2): +1 at t1, -1 at t2, 0 elsewhere. */
  function PairEntry(t1: nat, t2: nat, k: int): real
  {
    if k == t1 then 1.0 else if k == t2 then -1.0 else 0.0
  }

  /** b[index] for pair (t1, t2): np.mean(occupying_energies[:, t1] - occupying_energies[:, t2]). */
  function PairMean(e: seq<seq<real>>, n: nat, t1: nat, t2: nat): real
    requires |e| > 0 && t1 < n && t2 < n
    requires forall i :: 0 <= i < |e| ==> |e[i]| == n
  {
    Mean(PairDifferences(e, t1, t2))
  }

  /** The coefficient row of pair (t1, t2). */
  function PairRow(n: nat, t1: nat, t2: nat): seq<real>
  {
    seq(n, k => PairEntry(t1, t2, k))
  }

  /** init_types - 1 == k, atom by atom, as 1.0 or 0.0. */
  function Indicator(t: Table, k: int): seq<real>
    requires t.Valid() && t.width > 0
  {
    seq(|t.rows|, i requires 0 <= i < |t.rows| => if InitType(t.rows[i]) - 1 == k then 1.0 else 0.0)
  }

  /** The energy of each atom's own species: occupying_energies[arange(N), init_types - 1]. */
  function OwnEnergies(t: Table, e: seq<seq<real>>): (own: seq<real>)
    requires t.Valid() && t.width >= 4
    requires |e| == |t.rows| && forall i :: 0 <= i < |e| ==> |e[i]| == t.width - 4
    requires SpeciesIndexable(t, t.width - 4)
    ensures |own| == |t.rows|
  {
    seq(|t.rows|, i requires 0 <= i < |t.rows| => e[i][OwnSpecies(t.rows[i], t.width - 4).value])
  }

  /** The coefficient rows of all pairs, in the order combinations yields them. */
  function PairRows(n: nat): (rows: seq<seq<real>>)
    ensures |rows| == |Pairs(n)|
  {
    var ps := Pairs(n);
    seq(|ps|, j requires 0 <= j < |ps| => PairRow(n, ps[j].0, ps[j].1))
  }

  /** b[0 .. num_pairs): the mean energy difference of each pair. */
  function PairRhs(t: Table, p: real): (b: seq<real>)
    requires t.Valid() && t.width >= 4 && |t.rows| > 0
    ensures |b| == |Pairs(t.width - 4)|
  {
    var n := t.width - 4;
    var e := Energies(t, p);
    var ps := Pairs(n);
    PairsValid(n);
    seq(|ps|, j requires 0 <= j < |ps| => PairMean(e, n, ps[j].0, ps[j].1))
  }

  /** Line 106: the fraction of atoms whose init_type - 1 is k, for each species k. */
  function Concentrations(t: Table): (c: seq<real>)
    requires t.Valid() && t.width >= 4 && |t.rows| > 0
    ensures |c| == t.width - 4
  {
    seq(t.width - 4, k => Mean(Indicator(t, k)))
  }

  /** Lines 109-110: the mean rescaled own-species energy, divided once more by the atom count. */
  function ReferenceEnergy(t: Table, p: real): real
    requires t.Valid() && t.width >= 4 && |t.rows| > 0 && SpeciesIndexable(t, t.width - 4)
  {
    Mean(OwnEnergies(t, Energies(t, p))) / |t.rows| as real
  }

  /**
   * The system of lines 82-110. No column at all fails at data[:, 0], fewer than four fail
   * in np.zeros with a negative size; an empty dataset makes every mean NaN, modelled as
   * EmptySelection; an own species outside the energy block is an IndexError.
   */
  function BuildSystem(t: Table, p: real): Result<LinearSystem>
    requires t.Valid()
  {
    if t.width == 0 then Err(IndexError)
    else if t.width < 4 then Err(NegativeDimensions)
    else if |t.rows| == 0 then Err(EmptySelection)
    else if !SpeciesIndexable(t, t.width - 4) then Err(IndexError)
    else
      var n := t.width - 4;
      Ok(LinearSystem(PairRows(n) + [Concentrations(t)], PairRhs(t, p) + [ReferenceEnergy(t, p)]))
  }

  /** The rows of a 2-D array, as a sequence of sequences. */
  function Rows(m: array2<real>): (s: seq<seq<real>>)
    reads m
    ensures |s| == m.Length0
    ensures forall j :: 0 <= j < m.Length0 ==> |s[j]| == m.Length1
    ensures forall j, k :: 0 <= j < m.Length0 && 0 <= k < m.Length1 ==> s[j][k] == m[j, k]
  {
    seq(m.Length0, j requires 0 <= j < m.Length0 reads m =>
      seq(m.Length1, k requires 0 <= k < m.Length1 reads m => m[j, k]))
  }

  /** A 2-D array holds the rows s when it holds their entries. */
  lemma RowsAre(m: array2<real>, s: seq<seq<real>>)
    requires |s| == m.Length0 && forall j :: 0 <= j < |s| ==> |s[j]| == m.Length1
    requires forall j, k :: 0 <= j < m.Length0 && 0 <= k < m.Length1 ==> m[j, k] == s[j][k]
    ensures Rows(m) == s
  {
    forall j | 0 <= j < |s|
      ensures Rows(m)[j] == s[j]
    {
    }
  }

  /** Coefficient rows that hold the pair entries and then the concentrations are line 82-106's. */
  lemma CoefficientsFromEntries(t: Table, a: seq<seq<real>>)
    requires t.Valid() && t.width >= 4 && |t.rows| > 0
    requires var n := t.width - 4; var ps := Pairs(n);
      && |a| == |ps| + 1
      && (forall j :: 0 <= j < |a| ==> |a[j]| == n)
      && (forall j, k :: 0 <= j < |ps| && 0 <= k < n ==> a[j][k] == PairEntry(ps[j].0, ps[j].1, k))
      && (forall k :: 0 <= k < n ==> a[|ps|][k] == Mean(Indicator(t, k)))
    ensures a == PairRows(t.width - 4) + [Concentrations(t)]
  {
    var n := t.width - 4;
    var ps := Pairs(n);
    var spec := PairRows(n) + [Concentrations(t)];
    forall j | 0 <= j < |a|
      ensures a[j] == spec[j]
    {
      if j < |ps| {
        assert spec[j] == PairRow(n, ps[j].0, ps[j].1);
      } else {
        assert spec[j] == Concentrations(t);
      }
    }
  }

  /** A right-hand side that holds the pair means and then the reference entry is lines 87-110's. */
  lemma RhsFromEntries(t: Table, p: real, b: seq<real>)
    requires t.Valid() && t.width >= 4 && |t.rows| > 0 && SpeciesIndexable(t, t.width - 4)
    requires var n := t.width - 4; var ps := Pairs(n);
      && |b| == |ps| + 1
      && (forall j :: 0 <= j < |ps| ==>
            ps[j].0 < n && ps[j].1 < n && b[j] == PairMean(Energies(t, p), n, ps[j].0, ps[j].1))
      && b[|ps|] == Mean(OwnEnergies(t, Energies(t, p))) / |t.rows| as real
    ensures b == PairRhs(t, p) + [ReferenceEnergy(t, p)]
  {
    var ps := Pairs(t.width - 4);
    var spec := PairRhs(t, p) + [ReferenceEnergy(t, p)];
    forall j | 0 <= j < |b|
      ensures b[j] == spec[j]
    {
      if j < |ps| {
        assert spec[j] == PairRhs(t, p)[j];
      }
    }
  }

  /** A system whose entries are those of BuildSystem, entry by entry, is BuildSystem's. */
  lemma SystemFromEntries(t: Table, p: real, a: seq<seq<real>>, b: seq<real>)
    requires t.Valid() && BuildSystem(t, p).Ok?
    requires var n := t.width - 4; var ps := Pairs(n);
      && |a| == |b| == |ps| + 1
      && (forall j :: 0 <= j < |a| ==> |a[j]| == n)
      && (forall j, k :: 0 <= j < |ps| && 0 <= k < n ==> a[j][k] == PairEntry(ps[j].0, ps[j].1, k))
      && (forall k :: 0 <= k < n ==> a[|ps|][k] == Mean(Indicator(t, k)))
      && (forall j :: 0 <= j < |ps| ==>
            ps[j].0 < n && ps[j].1 < n && b[j] == PairMean(Energies(t, p), n, ps[j].0, ps[j].1))
      && b[|ps|] == Mean(OwnEnergies(t, Energies(t, p))) / |t.rows| as real
    ensures BuildSystem(t, p) == Ok(LinearSystem(a, b))
  {
    CoefficientsFromEntries(t, a);
    RhsFromEntries(t, p, b);
  }

  /**
   * The loop of lines 100-103: for each (index, (t1, t2)), coefficient +1 at t1 and -1 at t2
   * on the zero row index, and b[index] the mean energy difference of the pair.
   */
  method FillPairRows(a: array2<real>, b: array<real>, pairs: seq<(nat, nat)>, e: seq<seq<real>>, n: nat)
    requires a.Length0 == |pairs| + 1 == b.Length && a.Length1 == n
    requires |e| > 0 && forall i :: 0 <= i < |e| ==> |e[i]| == n
    requires forall j :: 0 <= j < |pairs| ==> pairs[j].0 < pairs[j].1 < n
    requires forall j, k :: 0 <= j < a.Length0 && 0 <= k < n ==> a[j, k] == 0.0
    modifies a, b
    ensures forall j, k :: 0 <= j < |pairs| && 0 <= k < n ==> a[j, k] == PairEntry(pairs[j].0, pairs[j].1, k)
    ensures forall j :: 0 <= j < |pairs| ==> b[j] == PairMean(e, n, pairs[j].0, pairs[j].1)
    ensures forall k :: 0 <= k < n ==> a[|pairs|, k] == old(a[|pairs|, k])
    ensures b[|pairs|] == old(b[|pairs|])
  {
    var index := 0;
    while index < |pairs|
      invariant 0 <= index <= |pairs|
      invariant forall j, k :: 0 <= j < index && 0 <= k < n ==> a[j, k] == PairEntry(pairs[j].0, pairs[j].1, k)
      invariant forall j, k :: index <= j < a.Length0 && 0 <= k < n ==> a[j, k] == old(a[j, k])
      invariant forall j :: 0 <= j < index ==> b[j] == PairMean(e, n, pairs[j].0, pairs[j].1)
      invariant forall j :: index <= j < b.Length ==> b[j] == old(b[j])
    {
      var (t1, t2) := pairs[index];
      a[index, t1] := 1.0;
      a[index, t2] := -1.0;
      b[index] := PairMean(e, n, t1, t2);
      index := index + 1;
    }
  }

  /**
   * Lines 82-110 as the source runs them: zero-initialised arrays, the pair rows filled
   * one by one, then the concentration row and the reference entry.
   */
  method AssembleSystem(t: Table, p: real) returns (r: Result<LinearSystem>)
    requires t.Valid()
    ensures r == BuildSystem(t, p)
  {
    // data[:, 0] needs a first column; np.zeros then needs num_types >= 0.
    if t.width == 0 {
      return Err(IndexError);
    }
    if t.width < 4 {
      return Err(NegativeDimensions);
    }
    var n := t.width - 4;
    // Every mean below is over the atoms; with none, numpy returns NaN.
    if |t.rows| == 0 {
      return Err(EmptySelection);
    }
    var e := Energies(t, p);
    var pairs := Pairs(n);
    PairsValid(n);
    var numPairs := |pairs|;
    var a := new real[numPairs + 1, n]((_, _) => 0.0);
    var b := new real[numPairs + 1](_ => 0.0);
    FillPairRows(a, b, pairs, e, n);
    forall k | 0 <= k < n {
      a[numPairs, k] := Mean(Indicator(t, k));
    }
    if !SpeciesIndexable(t, n) {
      return Err(IndexError);
    }
    b[numPairs] := Mean(OwnEnergies(t, e)) / |t.rows| as real;
    SystemFromEntries(t, p, Rows(a), b[..]);
    r := Ok(LinearSystem(Rows(a), b[..]));
  }

  /** The least-squares solver (np.linalg.lstsq), a parameter of the model: one value per column. */
  ghost predicate SolverShape(solve: (seq<seq<real>>, seq<real>) -> seq<real>)
  {
    forall a: seq<seq<real>>, b: seq<real> :: |a| > 0 ==> |solve(a, b)| == |a[0]|
  }

  /** get_chemical_potentials: filter, build the system, hand it to the solver. */
  function Estimate(t: Table, f: Filter, solve: (seq<seq<real>>, seq<real>) -> seq<real>): Result<seq<real>>
    requires t.Valid()
  {
    match Employ(f, t)
    case Err(e) => Err(e)
    case Ok(filtered) =>
      match BuildSystem(filtered.data, filtered.p)
      case Err(e) => Err(e)
      case Ok(sys) => Ok(solve(sys.a, sys.b))
  }

  /** get_chemical_potentials as the source runs it. */
  method GetChemicalPotentials(t: Table, f: Filter, solve: (seq<seq<real>>, seq<real>) -> seq<real>)
    returns (r: Result<seq<real>>)
    requires t.Valid()
    ensures r == Estimate(t, f, solve)
  {
    var filtered := Employ(f, t);
    if filtered.Err? {
      return Err(filtered.error);
    }
    var sys := AssembleSystem(filtered.value.data, filtered.value.p);
    if sys.Err? {
      return Err(sys.error);
    }
    r := Ok(solve(sys.value.a, sys.value.b));
  }
}

