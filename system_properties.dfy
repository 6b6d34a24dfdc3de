/** What the system built by get_chemical_potentials says, stated without solving it. */
module SystemProperties {
  import opened Common
  import opened Reductions
  import opened Tables
  import opened Filters
  import opened TypePairs
  import opened Estimator

  /** The system has C(n, 2) + 1 equations in n = width - 4 unknowns. */
  lemma SystemShape(t: Table, p: real)
    requires t.Valid() && BuildSystem(t, p).Ok?
    ensures var sys := BuildSystem(t, p).value; var n := t.width - 4;
      && |sys.a| == |sys.b|
      && 2 * (|sys.a| - 1) == n * (n - 1)
      && forall j :: 0 <= j < |sys.a| ==> |sys.a[j]| == n
  {
    PairsLength(t.width - 4);
  }

  /** The j-th pair row: +1 at t1 and -1 at t2 for the j-th lexicographic pair t1 < t2, zero elsewhere, so it sums to zero. */
  lemma PairRowFacts(n: nat, j: nat)
    requires j < |Pairs(n)|
    ensures var pr := Pairs(n)[j]; var row := PairRows(n)[j];
      && pr.0 < pr.1 < n && |row| == n
      && row[pr.0] == 1.0 && row[pr.1] == -1.0
      && (forall k :: 0 <= k < n && k != pr.0 && k != pr.1 ==> row[k] == 0.0)
      && Sum(row) == 0.0
  {
    PairsValid(n);
    var pr := Pairs(n)[j];
    var row := PairRows(n)[j];
    assert row == PairRow(n, pr.0, pr.1);
    var first := seq(n, k => if k == pr.0 then 1.0 else 0.0);
    var second := seq(n, k => if k == pr.1 then 1.0 else 0.0);
    SumOneHot(first, pr.0);
    SumOneHot(second, pr.1);
    SumDifference(first, second, row);
  }

  /** The unscaled energy difference of species t1 and t2, atom by atom. */
  function RawDifferences(t: Table, t1: nat, t2: nat): (u: seq<real>)
    requires t.Valid() && t1 < t2 < t.width - 4
    ensures |u| == |t.rows|
    ensures forall i :: 0 <= i < |u| ==> u[i] == Column(t.rows, 1 + t1)[i] - Column(t.rows, 1 + t2)[i]
  {
    seq(|t.rows|, i requires 0 <= i < |t.rows| => t.rows[i][1 + t1] - t.rows[i][1 + t2])
  }

  /** Rescaling the energies by p rescales their differences by p. */
  lemma EnergyDifferences(t: Table, p: real, t1: nat, t2: nat)
    requires t.Valid() && t1 < t2 < t.width - 4
    ensures |PairDifferences(Energies(t, p), t1, t2)| == |t.rows|
    ensures forall i :: 0 <= i < |t.rows| ==>
      PairDifferences(Energies(t, p), t1, t2)[i] == p * RawDifferences(t, t1, t2)[i]
  {
  }

  /** The mean rescaled energy difference of two species is p times the mean unscaled one. */
  lemma PairMeanRescaled(t: Table, p: real, t1: nat, t2: nat)
    requires t.Valid() && |t.rows| > 0 && t1 < t2 < t.width - 4
    ensures PairMean(Energies(t, p), t.width - 4, t1, t2) == p * Mean(RawDifferences(t, t1, t2))
  {
    EnergyDifferences(t, p, t1, t2);
    MeanScaled(RawDifferences(t, t1, t2), PairDifferences(Energies(t, p), t1, t2), p);
  }

  /** The mean rescaled energy difference of two species is p times the difference of their means. */
  lemma PairMeanScaled(t: Table, p: real, t1: nat, t2: nat)
    requires t.Valid() && |t.rows| > 0 && t1 < t2 < t.width - 4
    ensures PairMean(Energies(t, p), t.width - 4, t1, t2)
         == p * (Mean(Column(t.rows, 1 + t1)) - Mean(Column(t.rows, 1 + t2)))
  {
    MeanDifference(Column(t.rows, 1 + t1), Column(t.rows, 1 + t2), RawDifferences(t, t1, t2));
    PairMeanRescaled(t, p, t1, t2);
  }

  /** The j-th pair entry of b is p times the difference of the two species' mean occupying energies. */
  lemma PairRhsFacts(t: Table, p: real, j: nat)
    requires t.Valid() && t.width >= 4 && |t.rows| > 0
    requires j < |Pairs(t.width - 4)|
    ensures var pr := Pairs(t.width - 4)[j];
      && pr.0 < pr.1 < t.width - 4
      && PairRhs(t, p)[j] == p * (Mean(Column(t.rows, 1 + pr.0)) - Mean(Column(t.rows, 1 + pr.1)))
  {
    var n := t.width - 4;
    PairsValid(n);
    var pr := Pairs(n)[j];
    assert PairRhs(t, p)[j] == PairMean(Energies(t, p), n, pr.0, pr.1);
    PairMeanScaled(t, p, pr.0, pr.1);
  }

  /**
   * Equation j < num_pairs of the system: the row of the j-th pair (t1, t2) and, on the right,
   * p times the difference of the mean occupying energies of t1 and t2.
   */
  lemma PairEquation(t: Table, p: real, j: nat)
    requires t.Valid() && BuildSystem(t, p).Ok?
    requires j < |BuildSystem(t, p).value.a| - 1
    ensures var sys := BuildSystem(t, p).value; var n := t.width - 4; var pr := Pairs(n)[j];
      && pr.0 < pr.1 < n
      && sys.a[j][pr.0] == 1.0 && sys.a[j][pr.1] == -1.0
      && (forall k :: 0 <= k < n && k != pr.0 && k != pr.1 ==> sys.a[j][k] == 0.0)
      && Sum(sys.a[j]) == 0.0
      && sys.b[j] == p * (Mean(Column(t.rows, 1 + pr.0)) - Mean(Column(t.rows, 1 + pr.1)))
  {
    PairRowFacts(t.width - 4, j);
    PairRhsFacts(t, p, j);
  }

  /** The sum of each column of m. */
  function ColumnSums(m: seq<seq<real>>, n: nat): (sums: seq<real>)
    requires forall r | r in m :: |r| == n
    ensures |sums| == n
  {
    seq(n, k requires 0 <= k < n => Sum(Column(m, k)))
  }

  /** The sum of each row of m. */
  function RowSums(m: seq<seq<real>>): (sums: seq<real>)
    ensures |sums| == |m|
  {
    seq(|m|, i requires 0 <= i < |m| => Sum(m[i]))
  }

  /** Peeling off the first row of m subtracts it from the column sums. */
  lemma ColumnSumsStep(m: seq<seq<real>>, n: nat)
    requires m != [] && forall r | r in m :: |r| == n
    ensures forall k :: 0 <= k < n ==> ColumnSums(m, n)[k] == m[0][k] + ColumnSums(m[1..], n)[k]
  {
    forall k | 0 <= k < n
      ensures ColumnSums(m, n)[k] == m[0][k] + ColumnSums(m[1..], n)[k]
    {
      assert Column(m, k)[1..] == Column(m[1..], k);
    }
  }

  /** Summing a matrix column by column equals summing it row by row. */
  lemma {:induction false} SumExchange(m: seq<seq<real>>, n: nat)
    requires forall r | r in m :: |r| == n
    ensures Sum(ColumnSums(m, n)) == Sum(RowSums(m))
  {
    if m == [] {
      SumScaled(ColumnSums(m, n), ColumnSums(m, n), 0.0);
    } else {
      SumExchange(m[1..], n);
      ColumnSumsStep(m, n);
      SumPointwise(m[0], ColumnSums(m[1..], n), ColumnSums(m, n));
      assert RowSums(m)[1..] == RowSums(m[1..]);
    }
  }

  /** Whether an atom's init_type names one of the n species, as 1.0 or 0.0. */
  function KnownSpecies(t: Table, n: nat): seq<real>
    requires t.Valid() && t.width > 0
  {
    seq(|t.rows|, i requires 0 <= i < |t.rows| => if 1 <= InitType(t.rows[i]) <= n then 1.0 else 0.0)
  }

  /** Each concentration is a fraction of the atoms, hence in [0, 1]. */
  lemma ConcentrationBounds(t: Table)
    requires t.Valid() && t.width >= 4 && |t.rows| > 0
    ensures forall k :: 0 <= k < t.width - 4 ==> 0.0 <= Concentrations(t)[k] <= 1.0
  {
    forall k | 0 <= k < t.width - 4
      ensures 0.0 <= Concentrations(t)[k] <= 1.0
    {
      MeanBounds(Indicator(t, k), 0.0, 1.0);
    }
  }

  /** Counting atoms species by species counts each atom whose init_type is a species once. */
  lemma IndicatorTotals(t: Table)
    requires t.Valid() && t.width >= 4
    ensures var n := t.width - 4;
      Sum(seq(n, k requires 0 <= k < n => Sum(Indicator(t, k)))) == Sum(KnownSpecies(t, n))
  {
    var n := t.width - 4;
    var count := |t.rows|;
    var m := seq(count, i requires 0 <= i < count =>
      seq(n, k requires 0 <= k < n => if InitType(t.rows[i]) - 1 == k then 1.0 else 0.0));
    forall k | 0 <= k < n
      ensures Column(m, k) == Indicator(t, k)
    {
    }
    SumExchange(m, n);
    var known := KnownSpecies(t, n);
    forall i | 0 <= i < count
      ensures Sum(m[i]) == known[i]
    {
      SumOneHot(m[i], InitType(t.rows[i]) - 1);
    }
    assert RowSums(m) == known;
    assert ColumnSums(m, n) == seq(n, k requires 0 <= k < n => Sum(Indicator(t, k)));
  }

  /** The concentrations add up to the fraction of atoms whose init_type is one of the species. */
  lemma ConcentrationTotal(t: Table)
    requires t.Valid() && t.width >= 4 && |t.rows| > 0
    ensures Sum(Concentrations(t)) == Mean(KnownSpecies(t, t.width - 4))
  {
    var n := t.width - 4;
    var totals := seq(n, k requires 0 <= k < n => Sum(Indicator(t, k)));
    IndicatorTotals(t);
    SumDivided(totals, Concentrations(t), |t.rows| as real);
  }

  /**
   * The last row holds the observed concentrations: each in [0, 1], together the fraction of
   * atoms whose init_type is one of the species, hence 1 when every init_type is in 1..n.
   */
  lemma ConcentrationEquation(t: Table, p: real)
    requires t.Valid() && BuildSystem(t, p).Ok?
    ensures var sys := BuildSystem(t, p).value; var n := t.width - 4; var last := sys.a[|sys.a| - 1];
      && |last| == n
      && (forall k :: 0 <= k < n ==> 0.0 <= last[k] <= 1.0)
      && Sum(last) == Mean(KnownSpecies(t, n))
      && ((forall r | r in t.rows :: 1 <= InitType(r) <= n) ==> Sum(last) == 1.0)
  {
    var n := t.width - 4;
    ConcentrationBounds(t);
    ConcentrationTotal(t);
    if forall r | r in t.rows :: 1 <= InitType(r) <= n {
      MeanBounds(KnownSpecies(t, n), 1.0, 1.0);
    }
  }

  /** Each atom's unscaled occupying energy of its own species. */
  function OwnRawEnergies(t: Table): (own: seq<real>)
    requires t.Valid() && t.width >= 4 && SpeciesIndexable(t, t.width - 4)
    ensures |own| == |t.rows|
  {
    seq(|t.rows|, i requires 0 <= i < |t.rows| => t.rows[i][1 + OwnSpecies(t.rows[i], t.width - 4).value])
  }

  /** The rescaled own-species energies sum to p times the raw ones. */
  lemma OwnEnergiesSum(t: Table, p: real)
    requires t.Valid() && t.width >= 4 && SpeciesIndexable(t, t.width - 4)
    ensures Sum(OwnEnergies(t, Energies(t, p))) == p * Sum(OwnRawEnergies(t))
  {
    var own := OwnEnergies(t, Energies(t, p));
    var raw := OwnRawEnergies(t);
    forall i | 0 <= i < |raw|
      ensures own[i] == p * raw[i]
    {
    }
    SumScaled(raw, own, p);
  }

  /** The reference entry is p times the mean own-species energy, divided once more by N. */
  lemma ReferenceFacts(t: Table, p: real)
    requires t.Valid() && t.width >= 4 && |t.rows| > 0 && SpeciesIndexable(t, t.width - 4)
    ensures var size := |t.rows| as real;
      ReferenceEnergy(t, p) * (size * size) == p * Sum(OwnRawEnergies(t))
  {
    OwnEnergiesSum(t, p);
    MeanDividedAgain(OwnEnergies(t, Energies(t, p)), ReferenceEnergy(t, p), p * Sum(OwnRawEnergies(t)));
  }

  /**
   * The last entry of b is the mean of the rescaled own-species energies divided once more by
   * the atom count: N squared times it is p times their sum (line 110 as written).
   */
  lemma ReferenceEquation(t: Table, p: real)
    requires t.Valid() && BuildSystem(t, p).Ok?
    ensures var sys := BuildSystem(t, p).value; var size := |t.rows| as real;
      sys.b[|sys.b| - 1] * (size * size) == p * Sum(OwnRawEnergies(t))
  {
    ReferenceFacts(t, p);
  }

  /**
   * Every pair row sums to zero, so adding the same d to every chemical potential leaves each
   * pair equation's left-hand side unchanged: the pair rows fix the potentials up to a shift.
   */
  lemma PairEquationShift(t: Table, p: real, j: nat, mu: seq<real>, d: real)
    requires t.Valid() && BuildSystem(t, p).Ok?
    requires j < |BuildSystem(t, p).value.a| - 1 && |mu| == t.width - 4
    ensures var row := BuildSystem(t, p).value.a[j];
      |row| == |mu| && Dot(row, Shift(mu, d)) == Dot(row, mu)
  {
    PairEquation(t, p, j);
    DotShiftBalanced(BuildSystem(t, p).value.a[j], mu, d);
  }

  /**
   * The concentration row pins the shift: when every init_type names a species, adding d to
   * every potential moves its left-hand side by exactly d.
   */
  lemma ConcentrationEquationShift(t: Table, p: real, mu: seq<real>, d: real)
    requires t.Valid() && BuildSystem(t, p).Ok? && |mu| == t.width - 4
    requires forall r | r in t.rows :: 1 <= InitType(r) <= t.width - 4
    ensures var sys := BuildSystem(t, p).value; var last := sys.a[|sys.a| - 1];
      |last| == |mu| && Dot(last, Shift(mu, d)) == Dot(last, mu) + d
  {
    ConcentrationEquation(t, p);
    var sys := BuildSystem(t, p).value;
    var last := sys.a[|sys.a| - 1];
    DotShiftNormalized(last, mu, d);
  }

  /** A two-entry sum. */
  lemma SumOfTwo(s: seq<real>)
    requires |s| == 2
    ensures Sum(s) == s[0] + s[1]
  {
    assert s[1..][1..] == [];
    assert Sum(s[1..]) == s[1] + Sum(s[1..][1..]);
  }

  /** A two-entry dot product. */
  lemma DotOfTwo(u: seq<real>, v: seq<real>)
    requires |u| == |v| == 2
    ensures Dot(u, v) == u[0] * v[0] + u[1] * v[1]
  {
    assert u[1..][1..] == [] && v[1..][1..] == [];
    assert Dot(u[1..], v[1..]) == u[1] * v[1] + Dot(u[1..][1..], v[1..][1..]);
  }

  /** The two-species algebra: mu = [b1 + c1 b0, b1 - c0 b0] solves rows [1, -1] and [c0, c1]. */
  lemma TwoByTwoScalar(r0: real, r1: real, c0: real, c1: real, b0: real, b1: real, m0: real, m1: real)
    requires r0 == 1.0 && r1 == -1.0 && c0 + c1 == 1.0
    requires m0 == b1 + c1 * b0 && m1 == b1 - c0 * b0
    ensures r0 * m0 + r1 * m1 == b0
    ensures c0 * m0 + c1 * m1 == b1
  {
    assert c0 * (b1 + c1 * b0) + c1 * (b1 - c0 * b0) == (c0 + c1) * b1;
  }

  /** The converse: the rows [1, -1] and [c0, c1] with c0 + c1 = 1 admit no other solution. */
  lemma TwoByTwoUniqueScalar(r0: real, r1: real, c0: real, c1: real, b0: real, b1: real, m0: real, m1: real)
    requires r0 == 1.0 && r1 == -1.0 && c0 + c1 == 1.0
    requires r0 * m0 + r1 * m1 == b0 && c0 * m0 + c1 * m1 == b1
    ensures m0 == b1 + c1 * b0 && m1 == b1 - c0 * b0
  {
    assert m1 == m0 - b0;
    assert c0 * m0 + c1 * m0 == (c0 + c1) * m0;
    assert c1 * (m0 - b0) == c1 * m0 - c1 * b0;
    assert m0 == b1 + c1 * b0;
    assert c1 * b0 - b0 == -(c0 * b0) by {
      assert (c0 + c1) * b0 == c0 * b0 + c1 * b0;
    }
  }

  /**
   * The closed-form solution of a two-species system [[1, -1], [c0, c1]] mu = [b0, b1]:
   * mu = [b1 + c1 b0, b1 - c0 b0].
   */
  function TwoSpeciesPotentials(sys: LinearSystem): (mu: seq<real>)
    requires |sys.a| == |sys.b| == 2 && |sys.a[1]| == 2
    ensures |mu| == 2
  {
    [sys.b[1] + sys.a[1][1] * sys.b[0], sys.b[1] - sys.a[1][0] * sys.b[0]]
  }

  /** The closed form solves any such system whose concentration row sums to 1. */
  lemma TwoByTwo(sys: LinearSystem)
    requires |sys.a| == |sys.b| == 2 && |sys.a[0]| == |sys.a[1]| == 2
    requires sys.a[0][0] == 1.0 && sys.a[0][1] == -1.0 && sys.a[1][0] + sys.a[1][1] == 1.0
    ensures var mu := TwoSpeciesPotentials(sys);
      Dot(sys.a[0], mu) == sys.b[0] && Dot(sys.a[1], mu) == sys.b[1]
  {
    var row, last, mu := sys.a[0], sys.a[1], TwoSpeciesPotentials(sys);
    TwoByTwoScalar(row[0], row[1], last[0], last[1], sys.b[0], sys.b[1], mu[0], mu[1]);
    DotOfTwo(row, mu);
    DotOfTwo(last, mu);
  }

  /** Any exact solution of such a system is the closed form: the system is square and regular. */
  lemma TwoByTwoUnique(sys: LinearSystem, mu: seq<real>)
    requires |sys.a| == |sys.b| == 2 && |sys.a[0]| == |sys.a[1]| == 2
    requires sys.a[0][0] == 1.0 && sys.a[0][1] == -1.0 && sys.a[1][0] + sys.a[1][1] == 1.0
    requires |mu| == 2 && Dot(sys.a[0], mu) == sys.b[0] && Dot(sys.a[1], mu) == sys.b[1]
    ensures mu == TwoSpeciesPotentials(sys)
  {
    var row, last := sys.a[0], sys.a[1];
    DotOfTwo(row, mu);
    DotOfTwo(last, mu);
    TwoByTwoUniqueScalar(row[0], row[1], last[0], last[1], sys.b[0], sys.b[1], mu[0], mu[1]);
    var closed := TwoSpeciesPotentials(sys);
    assert mu[0] == closed[0] && mu[1] == closed[1];
  }

  /**
   * With two species the system is square (one pair row and the concentration row); when every
   * init_type is 1 or 2 a pair of potentials satisfies both equations exactly when it is the
   * closed form, so an exact least-squares answer can only be that one.
   */
  lemma TwoSpeciesSolution(t: Table, p: real, mu: seq<real>)
    requires t.Valid() && t.width == 6 && BuildSystem(t, p).Ok?
    requires forall r | r in t.rows :: 1 <= InitType(r) <= 2
    requires |mu| == 2
    ensures var sys := BuildSystem(t, p).value;
      && |sys.a| == |sys.b| == 2 && |sys.a[0]| == |sys.a[1]| == 2
      && (Dot(sys.a[0], mu) == sys.b[0] && Dot(sys.a[1], mu) == sys.b[1] <==> mu == TwoSpeciesPotentials(sys))
  {
    var sys := BuildSystem(t, p).value;
    SystemShape(t, p);
    PairEquation(t, p, 0);
    ConcentrationEquation(t, p);
    SumOfTwo(sys.a[1]);
    TwoByTwo(sys);
    if Dot(sys.a[0], mu) == sys.b[0] && Dot(sys.a[1], mu) == sys.b[1] {
      TwoByTwoUnique(sys, mu);
    }
  }

  /** A solver returning one value per column yields one chemical potential per species. */
  lemma EstimateLength(t: Table, f: Filter, solve: (seq<seq<real>>, seq<real>) -> seq<real>)
    requires t.Valid() && SolverShape(solve) && Estimate(t, f, solve).Ok?
    ensures |Estimate(t, f, solve).value| == t.width - 4
  {
    var filtered := Employ(f, t).value;
    SystemShape(filtered.data, filtered.p);
  }

  /**
   * The estimate fails only through the filter, an empty chunk or an unindexable init_type: a
   * filter that keeps some atoms of a table whose every atom names a species always succeeds.
   */
  lemma EstimateSucceeds(t: Table, f: Filter, solve: (seq<seq<real>>, seq<real>) -> seq<real>)
    requires t.Valid() && t.width >= 4 && SpeciesIndexable(t, t.width - 4)
    requires Employ(f, t).Ok? && |Employ(f, t).value.data.rows| > 0
    ensures Estimate(t, f, solve).Ok?
  {
    var filtered := Employ(f, t).value;
    forall x | x in filtered.data.rows
      ensures OwnSpecies(x, t.width - 4).Some?
    {
      assert x in t.rows;
    }
  }
}
