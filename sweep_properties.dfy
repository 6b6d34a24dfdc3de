/**
 * What the chunk sweep of main (lines 130-143) computes: one center and one row of potentials
 * per window, centers that lie inside their window and grow along the sorted axis, and, on the
 * z axis, chunks that always hold the window's own atoms.
 */
module SweepProperties {
  import opened Common
  import opened Reductions
  import opened Tables
  import opened Filters
  import opened Estimator
  import opened Sorting
  import opened SystemProperties
  import opened ChunkSweep

  /** The sorted coordinates are in non-decreasing order. */
  lemma KeysSorted(t: Table, axis: Axis)
    requires t.Valid() && AxisColumn(t.width, AxisNumber(axis)).Some?
    ensures NonDecreasing(SortedCoordinates(t, axis))
  {
    var c := SortColumn(t, axis);
    var d := SortTable(t, c);
    var keys := SortedCoordinates(t, axis);
    forall i, j | 0 <= i <= j < |keys|
      ensures keys[i] <= keys[j]
    {
      assert keys[i] == d.rows[i][c] && keys[j] == d.rows[j][c];
    }
  }

  /** A successful sweep passed every check before the loop. */
  lemma SweepSetup(t: Table, axis: Axis, w: int, solve: (seq<seq<real>>, seq<real>) -> seq<real>)
    requires t.Valid() && SweepResult(t, axis, w, solve).Ok?
    ensures SetupError(t, axis, w).None?
    ensures 0 <= w <= |t.rows| && t.width >= 4
  {
  }

  /** Window i of the sweep is the run of sorted coordinates i .. i + w - 1. */
  lemma SweepWindowsShape(t: Table, axis: Axis, w: nat)
    requires t.Valid() && AxisColumn(t.width, AxisNumber(axis)).Some? && w <= |t.rows|
    ensures |SweepWindows(t, axis, w)| == |t.rows| - w + 1
    ensures forall i :: 0 <= i < |SweepWindows(t, axis, w)| ==>
      SweepWindows(t, axis, w)[i] == SortedCoordinates(t, axis)[i..i + w]
  {
    WindowsShape(SortedCoordinates(t, axis), w);
  }

  /** A successful sweep holds every window's estimate, in window order. */
  lemma SweepPotentials(t: Table, axis: Axis, w: int, solve: (seq<seq<real>>, seq<real>) -> seq<real>)
    requires t.Valid() && SweepResult(t, axis, w, solve).Ok?
    ensures SetupError(t, axis, w).None?
    ensures forall i :: 0 <= i < |SweepOutcomes(t, axis, w, solve)| ==> SweepOutcomes(t, axis, w, solve)[i].Ok?
    ensures SweepResult(t, axis, w, solve).value.potentials ==
      seq(|SweepOutcomes(t, axis, w, solve)|, i requires 0 <= i < |SweepOutcomes(t, axis, w, solve)| =>
        SweepOutcomes(t, axis, w, solve)[i].value)
  {
    SweepSetup(t, axis, w, solve);
    CollectOk(SweepOutcomes(t, axis, w, solve));
  }

  /** A successful sweep had no empty window and holds every window's center, in window order. */
  lemma SweepCenters(t: Table, axis: Axis, w: int, solve: (seq<seq<real>>, seq<real>) -> seq<real>)
    requires t.Valid() && SweepResult(t, axis, w, solve).Ok?
    ensures SetupError(t, axis, w).None?
    ensures forall i :: 0 <= i < |SweepWindows(t, axis, w)| ==> |SweepWindows(t, axis, w)[i]| > 0
    ensures SweepResult(t, axis, w, solve).value.centers == Centers(SweepWindows(t, axis, w))
  {
    SweepSetup(t, axis, w, solve);
    CollectOk(SweepOutcomes(t, axis, w, solve));
  }

  /**
   * One center and one row of potentials per window, |rows| - w + 1 of each; with a solver that
   * returns one value per column, each row holds one potential per species.
   */
  lemma SweepShape(t: Table, axis: Axis, w: int, solve: (seq<seq<real>>, seq<real>) -> seq<real>)
    requires t.Valid() && SweepResult(t, axis, w, solve).Ok?
    ensures |SweepResult(t, axis, w, solve).value.centers| == |t.rows| - w + 1
    ensures |SweepResult(t, axis, w, solve).value.potentials| == |t.rows| - w + 1
    ensures SolverShape(solve) ==> forall i :: 0 <= i < |SweepResult(t, axis, w, solve).value.potentials| ==>
      |SweepResult(t, axis, w, solve).value.potentials[i]| == t.width - 4
  {
    SweepSetup(t, axis, w, solve);
    SweepWindowsShape(t, axis, w);
    SweepPotentials(t, axis, w, solve);
    SweepCenters(t, axis, w, solve);
    var d := SweepTable(t, axis);
    var ws := SweepWindows(t, axis, w);
    var outcomes := SweepOutcomes(t, axis, w, solve);
    if SolverShape(solve) {
      forall i | 0 <= i < |outcomes|
        ensures |outcomes[i].value| == t.width - 4
      {
        WindowOutcomeAt(d, ws, solve, i);
        EstimateLength(d, WindowFilter(ws[i]), solve);
      }
    }
  }

  /**
   * Center i is the mean of the w sorted coordinates i .. i + w - 1, and the window's range runs
   * from the first of them to the last, so the center lies between the two.
   */
  lemma SweepCenter(t: Table, axis: Axis, w: int, solve: (seq<seq<real>>, seq<real>) -> seq<real>, i: nat)
    requires t.Valid() && SweepResult(t, axis, w, solve).Ok?
    requires i < |SweepResult(t, axis, w, solve).value.centers|
    ensures 0 < w && i + w <= |t.rows|
    ensures SweepResult(t, axis, w, solve).value.centers[i] == Mean(SortedCoordinates(t, axis)[i..i + w])
    ensures Min(SortedCoordinates(t, axis)[i..i + w]) == SortedCoordinates(t, axis)[i]
    ensures Max(SortedCoordinates(t, axis)[i..i + w]) == SortedCoordinates(t, axis)[i + w - 1]
    ensures SortedCoordinates(t, axis)[i] <= SweepResult(t, axis, w, solve).value.centers[i]
              <= SortedCoordinates(t, axis)[i + w - 1]
  {
    SweepSetup(t, axis, w, solve);
    SweepWindowsShape(t, axis, w);
    SweepCenters(t, axis, w, solve);
    KeysSorted(t, axis);
    var keys := SortedCoordinates(t, axis);
    assert SweepWindows(t, axis, w)[i] == keys[i..i + w];
    SortedRunBounds(keys, i, w);
  }

  /** Consecutive centers never decrease: the next window drops keys[i] and adds keys[i + w]. */
  lemma CentersIncrease(t: Table, axis: Axis, w: int, solve: (seq<seq<real>>, seq<real>) -> seq<real>, i: nat)
    requires t.Valid() && SweepResult(t, axis, w, solve).Ok?
    requires i + 1 < |SweepResult(t, axis, w, solve).value.centers|
    ensures SweepResult(t, axis, w, solve).value.centers[i] <= SweepResult(t, axis, w, solve).value.centers[i + 1]
  {
    SweepSetup(t, axis, w, solve);
    SweepWindowsShape(t, axis, w);
    SweepCenters(t, axis, w, solve);
    KeysSorted(t, axis);
    var keys := SortedCoordinates(t, axis);
    var ws := SweepWindows(t, axis, w);
    assert ws[i] == keys[i..i + w] && ws[i + 1] == keys[i + 1..i + w + 1];
    MeanSlideGrows(keys, i, w);
  }

  /**
   * On the z axis the sort column and the chunk filter's column coincide, so the chunk of window
   * i keeps at least the w atoms the window was cut from.
   */
  lemma ZChunkCoversWindow(t: Table, w: int, i: nat)
    requires t.Valid() && SetupError(t, Z, w).None? && w > 0 && i + w <= |t.rows|
    ensures |SweepWindows(t, Z, w)| == |t.rows| - w + 1
    ensures |SweepWindows(t, Z, w)[i]| == w
    ensures Employ(WindowFilter(SweepWindows(t, Z, w)[i]), SweepTable(t, Z)).Ok?
    ensures |Employ(WindowFilter(SweepWindows(t, Z, w)[i]), SweepTable(t, Z)).value.data.rows| >= w
    ensures forall k :: i <= k < i + w ==>
      SweepTable(t, Z).rows[k] in Employ(WindowFilter(SweepWindows(t, Z, w)[i]), SweepTable(t, Z)).value.data.rows
  {
    var keys := SortedCoordinates(t, Z);
    WindowsShape(keys, w);
    var d := SweepTable(t, Z);
    var c := SortColumn(t, Z);
    var win := SweepWindows(t, Z, w)[i];
    assert win == keys[i..i + w];
    assert AxisColumn(d.width, 2) == Some(c);
    forall k | i <= k < i + w
      ensures InInterval(d.rows[k], c, Min(win), Max(win)) && d.rows[k] in Select(d.rows, c, Min(win), Max(win))
    {
      assert d.rows[k][c] == keys[k] == win[k - i];
      SelectKeeps(d.rows, c, Min(win), Max(win), k);
    }
    SelectCoversRun(d.rows, c, Min(win), Max(win), i, i + w);
  }

  /**
   * On the z axis, once the checks before the loop pass, a non-empty window size and atoms whose
   * init_type names one of the species are enough for every window's estimate to succeed.
   */
  lemma ZSweepSucceeds(t: Table, w: int, solve: (seq<seq<real>>, seq<real>) -> seq<real>)
    requires t.Valid() && SetupError(t, Z, w).None? && w > 0
    requires SpeciesIndexable(t, t.width - 4)
    ensures SweepResult(t, Z, w, solve).Ok?
  {
    var d := SweepTable(t, Z);
    var ws := SweepWindows(t, Z, w);
    var outcomes := SweepOutcomes(t, Z, w, solve);
    WindowsShape(SortedCoordinates(t, Z), w);
    forall i | 0 <= i < |outcomes|
      ensures outcomes[i].Ok?
    {
      ZChunkCoversWindow(t, w, i);
      WindowOutcomeAt(d, ws, solve, i);
      forall x | x in d.rows
        ensures OwnSpecies(x, t.width - 4).Some?
      {
        assert x in multiset(t.rows);
      }
      EstimateSucceeds(d, WindowFilter(ws[i]), solve);
    }
    CollectOk(outcomes);
  }

  /** One atom of species 1 at x = 0, y = 0, z = 5 (one species, so five columns). */
  function OneAtom(): (t: Table)
    ensures t.Valid()
  {
    Table(5, [[1.0, 0.0, 0.0, 0.0, 5.0]])
  }

  /**
   * Line 142 filters on axis 2 whatever axis the sweep sorts by: sorting by x, the window of the
   * atom's x coordinate 0 becomes the z range [0, 0], which misses the atom, and the empty chunk
   * fails; the same sweep along z succeeds.
   */
  lemma ChunkAxisFixed(solve: (seq<seq<real>>, seq<real>) -> seq<real>)
    ensures SweepResult(OneAtom(), X, 1, solve) == Err(EmptySelection)
    ensures SweepResult(OneAtom(), Z, 1, solve).Ok?
  {
    var t := OneAtom();
    var r := t.rows[0];
    assert AxisColumn(5, AxisNumber(X)) == Some(2);
    assert SortByColumn(t.rows, 2) == Insert(r, [], 2) == [r];
    var d := SweepTable(t, X);
    assert d.rows == [r];
    assert SortedCoordinates(t, X) == [0.0];
    var keys: seq<real> := [0.0];
    assert keys[..1] == keys && keys[1..] == [];
    assert SweepWindows(t, X, 1) == [keys] + Windows([], 1) == [[0.0]];
    var chunk := WindowFilter([0.0]);
    assert chunk == OneDimChunk(2, 0.0, 0.0);
    assert AxisColumn(5, 2) == Some(4);
    assert Select(d.rows, 4, 0.0, 0.0) == [];
    assert Employ(chunk, d).value.data == Table(5, []);
    assert Estimate(d, chunk, solve) == Err(EmptySelection);
    var outcomes := SweepOutcomes(t, X, 1, solve);
    assert outcomes == [WindowOutcome(d, [0.0], solve)] + WindowOutcomes(d, [], solve);
    assert outcomes == [Err(EmptySelection)];
    assert Collect(outcomes) == Err(EmptySelection);
    assert OwnSpecies(r, 1) == Some(0);
    ZSweepSucceeds(t, 1, solve);
  }
}
