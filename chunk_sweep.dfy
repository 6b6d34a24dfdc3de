/**
 * The chunk sweep of main (lines 122-143): sort the atoms along one axis, slide a window of w
 * consecutive sorted coordinates along them, and estimate the chemical potentials of the chunk
 * that each window's coordinate range cuts out.
 */
module ChunkSweep {
  import opened Common
  import opened Reductions
  import opened Tables
  import opened Filters
  import opened Estimator
  import opened Sorting
  import opened SystemProperties

  /** The command-line axis name. */
  datatype Axis = X | Y | Z

  /** The axes dictionary of lines 122-126. */
  function AxisNumber(a: Axis): int
  {
    match a
    case X => 0
    case Y => 1
    case Z => 2
  }

  /**
   * sliding_window_view(s, window_shape=w): every run of w consecutive entries, left to right
   * (for w == 0, the |s| + 1 empty runs).
   */
  function Windows(s: seq<real>, w: nat): seq<seq<real>>
    decreases |s|
  {
    if |s| < w then []
    else if s == [] then [[]]
    else [s[..w]] + Windows(s[1..], w)
  }

  /** There are |s| - w + 1 windows, window i being entries i .. i + w - 1. */
  lemma {:induction false} WindowsShape(s: seq<real>, w: nat)
    requires w <= |s|
    ensures |Windows(s, w)| == |s| - w + 1
    ensures forall i :: 0 <= i < |Windows(s, w)| ==> Windows(s, w)[i] == s[i..i + w]
  {
    if s != [] {
      var rest := Windows(s[1..], w);
      var ws := Windows(s, w);
      assert ws == [s[..w]] + rest;
      if w < |s| {
        WindowsShape(s[1..], w);
        forall i | 0 < i < |ws|
          ensures ws[i] == s[i..i + w]
        {
          assert ws[i] == rest[i - 1];
        }
      } else {
        assert rest == [];
      }
    }
  }

  /** Line 142: the chunk filter of a window, on its [min, max] range, with axis fixed to 2. */
  function WindowFilter(win: seq<real>): Filter
    requires |win| > 0
  {
    OneDimChunk(2, Min(win), Max(win))
  }

  /**
   * The failures before the loop, in the order the source meets them: the sort column
   * (line 130, IndexError), the window shape (line 135, ValueError for w < 0 or w > N) and the
   * result array (line 139, negative dimensions for fewer than 4 columns).
   */
  function SetupError(t: Table, axis: Axis, w: int): Option<Error>
  {
    if AxisColumn(t.width, AxisNumber(axis)).None? then Some(IndexError)
    else if w < 0 || w > |t.rows| then Some(InvalidWindow)
    else if t.width < 4 then Some(NegativeDimensions)
    else None
  }

  /** The windows' estimates gathered in window order; the first failure ends the sweep. */
  function Collect(results: seq<Result<seq<real>>>): Result<seq<seq<real>>>
  {
    if results == [] then Ok([])
    else
      match results[0]
      case Err(e) => Err(e)
      case Ok(mu) =>
        match Collect(results[1..])
        case Err(e) => Err(e)
        case Ok(rest) => Ok([mu] + rest)
  }

  /**
   * The sweep succeeds exactly when every estimate does, and then holds their values in order.
   */
  lemma {:induction false} CollectOk(results: seq<Result<seq<real>>>)
    ensures Collect(results).Ok? <==> forall i :: 0 <= i < |results| ==> results[i].Ok?
    ensures Collect(results).Ok? ==>
      Collect(results).value == seq(|results|, i requires 0 <= i < |results| => results[i].value)
  {
    if results != [] {
      CollectOk(results[1..]);
      if results[0].Ok? && Collect(results[1..]).Ok? {
        var tail := seq(|results| - 1, i requires 0 <= i < |results| - 1 => results[1..][i].value);
        assert Collect(results) == Ok([results[0].value] + tail);
        assert [results[0].value] + tail == seq(|results|, i requires 0 <= i < |results| => results[i].value);
      }
      if !results[0].Ok? {
        assert !Collect(results).Ok?;
      }
      if forall i :: 0 <= i < |results| ==> results[i].Ok? {
        assert forall i :: 0 <= i < |results| - 1 ==> results[1..][i] == results[i + 1];
      } else {
        var k :| 0 <= k < |results| && !results[k].Ok?;
        if k > 0 {
          assert !results[1..][k - 1].Ok?;
        }
      }
    }
  }

  /** An estimate that fails, after estimates that succeed, fails the sweep with its error. */
  lemma {:induction false} CollectFirstError(results: seq<Result<seq<real>>>, k: nat)
    requires k < |results| && forall i :: 0 <= i < k ==> results[i].Ok?
    requires results[k].Err?
    ensures Collect(results) == Err(results[k].error)
  {
    if k > 0 {
      CollectFirstError(results[1..], k - 1);
    }
  }

  /**
   * One iteration of the loop of lines 140-143: np.min of an empty window fails; otherwise the
   * estimator runs on the chunk the window's range cuts out.
   */
  function WindowOutcome(d: Table, win: seq<real>, solve: (seq<seq<real>>, seq<real>) -> seq<real>)
    : Result<seq<real>>
    requires d.Valid()
  {
    if |win| == 0 then Err(EmptyReduction) else Estimate(d, WindowFilter(win), solve)
  }

  /** The outcome of every window, in window order. */
  function WindowOutcomes(d: Table, ws: seq<seq<real>>, solve: (seq<seq<real>>, seq<real>) -> seq<real>)
    : (rs: seq<Result<seq<real>>>)
    requires d.Valid()
    ensures |rs| == |ws|
    ensures forall i :: 0 <= i < |ws| && rs[i].Ok? ==> |ws[i]| > 0
  {
    seq(|ws|, i requires 0 <= i < |ws| => WindowOutcome(d, ws[i], solve))
  }

  /** Outcome i is window i's. */
  lemma WindowOutcomeAt(d: Table, ws: seq<seq<real>>, solve: (seq<seq<real>>, seq<real>) -> seq<real>, i: nat)
    requires d.Valid() && i < |ws|
    ensures WindowOutcomes(d, ws, solve)[i] == WindowOutcome(d, ws[i], solve)
  {
  }

  /** What main holds after its loop: the window centers and one row of potentials per window. */
  datatype Sweep = Sweep(centers: seq<real>, potentials: seq<seq<real>>)

  /** The sort column of the chosen axis (valid when SetupError is None). */
  function SortColumn(t: Table, axis: Axis): nat
    requires AxisColumn(t.width, AxisNumber(axis)).Some?
  {
    AxisColumn(t.width, AxisNumber(axis)).value
  }

  /** z_coords of line 131: the sorted coordinates along the chosen axis. */
  function SortedCoordinates(t: Table, axis: Axis): (s: seq<real>)
    requires t.Valid() && AxisColumn(t.width, AxisNumber(axis)).Some?
    ensures |s| == |t.rows|
  {
    var c := SortColumn(t, axis);
    Column(SortTable(t, c).rows, c)
  }

  /** The window centers (line 141). */
  function Centers(ws: seq<seq<real>>): (cs: seq<real>)
    requires forall i :: 0 <= i < |ws| ==> |ws[i]| > 0
    ensures |cs| == |ws|
  {
    seq(|ws|, i requires 0 <= i < |ws| => Mean(ws[i]))
  }

  /** One more window, one more center. */
  lemma CentersStep(ws: seq<seq<real>>, i: nat)
    requires i < |ws| && forall j :: 0 <= j <= i ==> |ws[j]| > 0
    ensures Centers(ws[..i + 1]) == Centers(ws[..i]) + [Mean(ws[i])]
  {
    assert ws[..i + 1] == ws[..i] + [ws[i]];
  }

  /** data after line 130: the rows sorted along the chosen axis. */
  function SweepTable(t: Table, axis: Axis): (d: Table)
    requires t.Valid() && AxisColumn(t.width, AxisNumber(axis)).Some?
    ensures d.Valid() && d.width == t.width && |d.rows| == |t.rows|
  {
    SortTable(t, SortColumn(t, axis))
  }

  /** windows of line 135. */
  function SweepWindows(t: Table, axis: Axis, w: nat): seq<seq<real>>
    requires t.Valid() && AxisColumn(t.width, AxisNumber(axis)).Some?
  {
    Windows(SortedCoordinates(t, axis), w)
  }

  /** The outcome of each iteration of the loop of lines 140-143. */
  function SweepOutcomes(t: Table, axis: Axis, w: nat, solve: (seq<seq<real>>, seq<real>) -> seq<real>)
    : (rs: seq<Result<seq<real>>>)
    requires t.Valid() && AxisColumn(t.width, AxisNumber(axis)).Some?
    ensures |rs| == |SweepWindows(t, axis, w)|
  {
    WindowOutcomes(SweepTable(t, axis), SweepWindows(t, axis, w), solve)
  }

  /** Lines 130-143 as one function of the dataset, the axis and the window size. */
  function SweepResult(t: Table, axis: Axis, w: int, solve: (seq<seq<real>>, seq<real>) -> seq<real>)
    : Result<Sweep>
    requires t.Valid()
  {
    match SetupError(t, axis, w)
    case Some(e) => Err(e)
    case None =>
      var ws := SweepWindows(t, axis, w);
      var outcomes := SweepOutcomes(t, axis, w, solve);
      CollectOk(outcomes);
      match Collect(outcomes)
      case Err(e) => Err(e)
      case Ok(mus) =>
        assert forall i :: 0 <= i < |ws| ==> outcomes[i].Ok? && |ws[i]| > 0;
        Ok(Sweep(Centers(ws), mus))
  }

  /** An empty window fails with np.min's error. */
  lemma EmptyWindowFails(d: Table, ws: seq<seq<real>>, solve: (seq<seq<real>>, seq<real>) -> seq<real>, i: nat)
    requires d.Valid() && i < |ws| && |ws[i]| == 0
    ensures WindowOutcomes(d, ws, solve)[i] == Err(EmptyReduction)
  {
    WindowOutcomeAt(d, ws, solve, i);
  }

  /** After i windows, each of them is non-empty and centers 0 .. i - 1 are their means. */
  ghost predicate CentersFilled(centers: array<real>, windows: seq<seq<real>>, i: nat)
    reads centers
  {
    && i <= |windows| == centers.Length
    && (forall j :: 0 <= j < i ==> |windows[j]| > 0)
    && centers[..i] == Centers(windows[..i])
  }

  /** After i windows, each estimate succeeded and row j of potentials holds estimate j. */
  ghost predicate RowsFilled(potentials: array2<real>, results: seq<Result<seq<real>>>, i: nat)
    reads potentials
  {
    && i <= |results| == potentials.Length0
    && (forall j :: 0 <= j < i ==> results[j].Ok? && |results[j].value| == potentials.Length1)
    && (forall j, k :: 0 <= j < i && 0 <= k < potentials.Length1 ==> potentials[j, k] == results[j].value[k])
  }

  /** Line 141: center i is the mean of window i. */
  method PlaceCenter(centers: array<real>, windows: seq<seq<real>>, i: nat)
    requires i < |windows| && |windows[i]| > 0 && CentersFilled(centers, windows, i)
    modifies centers
    ensures CentersFilled(centers, windows, i + 1)
    ensures centers[..] == old(centers[..])[i := Mean(windows[i])]
  {
    centers[i] := Mean(windows[i]);
    CentersStep(windows, i);
    assert centers[..i + 1] == centers[..i] + [centers[i]];
  }

  /** Line 143: row i of the potentials receives estimate i, the other rows are left as they were. */
  method WriteRow(potentials: array2<real>, results: seq<Result<seq<real>>>, i: nat)
    requires RowsFilled(potentials, results, i) && i < |results|
    requires results[i].Ok? && |results[i].value| == potentials.Length1
    modifies potentials
    ensures RowsFilled(potentials, results, i + 1)
    ensures forall k :: 0 <= k < potentials.Length1 ==> potentials[i, k] == results[i].value[k]
    ensures forall j, k :: 0 <= j < potentials.Length0 && j != i && 0 <= k < potentials.Length1 ==>
      potentials[j, k] == old(potentials[j, k])
  {
    forall k | 0 <= k < potentials.Length1 {
      potentials[i, k] := results[i].value[k];
    }
  }

  /**
   * Lines 142-143: estimate the chunk of the (non-empty) window i and, when that succeeds, write
   * the potentials into row i, leaving the other rows as they were.
   */
  method EstimateWindow(data: Table, windows: seq<seq<real>>, solve: (seq<seq<real>>, seq<real>) -> seq<real>,
                        potentials: array2<real>, i: nat) returns (mu: Result<seq<real>>)
    requires data.Valid() && data.width >= 4 && SolverShape(solve)
    requires i < |windows| && |windows[i]| > 0 && potentials.Length1 == data.width - 4
    requires RowsFilled(potentials, WindowOutcomes(data, windows, solve), i)
    modifies potentials
    ensures mu == WindowOutcomes(data, windows, solve)[i]
    ensures mu.Ok? ==> RowsFilled(potentials, WindowOutcomes(data, windows, solve), i + 1)
    ensures mu.Ok? ==> forall k :: 0 <= k < potentials.Length1 ==> potentials[i, k] == mu.value[k]
    ensures mu.Err? ==> forall k :: 0 <= k < potentials.Length1 ==> potentials[i, k] == old(potentials[i, k])
    ensures forall j, k :: 0 <= j < potentials.Length0 && j != i && 0 <= k < potentials.Length1 ==>
      potentials[j, k] == old(potentials[j, k])
  {
    var win := windows[i];
    mu := GetChemicalPotentials(data, OneDimChunk(2, Min(win), Max(win)), solve);
    WindowOutcomeAt(data, windows, solve, i);
    if mu.Ok? {
      EstimateLength(data, WindowFilter(win), solve);
      WriteRow(potentials, WindowOutcomes(data, windows, solve), i);
    }
  }

  /** Once every window is done, the arrays hold all centers and all estimates. */
  lemma FilledAll(centers: array<real>, potentials: array2<real>, windows: seq<seq<real>>,
                  results: seq<Result<seq<real>>>)
    requires CentersFilled(centers, windows, |windows|) && RowsFilled(potentials, results, |results|)
    ensures Collect(results) == Ok(Rows(potentials))
    ensures forall j :: 0 <= j < |windows| ==> |windows[j]| > 0
    ensures centers[..] == Centers(windows)
  {
    RowsAre(potentials, seq(|results|, j requires 0 <= j < |results| => results[j].value));
    CollectOk(results);
    assert windows[..|windows|] == windows && centers[..|windows|] == centers[..];
  }

  /**
   * One iteration of the loop of lines 140-143: an empty window or a failing estimate ends the
   * sweep with its error; otherwise center i and row i of the potentials are written.
   */
  method VisitWindow(data: Table, windows: seq<seq<real>>, solve: (seq<seq<real>>, seq<real>) -> seq<real>,
                     centers: array<real>, potentials: array2<real>, i: nat) returns (err: Option<Error>)
    requires data.Valid() && data.width >= 4 && SolverShape(solve)
    requires i < |windows| && potentials.Length1 == data.width - 4
    requires CentersFilled(centers, windows, i) && RowsFilled(potentials, WindowOutcomes(data, windows, solve), i)
    modifies centers, potentials
    ensures err.None? ==>
      CentersFilled(centers, windows, i + 1) && RowsFilled(potentials, WindowOutcomes(data, windows, solve), i + 1)
    ensures err.Some? ==> Collect(WindowOutcomes(data, windows, solve)) == Err(err.value)
    ensures err.None? ==> forall j :: i < j < centers.Length ==> centers[j] == old(centers[j])
    ensures err.None? ==> forall j, k :: i < j < potentials.Length0 && 0 <= k < potentials.Length1 ==>
      potentials[j, k] == old(potentials[j, k])
  {
    if |windows[i]| == 0 {
      // np.min of an empty window
      EmptyWindowFails(data, windows, solve, i);
      CollectFirstError(WindowOutcomes(data, windows, solve), i);
      return Some(EmptyReduction);
    }
    PlaceCenter(centers, windows, i);
    var mu := EstimateWindow(data, windows, solve, potentials, i);
    if mu.Err? {
      CollectFirstError(WindowOutcomes(data, windows, solve), i);
      return Some(mu.error);
    }
    err := None;
  }

  /**
   * The loop of lines 140-143 over preallocated arrays: row i of centers and potentials is
   * written from window i, and the first failing window ends it with that window's error.
   */
  method RunWindows(data: Table, windows: seq<seq<real>>, solve: (seq<seq<real>>, seq<real>) -> seq<real>,
                    centers: array<real>, potentials: array2<real>) returns (err: Option<Error>)
    requires data.Valid() && data.width >= 4 && SolverShape(solve)
    requires centers.Length == potentials.Length0 == |windows| && potentials.Length1 == data.width - 4
    modifies centers, potentials
    ensures err.None? <==> Collect(WindowOutcomes(data, windows, solve)).Ok?
    ensures err.Some? ==> Collect(WindowOutcomes(data, windows, solve)) == Err(err.value)
    ensures err.None? ==> Collect(WindowOutcomes(data, windows, solve)).value == Rows(potentials)
    ensures err.None? ==> forall j :: 0 <= j < |windows| ==> |windows[j]| > 0
    ensures err.None? ==> centers[..] == Centers(windows)
  {
    var i := 0;
    while i < |windows|
      invariant 0 <= i <= |windows|
      invariant CentersFilled(centers, windows, i)
      invariant RowsFilled(potentials, WindowOutcomes(data, windows, solve), i)
    {
      err := VisitWindow(data, windows, solve, centers, potentials, i);
      if err.Some? {
        return;
      }
      i := i + 1;
    }
    FilledAll(centers, potentials, windows, WindowOutcomes(data, windows, solve));
    err := None;
  }

  /**
   * main's sweep as the source runs it: sort, window, preallocate the result arrays, then run
   * the loop.
   */
  method SweepChunks(t: Table, axis: Axis, w: int, solve: (seq<seq<real>>, seq<real>) -> seq<real>)
    returns (r: Result<Sweep>)
    requires t.Valid() && SolverShape(solve)
    ensures r == SweepResult(t, axis, w, solve)
  {
    var column := AxisColumn(t.width, AxisNumber(axis));
    if column.None? {
      return Err(IndexError);
    }
    var c := column.value;
    var data := SortTable(t, c);
    var coords := Column(data.rows, c);
    if w < 0 || w > |coords| {
      return Err(InvalidWindow);
    }
    var windows := Windows(coords, w);
    if t.width < 4 {
      return Err(NegativeDimensions);
    }
    var centers := new real[|windows|](_ => 0.0);
    var potentials := new real[|windows|, t.width - 4]((_, _) => 0.0);
    var err := RunWindows(data, windows, solve, centers, potentials);
    if err.Some? {
      return Err(err.value);
    }
    r := Ok(Sweep(centers[..], Rows(potentials)));
  }
}
