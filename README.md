# Chemical potentials per chunk: a Dafny model

`chemical_potentials.py` estimates one chemical potential per atomic species from a snapshot
of per-atom records `[init_type, occupying_energy_1 .. occupying_energy_n, x, y, z]`. The
program has three parts, and this project models each of them:

- **Filters.** `IdentityFilter` keeps the whole dataset with `p = 1`. `OneDimChunkFilter`
  keeps the atoms whose coordinate `-3 + axis` lies in `[low, high]`, with `p` the fraction
  kept.
- **Estimator.** `get_chemical_potentials` rescales the occupying energies by `p` and builds
  a (C(n, 2) + 1) x n linear system for n species, overdetermined from three species on, and
  hands it to a least-squares solver:
  - one equation per species pair `t1 < t2`: `mu[t1] - mu[t2]` equals the mean energy
    difference of the pair;
  - a last equation whose coefficients are the observed concentrations and whose right-hand
    side is the mean own-species energy divided by the atom count.
- **Sweep.** `main`:
  - sorts the atoms along one axis;
  - slides a window of `w` consecutive sorted coordinates along them;
  - for every window, records the window's mean as its center and estimates the potentials
    of the chunk that the window's `[min, max]` range cuts out.

The model uses exact `real` arithmetic throughout. numpy's NaN results and its exceptions
become an `Err` value of `Common.Error`. The least-squares solver is a function parameter,
`solve`. The only thing assumed about it (`Estimator.SolverShape`) is that it returns one
value per column.

What the model does with each kind of code:

- **Pure code** becomes functions. The filters, the system in `Estimator.BuildSystem` and the
  sweep in `ChunkSweep.SweepResult` are functions.
- **Loops over preallocated numpy arrays** become methods over `array` / `array2`, proved equal
  to those functions:
  - `Estimator.FillPairRows` and `Estimator.AssembleSystem`;
  - `ChunkSweep.RunWindows` and `ChunkSweep.SweepChunks`.
- **What the source promises** is proved as lemmas about the functions:
  - the shape of the system and the meaning of each of its equations;
  - the shift invariance the pair rows leave and the concentration row removes;
  - the closed-form two-species solution;
  - centers that lie inside their window and never decrease;
  - chunks that always cover their window on the z axis;
  - the fixed `axis=2` of line 142 shown failing on the x axis.

Behaviour of `chemical_potentials.py` that the model keeps:

- **Filter axis.** The sweep's chunk filter always uses `axis=2` (line 142), whatever axis the
  atoms were sorted by. `SweepProperties.ChunkAxisFixed` shows what that does.
- **Species count.** Any number of species is accepted by `get_chemical_potentials`:
  - one species (width 5) builds a 1 x 1 system;
  - zero species (width 4) fails with an IndexError at line 109 when the chunk has atoms; with
    no atoms the means are NaN first, modelled as `EmptySelection`;
  - fewer columns fail at `np.zeros` (line 96), and no column at all fails at line 84.
- **Empty chunk.** A chunk with no atoms is not an error of the filter: `p` is 0. The failure
  comes later, from means over zero atoms (NaN in numpy), and is modelled as `EmptySelection`.
  A filter applied to an empty dataset divides by zero at line 70.
- **Window size.** A window larger than the dataset, or a negative one, is a shape error of
  `sliding_window_view` (`InvalidWindow`). A zero window gives `N + 1` empty windows, and the
  first of them fails in `np.min` (`EmptyReduction`).
- **Sort order.** `argsort` is not promised to be stable. The model's sort is one particular
  sort, and only sortedness and permutation are proved about it.

## Model

| member | source | states |
|---|---|---|
| Tables.PyIndex | chemical_potentials.py:67 | an index k into an axis of length len is accepted exactly when -len <= k < len, and then names position k or k + len |
| Tables.Column | chemical_potentials.py:131 | data[:, c] has one entry per row, entry i being row i's column c |
| Reductions.Mean | chemical_potentials.py:103-110 | np.mean of a non-empty vector; its meaning is stated by MeanBounds, MeanWithinMinMax, MeanScaled and MeanDifference: it lies between the bounds and the minimum and maximum of its entries, and is linear |
| Reductions.Min | chemical_potentials.py:142 | np.min of a non-empty window is one of its entries and no larger than any |
| Reductions.Max | chemical_potentials.py:142 | np.max of a non-empty window is one of its entries and no smaller than any |
| Reductions.Trunc | chemical_potentials.py:84 | astype(int) truncates toward zero: floor for non-negative values, ceiling for negative ones |
| Reductions.MeanWithinMinMax | chemical_potentials.py:141-142 | a window's mean lies between its minimum and its maximum |
| Filters.Select | chemical_potentials.py:67-68 | data[mask] keeps no more rows than it is given, and each kept row is an input row inside [low, high] on the column |
| Filters.SelectExact | chemical_potentials.py:67-68 | each row occurs in the selection exactly as often as in the input when it is inside the interval, and never otherwise |
| Filters.SelectAppend | chemical_potentials.py:67-68 | selecting from a concatenation is concatenating the selections: order and verdicts are per row |
| Filters.SelectKeeps | chemical_potentials.py:67-68 | a row inside the interval is among the rows data[mask] keeps |
| Filters.SelectKeepsAll | chemical_potentials.py:67-68 | when every row is inside the interval, the selection is the input unchanged |
| Filters.SelectCoversRun | chemical_potentials.py:67-68 | a run of consecutive rows inside the interval survives, so at least that many rows are kept |
| Filters.Fraction | chemical_potentials.py:70 | new_data.shape[0] / data.shape[0] lies in [0, 1], times the total gives the kept count, and is 1 when all are kept |
| Filters.Chunk | chemical_potentials.py:67-70 | on a non-empty table the chunk is a rectangular table of the same width holding exactly the selected rows, with p their fraction |
| Filters.Employ | chemical_potentials.py:40-70 | identity returns the data with p = 1; the chunk filter succeeds exactly when its axis column exists and the data is non-empty, fails with IndexError or ZeroDivision otherwise, and keeps only input rows inside the interval, with 0 <= p <= 1; a successful chunk filter's result is Chunk's on the axis column |
| Filters.ChunkCoveringAllIsIdentity | chemical_potentials.py:60-70 | a chunk whose interval contains every atom of a non-empty dataset gives the same result as the identity filter |
| TypePairs.Pairs | chemical_potentials.py:92 | combinations(range(n), 2); its meaning is stated by PairsLength, PairsValid, PairsComplete and PairsSorted: exactly the C(n, 2) pairs t1 < t2 < n, each once, in lexicographic order |
| TypePairs.PairsWithFacts | chemical_potentials.py:92 | the pairs (t1, t2), (t1, t2 + 1), ... below n are n - t2 in number, the k-th being (t1, t2 + k) |
| TypePairs.PairsLength | chemical_potentials.py:92-93 | combinations(range(n), 2) has C(n, 2) pairs: 2 * num_pairs == n * (n - 1) |
| TypePairs.PairsValid | chemical_potentials.py:92 | every enumerated pair (t1, t2) has t1 < t2 < n |
| TypePairs.PairsComplete | chemical_potentials.py:92 | every pair t1 < t2 < n is enumerated |
| TypePairs.PairsSorted | chemical_potentials.py:92 | the pairs come in strictly increasing lexicographic order, so without repeats |
| Estimator.OwnSpecies | chemical_potentials.py:84-109 | the energy column of an atom's own species, init_type truncated and less one under Python's index rules; used by OwnEnergiesSum and ReferenceFacts, and its failure is BuildSystem's IndexError |
| Estimator.Energies | chemical_potentials.py:87-88 | the rescaled occupying energies have one row per atom and one column per species |
| Estimator.PairMean | chemical_potentials.py:103 | the mean energy difference of a species pair; its meaning is stated by PairMeanRescaled, PairMeanScaled and PairRhsFacts: p times the difference of the two species' mean raw energies |
| Estimator.Concentrations | chemical_potentials.py:106 | the observed fraction of each species; its meaning is stated by ConcentrationBounds, ConcentrationTotal and ConcentrationEquation: each in [0, 1], summing to the known-species fraction |
| Estimator.ReferenceEnergy | chemical_potentials.py:109-110 | the mean own-species energy divided by the atom count; its meaning is stated by ReferenceFacts and ReferenceEquation: times N squared it is p times the summed raw own-species energies |
| Estimator.BuildSystem | chemical_potentials.py:82-110 | the system of the source and its errors in the source's order; its meaning is stated by SystemShape, PairEquation, ConcentrationEquation, ReferenceEquation, the shift lemmas and TwoSpeciesSolution, and AssembleSystem proves the in-place arrays equal to it |
| Estimator.CoefficientsFromEntries | chemical_potentials.py:96-106 | a matrix holding the pair entries row by row and then the concentrations is the coefficient matrix of the system |
| Estimator.RhsFromEntries | chemical_potentials.py:97-110 | a vector holding the pair means and then the reference entry is the right-hand side of the system |
| Estimator.SystemFromEntries | chemical_potentials.py:96-110 | arrays holding those entries are exactly the system BuildSystem describes |
| Estimator.FillPairRows | chemical_potentials.py:100-103 | after the loop, row j holds +1 at t1, -1 at t2 and 0 elsewhere for the j-th pair, b[j] holds the pair's mean energy difference, and the last row and entry are untouched |
| Estimator.AssembleSystem | chemical_potentials.py:82-110 | the arrays the source fills in place form BuildSystem's system, and each failing input fails with BuildSystem's error |
| Estimator.Estimate | chemical_potentials.py:73-113 | filter, build the system, solve: each stage's error ends it; its meaning is stated by EstimateLength and EstimateSucceeds, and GetChemicalPotentials computes it |
| Estimator.GetChemicalPotentials | chemical_potentials.py:73-113 | filter, build and solve: the result is Estimate's, including which error ends it |
| SystemProperties.SystemShape | chemical_potentials.py:93-97 | the system has C(n, 2) + 1 equations, each row with n = width - 4 coefficients |
| SystemProperties.PairRowFacts | chemical_potentials.py:100-102 | the j-th pair row has +1 at t1, -1 at t2, zero elsewhere, and sums to zero |
| SystemProperties.EnergyDifferences | chemical_potentials.py:87-103 | each rescaled energy difference of two species is p times the raw difference |
| SystemProperties.PairMeanRescaled | chemical_potentials.py:103 | the mean rescaled difference of two species is p times the mean raw difference |
| SystemProperties.PairMeanScaled | chemical_potentials.py:103 | the mean rescaled difference is p times the difference of the two species' mean energies |
| SystemProperties.PairRhsFacts | chemical_potentials.py:103 | b[j] is p times the difference of the mean energies of the j-th pair's species |
| SystemProperties.PairEquation | chemical_potentials.py:100-103 | pair equation j of the built system: its coefficients are those of the j-th pair, they sum to zero, and its right-hand side is p times the difference of the pair's mean energies |
| SystemProperties.SumExchange | chemical_potentials.py:106 | helper for IndicatorTotals: a matrix summed column by column equals the same matrix summed row by row |
| SystemProperties.ConcentrationBounds | chemical_potentials.py:106 | each concentration lies in [0, 1] |
| SystemProperties.IndicatorTotals | chemical_potentials.py:106 | counting atoms species by species counts each atom whose init_type names a species exactly once |
| SystemProperties.ConcentrationTotal | chemical_potentials.py:106 | the concentrations sum to the fraction of atoms whose init_type is one of the species |
| SystemProperties.ConcentrationEquation | chemical_potentials.py:106 | the last row of the built system holds the concentrations, each in [0, 1], summing to the known-species fraction, hence to 1 when every init_type is in 1..n |
| SystemProperties.OwnEnergiesSum | chemical_potentials.py:88-109 | the rescaled own-species energies sum to p times the raw ones |
| SystemProperties.ReferenceFacts | chemical_potentials.py:109-110 | the reference entry times N squared is p times the sum of the raw own-species energies (the mean divided once more by N) |
| SystemProperties.ReferenceEquation | chemical_potentials.py:110 | the last entry of the built system's b satisfies the same identity |
| SystemProperties.PairEquationShift | chemical_potentials.py:100-103 | adding the same d to every potential leaves each pair equation's left-hand side unchanged |
| SystemProperties.ConcentrationEquationShift | chemical_potentials.py:106 | when every init_type names a species, adding d to every potential moves the last equation's left-hand side by exactly d |
| SystemProperties.TwoByTwoScalar | chemical_potentials.py:113 | helper for TwoByTwo: the scalar algebra showing that [b1 + c1 b0, b1 - c0 b0] satisfies both equations |
| SystemProperties.TwoByTwoUniqueScalar | chemical_potentials.py:113 | helper for TwoByTwoUnique: the scalar converse, any pair satisfying both equations is [b1 + c1 b0, b1 - c0 b0] |
| SystemProperties.TwoByTwo | chemical_potentials.py:113 | the closed form [b1 + c1 b0, b1 - c0 b0] solves any system [[1, -1], [c0, c1]] with c0 + c1 = 1 exactly |
| SystemProperties.TwoByTwoUnique | chemical_potentials.py:113 | every exact solution of such a system is the closed form, so the square system has exactly one exact solution |
| SystemProperties.TwoSpeciesSolution | chemical_potentials.py:96-113 | with two species the built system is 2 x 2, and when every init_type is 1 or 2 a vector satisfies both of its equations exactly when it is the closed form |
| SystemProperties.EstimateLength | chemical_potentials.py:113 | a solver returning one value per column yields one potential per species |
| SystemProperties.EstimateSucceeds | chemical_potentials.py:80-113 | a filter that keeps some atoms of a table whose every init_type indexes a species always yields an estimate |
| Sorting.Insert | chemical_potentials.py:130 | inserting a row adds exactly that row to the multiset of rows |
| Sorting.InsertSorted | chemical_potentials.py:130 | inserting into rows sorted on the column keeps them sorted |
| Sorting.SortByColumn | chemical_potentials.py:130 | the sorted rows are a permutation of the input |
| Sorting.SortByColumnSorted | chemical_potentials.py:130 | the sorted rows are in non-decreasing order of the column |
| Sorting.PermutationValid | chemical_potentials.py:130 | a permutation of a rectangular table's rows is rectangular |
| Sorting.SortTable | chemical_potentials.py:130 | data[data[:, c].argsort()] has the same width, is a permutation of the rows, and is sorted on column c |
| ChunkSweep.Windows | chemical_potentials.py:135 | sliding_window_view of the sorted coordinates; its meaning is stated by WindowsShape: N - w + 1 windows, window i being coordinates i .. i + w - 1 |
| ChunkSweep.SetupError | chemical_potentials.py:130-139 | the failures before the loop, in the source's order; SweepSetup states that a successful sweep passed all of them |
| ChunkSweep.Collect | chemical_potentials.py:140-143 | the loop's estimates gathered in window order; its meaning is stated by CollectOk and CollectFirstError |
| ChunkSweep.WindowOutcome | chemical_potentials.py:140-143 | one iteration: an empty window fails in np.min, any other runs the estimator on its chunk with axis 2; EmptyWindowFails and EstimateWindow state it |
| ChunkSweep.WindowsShape | chemical_potentials.py:135 | sliding_window_view gives N - w + 1 windows, window i being coordinates i .. i + w - 1 |
| ChunkSweep.CollectOk | chemical_potentials.py:140-143 | the sweep's rows succeed exactly when every window's estimate does, and then are those estimates in window order |
| ChunkSweep.CollectFirstError | chemical_potentials.py:140-143 | the first failing window, after windows that succeed, ends the sweep with its own error |
| ChunkSweep.WindowOutcomes | chemical_potentials.py:140-143 | one outcome per window, and a window whose outcome succeeds is non-empty |
| ChunkSweep.WindowOutcomeAt | chemical_potentials.py:140-143 | helper for EstimateWindow, EmptyWindowFails and the SweepProperties lemmas: outcome i is that of window i |
| ChunkSweep.EmptyWindowFails | chemical_potentials.py:142 | an empty window fails with np.min's error |
| ChunkSweep.SortedCoordinates | chemical_potentials.py:131 | z_coords has one coordinate per atom |
| ChunkSweep.Centers | chemical_potentials.py:141 | one center per window |
| ChunkSweep.CentersStep | chemical_potentials.py:141 | helper for PlaceCenter: one more window adds its mean as one more center |
| ChunkSweep.SweepTable | chemical_potentials.py:130 | the sorted dataset is rectangular, of the same width and atom count |
| ChunkSweep.SweepOutcomes | chemical_potentials.py:140-143 | one outcome per window of the sweep |
| ChunkSweep.PlaceCenter | chemical_potentials.py:141 | writes the mean of window i into centers[i], changes nothing else, and extends the filled prefix of centers by one |
| ChunkSweep.WriteRow | chemical_potentials.py:143 | writes estimate i into row i of the potentials, leaves the other rows as they were, and extends the filled prefix by one |
| ChunkSweep.EstimateWindow | chemical_potentials.py:142-143 | runs the estimator on window i's chunk with axis 2, returns window i's outcome, on success writes it into row i, on failure leaves row i as it was, and never changes another row |
| ChunkSweep.VisitWindow | chemical_potentials.py:140-143 | one loop iteration: either window i is recorded in both arrays and every later entry of both keeps its value, or the sweep's result is the error it returns |
| ChunkSweep.FilledAll | chemical_potentials.py:138-143 | once every window is recorded, the potentials array holds the collected estimates and the centers array holds the centers |
| ChunkSweep.RunWindows | chemical_potentials.py:138-143 | the loop returns no error exactly when every window succeeds; then the arrays hold every center and every estimate, and otherwise it returns the first failing window's error |
| ChunkSweep.SweepResult | chemical_potentials.py:128-143 | lines 128-143 as one function; its meaning is stated by the SweepProperties lemmas (setup, shape, centers, potentials, success on z, failure of the fixed axis) and SweepChunks computes it |
| ChunkSweep.SweepChunks | chemical_potentials.py:128-143 | sort, window, preallocate and loop as the source does: the result is SweepResult's, including each error before the loop |
| SweepProperties.KeysSorted | chemical_potentials.py:130-131 | the sorted coordinates are non-decreasing |
| SweepProperties.SweepSetup | chemical_potentials.py:130-139 | a successful sweep passed the axis, window-shape and width checks: 0 <= w <= N and at least four columns |
| SweepProperties.SweepWindowsShape | chemical_potentials.py:135 | the sweep has N - w + 1 windows, window i being sorted coordinates i .. i + w - 1 |
| SweepProperties.SweepPotentials | chemical_potentials.py:140-143 | a successful sweep holds every window's estimate, in window order |
| SweepProperties.SweepCenters | chemical_potentials.py:141 | a successful sweep had no empty window and holds every window's mean, in window order |
| SweepProperties.SweepShape | chemical_potentials.py:138-139 | a successful sweep has N - w + 1 centers and rows, each row with one potential per species |
| SweepProperties.SweepCenter | chemical_potentials.py:141-142 | center i is the mean of sorted coordinates i .. i + w - 1; the window's min and max are the first and last of them, and the center lies between the two |
| SweepProperties.CentersIncrease | chemical_potentials.py:141 | consecutive centers never decrease |
| SweepProperties.ZChunkCoversWindow | chemical_potentials.py:142 | on the z axis the chunk of window i succeeds and contains each of the w atoms the window came from, so it keeps at least w atoms |
| SweepProperties.ZSweepSucceeds | chemical_potentials.py:130-143 | on the z axis, once the checks pass with w > 0 and every init_type indexes a species, every window's estimate succeeds |
| SweepProperties.ChunkAxisFixed | chemical_potentials.py:142 | sorting by x, a single atom's window selects nothing on z and the sweep fails with EmptySelection; the same sweep along z succeeds |

## Left out

- np.linalg.lstsq (line 113) is the parameter `solve`. Only its shape (one value per
  column) is assumed, so no property of the least-squares solution itself is proved. The
  two-species closed form is proved to satisfy the system exactly instead.
- Floating-point rounding, NaN and infinities are not modelled: the model computes over exact
  reals. A mean over zero atoms, which numpy turns into NaN, is the error `EmptySelection`.
- `np.loadtxt`, `np.savetxt`, the header built at lines 146-154 and `sys.argv` (lines 129-132)
  are I/O. The sweep takes the dataset, the axis and the window size as parameters and returns
  the centers and potentials instead of writing them.
- An axis name missing from the `axes` dictionary (a KeyError at line 130) cannot occur,
  because the axis is a three-valued datatype. `int(sys.argv[3])` is an `int` parameter.
- `occupying_energies *= p` (line 88) writes through a view into the filtered array. The
  chunk filter's boolean indexing returns a copy. The identity filter multiplies by 1, which
  changes nothing. So the caller's data is never changed, and the model computes the rescaled
  energies as a new value.
- The `Filter` abstract base class, the dataclass machinery and the default argument
  `IdentityFilter()` (lines 16-30, 73) are represented by the `Filters.Filter` datatype with
  its two cases.
- Sorting.SortTable: argsort's order among equal coordinates is not modelled. The model inserts
  each row before the first row with an equal or greater key. Only sortedness and permutation
  are proved, and the tie order matters only to rows with equal sort coordinates.
- The order of writes on a failing window is not modelled. The source writes `np.mean` of an
  empty window (NaN) into `window_centers` before `np.min` fails, while the model tests for an
  empty window first. No array is returned on an error, so the difference cannot be observed.
