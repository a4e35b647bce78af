# Directional topographic multipliers: line sweep and reassembly

This project models the core of `topomult.py`, the driver that computes
directional topographic wind-speed multipliers from a DEM raster. For each
of the eight compass directions (`n s e w ne nw se sw`) it works in four steps:

- It collects the flat indices of the boundary cells where sweep lines start.
  These are the edges the direction code names, de-duplicated by `np.unique`.
  `np.unique` also sorts the start indices, and the loop visits them in that
  order.
- For each start it expands a path of flat indices and reads the elevation
  profile along it. The multiplier model is run on that profile, and the
  result is written back into a buffer of ones at the same indices.
- It reshapes the buffer to `(nc, nr)` and transposes it into an `nr x nc`
  matrix.
- It smooths that matrix with a 3 x 3 box kernel whose padding value is 1.

The directions are split statically across the workers of a process group:
worker `p` of `P` takes the positions `p, p+P, ...`. When pypar is missing,
a stand-in group with size 1 and rank 0 is used.

All components share one linear-index convention: cell `(row, col)` is flat
index `row + col*nr`. This convention is defined once, in `GridIndexing`.

Layout, one module per file:

- `NatArith`: division and remainder facts.
- `GridIndexing`: the linear-index convention.
- `PyRange`: Python's `range`.
- `NpUnique`: `np.unique`.
- `Directions`: the eight codes and the substring tests on them.
- `BoundaryIndexer`: start indices.
- `LineProcessor`: gather, multiplier and scatter, and the loop over the lines.
- `GridAssembler`: reshape and transpose.
- `Smoother`: the 3 x 3 box kernel.
- `Scheduler`: `balanced` and the process group.
- `Topomult`: the per-direction driver and the worker loop.
- `Results`: the raised errors, as a `Result` type.

`make_path.make_path` and `multiplier_calc.multiplier_calc` are not part of
this model. They are function-typed parameters, `PathBuilder` and
`MultiplierModel`. Every property that depends on them is stated under
explicit hypotheses:

- The paths partition the grid.
- The model preserves length.

The DEM reader is not part of this model either. Its result is the `Grid`
value passed in.

## Model

| member | source | states |
|---|---|---|
| Directions.Flags | py-files/topomult.py:79-86 | `n` is found in the codes n, ne, nw; `s` in s, se, sw; `e` in e, ne, se; `w` in w, nw, sw |
| Directions.EdgesOfCode | py-files/topomult.py:72-86 | a code is diagonal (length two) iff it names one north/south and one east/west edge; no code names opposite edges; every code names an edge |
| PyRange.Range | py-files/topomult.py:80-86 | `range(lo, hi, step)` lists `lo + k*step` for exactly those k whose value stays below hi |
| PyRange.RangeMembers | py-files/topomult.py:80-86 | x is listed iff `lo <= x < hi` and `x - lo` is a multiple of step |
| PyRange.RangeLength | py-files/topomult.py:80-86 | the range has n elements when n steps reach hi and n-1 do not |
| NpUnique.Unique | py-files/topomult.py:93 | `np.unique` returns a strictly increasing sequence with exactly the input's values |
| NpUnique.UniqueCount | py-files/topomult.py:88-93 | the result's length is the number of distinct input values, each kept once |
| NpUnique.IncreasingUnique | py-files/topomult.py:93 | two strictly increasing sequences with the same values are equal, so the sorted de-duplicated list is unique |
| BoundaryIndexer.NorthEdgeMembers | py-files/topomult.py:79-80 | the `n` edge lists exactly the in-grid indices with `i % nr == 0` |
| BoundaryIndexer.SouthEdgeMembers | py-files/topomult.py:81-82 | the `s` edge lists exactly the in-grid indices with `i % nr == nr-1` |
| BoundaryIndexer.EastEdgeMembers | py-files/topomult.py:83-84 | the `e` edge lists exactly the in-grid indices with `i / nr == nc-1` |
| BoundaryIndexer.WestEdgeMembers | py-files/topomult.py:85-86 | the `w` edge lists exactly the in-grid indices with `i / nr == 0` |
| BoundaryIndexer.RawStartIndices | py-files/topomult.py:78-86 | the edges appended to `strt_idx`, before `np.unique`, list exactly the in-grid cells on the edges the code names |
| BoundaryIndexer.StartIndices | py-files/topomult.py:78-93 | the start indices are strictly increasing, so they have no duplicates; an index is a start iff it lies in the grid on one of the edges the code names, so a diagonal's set is the union of its two edges' sets |
| BoundaryIndexer.EdgeCounts | py-files/topomult.py:80-86 | the top and bottom rows list nc distinct cells, the side columns list nr |
| BoundaryIndexer.StartIndicesCount | py-files/topomult.py:79-93 | there are nc lines for `n`/`s`, nr for `e`/`w`, and nr+nc-1 for a diagonal |
| BoundaryIndexer.CornerShared | py-files/topomult.py:88-92 | a row edge and a column edge share exactly their corner cell |
| BoundaryIndexer.DiagonalCornerDeduplicated | py-files/topomult.py:88-93 | for a diagonal the appended edges list the corner twice, and after `np.unique` it is listed once |
| BoundaryIndexer.SingleCellStarts | py-files/topomult.py:78-93 | on a 1 x 1 grid every direction has the single start index 0 |
| BoundaryIndexer.WestStartsOnThreeByThree | py-files/topomult.py:85-93 | on a 3 x 3 grid direction `w` starts at 0, 1, 2 |
| GridIndexing.LinearRoundTrip | py-files/topomult.py:116-117 | every cell's flat index `row + col*nr` is in the grid and decodes to `(i % nr, i / nr)` = the same cell |
| GridIndexing.CellRoundTrip | py-files/topomult.py:116-117 | every in-grid flat index decodes to a cell whose index is the same, so `i -> (i % nr, i / nr)` is a bijection |
| LineProcessor.Ones | py-files/topomult.py:77 | the buffer has one cell per data value, all equal to 1.0 |
| LineProcessor.Gather | py-files/topomult.py:104 | `data[path]` fails iff an index is out of range; otherwise entry k is `data[path[k]]` |
| LineProcessor.WriteAll | py-files/topomult.py:110 | `buf[path] = vals` keeps the length; cells off the path keep their value; on a duplicate-free path, cell `path[k]` gets `vals[k]` |
| LineProcessor.ProcessLine | py-files/topomult.py:104-110 | one line succeeds iff its path is in range and the model's result matches its length; then the frame holds and, on a duplicate-free path, cell `path[k]` gets `M[k]` |
| LineProcessor.ProcessLines | py-files/topomult.py:96-111 | the loop succeeds iff every line fits; it keeps the buffer length; it leaves cells on no path untouched |
| LineProcessor.PartitionWritesOnce | py-files/topomult.py:96-111 | if the paths partition the cells, every cell is assigned exactly once |
| LineProcessor.ProcessLinesValues | py-files/topomult.py:96-111 | with disjoint duplicate-free paths, cell `paths[j][k]` ends with the model's k-th value for path j, so later lines never overwrite it |
| LineProcessor.ProcessLinesPartition | py-files/topomult.py:96-111 | if the paths partition the cells and the model preserves length, the loop succeeds and every cell holds the value for its position on its unique path |
| LineProcessor.WriteBackProfile | py-files/topomult.py:104-110 | writing a path's own profile back leaves the data unchanged, so the scatter undoes the gather |
| GridAssembler.Reassemble | py-files/topomult.py:116-117 | the matrix is nr x nc, and flat index i lands at row `i % nr`, column `i / nr` |
| GridAssembler.ReassembleEntry | py-files/topomult.py:116-117 | entry `(r, c)` is `flat[r + c*nr]`, the convention the start indices use |
| GridAssembler.FlattenReassemble | py-files/topomult.py:116-117 | flattening the reassembled matrix in column-major order gives back the buffer |
| GridAssembler.ReassembleFlatten | py-files/topomult.py:116-117 | reassembling a column-major flattening gives back the matrix |
| Smoother.Smooth | py-files/topomult.py:151-154 | mode `'same'`: the smoothed matrix has the input's shape |
| Smoother.ConstantNeighbourhoodFixed | py-files/topomult.py:151-154 | a cell whose 3 x 3 neighbourhood (padding included) is constant v stays v |
| Smoother.OnesFixed | py-files/topomult.py:151-154 | because the fill value is 1, an all-ones matrix is a fixed point |
| Smoother.SmoothBounded | py-files/topomult.py:151-154 | if all entries and the fill value 1 lie in [lo, hi], so do all results |
| Smoother.ConstantCorner | py-files/topomult.py:151-154 | the corner of a constant-v matrix of at least 2 x 2 becomes (4v + 5)/9, showing the fill value at edges |
| Scheduler.DummyIsSingleWorker | py-files/topomult.py:196-207 | the stand-in group is valid, with size 1 and rank 0 |
| Scheduler.Islice | py-files/topomult.py:178 | `islice(xs, start, None, step)` lists `xs` at the positions `range(start, len(xs), step)` lists, in order |
| Scheduler.Balanced | py-files/topomult.py:168-178 | `balanced` gives worker `rank` of `size` one item per position of `range(rank, len, size)`; item k is `xs[rank + k*size]` |
| Scheduler.OwnerOfPosition | py-files/topomult.py:168-178 | position i belongs to worker p iff `i % P == p`, so each direction goes to exactly one worker |
| Scheduler.BalancedPositions | py-files/topomult.py:168-178 | worker p receives the items at positions congruent to p mod P, at strictly increasing positions |
| Scheduler.SharesDifferByAtMostOne | py-files/topomult.py:168-178 | a lower rank gets as many items as a higher rank, or one more |
| Scheduler.DummyTakesAll | py-files/topomult.py:196-207 | with the stand-in group the single worker takes the whole list |
| Topomult.DataSpacing | py-files/topomult.py:72-75 | the spacing keeps the DEM's cellsize and takes the `sqrt(2)` factor exactly for codes naming one north/south and one east/west edge |
| Topomult.SweepPaths | py-files/topomult.py:93-101 | one `make_path` line per start index, in the sorted order; every boundary cell on one of the code's edges gets the line that starts there |
| Topomult.ProcessDirection | py-files/topomult.py:42-154 | `topomult` for one direction succeeds iff every line fits and the buffer has nr*nc cells; then both grids are nr x nc |
| Topomult.ProcessDirectionPartition | py-files/topomult.py:77-117 | if the sweep paths partition the grid and the model preserves length, every cell of the raw grid holds the multiplier for its position on the one line through it |
| Topomult.UntouchedCellsStayOne | py-files/topomult.py:77-117 | a cell that no path visits keeps the sentinel 1.0 |
| Topomult.IdentityModelReproducesGrid | py-files/topomult.py:96-117 | with the identity model and partitioning paths, the raw grid equals the input reassembled in the same convention |
| Topomult.SingleCellMatrices | py-files/topomult.py:116-154 | a one-cell buffer reassembles to `[[m]]` and smooths to `[[(m + 8)/9]]` |
| Topomult.SingleCellGrid | py-files/topomult.py:77-154 | a 1 x 1 grid whose path is `[0]` and whose model returns `[m]` succeeds with raw `[[m]]` and smoothed `[[(m + 8)/9]]` |
| Topomult.RunDirections | py-files/topomult.py:36-40 | the worker loop succeeds with one result per direction, each equal to that direction's run; it fails only if some direction fails |
| Topomult.Work | py-files/topomult.py:36-40 | a worker's results are the runs of the directions at its positions `range(rank, len, size)` |
| Topomult.SerialRunCoversAll | py-files/topomult.py:196-224 | without pypar, `work` on the list `run()` passes (lines 223-224) runs all eight directions in order; on success there are eight results, the k-th being direction k's run |

## Left out

- File and log output is not modelled: `os.makedirs`, the six-line header, `np.savetxt` with `%4.2f`, and every `log.*` call. These are I/O and text formatting of floats.
- The DEM reader `ascii_read.ElevationData` is not part of this model. Its result is the `Grid` argument.
- `make_path.make_path` and `multiplier_calc.multiplier_calc` are not part of this model. They are parameters, and no step or stop formula is assumed. The partition invariant and the length contract are hypotheses of the lemmas, not facts.
- The orientation of the input is not modelled. `DEM.data.flatten()` is row-major, while lines 80-86 and 116-117 assume `row + col*nr`. Without the reader, only the internal convention shared by start indices, paths and reassembly is verified. No end-to-end orientation claim starts from line 59.
- `data_spacing` keeps the factor `sqrt(2)` symbolic: `Spacing(cellsize, diagonal)`, with `diagonal` iff the code has length 2. Floating-point numerics are not modelled.
- `M.conj().transpose()` and `M[0,]` are treated as a plain sequence of reals.
- LineProcessor.ProcessLine: numpy broadcasting is not modelled. A model result of length 1 broadcasts onto a path of any length at line 110, including an empty path, onto which it writes nothing. The model reports these cases as `LengthMismatch` like every other difference between the result's length and the path's length. A mismatch whose result does not have length 1 raises numpy's assignment error at line 110, and `LengthMismatch` models that error.
- Indices are natural numbers, so numpy's wrap-around of negative indices is not modelled. The float dtype that `np.append` gives `strt_idx` is not modelled either.
- `convolve2d` is modelled as its exact 3 x 3 average over reals, not IEEE arithmetic.
- The parallel runtime is not modelled: the `pypar` import, `global pp`, `barrier()`, the logging set-up in `run()` and the per-rank log file name. Only the rank/size slicing and the stand-in group are modelled.
- `getDirections` is not modelled separately. It yields the same `balanced` slice with a log line.
- The commented-out validation of the direction code (lines 31-34) is not live code. Directions are a datatype, so there are no invalid codes.
- Grids with no cells are outside the model: every operation requires `nr >= 1` and `nc >= 1`. With `nr = 0`, the codes containing `n` or `s` call `range` with step 0, `range(0, 0, 0)` at line 80 or `range(-1, 0, 0)` at line 82, and that raises `ValueError`. The codes `e` and `w` then build no start at all. With `nc = 0`, the data array of line 59 is empty, so any line whose path is non-empty raises `IndexError` at line 104.
