/** The per-direction driver: start indices, one sweep line per start,
    the scatter of the multipliers into a buffer of ones, reassembly into a
    matrix and its smoothed companion; and the worker loop over this
    worker's share of the directions. */
module Topomult {

  import opened Results
  import opened GridIndexing
  import opened Directions
  import opened BoundaryIndexer
  import opened LineProcessor
  import opened GridAssembler
  import opened Smoother
  import opened Scheduler

  /** The elevation raster as the DEM reader hands it over; cells is the
      flattened elevation array. */
  datatype Grid = Grid(nrows: nat, ncols: nat, xllcorner: real, yllcorner: real,
                       cellsize: real, cells: seq<real>)

  /** The spacing of the samples along a line: cellsize for a cardinal
      direction and cellsize*sqrt(2) for a diagonal, the irrational factor
      kept symbolic as the diagonal flag. */
  datatype Spacing = Spacing(cellsize: real, diagonal: bool)

  /** make_path.make_path(nr, nc, start, direction), whose body is not
      part of this model. */
  type PathBuilder = (nat, nat, nat, Direction) -> seq<nat>

  /** multiplier_calc.multiplier_calc(line, data_spacing), whose body is not
      part of this model. */
  type MultiplierModel = (seq<real>, Spacing) -> seq<real>

  /** The raw and the smoothed multiplier grids of one direction. */
  datatype Multipliers = Multipliers(raw: Matrix, smoothed: Matrix)

  /** data_spacing: the DEM's cellsize, scaled by sqrt(2) exactly for the
      codes that name two edges, whose lines run diagonally. */
  function DataSpacing(g: Grid, d: Direction): (s: Spacing)
    ensures s.cellsize == g.cellsize
    ensures s.diagonal <==> (HasN(d) || HasS(d)) && (HasE(d) || HasW(d))
  {
    EdgesOfCode(d);
    Spacing(g.cellsize, IsDiagonal(d))
  }

  /** make_path for every start index, in the order np.unique lists them:
      one line per start, and every boundary cell on one of d's edges
      gets the line that begins there. */
  function SweepPaths(nr: nat, nc: nat, d: Direction, makePath: PathBuilder): (paths: seq<seq<nat>>)
    requires nr >= 1 && nc >= 1
    ensures |paths| == |StartIndices(nr, nc, d)|
    ensures forall j :: 0 <= j < |paths| ==> paths[j] == makePath(nr, nc, StartIndices(nr, nc, d)[j], d)
    ensures forall i :: OnStartEdge(i, nr, nc, d) ==>
      exists j :: 0 <= j < |paths| && paths[j] == makePath(nr, nc, i, d)
  {
    var starts := StartIndices(nr, nc, d);
    var paths := seq(|starts|, j requires 0 <= j < |starts| => makePath(nr, nc, starts[j], d));
    EveryStartHasPath(starts, paths, nr, nc, d, makePath);
    paths
  }

  lemma EveryStartHasPath(starts: seq<nat>, paths: seq<seq<nat>>, nr: nat, nc: nat, d: Direction,
                          makePath: PathBuilder)
    requires nr >= 1 && nc >= 1 && starts == StartIndices(nr, nc, d) && |paths| == |starts|
    requires forall j :: 0 <= j < |paths| ==> paths[j] == makePath(nr, nc, starts[j], d)
    ensures forall i :: OnStartEdge(i, nr, nc, d) ==>
      exists j :: 0 <= j < |paths| && paths[j] == makePath(nr, nc, i, d)
  {
    forall i | OnStartEdge(i, nr, nc, d)
      ensures exists j :: 0 <= j < |paths| && paths[j] == makePath(nr, nc, i, d)
    {
      var j :| 0 <= j < |starts| && starts[j] == i;
      assert paths[j] == makePath(nr, nc, i, d);
    }
  }

  /** The model with this direction's spacing fixed. */
  function LineModel(mult: MultiplierModel, s: Spacing): seq<real> -> seq<real> {
    line => mult(line, s)
  }

  /** topomult(input_dem, mh_data_dir, direction) without the file output:
      it fails with the first line that raises, or when the buffer cannot
      be reshaped to nc x nr; otherwise both grids have the DEM's shape. */
  function ProcessDirection(g: Grid, d: Direction, makePath: PathBuilder, mult: MultiplierModel): (r: Result<Multipliers>)
    requires g.nrows >= 1 && g.ncols >= 1
    ensures r.Ok? <==>
      LinesFit(g.cells, SweepPaths(g.nrows, g.ncols, d, makePath), LineModel(mult, DataSpacing(g, d)))
      && |g.cells| == g.nrows * g.ncols
    ensures r.Ok? ==> IsShape(r.value.raw, g.nrows, g.ncols) && IsShape(r.value.smoothed, g.nrows, g.ncols)
  {
    var nr, nc := g.nrows, g.ncols;
    var model := LineModel(mult, DataSpacing(g, d));
    var flat :- ProcessLines(Ones(|g.cells|), g.cells, SweepPaths(nr, nc, d, makePath), model);
    if |flat| != nr * nc then Err(ReshapeError(|flat|, nc, nr))
    else
      var raw := Reassemble(flat, nr, nc);
      Ok(Multipliers(raw, Smooth(raw, nr, nc)))
  }

  /** The model returns one multiplier per elevation, whatever the spacing. */
  ghost predicate PreservesLengthAtEverySpacing(mult: MultiplierModel) {
    forall line, s :: |mult(line, s)| == |line|
  }

  /** Cell (r, c) of raw holds the multiplier computed for the position of
      its flat index on one of the paths. */
  ghost predicate FromItsPath(raw: Matrix, cells: seq<real>, paths: seq<seq<nat>>,
                              model: seq<real> -> seq<real>, nr: nat, r: nat, c: nat)
    requires WellFormed(paths, |cells|)
  {
    exists j, k :: 0 <= j < |paths| && 0 <= k < |paths[j]| && paths[j][k] == Linear(r, c, nr) &&
      r < |raw| && c < |raw[r]| && k < |model(Profile(cells, paths[j]))| &&
      raw[r][c] == model(Profile(cells, paths[j]))[k]
  }

  /** The model with a fixed spacing keeps lengths when the model does. */
  lemma LineModelPreservesLength(mult: MultiplierModel, s: Spacing)
    requires PreservesLengthAtEverySpacing(mult)
    ensures LengthPreserving(LineModel(mult, s))
  {
    forall line
      ensures |LineModel(mult, s)(line)| == |line|
    {
      assert LineModel(mult, s)(line) == mult(line, s);
    }
  }

  /** On success the raw grid is the loop's buffer reassembled, and the
      smoothed grid is the raw grid smoothed. */
  lemma ProcessDirectionValue(g: Grid, d: Direction, makePath: PathBuilder, mult: MultiplierModel)
    requires g.nrows >= 1 && g.ncols >= 1
    requires ProcessDirection(g, d, makePath, mult).Ok?
    ensures ProcessLines(Ones(|g.cells|), g.cells, SweepPaths(g.nrows, g.ncols, d, makePath),
                         LineModel(mult, DataSpacing(g, d))).Ok?
    ensures var flat := ProcessLines(Ones(|g.cells|), g.cells, SweepPaths(g.nrows, g.ncols, d, makePath),
                                     LineModel(mult, DataSpacing(g, d))).value;
      |flat| == g.nrows * g.ncols &&
      ProcessDirection(g, d, makePath, mult).value.raw == Reassemble(flat, g.nrows, g.ncols) &&
      ProcessDirection(g, d, makePath, mult).value.smoothed == Smooth(Reassemble(flat, g.nrows, g.ncols), g.nrows, g.ncols)
  {
  }

  /** Reassembling a buffer whose every cell holds its line value puts at
      each (r, c) the value for cell r + c*nr. */
  lemma RawFromPaths(raw: Matrix, flat: seq<real>, cells: seq<real>, paths: seq<seq<nat>>,
                     model: seq<real> -> seq<real>, nr: nat, nc: nat)
    requires nr >= 1 && |flat| == nr * nc && |cells| == |flat| && WellFormed(paths, |cells|)
    requires raw == Reassemble(flat, nr, nc)
    requires forall i :: 0 <= i < |cells| ==> HoldsLineValue(flat, cells, paths, model, i)
    ensures forall r, c :: 0 <= r < nr && 0 <= c < nc ==> FromItsPath(raw, cells, paths, model, nr, r, c)
  {
    forall r, c | 0 <= r < nr && 0 <= c < nc
      ensures FromItsPath(raw, cells, paths, model, nr, r, c)
    {
      ReassembleEntry(flat, nr, nc, r, c);
      var i := Linear(r, c, nr);
      assert HoldsLineValue(flat, cells, paths, model, i);
      var j, k :| 0 <= j < |paths| && 0 <= k < |paths[j]| && paths[j][k] == i &&
        i < |flat| && k < |model(Profile(cells, paths[j]))| &&
        flat[i] == model(Profile(cells, paths[j]))[k];
      assert raw[r][c] == flat[i];
    }
  }

  /** If the sweep paths partition the grid, the direction succeeds and
      every cell of the raw grid holds the multiplier computed for it on
      the one line through it. */
  lemma ProcessDirectionPartition(g: Grid, d: Direction, makePath: PathBuilder, mult: MultiplierModel)
    requires g.nrows >= 1 && g.ncols >= 1 && |g.cells| == g.nrows * g.ncols
    requires Partition(SweepPaths(g.nrows, g.ncols, d, makePath), |g.cells|)
    requires PreservesLengthAtEverySpacing(mult)
    ensures ProcessDirection(g, d, makePath, mult).Ok?
    ensures forall r, c :: 0 <= r < g.nrows && 0 <= c < g.ncols ==>
      FromItsPath(ProcessDirection(g, d, makePath, mult).value.raw, g.cells,
                  SweepPaths(g.nrows, g.ncols, d, makePath), LineModel(mult, DataSpacing(g, d)), g.nrows, r, c)
  {
    var paths := SweepPaths(g.nrows, g.ncols, d, makePath);
    var model := LineModel(mult, DataSpacing(g, d));
    LineModelPreservesLength(mult, DataSpacing(g, d));
    ProcessLinesPartition(Ones(|g.cells|), g.cells, paths, model);
    ProcessDirectionValue(g, d, makePath, mult);
    RawFromPaths(ProcessDirection(g, d, makePath, mult).value.raw, ProcessLines(Ones(|g.cells|), g.cells, paths, model).value,
                 g.cells, paths, model, g.nrows, g.ncols);
  }

  /** A cell that no path visits keeps the sentinel value 1.0 of the
      initial buffer. */
  lemma UntouchedCellsStayOne(g: Grid, d: Direction, makePath: PathBuilder, mult: MultiplierModel, r: nat, c: nat)
    requires g.nrows >= 1 && g.ncols >= 1 && IsCell(r, c, g.nrows, g.ncols)
    requires ProcessDirection(g, d, makePath, mult).Ok?
    requires !OnSomePath(SweepPaths(g.nrows, g.ncols, d, makePath), Linear(r, c, g.nrows))
    ensures ProcessDirection(g, d, makePath, mult).value.raw[r][c] == 1.0
  {
    var nr, nc := g.nrows, g.ncols;
    var paths := SweepPaths(nr, nc, d, makePath);
    var model := LineModel(mult, DataSpacing(g, d));
    var buf := Ones(|g.cells|);
    ProcessDirectionValue(g, d, makePath, mult);
    var flat := ProcessLines(buf, g.cells, paths, model).value;
    ReassembleEntry(flat, nr, nc, r, c);
  }

  /** With a model that returns its input, a buffer whose every cell holds
      its line value is the data itself. */
  lemma IdentityFlat(flat: seq<real>, cells: seq<real>, paths: seq<seq<nat>>, model: seq<real> -> seq<real>)
    requires |flat| == |cells| && WellFormed(paths, |cells|)
    requires forall line :: model(line) == line
    requires forall i :: 0 <= i < |cells| ==> HoldsLineValue(flat, cells, paths, model, i)
    ensures flat == cells
  {
    forall i | 0 <= i < |cells|
      ensures flat[i] == cells[i]
    {
      assert HoldsLineValue(flat, cells, paths, model, i);
      var j, k :| 0 <= j < |paths| && 0 <= k < |paths[j]| && paths[j][k] == i &&
        i < |flat| && k < |model(Profile(cells, paths[j]))| &&
        flat[i] == model(Profile(cells, paths[j]))[k];
      assert model(Profile(cells, paths[j])) == Profile(cells, paths[j]);
    }
  }

  /** With the identity as multiplier model and paths that partition the
      grid, the raw output is the elevation grid itself, read in the same
      linear-index convention: start indices, scatter and reassembly agree
      on orientation. */
  lemma IdentityModelReproducesGrid(g: Grid, d: Direction, makePath: PathBuilder, mult: MultiplierModel)
    requires g.nrows >= 1 && g.ncols >= 1 && |g.cells| == g.nrows * g.ncols
    requires Partition(SweepPaths(g.nrows, g.ncols, d, makePath), |g.cells|)
    requires forall line, s :: mult(line, s) == line
    ensures ProcessDirection(g, d, makePath, mult).Ok?
    ensures ProcessDirection(g, d, makePath, mult).value.raw == Reassemble(g.cells, g.nrows, g.ncols)
  {
    var paths := SweepPaths(g.nrows, g.ncols, d, makePath);
    var model := LineModel(mult, DataSpacing(g, d));
    assert forall line :: model(line) == line by {
      forall line
        ensures model(line) == line
      {
        assert model(line) == mult(line, DataSpacing(g, d));
      }
    }
    LineModelPreservesLength(mult, DataSpacing(g, d));
    ProcessLinesPartition(Ones(|g.cells|), g.cells, paths, model);
    ProcessDirectionValue(g, d, makePath, mult);
    IdentityFlat(ProcessLines(Ones(|g.cells|), g.cells, paths, model).value, g.cells, paths, model);
  }

  /** Reassembling a one-cell buffer, and smoothing the one-cell matrix. */
  lemma SingleCellMatrices(m: real)
    ensures Reassemble([m], 1, 1) == [[m]]
    ensures Smooth([[m]], 1, 1) == [[(m + 8.0) / 9.0]]
  {
    var raw := Reassemble([m], 1, 1);
    assert |raw| == 1 && |raw[0]| == 1;
    assert raw[0][0] == m;
    assert raw[0] == [m];
    assert BoxSum([[m]], 0, 0) == m + 8.0;
    var sm := Smooth([[m]], 1, 1);
    assert sm[0][0] == (m + 8.0) / 9.0;
    assert sm[0] == [(m + 8.0) / 9.0];
  }

  /** The loop over the single path [0] of a one-cell grid writes the
      model's one value into the one-cell buffer. */
  lemma SingleCellLoop(cells: seq<real>, paths: seq<seq<nat>>, model: seq<real> -> seq<real>)
    requires |cells| == 1 && paths == [[0]] && |model([cells[0]])| == 1
    ensures ProcessLines(Ones(1), cells, paths, model) == Ok([model([cells[0]])[0]])
  {
    var m := model([cells[0]])[0];
    assert Profile(cells, [0]) == [cells[0]];
    var line := ProcessLine(Ones(1), cells, [0], model);
    assert line.Ok? && |line.value| == 1;
    assert line.value[0] == m;
    assert line.value == [m];
    assert ProcessLines(Ones(1), cells, paths, model) == ProcessLines(line.value, cells, paths[1..], model);
  }

  /** The sweep of a 1 x 1 grid is the single path that starts at 0. */
  lemma SingleCellPaths(g: Grid, d: Direction, makePath: PathBuilder)
    requires g.nrows == 1 && g.ncols == 1 && makePath(1, 1, 0, d) == [0]
    ensures SweepPaths(g.nrows, g.ncols, d, makePath) == [[0]]
  {
    SingleCellStarts(g.nrows, g.ncols, d);
  }

  /** A 1 x 1 grid whose single path is [0] and whose model turns the one
      elevation into the multiplier m: the raw grid is [[m]], and
      smoothing with the fill value 1 gives (m + 8)/9. */
  lemma SingleCellGrid(g: Grid, d: Direction, makePath: PathBuilder, mult: MultiplierModel, m: real)
    requires g.nrows == 1 && g.ncols == 1 && |g.cells| == 1
    requires makePath(1, 1, 0, d) == [0]
    requires mult([g.cells[0]], DataSpacing(g, d)) == [m]
    ensures ProcessDirection(g, d, makePath, mult).Ok?
    ensures ProcessDirection(g, d, makePath, mult).value == Multipliers([[m]], [[(m + 8.0) / 9.0]])
  {
    var paths := SweepPaths(g.nrows, g.ncols, d, makePath);
    var model := LineModel(mult, DataSpacing(g, d));
    SingleCellPaths(g, d, makePath);
    assert model([g.cells[0]]) == [m];
    SingleCellLoop(g.cells, paths, model);
    ProcessDirectionValue(g, d, makePath, mult);
    SingleCellMatrices(m);
  }

  // ---------------------------------------------------------------------
  // The worker loop

  /** for direction in balanced(directions): topomult(...), stopping at the
      first direction that raises. */
  function RunDirections(g: Grid, ds: seq<Direction>, makePath: PathBuilder, mult: MultiplierModel)
    : (r: Result<seq<Multipliers>>)
    requires g.nrows >= 1 && g.ncols >= 1
    ensures r.Ok? ==> |r.value| == |ds|
    ensures r.Ok? ==> forall k :: 0 <= k < |ds| ==> ProcessDirection(g, ds[k], makePath, mult) == Ok(r.value[k])
    ensures r.Err? ==> exists k :: 0 <= k < |ds| && ProcessDirection(g, ds[k], makePath, mult).Err?
  {
    if |ds| == 0 then Ok([])
    else
      var first :- ProcessDirection(g, ds[0], makePath, mult);
      var rest :- RunDirections(g, ds[1..], makePath, mult);
      Ok([first] + rest)
  }

  /** work(input_dem, mh_data_dir, directions) on one worker of the group. */
  function Work(grp: ProcessGroup, g: Grid, ds: seq<Direction>, makePath: PathBuilder, mult: MultiplierModel)
    : (r: Result<seq<Multipliers>>)
    requires grp.Valid() && g.nrows >= 1 && g.ncols >= 1
    ensures r.Ok? ==> |r.value| == |Balanced(ds, grp)|
    ensures r.Ok? ==> forall k :: 0 <= k < |r.value| ==>
      ProcessDirection(g, ds[PyRange.Range(grp.Rank(), |ds|, grp.Size())[k]], makePath, mult) == Ok(r.value[k])
  {
    RunDirections(g, Balanced(ds, grp), makePath, mult)
  }

  /** run() without pypar: the stand-in group's single worker runs all
      eight directions of the list in order, stopping at the first that
      raises. */
  lemma SerialRunCoversAll(g: Grid, makePath: PathBuilder, mult: MultiplierModel)
    requires g.nrows >= 1 && g.ncols >= 1
    ensures Work(DummyPypar, g, All, makePath, mult) == RunDirections(g, All, makePath, mult)
    ensures Work(DummyPypar, g, All, makePath, mult).Ok? ==>
      |Work(DummyPypar, g, All, makePath, mult).value| == 8 &&
      forall k :: 0 <= k < 8 ==>
        ProcessDirection(g, All[k], makePath, mult) == Ok(Work(DummyPypar, g, All, makePath, mult).value[k])
  {
    DummyTakesAll(All);
  }
}
