/** The flat indices of the boundary cells where the sweep lines of one
    direction begin, collected edge by edge and then passed through
    np.unique. */
module BoundaryIndexer {

  import opened NatArith
  import opened GridIndexing
  import opened PyRange
  import opened NpUnique
  import opened Directions

  /** range(0, nr*nc, nr): the top row, one cell per column. */
  function NorthEdge(nr: nat, nc: nat): seq<nat>
    requires nr >= 1
  {
    Range(0, nr * nc, nr)
  }

  /** range(nr-1, nr*nc, nr): the bottom row, one cell per column. */
  function SouthEdge(nr: nat, nc: nat): seq<nat>
    requires nr >= 1
  {
    Range(nr - 1, nr * nc, nr)
  }

  /** range((nc-1)*nr, nr*nc): the rightmost column, one cell per row. */
  function EastEdge(nr: nat, nc: nat): seq<nat>
    requires nc >= 1
  {
    Range((nc - 1) * nr, nr * nc, 1)
  }

  /** range(0, nr): the leftmost column, one cell per row. */
  function WestEdge(nr: nat, nc: nat): seq<nat> {
    Range(0, nr, 1)
  }

  /** The edges appended to strt_idx, in the order of the four tests,
      before de-duplication: exactly the cells on the edges d names. */
  function RawStartIndices(nr: nat, nc: nat, d: Direction): (r: seq<nat>)
    requires nr >= 1 && nc >= 1
    ensures forall i :: i in r <==> OnStartEdge(i, nr, nc, d)
  {
    AllEdgeMembers(nr, nc);
    (if HasN(d) then NorthEdge(nr, nc) else [])
    + (if HasS(d) then SouthEdge(nr, nc) else [])
    + (if HasE(d) then EastEdge(nr, nc) else [])
    + (if HasW(d) then WestEdge(nr, nc) else [])
  }

  /** i is a boundary cell on one of the edges that d's code names. */
  predicate OnStartEdge(i: nat, nr: nat, nc: nat, d: Direction)
    requires nr >= 1
  {
    InGrid(i, nr, nc)
    && ((HasN(d) && Row(i, nr) == 0)
        || (HasS(d) && Row(i, nr) == nr - 1)
        || (HasE(d) && Col(i, nr) == nc - 1)
        || (HasW(d) && Col(i, nr) == 0))
  }

  /** The start indices of direction d: strictly increasing, and exactly
      the in-grid cells on the edges d's code names. */
  function StartIndices(nr: nat, nc: nat, d: Direction): (r: seq<nat>)
    requires nr >= 1 && nc >= 1
    ensures StrictlyIncreasing(r)
    ensures forall i :: i in r <==> OnStartEdge(i, nr, nc, d)
  {
    Unique(RawStartIndices(nr, nc, d))
  }

  // ---------------------------------------------------------------------
  // Edges, one at a time

  lemma NorthEdgeMembers(nr: nat, nc: nat, i: nat)
    requires nr >= 1
    ensures i in NorthEdge(nr, nc) <==> InGrid(i, nr, nc) && Row(i, nr) == 0
  {
    RangeMembers(0, nr * nc, nr, i);
  }

  lemma SouthEdgeMembers(nr: nat, nc: nat, i: nat)
    requires nr >= 1
    ensures i in SouthEdge(nr, nc) <==> InGrid(i, nr, nc) && Row(i, nr) == nr - 1
  {
    RangeMembers(nr - 1, nr * nc, nr, i);
    if nr - 1 <= i {
      // i - (nr-1) is a multiple of nr exactly when i leaves remainder nr-1
      var x := i - (nr - 1);
      var q := x / nr;
      var m := x % nr;
      assert x == q * nr + m;
      if m == 0 {
        DivModUnique(i, nr, nr - 1, q);
      } else {
        assert (q + 1) * nr == q * nr + nr;
        DivModUnique(i, nr, m - 1, q + 1);
      }
    } else {
      DivModUnique(i, nr, i, 0);
    }
  }

  lemma EastEdgeMembers(nr: nat, nc: nat, i: nat)
    requires nr >= 1 && nc >= 1
    ensures i in EastEdge(nr, nc) <==> InGrid(i, nr, nc) && Col(i, nr) == nc - 1
  {
    var lo := (nc - 1) * nr;
    assert nr * nc == lo + nr by {
      assert nc == (nc - 1) + 1;
    }
    RangeMembers(lo, nr * nc, 1, i);
    if lo <= i < lo + nr {
      assert (i - lo) % 1 == 0;
      DivModUnique(i, nr, i - lo, nc - 1);
    } else if i < lo {
      EastEdgeBelow(nr, nc, i);
    }
  }

  /** An index before the rightmost column's first cell is in an earlier
      column. */
  lemma EastEdgeBelow(nr: nat, nc: nat, i: nat)
    requires nr >= 1 && nc >= 1 && i < (nc - 1) * nr
    ensures Col(i, nr) != nc - 1
  {
  }

  lemma WestEdgeMembers(nr: nat, nc: nat, i: nat)
    requires nr >= 1 && nc >= 1
    ensures i in WestEdge(nr, nc) <==> InGrid(i, nr, nc) && Col(i, nr) == 0
  {
    RangeMembers(0, nr, 1, i);
    MulMonotone(1, nc, nr);
    if i < nr {
      DivModUnique(i, nr, i, 0);
    } else {
      DivModUnique(i, nr, i % nr, i / nr);
    }
  }

  // ---------------------------------------------------------------------
  // Counts

  /** The top and bottom rows list nc cells, the side columns nr cells,
      and no edge lists a cell twice. */
  lemma EdgeCounts(nr: nat, nc: nat)
    requires nr >= 1 && nc >= 1
    ensures |Elems(NorthEdge(nr, nc))| == |NorthEdge(nr, nc)| == nc
    ensures |Elems(SouthEdge(nr, nc))| == |SouthEdge(nr, nc)| == nc
    ensures |Elems(EastEdge(nr, nc))| == |EastEdge(nr, nc)| == nr
    ensures |Elems(WestEdge(nr, nc))| == |WestEdge(nr, nc)| == nr
  {
    assert nr * nc == (nc - 1) * nr + nr;
    RangeLength(0, nr * nc, nr, nc);
    RangeLength(nr - 1, nr * nc, nr, nc);
    RangeLength((nc - 1) * nr, nr * nc, 1, nr);
    RangeLength(0, nr, 1, nr);
    RangeIncreasing(0, nr * nc, nr);
    RangeIncreasing(nr - 1, nr * nc, nr);
    RangeIncreasing((nc - 1) * nr, nr * nc, 1);
    RangeIncreasing(0, nr, 1);
    IncreasingCard(NorthEdge(nr, nc));
    IncreasingCard(SouthEdge(nr, nc));
    IncreasingCard(EastEdge(nr, nc));
    IncreasingCard(WestEdge(nr, nc));
  }

  /** A row edge and a column edge share exactly their corner cell. */
  lemma CornerShared(rows: seq<nat>, cols: seq<nat>, nr: nat, nc: nat, row: nat, col: nat)
    requires nr >= 1 && IsCell(row, col, nr, nc)
    requires forall i :: i in rows <==> InGrid(i, nr, nc) && Row(i, nr) == row
    requires forall i :: i in cols <==> InGrid(i, nr, nc) && Col(i, nr) == col
    ensures Elems(rows) * Elems(cols) == {Linear(row, col, nr)}
  {
    LinearRoundTrip(row, col, nr, nc);
    forall i | i in Elems(rows) * Elems(cols)
      ensures i == Linear(row, col, nr)
    {
      CellRoundTrip(i, nr, nc);
    }
  }

  /** Which edges make up the raw list of each direction. */
  lemma RawShape(nr: nat, nc: nat, d: Direction)
    requires nr >= 1 && nc >= 1
    ensures RawStartIndices(nr, nc, d) ==
      match d
      case N => NorthEdge(nr, nc)
      case S => SouthEdge(nr, nc)
      case E => EastEdge(nr, nc)
      case W => WestEdge(nr, nc)
      case NE => NorthEdge(nr, nc) + EastEdge(nr, nc)
      case NW => NorthEdge(nr, nc) + WestEdge(nr, nc)
      case SE => SouthEdge(nr, nc) + EastEdge(nr, nc)
      case SW => SouthEdge(nr, nc) + WestEdge(nr, nc)
  {
    Flags(d);
    var n, so, e, w := NorthEdge(nr, nc), SouthEdge(nr, nc), EastEdge(nr, nc), WestEdge(nr, nc);
    assert n + [] == n && so + [] == so && e + [] == e && w + [] == w;
    assert [] + e == e && [] + w == w && [] + so == so;
  }

  /** A row edge followed by a column edge lists one value fewer than the
      two edges together: the corner they share. */
  lemma TwoEdgeCount(rows: seq<nat>, cols: seq<nat>, nr: nat, nc: nat, row: nat, col: nat)
    requires nr >= 1 && IsCell(row, col, nr, nc)
    requires forall i :: i in rows <==> InGrid(i, nr, nc) && Row(i, nr) == row
    requires forall i :: i in cols <==> InGrid(i, nr, nc) && Col(i, nr) == col
    ensures |Elems(rows + cols)| == |Elems(rows)| + |Elems(cols)| - 1
  {
    assert Elems(rows + cols) == Elems(rows) + Elems(cols);
    CornerShared(rows, cols, nr, nc, row, col);
  }

  /** Membership of the four edges, for all indices at once. */
  lemma AllEdgeMembers(nr: nat, nc: nat)
    requires nr >= 1 && nc >= 1
    ensures forall i :: i in NorthEdge(nr, nc) <==> InGrid(i, nr, nc) && Row(i, nr) == 0
    ensures forall i :: i in SouthEdge(nr, nc) <==> InGrid(i, nr, nc) && Row(i, nr) == nr - 1
    ensures forall i :: i in EastEdge(nr, nc) <==> InGrid(i, nr, nc) && Col(i, nr) == nc - 1
    ensures forall i :: i in WestEdge(nr, nc) <==> InGrid(i, nr, nc) && Col(i, nr) == 0
  {
    forall i
      ensures i in NorthEdge(nr, nc) <==> InGrid(i, nr, nc) && Row(i, nr) == 0
      ensures i in SouthEdge(nr, nc) <==> InGrid(i, nr, nc) && Row(i, nr) == nr - 1
      ensures i in EastEdge(nr, nc) <==> InGrid(i, nr, nc) && Col(i, nr) == nc - 1
      ensures i in WestEdge(nr, nc) <==> InGrid(i, nr, nc) && Col(i, nr) == 0
    {
      NorthEdgeMembers(nr, nc, i);
      SouthEdgeMembers(nr, nc, i);
      EastEdgeMembers(nr, nc, i);
      WestEdgeMembers(nr, nc, i);
    }
  }

  /** The number of sweep lines: nc for n and s, nr for e and w, and
      nr + nc - 1 for a diagonal, whose two edges share one corner that
      np.unique keeps once. */
  lemma StartIndicesCount(nr: nat, nc: nat, d: Direction)
    requires nr >= 1 && nc >= 1
    ensures |StartIndices(nr, nc, d)| ==
      (if IsDiagonal(d) then nr + nc - 1
       else if HasN(d) || HasS(d) then nc
       else nr)
  {
    var raw := RawStartIndices(nr, nc, d);
    UniqueCount(raw);
    EdgeCounts(nr, nc);
    RawShape(nr, nc, d);
    AllEdgeMembers(nr, nc);
    EdgesOfCode(d);
    match d
    case N =>
    case S =>
    case E =>
    case W =>
    case NE =>
      TwoEdgeCount(NorthEdge(nr, nc), EastEdge(nr, nc), nr, nc, 0, nc - 1);
    case NW =>
      TwoEdgeCount(NorthEdge(nr, nc), WestEdge(nr, nc), nr, nc, 0, 0);
    case SE =>
      TwoEdgeCount(SouthEdge(nr, nc), EastEdge(nr, nc), nr, nc, nr - 1, nc - 1);
    case SW =>
      TwoEdgeCount(SouthEdge(nr, nc), WestEdge(nr, nc), nr, nc, nr - 1, 0);
  }

  // ---------------------------------------------------------------------
  // The shared corner of a diagonal

  /** The top or bottom row, whichever d's code names (the bottom one
      when it names neither). */
  function RowEdge(nr: nat, nc: nat, d: Direction): seq<nat>
    requires nr >= 1
  {
    if HasN(d) then NorthEdge(nr, nc) else SouthEdge(nr, nc)
  }

  /** The rightmost or leftmost column, whichever d's code names (the
      leftmost one when it names neither). */
  function ColEdge(nr: nat, nc: nat, d: Direction): seq<nat>
    requires nr >= 1 && nc >= 1
  {
    if HasE(d) then EastEdge(nr, nc) else WestEdge(nr, nc)
  }

  /** The corner cell where the two edges of a diagonal meet. */
  function Corner(nr: nat, nc: nat, d: Direction): nat
    requires nr >= 1 && nc >= 1
  {
    Linear(if HasN(d) then 0 else nr - 1, if HasE(d) then nc - 1 else 0, nr)
  }

  /** A diagonal sweeps from its row edge and then its column edge. */
  lemma DiagonalEdges(nr: nat, nc: nat, d: Direction)
    requires nr >= 1 && nc >= 1 && IsDiagonal(d)
    ensures RawStartIndices(nr, nc, d) == RowEdge(nr, nc, d) + ColEdge(nr, nc, d)
  {
    RawShape(nr, nc, d);
    EdgesOfCode(d);
    match d
    case NE => assert Code(d) == ['n', 'e'];
    case NW => assert Code(d) == ['n', 'w'];
    case SE => assert Code(d) == ['s', 'e'];
    case SW => assert Code(d) == ['s', 'w'];
  }

  /** The corner lies on the row edge, which lists no value twice. */
  lemma CornerOnRowEdge(nr: nat, nc: nat, d: Direction)
    requires nr >= 1 && nc >= 1
    ensures StrictlyIncreasing(RowEdge(nr, nc, d))
    ensures Corner(nr, nc, d) in RowEdge(nr, nc, d)
  {
    LinearRoundTrip(if HasN(d) then 0 else nr - 1, if HasE(d) then nc - 1 else 0, nr, nc);
    if HasN(d) {
      NorthEdgeMembers(nr, nc, Corner(nr, nc, d));
      RangeIncreasing(0, nr * nc, nr);
    } else {
      SouthEdgeMembers(nr, nc, Corner(nr, nc, d));
      RangeIncreasing(nr - 1, nr * nc, nr);
    }
  }

  /** The corner lies on the column edge, which lists no value twice. */
  lemma CornerOnColEdge(nr: nat, nc: nat, d: Direction)
    requires nr >= 1 && nc >= 1
    ensures StrictlyIncreasing(ColEdge(nr, nc, d))
    ensures Corner(nr, nc, d) in ColEdge(nr, nc, d)
  {
    LinearRoundTrip(if HasN(d) then 0 else nr - 1, if HasE(d) then nc - 1 else 0, nr, nc);
    if HasE(d) {
      EastEdgeMembers(nr, nc, Corner(nr, nc, d));
      RangeIncreasing((nc - 1) * nr, nr * nc, 1);
    } else {
      WestEdgeMembers(nr, nc, Corner(nr, nc, d));
      RangeIncreasing(0, nr, 1);
    }
  }

  /** Two duplicate-free edges that both list the corner list it twice
      together; np.unique lists it once. */
  lemma CornerTwiceThenOnce(rows: seq<nat>, cols: seq<nat>, corner: nat)
    requires StrictlyIncreasing(rows) && StrictlyIncreasing(cols)
    requires corner in rows && corner in cols
    ensures multiset(rows + cols)[corner] == 2
    ensures multiset(Unique(rows + cols))[corner] == 1
  {
    OnceInIncreasing(rows, corner);
    OnceInIncreasing(cols, corner);
    assert multiset(rows + cols) == multiset(rows) + multiset(cols);
    assert corner in rows + cols;
    UniqueCount(rows + cols);
  }

  /** For a diagonal the appended edges list the corner twice; after
      np.unique it is listed once. */
  lemma DiagonalCornerDeduplicated(nr: nat, nc: nat, d: Direction)
    requires nr >= 1 && nc >= 1 && IsDiagonal(d)
    ensures multiset(RawStartIndices(nr, nc, d))[Corner(nr, nc, d)] == 2
    ensures multiset(StartIndices(nr, nc, d))[Corner(nr, nc, d)] == 1
  {
    DiagonalEdges(nr, nc, d);
    CornerOnRowEdge(nr, nc, d);
    CornerOnColEdge(nr, nc, d);
    CornerTwiceThenOnce(RowEdge(nr, nc, d), ColEdge(nr, nc, d), Corner(nr, nc, d));
  }

  // ---------------------------------------------------------------------
  // Small grids

  /** On a 1 x 1 grid the only cell lies on every edge. */
  lemma SingleCellOnEdge(i: nat, nr: nat, nc: nat, d: Direction)
    requires nr == 1 && nc == 1
    ensures OnStartEdge(i, nr, nc, d) <==> i == 0
  {
    EdgesOfCode(d);
    assert nr * nc == 1;
    assert Row(0, nr) == 0 && Col(0, nr) == 0;
  }

  /** The start indices are the one strictly increasing sequence that
      lists exactly the cells on d's edges. */
  lemma StartIndicesAre(nr: nat, nc: nat, d: Direction, s: seq<nat>)
    requires nr >= 1 && nc >= 1 && StrictlyIncreasing(s)
    requires forall i :: i in s <==> OnStartEdge(i, nr, nc, d)
    ensures StartIndices(nr, nc, d) == s
  {
    IncreasingUnique(StartIndices(nr, nc, d), s);
  }

  /** A 1 x 1 grid has a single sweep line, starting at its only cell, in
      every direction. */
  lemma SingleCellStarts(nr: nat, nc: nat, d: Direction)
    requires nr == 1 && nc == 1
    ensures StartIndices(nr, nc, d) == [0]
  {
    forall i
      ensures i in [0] <==> OnStartEdge(i, nr, nc, d)
    {
      SingleCellOnEdge(i, nr, nc, d);
    }
    StartIndicesAre(nr, nc, d, [0]);
  }

  /** On a 3 x 3 grid an index is on the leftmost column iff it is below 3. */
  lemma WestOnThreeByThree(i: nat, nr: nat, nc: nat)
    requires nr == 3 && nc == 3
    ensures OnStartEdge(i, nr, nc, W) <==> i < 3
  {
    assert Code(W) == ['w'];
    assert !HasN(W) && !HasS(W) && !HasE(W) && HasW(W);
    assert nr * nc == 9;
    if i < nr {
      DivModUnique(i, nr, i, 0);
    } else {
      assert i == Row(i, nr) + Col(i, nr) * nr;
    }
  }

  /** On a 3 x 3 grid the west-to-east lines start at the three cells of
      the leftmost column, flat indices 0, 1 and 2. */
  lemma WestStartsOnThreeByThree(nr: nat, nc: nat)
    requires nr == 3 && nc == 3
    ensures StartIndices(nr, nc, W) == [0, 1, 2]
  {
    var s: seq<nat> := [0, 1, 2];
    forall i
      ensures i in s <==> OnStartEdge(i, nr, nc, W)
    {
      WestOnThreeByThree(i, nr, nc);
      assert i in s <==> i < 3;
    }
    StartIndicesAre(nr, nc, W, s);
  }
}
