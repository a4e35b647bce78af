/** The single linear-index convention shared by the start indices, the
    sweep paths and the reassembly: the cell at (row, col) of a grid with
    nr rows lives at flat index row + col*nr (column-major). */
module GridIndexing {

  import opened NatArith

  /** Flat index of the cell (row, col). */
  function Linear(row: nat, col: nat, nr: nat): nat {
    row + col * nr
  }

  /** Row of flat index i. */
  function Row(i: nat, nr: nat): nat
    requires nr >= 1
  {
    i % nr
  }

  /** Column of flat index i. */
  function Col(i: nat, nr: nat): nat
    requires nr >= 1
  {
    i / nr
  }

  /** i addresses a cell of an nr x nc grid. */
  predicate InGrid(i: nat, nr: nat, nc: nat) {
    i < nr * nc
  }

  /** (row, col) is a cell of an nr x nc grid. */
  predicate IsCell(row: nat, col: nat, nr: nat, nc: nat) {
    row < nr && col < nc
  }

  /** Every cell has a flat index inside the grid, and that index decodes
      back to the same cell. */
  lemma LinearRoundTrip(row: nat, col: nat, nr: nat, nc: nat)
    requires nr >= 1 && IsCell(row, col, nr, nc)
    ensures InGrid(Linear(row, col, nr), nr, nc)
    ensures Row(Linear(row, col, nr), nr) == row
    ensures Col(Linear(row, col, nr), nr) == col
  {
    DivModUnique(Linear(row, col, nr), nr, row, col);
    MulMonotone(col + 1, nc, nr);
    assert (col + 1) * nr == col * nr + nr;
  }

  /** Every flat index inside the grid decodes to a cell whose index is
      the one we started from. With LinearRoundTrip this makes
      i |-> (i % nr, i / nr) a bijection between [0, nr*nc) and the cells. */
  lemma CellRoundTrip(i: nat, nr: nat, nc: nat)
    requires nr >= 1 && InGrid(i, nr, nc)
    ensures IsCell(Row(i, nr), Col(i, nr), nr, nc)
    ensures Linear(Row(i, nr), Col(i, nr), nr) == i
  {
    var c := Col(i, nr);
    assert i == Row(i, nr) + c * nr;
    assert c * nr < nc * nr;
    MulLessCancel(c, nc, nr);
  }
}
