/** Turning the flat output buffer back into an nr x nc matrix:
    np.reshape(buf, (nc, nr)) followed by a transpose. */
module GridAssembler {

  import opened GridIndexing

  type Matrix = seq<seq<real>>

  /** m has rows rows of cols entries each. */
  predicate IsShape(m: Matrix, rows: nat, cols: nat) {
    |m| == rows && forall r :: 0 <= r < |m| ==> |m[r]| == cols
  }

  /** Entry (r, c) of the reassembled matrix. */
  function Entry(flat: seq<real>, nr: nat, nc: nat, r: nat, c: nat): real
    requires nr >= 1 && |flat| == nr * nc && IsCell(r, c, nr, nc)
  {
    LinearRoundTrip(r, c, nr, nc);
    flat[Linear(r, c, nr)]
  }

  /** reshape to (nc, nr) reads the buffer row-major, so entry [c][r] is
      flat[c*nr + r]; the transpose puts it at [r][c]. Flat index i thus
      lands at row i % nr, column i / nr. */
  function Reassemble(flat: seq<real>, nr: nat, nc: nat): (m: Matrix)
    requires nr >= 1 && |flat| == nr * nc
    ensures IsShape(m, nr, nc)
    ensures forall i :: 0 <= i < |flat| ==> m[Row(i, nr)][Col(i, nr)] == flat[i]
  {
    var m := seq(nr, r requires 0 <= r < nr => seq(nc, c requires 0 <= c < nc => Entry(flat, nr, nc, r, c)));
    ReassembleAt(flat, nr, nc, m);
    m
  }

  lemma ReassembleAt(flat: seq<real>, nr: nat, nc: nat, m: Matrix)
    requires nr >= 1 && |flat| == nr * nc && IsShape(m, nr, nc)
    requires forall r, c :: 0 <= r < nr && 0 <= c < nc ==> m[r][c] == Entry(flat, nr, nc, r, c)
    ensures forall i :: 0 <= i < |flat| ==> m[Row(i, nr)][Col(i, nr)] == flat[i]
  {
    forall i | 0 <= i < |flat|
      ensures m[Row(i, nr)][Col(i, nr)] == flat[i]
    {
      CellRoundTrip(i, nr, nc);
      assert m[Row(i, nr)][Col(i, nr)] == Entry(flat, nr, nc, Row(i, nr), Col(i, nr));
    }
  }

  /** Entry (r, c) of the reassembled matrix is flat[r + c*nr]: the
      convention the start indices assume. */
  lemma ReassembleEntry(flat: seq<real>, nr: nat, nc: nat, r: nat, c: nat)
    requires nr >= 1 && |flat| == nr * nc && IsCell(r, c, nr, nc)
    ensures Linear(r, c, nr) < |flat|
    ensures Reassemble(flat, nr, nc)[r][c] == flat[Linear(r, c, nr)]
  {
    LinearRoundTrip(r, c, nr, nc);
  }

  /** Entry i of the flattened matrix. */
  function FlatEntry(m: Matrix, nr: nat, nc: nat, i: nat): real
    requires nr >= 1 && IsShape(m, nr, nc) && i < nr * nc
  {
    CellRoundTrip(i, nr, nc);
    m[Row(i, nr)][Col(i, nr)]
  }

  /** The inverse direction: the matrix read back in the column-major flat
      order the start indices and paths use. */
  function Flatten(m: Matrix, nr: nat, nc: nat): (flat: seq<real>)
    requires nr >= 1 && IsShape(m, nr, nc)
    ensures |flat| == nr * nc
    ensures forall r, c :: 0 <= r < nr && 0 <= c < nc ==>
      Linear(r, c, nr) < |flat| && flat[Linear(r, c, nr)] == m[r][c]
  {
    var flat := seq(nr * nc, i requires 0 <= i < nr * nc => FlatEntry(m, nr, nc, i));
    FlattenAt(m, nr, nc, flat);
    flat
  }

  lemma FlattenAt(m: Matrix, nr: nat, nc: nat, flat: seq<real>)
    requires nr >= 1 && IsShape(m, nr, nc) && |flat| == nr * nc
    requires forall i :: 0 <= i < |flat| ==> flat[i] == FlatEntry(m, nr, nc, i)
    ensures forall r, c :: 0 <= r < nr && 0 <= c < nc ==>
      Linear(r, c, nr) < |flat| && flat[Linear(r, c, nr)] == m[r][c]
  {
    forall r, c | 0 <= r < nr && 0 <= c < nc
      ensures Linear(r, c, nr) < |flat| && flat[Linear(r, c, nr)] == m[r][c]
    {
      LinearRoundTrip(r, c, nr, nc);
    }
  }

  /** Reassembling and flattening again gives back the buffer. */
  lemma FlattenReassemble(flat: seq<real>, nr: nat, nc: nat)
    requires nr >= 1 && |flat| == nr * nc
    ensures Flatten(Reassemble(flat, nr, nc), nr, nc) == flat
  {
    var back := Flatten(Reassemble(flat, nr, nc), nr, nc);
    forall i | 0 <= i < |flat|
      ensures back[i] == flat[i]
    {
      CellRoundTrip(i, nr, nc);
      assert back[Linear(Row(i, nr), Col(i, nr), nr)] == flat[i];
    }
  }

  /** Flattening and reassembling again gives back the matrix. */
  lemma ReassembleFlatten(m: Matrix, nr: nat, nc: nat)
    requires nr >= 1 && IsShape(m, nr, nc)
    ensures Reassemble(Flatten(m, nr, nc), nr, nc) == m
  {
    var back := Reassemble(Flatten(m, nr, nc), nr, nc);
    forall r | 0 <= r < nr
      ensures back[r] == m[r]
    {
      forall c | 0 <= c < nc
        ensures back[r][c] == m[r][c]
      {
        LinearRoundTrip(r, c, nr, nc);
      }
    }
  }
}
