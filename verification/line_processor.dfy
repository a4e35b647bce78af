/** One sweep line at a time: read the elevation profile along the path,
    hand it to the multiplier model, and write the multipliers back into
    the output buffer at the same flat indices. */
module LineProcessor {

  import opened Results

  /** Every index of the path addresses one of the n cells. */
  predicate InRange(path: seq<nat>, n: nat) {
    forall k :: 0 <= k < |path| ==> path[k] < n
  }

  /** The path visits no cell twice. */
  predicate Distinct(path: seq<nat>) {
    forall k1, k2 :: 0 <= k1 < k2 < |path| ==> path[k1] != path[k2]
  }

  /** The buffer np.ones(data.shape) the loop writes into. */
  function Ones(n: nat): (buf: seq<real>)
    ensures |buf| == n
    ensures forall i :: 0 <= i < n ==> buf[i] == 1.0
  {
    seq(n, _ => 1.0)
  }

  /** data[path], for a path that stays inside the data. */
  function Profile(data: seq<real>, path: seq<nat>): (line: seq<real>)
    requires InRange(path, |data|)
    ensures |line| == |path|
  {
    seq(|path|, k requires 0 <= k < |path| => data[path[k]])
  }

  /** data[path]: numpy raises an IndexError for an index past the end. */
  function Gather(data: seq<real>, path: seq<nat>): (r: Result<seq<real>>)
    ensures r.Ok? <==> InRange(path, |data|)
    ensures r.Ok? ==> |r.value| == |path|
    ensures r.Ok? ==> forall k :: 0 <= k < |path| ==> r.value[k] == data[path[k]]
  {
    if InRange(path, |data|) then Ok(Profile(data, path))
    else Err(IndexOutOfRange(FirstOutOfRange(path, |data|)))
  }

  /** The first index of the path that is not below n. */
  function FirstOutOfRange(path: seq<nat>, n: nat): (i: nat)
    requires !InRange(path, n)
    ensures i in path && i >= n
  {
    if path[0] >= n then path[0] else FirstOutOfRange(path[1..], n)
  }

  /** buf[path] = vals, one assignment after another along the path. */
  function WriteAll(buf: seq<real>, path: seq<nat>, vals: seq<real>): (r: seq<real>)
    requires |vals| == |path| && InRange(path, |buf|)
    ensures |r| == |buf|
    ensures forall i :: 0 <= i < |buf| && i !in path ==> r[i] == buf[i]
    ensures Distinct(path) ==> forall k :: 0 <= k < |path| ==> r[path[k]] == vals[k]
    decreases |path|
  {
    if |path| == 0 then buf
    else WriteAll(buf[path[0] := vals[0]], path[1..], vals[1..])
  }

  /** Mhdata[path] = model(data[path]): the IndexError of the read, or the
      mismatch when the model's line is not as long as its path. */
  function ProcessLine(buf: seq<real>, data: seq<real>, path: seq<nat>,
                       model: seq<real> -> seq<real>): (r: Result<seq<real>>)
    requires |buf| == |data|
    ensures r.Ok? <==> InRange(path, |data|) && |model(Profile(data, path))| == |path|
    ensures r.Ok? ==> |r.value| == |buf|
    ensures r.Ok? ==> forall i :: 0 <= i < |buf| && i !in path ==> r.value[i] == buf[i]
    ensures r.Ok? && Distinct(path) ==>
      forall k :: 0 <= k < |path| ==> r.value[path[k]] == model(Profile(data, path))[k]
  {
    match Gather(data, path)
    case Err(e) => Err(e)
    case Ok(line) =>
      var m := model(line);
      if |m| != |path| then Err(LengthMismatch(|path|, |m|))
      else Ok(WriteAll(buf, path, m))
  }

  /** Cell i lies on one of the paths. */
  predicate OnSomePath(paths: seq<seq<nat>>, i: nat) {
    exists j :: 0 <= j < |paths| && i in paths[j]
  }

  /** Every line of the loop reads inside the data and gets back from the
      model a line as long as its path. */
  predicate LinesFit(data: seq<real>, paths: seq<seq<nat>>, model: seq<real> -> seq<real>) {
    forall j :: 0 <= j < |paths| ==>
      InRange(paths[j], |data|) && |model(Profile(data, paths[j]))| == |paths[j]|
  }

  /** The loop over the start indices' paths, stopping at the first line
      that raises. It succeeds exactly when every line fits, and it leaves
      every cell that no path visits as it was. */
  function ProcessLines(buf: seq<real>, data: seq<real>, paths: seq<seq<nat>>,
                        model: seq<real> -> seq<real>): (r: Result<seq<real>>)
    requires |buf| == |data|
    ensures r.Ok? <==> LinesFit(data, paths, model)
    ensures r.Ok? ==> |r.value| == |buf|
    ensures r.Ok? ==> forall i :: 0 <= i < |buf| && !OnSomePath(paths, i) ==> r.value[i] == buf[i]
    decreases |paths|
  {
    if |paths| == 0 then Ok(buf)
    else
      match ProcessLine(buf, data, paths[0], model)
      case Err(e) => Err(e)
      case Ok(buf') =>
        var r := ProcessLines(buf', data, paths[1..], model);
        assert r.Ok? ==> forall i :: 0 <= i < |buf| && !OnSomePath(paths, i) ==> r.value[i] == buf[i] by {
          forall i | 0 <= i < |buf| && !OnSomePath(paths, i)
            ensures !OnSomePath(paths[1..], i) && i !in paths[0]
          {
            assert 0 < |paths|;
          }
        }
        assert LinesFit(data, paths, model) <==> LinesFit(data, paths[1..], model) by {
          if LinesFit(data, paths[1..], model) {
            forall j | 0 < j < |paths|
              ensures InRange(paths[j], |data|) && |model(Profile(data, paths[j]))| == |paths[j]|
            {
              assert paths[j] == paths[1..][j - 1];
            }
          }
        }
        r
  }

  // ---------------------------------------------------------------------
  // The loop under the partition invariant

  /** Every path stays inside the n cells and visits no cell twice. */
  predicate WellFormed(paths: seq<seq<nat>>, n: nat) {
    forall j :: 0 <= j < |paths| ==> InRange(paths[j], n) && Distinct(paths[j])
  }

  /** No cell lies on two different paths. */
  predicate PairwiseDisjoint(paths: seq<seq<nat>>) {
    forall j1, j2, k1, k2 ::
      0 <= j1 < j2 < |paths| && 0 <= k1 < |paths[j1]| && 0 <= k2 < |paths[j2]| ==>
        paths[j1][k1] != paths[j2][k2]
  }

  /** Every one of the n cells lies on some path. */
  predicate Covers(paths: seq<seq<nat>>, n: nat) {
    forall i :: 0 <= i < n ==> OnSomePath(paths, i)
  }

  /** The partition invariant: the paths split the n cells among them. */
  predicate Partition(paths: seq<seq<nat>>, n: nat) {
    WellFormed(paths, n) && PairwiseDisjoint(paths) && Covers(paths, n)
  }

  /** The model returns one multiplier per elevation. */
  ghost predicate LengthPreserving(model: seq<real> -> seq<real>) {
    forall line :: |model(line)| == |line|
  }

  /** The number of assignments to cell i that Mhdata[path] = ... makes over
      the whole loop: one for every position of every path that names it.
      It is counted on the paths themselves; ProcessLinesPartition states
      what the loop leaves in each cell. */
  function Writes(paths: seq<seq<nat>>, i: nat): nat {
    if |paths| == 0 then 0 else multiset(paths[0])[i] + Writes(paths[1..], i)
  }

  /** A path that visits no cell twice names each of its cells once. */
  lemma {:induction false} DistinctOnce(path: seq<nat>, i: nat)
    requires Distinct(path)
    ensures multiset(path)[i] == if i in path then 1 else 0
    decreases |path|
  {
    if |path| > 0 {
      assert path == [path[0]] + path[1..];
      assert Distinct(path[1..]);
      DistinctOnce(path[1..], i);
      if path[0] == i {
        assert i !in path[1..];
      }
    }
  }

  /** Under disjoint duplicate-free paths a cell is written once when it
      lies on a path and never otherwise. */
  lemma {:induction false} WritesAtMostOnce(paths: seq<seq<nat>>, n: nat, i: nat)
    requires WellFormed(paths, n) && PairwiseDisjoint(paths)
    ensures Writes(paths, i) == if OnSomePath(paths, i) then 1 else 0
    decreases |paths|
  {
    if |paths| > 0 {
      var rest := paths[1..];
      assert WellFormed(rest, n);
      assert PairwiseDisjoint(rest) by {
        forall j1, j2, k1, k2 |
          0 <= j1 < j2 < |rest| && 0 <= k1 < |rest[j1]| && 0 <= k2 < |rest[j2]|
          ensures rest[j1][k1] != rest[j2][k2]
        {
          assert rest[j1] == paths[j1 + 1] && rest[j2] == paths[j2 + 1];
        }
      }
      WritesAtMostOnce(rest, n, i);
      DistinctOnce(paths[0], i);
      if i in paths[0] {
        var k1 :| 0 <= k1 < |paths[0]| && paths[0][k1] == i;
      } else if OnSomePath(rest, i) {
        var j :| 0 <= j < |rest| && i in rest[j];
        assert i in paths[j + 1];
      }
    }
  }

  /** A fact about the paths alone: if they partition the cells, every cell
      is named by exactly one position of one path, so the loop assigns it
      exactly once. ProcessLinesPartition is the matching statement about
      the values ProcessLines leaves behind. */
  lemma PartitionWritesOnce(paths: seq<seq<nat>>, n: nat)
    requires Partition(paths, n)
    ensures forall i :: 0 <= i < n ==> Writes(paths, i) == 1
  {
    forall i | 0 <= i < n
      ensures Writes(paths, i) == 1
    {
      WritesAtMostOnce(paths, n, i);
    }
  }

  /** With disjoint duplicate-free paths, every cell on path j ends up
      holding the multiplier computed for its position on that path: later
      lines never overwrite it. */
  lemma {:induction false} ProcessLinesValues(buf: seq<real>, data: seq<real>, paths: seq<seq<nat>>,
                                              model: seq<real> -> seq<real>)
    requires |buf| == |data|
    requires WellFormed(paths, |data|) && PairwiseDisjoint(paths)
    requires ProcessLines(buf, data, paths, model).Ok?
    ensures forall j, k :: 0 <= j < |paths| && 0 <= k < |paths[j]| ==>
      ProcessLines(buf, data, paths, model).value[paths[j][k]] == model(Profile(data, paths[j]))[k]
    decreases |paths|
  {
    if |paths| > 0 {
      var rest := paths[1..];
      var buf' := ProcessLine(buf, data, paths[0], model).value;
      var r := ProcessLines(buf', data, rest, model).value;
      assert r == ProcessLines(buf, data, paths, model).value;
      assert WellFormed(rest, |data|);
      assert PairwiseDisjoint(rest) by {
        forall j1, j2, k1, k2 |
          0 <= j1 < j2 < |rest| && 0 <= k1 < |rest[j1]| && 0 <= k2 < |rest[j2]|
          ensures rest[j1][k1] != rest[j2][k2]
        {
          assert rest[j1] == paths[j1 + 1] && rest[j2] == paths[j2 + 1];
        }
      }
      ProcessLinesValues(buf', data, rest, model);
      forall j, k | 0 <= j < |paths| && 0 <= k < |paths[j]|
        ensures r[paths[j][k]] == model(Profile(data, paths[j]))[k]
      {
        if j == 0 {
          assert !OnSomePath(rest, paths[0][k]);
        } else {
          assert paths[j] == rest[j - 1];
        }
      }
    }
  }

  /** The conditional correctness of the loop: if the paths partition the
      n cells and the model preserves lengths, the loop succeeds and every
      cell holds the multiplier for its position on the one path through
      it, so no cell keeps the initial 1.0 for want of being written. */
  lemma ProcessLinesPartition(buf: seq<real>, data: seq<real>, paths: seq<seq<nat>>,
                              model: seq<real> -> seq<real>)
    requires |buf| == |data|
    requires Partition(paths, |data|) && LengthPreserving(model)
    ensures ProcessLines(buf, data, paths, model).Ok?
    ensures forall i :: 0 <= i < |data| ==>
      HoldsLineValue(ProcessLines(buf, data, paths, model).value, data, paths, model, i)
  {
    assert LinesFit(data, paths, model) by {
      forall j | 0 <= j < |paths|
        ensures InRange(paths[j], |data|) && |model(Profile(data, paths[j]))| == |paths[j]|
      {
        assert |model(Profile(data, paths[j]))| == |Profile(data, paths[j])|;
      }
    }
    ProcessLinesValues(buf, data, paths, model);
    var r := ProcessLines(buf, data, paths, model).value;
    forall i | 0 <= i < |data|
      ensures HoldsLineValue(r, data, paths, model, i)
    {
      assert OnSomePath(paths, i);
      var j :| 0 <= j < |paths| && i in paths[j];
      var k :| 0 <= k < |paths[j]| && paths[j][k] == i;
      assert r[paths[j][k]] == model(Profile(data, paths[j]))[k];
    }
  }

  /** Cell i of out holds the multiplier computed for its position k on
      some path j. */
  ghost predicate HoldsLineValue(out: seq<real>, data: seq<real>, paths: seq<seq<nat>>,
                                 model: seq<real> -> seq<real>, i: nat)
    requires WellFormed(paths, |data|)
  {
    exists j, k :: 0 <= j < |paths| && 0 <= k < |paths[j]| && paths[j][k] == i &&
      i < |out| && k < |model(Profile(data, paths[j]))| &&
      out[i] == model(Profile(data, paths[j]))[k]
  }

  /** Reading a path and writing the same values back leaves the buffer
      unchanged: scatter undoes gather. */
  lemma {:induction false} WriteBackProfile(data: seq<real>, path: seq<nat>)
    requires InRange(path, |data|)
    ensures WriteAll(data, path, Profile(data, path)) == data
    decreases |path|
  {
    if |path| > 0 {
      var data' := data[path[0] := data[path[0]]];
      assert data' == data;
      assert Profile(data, path)[1..] == Profile(data, path[1..]);
      WriteBackProfile(data, path[1..]);
    }
  }
}
