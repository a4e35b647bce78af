/** The static split of the direction list across the workers of the
    process group: worker p of P takes the items at positions p, p+P,
    p+2P, ... (itertools.islice(directions, p, None, P)). */
module Scheduler {

  import opened NatArith
  import opened PyRange
  import opened NpUnique

  /** The process group: pypar's, or the single-process stand-in used when
      pypar cannot be imported. */
  datatype ProcessGroup = Pypar(size: nat, rank: nat) | DummyPypar {

    function Size(): nat {
      match this
      case Pypar(s, _) => s
      case DummyPypar => 1
    }

    function Rank(): nat {
      match this
      case Pypar(_, r) => r
      case DummyPypar => 0
    }

    /** What the parallel runtime guarantees about its size and rank. */
    predicate Valid() {
      Size() >= 1 && Rank() < Size()
    }
  }

  /** The stand-in group is a valid group of one worker, rank 0. */
  lemma DummyIsSingleWorker()
    ensures DummyPypar.Valid() && DummyPypar.Size() == 1 && DummyPypar.Rank() == 0
  {
  }

  /** itertools.islice(xs, start, None, step): the items at the positions
      range(start, len(xs), step) lists, in that order. */
  function Islice<T>(xs: seq<T>, start: nat, step: nat): (r: seq<T>)
    requires step >= 1
    ensures |r| == |Range(start, |xs|, step)|
    ensures forall k :: 0 <= k < |r| ==> r[k] == xs[Range(start, |xs|, step)[k]]
    decreases |xs| - start
  {
    if start >= |xs| then []
    else
      var rest := Islice(xs, start + step, step);
      assert Range(start, |xs|, step) == [start] + Range(start + step, |xs|, step);
      [xs[start]] + rest
  }

  /** balanced(directions): this worker's share of the list, the items at
      positions rank, rank + size, rank + 2*size, ... in their order. */
  function Balanced<T>(xs: seq<T>, g: ProcessGroup): (r: seq<T>)
    requires g.Valid()
    ensures |r| == |Range(g.Rank(), |xs|, g.Size())|
    ensures forall k :: 0 <= k < |r| ==>
      g.Rank() + k * g.Size() < |xs| && r[k] == xs[g.Rank() + k * g.Size()]
  {
    var r := Islice(xs, g.Rank(), g.Size());
    IsliceAt(xs, g.Rank(), g.Size(), r);
    r
  }

  lemma IsliceAt<T>(xs: seq<T>, start: nat, step: nat, r: seq<T>)
    requires step >= 1 && r == Islice(xs, start, step)
    ensures forall k :: 0 <= k < |r| ==> start + k * step < |xs| && r[k] == xs[start + k * step]
  {
    var pos := Range(start, |xs|, step);
    forall k | 0 <= k < |r|
      ensures start + k * step < |xs| && r[k] == xs[start + k * step]
    {
      assert r[k] == xs[pos[k]];
      assert pos[k] == start + k * step && pos[k] < |xs|;
    }
  }

  /** Position i of an n-item list belongs to worker p exactly when
      i % P == p, so each item goes to exactly one worker. */
  lemma OwnerOfPosition(n: nat, size: nat, p: nat, i: nat)
    requires size >= 1 && p < size && i < n
    ensures i in Range(p, n, size) <==> i % size == p
  {
    RangeMembers(p, n, size, i);
    StepsIffResidue(i, p, size);
  }

  /** Worker p of P receives the items whose positions are p modulo P, in
      their original order. */
  lemma BalancedPositions<T>(xs: seq<T>, g: ProcessGroup)
    requires g.Valid()
    ensures forall k :: 0 <= k < |Balanced(xs, g)| ==>
      Range(g.Rank(), |xs|, g.Size())[k] % g.Size() == g.Rank()
      && Balanced(xs, g)[k] == xs[Range(g.Rank(), |xs|, g.Size())[k]]
    ensures StrictlyIncreasing(Range(g.Rank(), |xs|, g.Size()))
  {
    var pos := Range(g.Rank(), |xs|, g.Size());
    RangeIncreasing(g.Rank(), |xs|, g.Size());
    forall k | 0 <= k < |pos|
      ensures pos[k] % g.Size() == g.Rank()
    {
      OwnerOfPosition(|xs|, g.Size(), g.Rank(), pos[k]);
    }
  }

  /** Shares are balanced: a lower rank gets as many items as a higher
      rank, or one more. */
  lemma SharesDifferByAtMostOne<T>(xs: seq<T>, size: nat, p: nat, q: nat)
    requires size >= 1 && p <= q < size
    ensures |Islice(xs, q, size)| <= |Islice(xs, p, size)| <= |Islice(xs, q, size)| + 1
  {
    var lp, lq := |Range(p, |xs|, size)|, |Range(q, |xs|, size)|;
    if lp < lq {
      RangeAt(q, |xs|, size, lp);
    }
    if lp > lq + 1 {
      assert (lq + 1) * size == lq * size + size;
      RangeAt(p, |xs|, size, lq + 1);
    }
  }

  /** With the stand-in group the single worker takes the whole list. */
  lemma DummyTakesAll<T>(xs: seq<T>)
    ensures Balanced(xs, DummyPypar) == xs
  {
    var r := Balanced(xs, DummyPypar);
    RangeLength(0, |xs|, 1, |xs|);
    forall k | 0 <= k < |xs|
      ensures r[k] == xs[k]
    {
    }
  }
}
