/** Python's built-in range(lo, hi, step) for a positive step, the shape of
    every start-index list and of itertools.islice's positions. */
module PyRange {

  import opened NatArith

  /** The elements lo, lo+step, lo+2*step, ... that are below hi, in order. */
  function Range(lo: nat, hi: nat, step: nat): (r: seq<nat>)
    requires step >= 1
    ensures forall k :: 0 <= k < |r| ==> r[k] == lo + k * step && r[k] < hi
    ensures lo + |r| * step >= hi
    decreases hi - lo
  {
    if lo >= hi then [] else [lo] + Range(lo + step, hi, step)
  }

  /** The range is strictly increasing, so it lists no element twice. */
  lemma RangeIncreasing(lo: nat, hi: nat, step: nat)
    requires step >= 1
    ensures forall i, j :: 0 <= i < j < |Range(lo, hi, step)| ==>
      Range(lo, hi, step)[i] < Range(lo, hi, step)[j]
  {
    var r := Range(lo, hi, step);
    forall i, j | 0 <= i < j < |r|
      ensures r[i] < r[j]
    {
      assert j * step == i * step + (j - i) * step;
      assert (j - i) * step >= step by {
        StepAtLeast(j - i, step);
      }
    }
  }

  /** x is listed by range(lo, hi, step) exactly when it lies in [lo, hi)
      and is reached from lo by a whole number of steps. */
  lemma RangeMembers(lo: nat, hi: nat, step: nat, x: nat)
    requires step >= 1
    ensures x in Range(lo, hi, step) <==> lo <= x < hi && (x - lo) % step == 0
  {
    if x in Range(lo, hi, step) {
      ListedIsStep(lo, hi, step, x);
    }
    if lo <= x < hi && (x - lo) % step == 0 {
      StepIsListed(lo, hi, step, x);
    }
  }

  lemma ListedIsStep(lo: nat, hi: nat, step: nat, x: nat)
    requires step >= 1 && x in Range(lo, hi, step)
    ensures lo <= x < hi && (x - lo) % step == 0
  {
    var r := Range(lo, hi, step);
    var k :| 0 <= k < |r| && r[k] == x;
    DivModUnique(x - lo, step, 0, k);
  }

  lemma StepIsListed(lo: nat, hi: nat, step: nat, x: nat)
    requires step >= 1 && lo <= x < hi && (x - lo) % step == 0
    ensures x in Range(lo, hi, step)
  {
    var r := Range(lo, hi, step);
    var k := (x - lo) / step;
    assert x == lo + k * step;
    if k >= |r| {
      MulMonotone(|r|, k, step);
    } else {
      assert r[k] == x;
    }
  }

  /** The k-th element of a range is below its bound. */
  lemma RangeAt(lo: nat, hi: nat, step: nat, k: nat)
    requires step >= 1 && k < |Range(lo, hi, step)|
    ensures lo + k * step < hi
  {
    assert Range(lo, hi, step)[k] == lo + k * step;
  }

  /** range(lo, hi, step) has n elements when n steps from lo reach hi
      and n-1 steps do not. */
  lemma RangeLength(lo: nat, hi: nat, step: nat, n: nat)
    requires step >= 1
    requires lo + n * step >= hi
    requires n == 0 || lo + (n - 1) * step < hi
    ensures |Range(lo, hi, step)| == n
  {
    var r := Range(lo, hi, step);
    if |r| > n {
      RangeAt(lo, hi, step, n);
    } else if |r| < n {
      MulMonotone(|r|, n - 1, step);
    }
  }
}
