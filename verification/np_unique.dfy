/** numpy.unique on a one-dimensional array of indices: the distinct
    values, in increasing order. */
module NpUnique {

  predicate StrictlyIncreasing(s: seq<nat>) {
    forall i, j :: 0 <= i < j < |s| ==> s[i] < s[j]
  }

  /** The set of values a sequence lists. */
  function Elems(s: seq<nat>): set<nat> {
    set x | x in s
  }

  /** Inserts x into a strictly increasing sequence, keeping it so. */
  function Insert(s: seq<nat>, x: nat): (r: seq<nat>)
    requires StrictlyIncreasing(s)
    ensures StrictlyIncreasing(r)
    ensures forall y :: y in r <==> y in s || y == x
  {
    if |s| == 0 then [x]
    else if x < s[0] then ConsIncreasing(x, s); [x] + s
    else if x == s[0] then s
    else
      var t := Insert(s[1..], x);
      InsertBehindHead(s, x, t);
      [s[0]] + t
  }

  /** A value below the head of a strictly increasing sequence can be put
      in front of it. */
  lemma ConsIncreasing(h: nat, t: seq<nat>)
    requires StrictlyIncreasing(t) && (|t| > 0 ==> h < t[0])
    ensures StrictlyIncreasing([h] + t)
  {
    forall i, j | 0 <= i < j < |t| + 1
      ensures ([h] + t)[i] < ([h] + t)[j]
    {
      if i == 0 && j > 1 {
        assert t[0] < t[j - 1];
      }
    }
  }

  /** The recursive case of Insert: the head stays in front of the tail
      into which x went. */
  lemma InsertBehindHead(s: seq<nat>, x: nat, t: seq<nat>)
    requires StrictlyIncreasing(s) && |s| > 0 && s[0] < x
    requires StrictlyIncreasing(t)
    requires forall y :: y in t <==> y in s[1..] || y == x
    ensures StrictlyIncreasing([s[0]] + t)
    ensures forall y :: y in [s[0]] + t <==> y in s || y == x
  {
    if |t| > 0 {
      assert t[0] in t;
      if t[0] in s[1..] {
        var k :| 0 <= k < |s[1..]| && s[1..][k] == t[0];
        assert s[0] < s[k + 1];
      }
    }
    ConsIncreasing(s[0], t);
    assert s == [s[0]] + s[1..];
  }

  /** np.unique: sorts the values and drops repeated ones. */
  function Unique(xs: seq<nat>): (r: seq<nat>)
    ensures StrictlyIncreasing(r)
    ensures forall y :: y in r <==> y in xs
  {
    if |xs| == 0 then []
    else Insert(Unique(xs[..|xs| - 1]), xs[|xs| - 1])
  }

  /** A strictly increasing sequence has as many elements as values. */
  lemma {:induction false} IncreasingCard(s: seq<nat>)
    requires StrictlyIncreasing(s)
    ensures |Elems(s)| == |s|
  {
    if |s| > 0 {
      var t := s[1..];
      assert StrictlyIncreasing(t);
      IncreasingCard(t);
      assert s[0] !in Elems(t);
      assert Elems(s) == {s[0]} + Elems(t);
    }
  }

  /** The head of a strictly increasing sequence is its least value. */
  lemma HeadIsLeast(s: seq<nat>, y: nat)
    requires StrictlyIncreasing(s) && y in s
    ensures s[0] <= y
  {
    var j :| 0 <= j < |s| && s[j] == y;
    if j > 0 {
      assert s[0] < s[j];
    }
  }

  /** Removing the head of a strictly increasing sequence removes exactly
      its least value. */
  lemma TailElems(s: seq<nat>)
    requires StrictlyIncreasing(s) && |s| > 0
    ensures StrictlyIncreasing(s[1..])
    ensures Elems(s[1..]) == Elems(s) - {s[0]}
  {
    assert s == [s[0]] + s[1..];
    forall y | y in s[1..]
      ensures y != s[0]
    {
      var j :| 0 <= j < |s[1..]| && s[1..][j] == y;
      assert s[j + 1] == y;
    }
  }

  /** Two strictly increasing sequences with the same values are equal, so
      Unique's result is determined by the set of its input's values. */
  lemma {:induction false} IncreasingUnique(a: seq<nat>, b: seq<nat>)
    requires StrictlyIncreasing(a) && StrictlyIncreasing(b)
    requires Elems(a) == Elems(b)
    ensures a == b
    decreases |a|
  {
    IncreasingCard(a);
    IncreasingCard(b);
    if |a| > 0 {
      assert a[0] in Elems(b) && b[0] in Elems(a);
      HeadIsLeast(a, b[0]);
      HeadIsLeast(b, a[0]);
      TailElems(a);
      TailElems(b);
      IncreasingUnique(a[1..], b[1..]);
      assert a == [a[0]] + a[1..];
      assert b == [b[0]] + b[1..];
    }
  }

  /** Unique keeps one copy of each value: its length is the number of
      distinct input values and every value occurs once. */
  lemma UniqueCount(xs: seq<nat>)
    ensures |Unique(xs)| == |Elems(xs)|
    ensures forall y :: y in xs ==> multiset(Unique(xs))[y] == 1
  {
    var r := Unique(xs);
    IncreasingCard(r);
    assert Elems(r) == Elems(xs);
    forall y | y in xs
      ensures multiset(r)[y] == 1
    {
      OnceInIncreasing(r, y);
    }
  }

  /** A value of a strictly increasing sequence occurs in it exactly once. */
  lemma {:induction false} OnceInIncreasing(s: seq<nat>, y: nat)
    requires StrictlyIncreasing(s) && y in s
    ensures multiset(s)[y] == 1
  {
    assert s == [s[0]] + s[1..];
    assert StrictlyIncreasing(s[1..]);
    if s[0] == y {
      assert y !in s[1..];
    } else {
      OnceInIncreasing(s[1..], y);
    }
  }
}
