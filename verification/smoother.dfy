/** signal.convolve2d(M, ones((3,3))/9, mode='same', boundary='fill',
    fillvalue=1), over exact reals: every entry becomes the mean of its
    3 x 3 neighbourhood, neighbours outside the matrix counting as 1. */
module Smoother {

  import opened GridAssembler

  /** Entry (r, c), or the fill value 1 outside the matrix. */
  function At(m: Matrix, r: int, c: int): real {
    if 0 <= r < |m| && 0 <= c < |m[r]| then m[r][c] else 1.0
  }

  /** The sum of the nine taps of the kernel centred on (r, c). The
      kernel is symmetric, so convolution and correlation agree. */
  function BoxSum(m: Matrix, r: int, c: int): real {
    At(m, r - 1, c - 1) + At(m, r - 1, c) + At(m, r - 1, c + 1)
    + At(m, r, c - 1) + At(m, r, c) + At(m, r, c + 1)
    + At(m, r + 1, c - 1) + At(m, r + 1, c) + At(m, r + 1, c + 1)
  }

  /** Each weight of the kernel is 1/9. */
  function BoxMean(m: Matrix, r: int, c: int): real {
    BoxSum(m, r, c) / 9.0
  }

  /** mode='same': the result has the shape of the input. */
  function Smooth(m: Matrix, nr: nat, nc: nat): (s: Matrix)
    requires IsShape(m, nr, nc)
    ensures IsShape(s, nr, nc)
  {
    seq(nr, r => seq(nc, c => BoxMean(m, r, c)))
  }

  /** The neighbourhood of (r, c), padding included, is constantly v. */
  predicate ConstantAround(m: Matrix, r: int, c: int, v: real) {
    && At(m, r - 1, c - 1) == v && At(m, r - 1, c) == v && At(m, r - 1, c + 1) == v
    && At(m, r, c - 1) == v && At(m, r, c) == v && At(m, r, c + 1) == v
    && At(m, r + 1, c - 1) == v && At(m, r + 1, c) == v && At(m, r + 1, c + 1) == v
  }

  /** A cell whose whole neighbourhood equals v keeps the value v; in
      particular an interior cell of a region of constant v. */
  lemma ConstantNeighbourhoodFixed(m: Matrix, nr: nat, nc: nat, r: nat, c: nat, v: real)
    requires IsShape(m, nr, nc) && r < nr && c < nc
    requires ConstantAround(m, r, c, v)
    ensures Smooth(m, nr, nc)[r][c] == v
  {
    assert BoxSum(m, r, c) == 9.0 * v;
  }

  /** Because the padding is 1, a matrix of ones is left unchanged. */
  lemma OnesFixed(m: Matrix, nr: nat, nc: nat)
    requires IsShape(m, nr, nc)
    requires forall r, c :: 0 <= r < nr && 0 <= c < nc ==> m[r][c] == 1.0
    ensures Smooth(m, nr, nc) == m
  {
    var s := Smooth(m, nr, nc);
    forall r | 0 <= r < nr
      ensures s[r] == m[r]
    {
      forall c | 0 <= c < nc
        ensures s[r][c] == m[r][c]
      {
        ConstantNeighbourhoodFixed(m, nr, nc, r, c, 1.0);
      }
    }
  }

  /** With the entries and the fill value 1 in [lo, hi], so is every
      tap. */
  lemma AtBounded(m: Matrix, nr: nat, nc: nat, lo: real, hi: real, r: int, c: int)
    requires IsShape(m, nr, nc)
    requires lo <= 1.0 <= hi
    requires forall r, c :: 0 <= r < nr && 0 <= c < nc ==> lo <= m[r][c] <= hi
    ensures lo <= At(m, r, c) <= hi
  {
  }

  /** Smoothing is an average of entries and padding: when every entry
      and the fill value 1 lie in [lo, hi], so does every result. */
  lemma SmoothBounded(m: Matrix, nr: nat, nc: nat, lo: real, hi: real)
    requires IsShape(m, nr, nc)
    requires lo <= 1.0 <= hi
    requires forall r, c :: 0 <= r < nr && 0 <= c < nc ==> lo <= m[r][c] <= hi
    ensures forall r, c :: 0 <= r < nr && 0 <= c < nc ==> lo <= Smooth(m, nr, nc)[r][c] <= hi
  {
    forall r, c | 0 <= r < nr && 0 <= c < nc
      ensures lo <= Smooth(m, nr, nc)[r][c] <= hi
    {
      AtBounded(m, nr, nc, lo, hi, r - 1, c - 1);
      AtBounded(m, nr, nc, lo, hi, r - 1, c);
      AtBounded(m, nr, nc, lo, hi, r - 1, c + 1);
      AtBounded(m, nr, nc, lo, hi, r, c - 1);
      AtBounded(m, nr, nc, lo, hi, r, c);
      AtBounded(m, nr, nc, lo, hi, r, c + 1);
      AtBounded(m, nr, nc, lo, hi, r + 1, c - 1);
      AtBounded(m, nr, nc, lo, hi, r + 1, c);
      AtBounded(m, nr, nc, lo, hi, r + 1, c + 1);
    }
  }

  /** Edge cells feel the padding: the top-left corner of a matrix of
      constant v (at least 2 x 2) becomes (4v + 5)/9. */
  lemma ConstantCorner(m: Matrix, nr: nat, nc: nat, v: real)
    requires IsShape(m, nr, nc) && nr >= 2 && nc >= 2
    requires forall r, c :: 0 <= r < nr && 0 <= c < nc ==> m[r][c] == v
    ensures Smooth(m, nr, nc)[0][0] == (4.0 * v + 5.0) / 9.0
  {
    assert At(m, 0, 0) == v && At(m, 0, 1) == v && At(m, 1, 0) == v && At(m, 1, 1) == v;
  }
}
