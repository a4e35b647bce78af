/** Facts about multiplication, division and remainder on natural numbers
    that the index arithmetic relies on. */
module NatArith {

  /** Multiplication by a natural number is monotone. */
  lemma {:induction false} MulMonotone(a: nat, b: nat, n: nat)
    requires a <= b
    ensures a * n <= b * n
    decreases b - a
  {
    if a < b {
      MulMonotone(a, b - 1, n);
      assert b * n == (b - 1) * n + n;
    }
  }

  /** Euclidean division is unique: the only way to write i as row + col*nr
      with row < nr is with row = i % nr and col = i / nr. */
  lemma DivModUnique(i: nat, nr: nat, row: nat, col: nat)
    requires nr >= 1 && row < nr && i == row + col * nr
    ensures i / nr == col && i % nr == row
  {
    var q, m := i / nr, i % nr;
    assert q * nr + m == col * nr + row;
    if q > col {
      assert (col + 1) * nr == col * nr + nr;
      MulMonotone(col + 1, q, nr);
    } else if q < col {
      assert (q + 1) * nr == q * nr + nr;
      MulMonotone(q + 1, col, nr);
    }
  }

  /** a*n < b*n implies a < b. */
  lemma MulLessCancel(a: nat, b: nat, n: nat)
    requires a * n < b * n
    ensures a < b
  {
    if b <= a {
      MulMonotone(b, a, n);
    }
  }

  /** A positive multiple of step is at least step. */
  lemma StepAtLeast(k: nat, step: nat)
    requires k >= 1
    ensures k * step >= step
  {
    MulMonotone(1, k, step);
  }

  /** For p < size, i is reached from p by whole steps of size exactly
      when i leaves remainder p. */
  lemma StepsIffResidue(i: nat, p: nat, size: nat)
    requires size >= 1 && p < size
    ensures (p <= i && (i - p) % size == 0) <==> i % size == p
  {
    if p <= i && (i - p) % size == 0 {
      StepsToResidue(i, p, size);
    }
    if i % size == p {
      ResidueToSteps(i, p, size);
    }
  }

  lemma StepsToResidue(i: nat, p: nat, size: nat)
    requires size >= 1 && p < size && p <= i && (i - p) % size == 0
    ensures i % size == p
  {
    var q := (i - p) / size;
    assert i - p == q * size;
    DivModUnique(i, size, p, q);
  }

  lemma ResidueToSteps(i: nat, p: nat, size: nat)
    requires size >= 1 && i % size == p
    ensures p <= i && (i - p) % size == 0
  {
    var q := i / size;
    assert i == p + q * size;
    DivModUnique(i - p, size, 0, q);
  }
}
