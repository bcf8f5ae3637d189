/** Both panel grids of the source are filled by two nested loops, the inner index
    running fastest, so the k-th cell filled is at outer index `k / inner` and inner
    index `k % inner`. */
module GridIndex {

  /** `Math.min` of two whole numbers, as used for the caps on both grids. */
  function Min(a: nat, b: nat): (m: nat)
    ensures m <= a && m <= b && (m == a || m == b)
  {
    if a < b then a else b
  }

  /** `n` rows of `inner` cells hold at least `inner` cells once there is a row. */
  lemma {:induction false} RowsAtLeastOne(n: nat, inner: nat)
    requires n >= 1
    ensures n * inner >= inner
  {
    if n > 1 {
      RowsAtLeastOne(n - 1, inner);
      assert n * inner == (n - 1) * inner + inner;
    }
  }

  /** The cell at outer index `i` and inner index `j` is the `(i * inner + j)`-th
      cell of the fill. */
  lemma RowMajor(i: nat, j: nat, inner: nat)
    requires j < inner
    ensures (i * inner + j) / inner == i
    ensures (i * inner + j) % inner == j
  {
    var k := i * inner + j;
    var q, r := k / inner, k % inner;
    assert k == q * inner + r;
    assert 0 <= r < inner;
    if q > i {
      RowsAtLeastOne(q - i, inner);
      assert false;
    } else if q < i {
      RowsAtLeastOne(i - q, inner);
      assert false;
    }
  }

  /** A position below `rows * inner` lies in one of the first `rows` rows. */
  lemma InsideGrid(k: nat, rows: nat, inner: nat)
    requires 0 < inner && k < rows * inner
    ensures k / inner < rows && k % inner < inner
  {
    var q := k / inner;
    assert q * inner <= k;
    RowsMonotone(rows, q, inner);
  }

  /** More rows hold more cells. */
  lemma {:induction false} RowsMonotone(a: nat, b: nat, inner: nat)
    ensures a <= b ==> a * inner <= b * inner
  {
    if a < b {
      RowsMonotone(a, b - 1, inner);
      assert b * inner == (b - 1) * inner + inner;
    }
  }

  /** Different positions of the fill are different cells. */
  lemma RowMajorInjective(k: nat, m: nat, inner: nat)
    requires 0 < inner && k != m
    ensures k / inner != m / inner || k % inner != m % inner
  {
    assert k == (k / inner) * inner + k % inner;
    assert m == (m / inner) * inner + m % inner;
  }

  /** Moving to the next row advances the fill by one row of cells. */
  lemma NextRow(row: nat, inner: nat)
    ensures row * inner + inner == (row + 1) * inner
  {
  }
}
