/** `check_dense` (`src/service.rs`): how much one stream may densify. */
module DenseBudget {
  import opened Sequences

  /** At most `max` cells, `columns` counted from column A. */
  predicate DenseWithin(rows: nat, columns: nat, max: nat) {
    SatMul(rows, columns) <= max
  }

  /** The product saturates, so under the largest 64-bit number it is exact. */
  lemma {:induction false} WithinIs(rows: nat, columns: nat, max: nat)
    ensures DenseWithin(rows, columns, max) <==> rows * columns <= max || max >= 0xFFFF_FFFF_FFFF_FFFF
  {
  }

  lemma Products(a: nat, b: nat, c: nat, d: nat)
    requires a <= c && b <= d
    ensures a * b <= c * d
  {
    assert c * d - a * b == (c - a) * d + a * (d - b);
  }

  /** An extent within the budget stays within it when it shrinks. */
  lemma {:induction false} SmallerIsWithin(a: nat, b: nat, c: nat, d: nat, max: nat)
    requires a <= c && b <= d && DenseWithin(c, d, max)
    ensures DenseWithin(a, b, max)
  {
    Products(a, b, c, d);
  }
}
