/**
 * Dense matrices as sequences of rows, with the handful of dense operations
 * that the block-diagonal representation is measured against: the entry-wise
 * sum, the ordinary matrix product and the identity.
 * Entries are exact rationals (`real`).
 */
module Dense {

  type Matrix = seq<seq<real>>

  /** `a` has `rows` rows of `cols` entries each. */
  predicate IsMatrix(a: Matrix, rows: nat, cols: nat)
  {
    |a| == rows && forall r | 0 <= r < rows :: |a[r]| == cols
  }

  /** Entry-wise sum of two matrices of the same shape. */
  function Add(a: Matrix, b: Matrix): (s: Matrix)
    requires |a| == |b|
    requires forall r | 0 <= r < |a| :: |a[r]| == |b[r]|
    ensures |s| == |a|
    ensures forall r | 0 <= r < |s| :: |s[r]| == |a[r]|
  {
    seq(|a|, r requires 0 <= r < |a| => seq(|a[r]|, c requires 0 <= c < |a[r]| => a[r][c] + b[r][c]))
  }

  /** The sum of `a[r][t] * b[t][c]` over `lo <= t < hi`. */
  function Dot(a: Matrix, b: Matrix, r: nat, c: nat, lo: nat, hi: nat): real
    requires r < |a| && hi <= |a[r]| && hi <= |b|
    requires forall t | lo <= t < hi :: c < |b[t]|
    decreases hi
  {
    if hi <= lo then 0.0 else Dot(a, b, r, c, lo, hi - 1) + a[r][hi - 1] * b[hi - 1][c]
  }

  /** The matrix product of a `rows` by `inner` matrix and an `inner` by `cols` matrix. */
  function MatMul(a: Matrix, b: Matrix, rows: nat, inner: nat, cols: nat): (p: Matrix)
    requires IsMatrix(a, rows, inner) && IsMatrix(b, inner, cols)
    ensures IsMatrix(p, rows, cols)
  {
    seq(rows, r requires 0 <= r < rows => seq(cols, c requires 0 <= c < cols => Dot(a, b, r, c, 0, inner)))
  }

  function Identity(n: nat): (e: Matrix)
    ensures IsMatrix(e, n, n)
  {
    seq(n, r => seq(n, c => if r == c then 1.0 else 0.0))
  }

  /** The sum of the first `hi` terms of `f`. */
  function Sum(f: seq<real>, hi: nat): real
    requires hi <= |f|
  {
    if hi == 0 then 0.0 else Sum(f, hi - 1) + f[hi - 1]
  }

  /** A dot product is the sum of any sequence that lists its terms. */
  lemma {:induction false} DotAsSum(a: Matrix, b: Matrix, r: nat, c: nat, hi: nat, f: seq<real>)
    requires r < |a| && hi <= |a[r]| && hi <= |b| && hi <= |f|
    requires forall t | 0 <= t < hi :: c < |b[t]| && a[r][t] * b[t][c] == f[t]
    ensures Dot(a, b, r, c, 0, hi) == Sum(f, hi)
  {
    if hi > 0 {
      DotAsSum(a, b, r, c, hi - 1, f);
    }
  }

  /** The product of two entries that are either the given values `x` and `y`
      (when `meet`) or of which one is zero (otherwise). */
  lemma MeetingTerm(s: real, t: real, x: real, y: real, meet: bool)
    requires meet ==> s == x && t == y
    requires !meet ==> s == 0.0 || t == 0.0
    ensures s * t == if meet then x * y else 0.0
  {
  }
}
