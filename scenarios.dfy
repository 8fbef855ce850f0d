/**
 * The concrete matrices of the repository's own test script, with the
 * results the script expects of them.
 */
module DBMScenarios {
  import opened DBM

  const Left: Grid := [[[1.0, 0.0], [3.0, 0.0]], [[4.0, 0.0], [2.0, 0.0]]]
  const Right: Grid := [[[3.0, 0.0], [1.0, 0.0]], [[2.0, 0.0], [4.0, 0.0]]]
  const Sum: Grid := [[[4.0, 0.0], [4.0, 0.0]], [[6.0, 0.0], [6.0, 0.0]]]
  const Prod: Grid := [[[9.0, 0.0], [13.0, 0.0]], [[16.0, 0.0], [12.0, 0.0]]]

  /** A matrix with nonzero off-diagonal blocks, and its dense form. */
  const Full: Grid := [[[1.0, 2.0], [2.0, 2.0]], [[2.0, 2.0], [3.0, 4.0]]]
  const FullDense: seq<seq<real>> :=
    [[1.0, 0.0, 2.0, 0.0], [0.0, 2.0, 0.0, 2.0], [2.0, 0.0, 3.0, 0.0], [0.0, 2.0, 0.0, 4.0]]

  /** A block-diagonal matrix and its element-wise reciprocal. */
  const Diagonal: Grid := [[[1.0, 2.0], [0.0, 0.0]], [[0.0, 0.0], [3.0, 4.0]]]
  const DiagonalInverse: Grid := [[[1.0, 0.5], [0.0, 0.0]], [[0.0, 0.0], [1.0 / 3.0, 0.25]]]

  /** Two grids of the same shape with the same entries are the same grid. */
  lemma SameGrid(g: Grid, h: Grid)
    requires |g| == |h| && forall i | 0 <= i < |g| :: |g[i]| == |h[i]|
    requires forall i, j | 0 <= i < |g| && 0 <= j < |g[i]| :: |g[i][j]| == |h[i][j]|
    requires forall i, j, p | 0 <= i < |g| && 0 <= j < |g[i]| && 0 <= p < |g[i][j]| :: g[i][j][p] == h[i][j][p]
    ensures g == h
  {
    forall i | 0 <= i < |g|
      ensures g[i] == h[i]
    {
      forall j | 0 <= j < |g[i]|
        ensures g[i][j] == h[i][j]
      {
      }
    }
  }

  /** Two matrices of the same shape with the same entries are the same matrix. */
  lemma SameMatrix(d: seq<seq<real>>, e: seq<seq<real>>)
    requires |d| == |e| && forall r | 0 <= r < |d| :: |d[r]| == |e[r]|
    requires forall r, c | 0 <= r < |d| && 0 <= c < |d[r]| :: d[r][c] == e[r][c]
    ensures d == e
  {
    forall r | 0 <= r < |d|
      ensures d[r] == e[r]
    {
    }
  }

  lemma AddScenario()
    ensures New(Left).Ok? && New(Right).Ok? && New(Sum).Ok?
    ensures Valid(New(Left).value) && Valid(New(Right).value)
    ensures Add(New(Left).value, New(Right).value) == New(Sum)
  {
    var a, b := New(Left).value, New(Right).value;
    var s := Add(a, b).value.diagonalBlocks;
    assert s[0][0] == Sum[0][0];
    assert s[0][1] == Sum[0][1];
    assert s[1][0] == Sum[1][0];
    assert s[1][1] == Sum[1][1];
    SameGrid(s, Sum);
  }

  lemma MultiplyScenario()
    ensures New(Left).Ok? && New(Right).Ok? && New(Prod).Ok?
    ensures Valid(New(Left).value) && Valid(New(Right).value)
    ensures Product(New(Left).value, New(Right).value) == New(Prod)
  {
    var a, b := New(Left).value, New(Right).value;
    var s := Product(a, b).value.diagonalBlocks;
    assert s == ProductGrid(a, b);
    assert a.diagonalBlocks == Left && b.diagonalBlocks == Right;
    assert InnerSum(a, b, 0, 0, 0, 1) == Left[0][0][0] * Right[0][0][0];
    assert InnerSum(a, b, 0, 0, 0, 2) == Prod[0][0][0];
    assert InnerSum(a, b, 0, 0, 1, 1) == Left[0][0][1] * Right[0][0][1];
    assert InnerSum(a, b, 0, 0, 1, 2) == Prod[0][0][1];
    assert InnerSum(a, b, 0, 1, 0, 1) == Left[0][0][0] * Right[0][1][0];
    assert InnerSum(a, b, 0, 1, 0, 2) == Prod[0][1][0];
    assert InnerSum(a, b, 0, 1, 1, 1) == Left[0][0][1] * Right[0][1][1];
    assert InnerSum(a, b, 0, 1, 1, 2) == Prod[0][1][1];
    assert InnerSum(a, b, 1, 0, 0, 1) == Left[1][0][0] * Right[0][0][0];
    assert InnerSum(a, b, 1, 0, 0, 2) == Prod[1][0][0];
    assert InnerSum(a, b, 1, 0, 1, 1) == Left[1][0][1] * Right[0][0][1];
    assert InnerSum(a, b, 1, 0, 1, 2) == Prod[1][0][1];
    assert InnerSum(a, b, 1, 1, 0, 1) == Left[1][0][0] * Right[0][1][0];
    assert InnerSum(a, b, 1, 1, 0, 2) == Prod[1][1][0];
    assert InnerSum(a, b, 1, 1, 1, 1) == Left[1][0][1] * Right[0][1][1];
    assert InnerSum(a, b, 1, 1, 1, 2) == Prod[1][1][1];
    assert s[0][0] == Prod[0][0];
    assert s[0][1] == Prod[0][1];
    assert s[1][0] == Prod[1][0];
    assert s[1][1] == Prod[1][1];
    SameGrid(s, Prod);
  }

  lemma DenseFallbackScenario()
    ensures New(Full).Ok? && Valid(New(Full).value)
    ensures !BlockDiagonal(New(Full).value)
    ensures DenseForm(New(Full).value) == FullDense
  {
    var m := New(Full).value;
    assert m.diagonalBlocks[0][1][0] != 0.0;
    var d := DenseForm(m);
    assert d[0][0] == FullDense[0][0];
    assert d[0][1] == FullDense[0][1];
    assert d[0][2] == FullDense[0][2];
    assert d[0][3] == FullDense[0][3];
    assert d[1][0] == FullDense[1][0];
    assert d[1][1] == FullDense[1][1];
    assert d[1][2] == FullDense[1][2];
    assert d[1][3] == FullDense[1][3];
    assert d[2][0] == FullDense[2][0];
    assert d[2][1] == FullDense[2][1];
    assert d[2][2] == FullDense[2][2];
    assert d[2][3] == FullDense[2][3];
    assert d[3][0] == FullDense[3][0];
    assert d[3][1] == FullDense[3][1];
    assert d[3][2] == FullDense[3][2];
    assert d[3][3] == FullDense[3][3];
    SameMatrix(d, FullDense);
  }

  lemma DiagonalScenario()
    ensures New(Diagonal).Ok? && Valid(New(Diagonal).value)
    ensures BlockDiagonal(New(Diagonal).value)
  {
  }

  lemma FastInverseScenario()
    ensures New(Diagonal).Ok? && Valid(New(Diagonal).value)
    ensures FastInverse(New(Diagonal).value) == New(DiagonalInverse)
  {
    var m := New(Diagonal).value;
    var s := FastInverse(m).value.diagonalBlocks;
    assert s[0][0] == DiagonalInverse[0][0];
    assert s[0][1] == DiagonalInverse[0][1];
    assert s[1][0] == DiagonalInverse[1][0];
    assert s[1][1] == DiagonalInverse[1][1];
    SameGrid(s, DiagonalInverse);
  }
}
