/**
 * A block matrix whose blocks are all diagonal. The grid
 * `diagonalBlocks[i][j]` holds, for block row `i` and block column `j`, the
 * main diagonal of a `blockSize` by `blockSize` block; every other entry of
 * that block is zero. The value never changes after construction: every
 * operation returns a new matrix.
 */
module DBM {
  import Dense
  import BlockIndex

  /** One diagonal block, given by its main diagonal. */
  type Block = seq<real>
  type Grid = seq<seq<Block>>

  datatype Error =
    | IndexOutOfRange     // construction from an empty grid or an empty first row
    | DimensionMismatch   // add or multiply on incompatible block counts
    | ZeroDiagonalEntry   // fast inversion met a zero on a diagonal block

  datatype Result<T> = Ok(value: T) | Err(error: Error)

  datatype DiagonalBlockMatrix = DiagonalBlockMatrix(
    diagonalBlocks: Grid,
    blockRows: nat,
    blockCols: nat,
    blockSize: nat,
    shape: (nat, nat))

  /** The outcome of a successful inversion: the fast path keeps the block
      structure; the general path hands the dense form to a dense inverse
      routine of the host, whose result is not modelled. */
  datatype Inversion =
    | BlockDiagonalInverse(inverse: DiagonalBlockMatrix)
    | DenseFallback(input: Dense.Matrix)

  // ---------------------------------------------------------------------
  // Element-wise vector operations on blocks

  function ZeroBlock(n: nat): (z: Block)
    ensures |z| == n && forall p | 0 <= p < n :: z[p] == 0.0
  {
    seq(n, _ => 0.0)
  }

  function BlockAdd(u: Block, v: Block): (w: Block)
    requires |u| == |v|
    ensures |w| == |u| && forall p | 0 <= p < |w| :: w[p] == u[p] + v[p]
  {
    seq(|u|, p requires 0 <= p < |u| => u[p] + v[p])
  }

  function BlockMul(u: Block, v: Block): (w: Block)
    requires |u| == |v|
    ensures |w| == |u| && forall p | 0 <= p < |w| :: w[p] == u[p] * v[p]
  {
    seq(|u|, p requires 0 <= p < |u| => u[p] * v[p])
  }

  /** Some entry of the block is nonzero. */
  predicate AnyNonzero(v: Block)
  {
    exists p | 0 <= p < |v| :: v[p] != 0.0
  }

  /** Some entry of the block is zero. */
  predicate AnyZero(v: Block)
  {
    exists p | 0 <= p < |v| :: v[p] == 0.0
  }

  function Reciprocal(v: Block): (w: Block)
    requires !AnyZero(v)
    ensures |w| == |v| && forall p | 0 <= p < |w| :: w[p] * v[p] == 1.0
  {
    seq(|v|, p requires 0 <= p < |v| => 1.0 / v[p])
  }

  // ---------------------------------------------------------------------
  // Construction and well-formedness

  /** The grid is non-empty, rectangular and all its blocks have one length. */
  predicate WellFormed(g: Grid)
  {
    |g| > 0 && |g[0]| > 0 &&
    (forall i | 0 <= i < |g| :: |g[i]| == |g[0]|) &&
    (forall i, j | 0 <= i < |g| && 0 <= j < |g[i]| :: |g[i][j]| == |g[0][0]|)
  }

  /** A well-formed grid with the metadata construction derives from it. */
  predicate Valid(m: DiagonalBlockMatrix)
  {
    WellFormed(m.diagonalBlocks) &&
    m.blockRows == |m.diagonalBlocks| &&
    m.blockCols == |m.diagonalBlocks[0]| &&
    m.blockSize == |m.diagonalBlocks[0][0]| &&
    m.shape == (m.blockRows * m.blockSize, m.blockCols * m.blockSize)
  }

  /** Construction: stores the grid and reads the block counts and the block
      size off row 0 and block [0][0]. Fails when those do not exist. */
  function New(g: Grid): (r: Result<DiagonalBlockMatrix>)
    ensures r.Err? <==> |g| == 0 || |g[0]| == 0
    ensures r.Err? ==> r.error == IndexOutOfRange
    ensures r.Ok? ==> r.value.diagonalBlocks == g
    ensures r.Ok? ==> r.value.blockRows == |g| && r.value.blockCols == |g[0]| && r.value.blockSize == |g[0][0]|
    ensures r.Ok? ==> r.value.shape == (|g| * |g[0][0]|, |g[0]| * |g[0][0]|)
    ensures r.Ok? ==> (Valid(r.value) <==> WellFormed(g))
  {
    if |g| == 0 || |g[0]| == 0 then Err(IndexOutOfRange)
    else
      var rows, cols, size := |g|, |g[0]|, |g[0][0]|;
      Ok(DiagonalBlockMatrix(g, rows, cols, size, (rows * size, cols * size)))
  }

  /** Facts about a valid matrix that the proofs use over and over. */
  lemma ValidShape(m: DiagonalBlockMatrix)
    requires Valid(m)
    ensures m.blockRows > 0 && m.blockCols > 0
    ensures forall i | 0 <= i < m.blockRows :: |m.diagonalBlocks[i]| == m.blockCols
    ensures forall i, j | 0 <= i < m.blockRows && 0 <= j < m.blockCols :: |m.diagonalBlocks[i][j]| == m.blockSize
  {
  }

  // ---------------------------------------------------------------------
  // Dense form

  /** Entry `(r, c)` of the dense form: the block vector sits on the diagonal
      of its block, everything else is zero. */
  function DenseEntry(m: DiagonalBlockMatrix, r: nat, c: nat): real
    requires Valid(m)
    requires r < m.shape.0 && c < m.shape.1
  {
    var bs := m.blockSize;
    BlockIndex.Locate(r, bs, m.blockRows);
    BlockIndex.Locate(c, bs, m.blockCols);
    if BlockIndex.OffsetOf(r, bs) == BlockIndex.OffsetOf(c, bs) then
      m.diagonalBlocks[BlockIndex.BlockOf(r, bs)][BlockIndex.BlockOf(c, bs)][BlockIndex.OffsetOf(r, bs)] else 0.0
  }

  /** The dense matrix the block matrix stands for. */
  function DenseForm(m: DiagonalBlockMatrix): (d: Dense.Matrix)
    requires Valid(m)
    ensures Dense.IsMatrix(d, m.shape.0, m.shape.1)
  {
    seq(m.shape.0, r requires 0 <= r < m.shape.0 =>
      seq(m.shape.1, c requires 0 <= c < m.shape.1 => DenseEntry(m, r, c)))
  }

  /** In row-major order over block positions, cell `(r, c)` lies in a block
      before `(i, j)`, or in block `(i, j)` at a diagonal offset below `p`. */
  ghost predicate Written(bs: nat, i: nat, j: nat, p: nat, r: nat, c: nat)
  {
    bs > 0 &&
    var bi, bj := BlockIndex.BlockOf(r, bs), BlockIndex.BlockOf(c, bs);
    bi < i || (bi == i && bj < j) || (bi == i && bj == j && BlockIndex.OffsetOf(r, bs) < p)
  }

  /** Cell `(r, c)` of the dense matrix while `ToDense` is at block `(i, j)`,
      diagonal offset `p`: its final value once written, zero before. */
  ghost function Partial(m: DiagonalBlockMatrix, i: nat, j: nat, p: nat, r: nat, c: nat): real
    requires Valid(m)
    requires r < m.shape.0 && c < m.shape.1
  {
    if Written(m.blockSize, i, j, p, r, c) then DenseEntry(m, r, c) else 0.0
  }

  lemma PartialStart(m: DiagonalBlockMatrix, r: nat, c: nat)
    requires Valid(m)
    requires r < m.shape.0 && c < m.shape.1
    ensures Partial(m, 0, 0, 0, r, c) == 0.0
  {
  }

  /** Writing diagonal offset `p` of block `(i, j)` changes exactly one cell. */
  lemma PartialWrite(m: DiagonalBlockMatrix, i: nat, j: nat, p: nat, r: nat, c: nat)
    requires Valid(m)
    requires i < m.blockRows && j < m.blockCols && p < m.blockSize
    requires r < m.shape.0 && c < m.shape.1
    ensures i * m.blockSize + p < m.shape.0 && j * m.blockSize + p < m.shape.1
    ensures Partial(m, i, j, p + 1, r, c) ==
      if r == i * m.blockSize + p && c == j * m.blockSize + p then m.diagonalBlocks[i][j][p]
      else Partial(m, i, j, p, r, c)
  {
    var bs := m.blockSize;
    BlockIndex.Split(i, p, bs);
    BlockIndex.Split(j, p, bs);
    BlockIndex.Inside(i, p, bs, m.blockRows);
    BlockIndex.Inside(j, p, bs, m.blockCols);
    BlockIndex.Bound(r, bs, m.blockRows);
    BlockIndex.Bound(c, bs, m.blockCols);
  }

  /** Once all offsets of block `(i, j)` are written, the block is done. */
  lemma PartialBlockDone(m: DiagonalBlockMatrix, i: nat, j: nat, r: nat, c: nat)
    requires Valid(m)
    requires r < m.shape.0 && c < m.shape.1
    ensures Partial(m, i, j, m.blockSize, r, c) == Partial(m, i, j + 1, 0, r, c)
  {
    BlockIndex.Bound(r, m.blockSize, m.blockRows);
  }

  /** Skipping a block that is entirely zero leaves every cell at its final value. */
  lemma PartialSkip(m: DiagonalBlockMatrix, i: nat, j: nat, r: nat, c: nat)
    requires Valid(m)
    requires i < m.blockRows && j < m.blockCols && !AnyNonzero(m.diagonalBlocks[i][j])
    requires r < m.shape.0 && c < m.shape.1
    ensures Partial(m, i, j, 0, r, c) == Partial(m, i, j + 1, 0, r, c)
  {
    BlockIndex.Bound(r, m.blockSize, m.blockRows);
    BlockIndex.Bound(c, m.blockSize, m.blockCols);
  }

  lemma PartialRowDone(m: DiagonalBlockMatrix, i: nat, r: nat, c: nat)
    requires Valid(m)
    requires r < m.shape.0 && c < m.shape.1
    ensures Partial(m, i, m.blockCols, 0, r, c) == Partial(m, i + 1, 0, 0, r, c)
  {
    BlockIndex.Bound(c, m.blockSize, m.blockCols);
  }

  lemma PartialAllDone(m: DiagonalBlockMatrix, r: nat, c: nat)
    requires Valid(m)
    requires r < m.shape.0 && c < m.shape.1
    ensures Partial(m, m.blockRows, 0, 0, r, c) == DenseForm(m)[r][c]
  {
    BlockIndex.Bound(r, m.blockSize, m.blockRows);
  }

  /** Writes the diagonal of block `(i, j)` into its sub-region of `d`, as
      numpy's fill_diagonal does on the slice. */
  method FillDiagonal(d: array2<real>, m: DiagonalBlockMatrix, i: nat, j: nat)
    requires Valid(m)
    requires i < m.blockRows && j < m.blockCols
    requires d.Length0 == m.shape.0 && d.Length1 == m.shape.1
    requires forall r, c | 0 <= r < d.Length0 && 0 <= c < d.Length1 :: d[r, c] == Partial(m, i, j, 0, r, c)
    modifies d
    ensures forall r, c | 0 <= r < d.Length0 && 0 <= c < d.Length1 :: d[r, c] == Partial(m, i, j + 1, 0, r, c)
  {
    var bs := m.blockSize;
    var diagElements := m.diagonalBlocks[i][j];
    var startRow, startCol := i * bs, j * bs;
    for p := 0 to bs
      invariant forall r, c | 0 <= r < d.Length0 && 0 <= c < d.Length1 :: d[r, c] == Partial(m, i, j, p, r, c)
    {
      PartialWrite(m, i, j, p, 0, 0);
      d[startRow + p, startCol + p] := diagElements[p];
      forall r, c | 0 <= r < d.Length0 && 0 <= c < d.Length1
        ensures d[r, c] == Partial(m, i, j, p + 1, r, c)
      {
        PartialWrite(m, i, j, p, r, c);
      }
    }
    forall r, c | 0 <= r < d.Length0 && 0 <= c < d.Length1
      ensures d[r, c] == Partial(m, i, j + 1, 0, r, c)
    {
      PartialBlockDone(m, i, j, r, c);
    }
  }

  /** Allocates a zero matrix of the dense shape and writes every block that
      is not entirely zero onto the diagonal of its sub-region. */
  method ToDense(m: DiagonalBlockMatrix) returns (d: array2<real>)
    requires Valid(m)
    ensures fresh(d)
    ensures d.Length0 == m.shape.0 && d.Length1 == m.shape.1
    ensures forall r, c | 0 <= r < d.Length0 && 0 <= c < d.Length1 :: d[r, c] == DenseForm(m)[r][c]
  {
    d := new real[m.shape.0, m.shape.1]((_, _) => 0.0);
    forall r, c | 0 <= r < d.Length0 && 0 <= c < d.Length1
      ensures d[r, c] == Partial(m, 0, 0, 0, r, c)
    {
      PartialStart(m, r, c);
    }
    for i := 0 to m.blockRows
      invariant forall r, c | 0 <= r < d.Length0 && 0 <= c < d.Length1 :: d[r, c] == Partial(m, i, 0, 0, r, c)
    {
      for j := 0 to m.blockCols
        invariant forall r, c | 0 <= r < d.Length0 && 0 <= c < d.Length1 :: d[r, c] == Partial(m, i, j, 0, r, c)
      {
        if AnyNonzero(m.diagonalBlocks[i][j]) {
          FillDiagonal(d, m, i, j);
        } else {
          forall r, c | 0 <= r < d.Length0 && 0 <= c < d.Length1
            ensures d[r, c] == Partial(m, i, j + 1, 0, r, c)
          {
            PartialSkip(m, i, j, r, c);
          }
        }
      }
      forall r, c | 0 <= r < d.Length0 && 0 <= c < d.Length1
        ensures d[r, c] == Partial(m, i + 1, 0, 0, r, c)
      {
        PartialRowDone(m, i, r, c);
      }
    }
    forall r, c | 0 <= r < d.Length0 && 0 <= c < d.Length1
      ensures d[r, c] == DenseForm(m)[r][c]
    {
      PartialAllDone(m, r, c);
    }
  }

  // ---------------------------------------------------------------------
  // Addition

  /** Block-wise sum. Fails unless both matrices have the same block counts;
      blocks at the same position are assumed to have the same length. */
  function Add(a: DiagonalBlockMatrix, b: DiagonalBlockMatrix): (r: Result<DiagonalBlockMatrix>)
    requires Valid(a) && Valid(b)
    requires a.blockRows == b.blockRows && a.blockCols == b.blockCols ==> a.blockSize == b.blockSize
    ensures r.Err? <==> a.blockRows != b.blockRows || a.blockCols != b.blockCols
    ensures r.Err? ==> r.error == DimensionMismatch
    ensures r.Ok? ==> Valid(r.value)
    ensures r.Ok? ==> r.value.blockRows == a.blockRows && r.value.blockCols == a.blockCols
    ensures r.Ok? ==> r.value.blockSize == a.blockSize && r.value.shape == a.shape
    ensures r.Ok? ==> forall i, j, p | 0 <= i < a.blockRows && 0 <= j < a.blockCols && 0 <= p < a.blockSize ::
      r.value.diagonalBlocks[i][j][p] == a.diagonalBlocks[i][j][p] + b.diagonalBlocks[i][j][p]
  {
    if a.blockRows != b.blockRows || a.blockCols != b.blockCols then Err(DimensionMismatch)
    else
      ValidShape(a);
      ValidShape(b);
      var sum := seq(a.blockRows, i requires 0 <= i < a.blockRows =>
        seq(a.blockCols, j requires 0 <= j < a.blockCols =>
          BlockAdd(a.diagonalBlocks[i][j], b.diagonalBlocks[i][j])));
      New(sum)
  }

  // ---------------------------------------------------------------------
  // Multiplication

  /** Two matrices that multiply: the inner block counts agree, and so do the block sizes. */
  predicate Conformable(a: DiagonalBlockMatrix, b: DiagonalBlockMatrix)
  {
    Valid(a) && Valid(b) && a.blockCols == b.blockRows && a.blockSize == b.blockSize &&
    a.shape.1 == b.shape.0
  }

  /** The sum of `a[i][t][p] * b[t][j][p]` over the first `k` inner indices `t`:
      entry `p` of block `(i, j)` of the product, accumulated up to `k`. */
  function InnerSum(a: DiagonalBlockMatrix, b: DiagonalBlockMatrix, i: nat, j: nat, p: nat, k: nat): real
    requires Conformable(a, b)
    requires i < a.blockRows && j < b.blockCols && p < a.blockSize && k <= a.blockCols
  {
    ValidShape(a);
    ValidShape(b);
    if k == 0 then 0.0
    else InnerSum(a, b, i, j, p, k - 1) + a.diagonalBlocks[i][k - 1][p] * b.diagonalBlocks[k - 1][j][p]
  }

  /** Block `(i, j)` of the product, accumulated over the first `k` inner indices. */
  function ProductBlock(a: DiagonalBlockMatrix, b: DiagonalBlockMatrix, i: nat, j: nat, k: nat): (v: Block)
    requires Conformable(a, b)
    requires i < a.blockRows && j < b.blockCols && k <= a.blockCols
    ensures |v| == a.blockSize
  {
    seq(a.blockSize, p requires 0 <= p < a.blockSize => InnerSum(a, b, i, j, p, k))
  }

  lemma ProductBlockZero(a: DiagonalBlockMatrix, b: DiagonalBlockMatrix, i: nat, j: nat)
    requires Conformable(a, b)
    requires i < a.blockRows && j < b.blockCols
    ensures ProductBlock(a, b, i, j, 0) == ZeroBlock(a.blockSize)
  {
  }

  /** One more inner index adds one element-wise product to the block. */
  lemma ProductBlockStep(a: DiagonalBlockMatrix, b: DiagonalBlockMatrix, i: nat, j: nat, k: nat)
    requires Conformable(a, b)
    requires i < a.blockRows && j < b.blockCols && k < a.blockCols
    ensures |a.diagonalBlocks[i][k]| == |b.diagonalBlocks[k][j]| == a.blockSize
    ensures ProductBlock(a, b, i, j, k + 1) ==
      BlockAdd(ProductBlock(a, b, i, j, k), BlockMul(a.diagonalBlocks[i][k], b.diagonalBlocks[k][j]))
  {
    ValidShape(a);
    ValidShape(b);
    var next, sum := ProductBlock(a, b, i, j, k + 1),
      BlockAdd(ProductBlock(a, b, i, j, k), BlockMul(a.diagonalBlocks[i][k], b.diagonalBlocks[k][j]));
    forall p | 0 <= p < a.blockSize
      ensures next[p] == sum[p]
    {
    }
  }

  /** The grid of product blocks, each accumulated over the whole inner index. */
  function ProductGrid(a: DiagonalBlockMatrix, b: DiagonalBlockMatrix): (g: Grid)
    requires Conformable(a, b)
    ensures |g| == a.blockRows
    ensures forall i | 0 <= i < a.blockRows :: |g[i]| == b.blockCols
    ensures forall i, j | 0 <= i < a.blockRows && 0 <= j < b.blockCols ::
      g[i][j] == ProductBlock(a, b, i, j, a.blockCols)
  {
    seq(a.blockRows, i requires 0 <= i < a.blockRows =>
      seq(b.blockCols, j requires 0 <= j < b.blockCols => ProductBlock(a, b, i, j, a.blockCols)))
  }

  /** The block product as a value: block `(i, j)` is the sum over `k` of the
      element-wise products of `a[i][k]` and `b[k][j]`. */
  function Product(a: DiagonalBlockMatrix, b: DiagonalBlockMatrix): (r: Result<DiagonalBlockMatrix>)
    requires Valid(a) && Valid(b)
    requires a.blockCols == b.blockRows ==> a.blockSize == b.blockSize
    ensures r.Err? <==> a.blockCols != b.blockRows
    ensures r.Err? ==> r.error == DimensionMismatch
    ensures r.Ok? ==> Valid(r.value)
    ensures r.Ok? ==> r.value.blockRows == a.blockRows && r.value.blockCols == b.blockCols
    ensures r.Ok? ==> r.value.blockSize == a.blockSize
    ensures r.Ok? ==> forall i, j, p | 0 <= i < a.blockRows && 0 <= j < b.blockCols && 0 <= p < a.blockSize ::
      r.value.diagonalBlocks[i][j][p] == InnerSum(a, b, i, j, p, a.blockCols)
  {
    if a.blockCols != b.blockRows then Err(DimensionMismatch)
    else New(ProductGrid(a, b))
  }

  /** Starts every result block at zero and accumulates the element-wise
      products over the inner index, block by block. */
  method Multiply(a: DiagonalBlockMatrix, b: DiagonalBlockMatrix) returns (r: Result<DiagonalBlockMatrix>)
    requires Valid(a) && Valid(b)
    requires a.blockCols == b.blockRows ==> a.blockSize == b.blockSize
    ensures r == Product(a, b)
  {
    if a.blockCols != b.blockRows {
      return Err(DimensionMismatch);
    }
    ValidShape(a);
    ValidShape(b);
    var rows, cols, inner, bs := a.blockRows, b.blockCols, a.blockCols, a.blockSize;
    var result: Grid := seq(rows, _ => seq(cols, _ => ZeroBlock(bs)));
    forall i', j' | 0 <= i' < rows && 0 <= j' < cols
      ensures result[i'][j'] == ProductBlock(a, b, i', j', 0)
    {
      ProductBlockZero(a, b, i', j');
    }
    for i := 0 to rows
      invariant |result| == rows
      invariant forall i' | 0 <= i' < rows :: |result[i']| == cols
      invariant forall i', j' | 0 <= i' < rows && 0 <= j' < cols ::
        result[i'][j'] == ProductBlock(a, b, i', j', if i' < i then inner else 0)
    {
      for j := 0 to cols
        invariant |result| == rows
        invariant forall i' | 0 <= i' < rows :: |result[i']| == cols
        invariant forall i', j' | 0 <= i' < rows && 0 <= j' < cols ::
          result[i'][j'] == ProductBlock(a, b, i', j', if i' < i || (i' == i && j' < j) then inner else 0)
      {
        for k := 0 to inner
          invariant |result| == rows
          invariant forall i' | 0 <= i' < rows :: |result[i']| == cols
          invariant forall i', j' | 0 <= i' < rows && 0 <= j' < cols ::
            result[i'][j'] == ProductBlock(a, b, i', j',
              if i' < i || (i' == i && j' < j) then inner else if i' == i && j' == j then k else 0)
        {
          ProductBlockStep(a, b, i, j, k);
          var term := BlockMul(a.diagonalBlocks[i][k], b.diagonalBlocks[k][j]);
          result := result[i := result[i][j := BlockAdd(result[i][j], term)]];
        }
      }
    }
    ghost var grid := ProductGrid(a, b);
    assert forall i | 0 <= i < rows :: result[i] == grid[i];
    assert result == grid;
    r := New(result);
  }

  // ---------------------------------------------------------------------
  // Block-diagonal structure

  /** Every entry of every block off the block diagonal is zero. */
  predicate BlockDiagonal(m: DiagonalBlockMatrix)
    requires Valid(m)
  {
    ValidShape(m);
    forall i, j, p | 0 <= i < m.blockRows && 0 <= j < m.blockCols && i != j && 0 <= p < m.blockSize ::
      m.diagonalBlocks[i][j][p] == 0.0
  }

  /** Scans the block positions row by row and stops at the first
      off-diagonal block with a nonzero entry. */
  method IsBlockDiagonal(m: DiagonalBlockMatrix) returns (b: bool)
    requires Valid(m)
    ensures b == BlockDiagonal(m)
  {
    ValidShape(m);
    for i := 0 to m.blockRows
      invariant forall i', j, p | 0 <= i' < i && 0 <= j < m.blockCols && i' != j && 0 <= p < m.blockSize ::
        m.diagonalBlocks[i'][j][p] == 0.0
    {
      for j := 0 to m.blockCols
        invariant forall i', j', p | 0 <= i' <= i && 0 <= j' < m.blockCols && (i' < i || j' < j) && i' != j' && 0 <= p < m.blockSize ::
          m.diagonalBlocks[i'][j'][p] == 0.0
      {
        if i != j && AnyNonzero(m.diagonalBlocks[i][j]) {
          return false;
        }
      }
    }
    return true;
  }

  // ---------------------------------------------------------------------
  // Inversion

  /** Some block on the block diagonal has a zero entry. */
  predicate ZeroOnDiagonal(m: DiagonalBlockMatrix)
    requires Valid(m)
  {
    ValidShape(m);
    exists i | 0 <= i < m.blockRows && i < m.blockCols :: AnyZero(m.diagonalBlocks[i][i])
  }

  /** Reciprocal blocks on the block diagonal, zero blocks elsewhere. */
  function InverseGrid(m: DiagonalBlockMatrix): (g: Grid)
    requires Valid(m) && !ZeroOnDiagonal(m)
    ensures |g| == m.blockRows
    ensures forall i | 0 <= i < m.blockRows :: |g[i]| == m.blockCols
    ensures forall i, j | 0 <= i < m.blockRows && 0 <= j < m.blockCols ::
      g[i][j] == if i == j then Reciprocal(m.diagonalBlocks[i][i]) else ZeroBlock(m.blockSize)
  {
    ValidShape(m);
    seq(m.blockRows, i requires 0 <= i < m.blockRows =>
      seq(m.blockCols, j requires 0 <= j < m.blockCols =>
        if i == j then Reciprocal(m.diagonalBlocks[i][i]) else ZeroBlock(m.blockSize)))
  }

  /** The fast inversion path as a value: element-wise reciprocals of the
      diagonal blocks; fails if any of them has a zero entry. */
  function FastInverse(m: DiagonalBlockMatrix): (r: Result<DiagonalBlockMatrix>)
    requires Valid(m)
    ensures r.Err? <==> exists i, p | 0 <= i < m.blockRows && i < m.blockCols && 0 <= p < m.blockSize ::
      m.diagonalBlocks[i][i][p] == 0.0
    ensures r.Err? ==> r.error == ZeroDiagonalEntry
    ensures r.Ok? ==> Valid(r.value) && BlockDiagonal(r.value)
    ensures r.Ok? ==> r.value.blockRows == m.blockRows && r.value.blockCols == m.blockCols
    ensures r.Ok? ==> r.value.blockSize == m.blockSize && r.value.shape == m.shape
    ensures r.Ok? ==> forall i, j, p | 0 <= i < m.blockRows && 0 <= j < m.blockCols && 0 <= p < m.blockSize ::
      r.value.diagonalBlocks[i][j][p] == if i == j then 1.0 / m.diagonalBlocks[i][i][p] else 0.0
  {
    ValidShape(m);
    if ZeroOnDiagonal(m) then Err(ZeroDiagonalEntry)
    else New(InverseGrid(m))
  }

  /** Takes the fast path when the matrix is block diagonal, building the
      result row by row and failing at the first diagonal block with a zero
      entry; otherwise hands the dense form to the dense inversion routine. */
  method Invert(m: DiagonalBlockMatrix) returns (r: Result<Inversion>)
    requires Valid(m)
    ensures !BlockDiagonal(m) ==> r == Ok(DenseFallback(DenseForm(m)))
    ensures BlockDiagonal(m) && FastInverse(m).Err? ==> r == Err(ZeroDiagonalEntry)
    ensures BlockDiagonal(m) && FastInverse(m).Ok? ==> r == Ok(BlockDiagonalInverse(FastInverse(m).value))
  {
    var blockDiagonal := IsBlockDiagonal(m);
    if !blockDiagonal {
      return Ok(DenseFallback(DenseForm(m)));
    }
    ValidShape(m);
    var invertedBlocks: Grid := [];
    for i := 0 to m.blockRows
      invariant |invertedBlocks| == i
      invariant forall i' | 0 <= i' < i && i' < m.blockCols :: !AnyZero(m.diagonalBlocks[i'][i'])
      invariant forall i' | 0 <= i' < i :: |invertedBlocks[i']| == m.blockCols
      invariant forall i', j | 0 <= i' < i && 0 <= j < m.blockCols ::
        invertedBlocks[i'][j] == if i' == j then Reciprocal(m.diagonalBlocks[i'][i']) else ZeroBlock(m.blockSize)
    {
      var invertedRow: seq<Block> := [];
      for j := 0 to m.blockCols
        invariant |invertedRow| == j
        invariant i < j ==> !AnyZero(m.diagonalBlocks[i][i])
        invariant forall j' | 0 <= j' < j ::
          invertedRow[j'] == if i == j' then Reciprocal(m.diagonalBlocks[i][i]) else ZeroBlock(m.blockSize)
      {
        if i == j {
          var block := m.diagonalBlocks[i][j];
          if AnyZero(block) {
            return Err(ZeroDiagonalEntry);
          }
          invertedRow := invertedRow + [Reciprocal(block)];
        } else {
          invertedRow := invertedRow + [ZeroBlock(m.blockSize)];
        }
      }
      invertedBlocks := invertedBlocks + [invertedRow];
    }
    ghost var grid := InverseGrid(m);
    assert forall i | 0 <= i < m.blockRows :: invertedBlocks[i] == grid[i];
    assert invertedBlocks == grid;
    var inverse := New(invertedBlocks);
    return Ok(BlockDiagonalInverse(inverse.value));
  }
}
