/**
 * What the block-diagonal operations mean for the dense matrices they stand
 * for: the dense form puts each block vector on its sub-block's diagonal,
 * addition and multiplication agree with dense addition and the dense matrix
 * product, and the fast inverse of a block-diagonal matrix is the inverse of
 * its dense form.
 */
module DBMProperties {
  import Dense
  import BlockIndex
  import opened DBM

  // ---------------------------------------------------------------------
  // Dense form

  /** Entry `(p, q)` of the dense sub-block at block position `(i, j)` is the
      block vector's entry `p` on the diagonal and zero off it. */
  lemma DenseBlockEntry(m: DiagonalBlockMatrix, i: nat, j: nat, p: nat, q: nat)
    requires Valid(m)
    requires i < m.blockRows && j < m.blockCols && p < m.blockSize && q < m.blockSize
    ensures i * m.blockSize + p < m.shape.0 && j * m.blockSize + q < m.shape.1
    ensures DenseForm(m)[i * m.blockSize + p][j * m.blockSize + q] ==
      if p == q then m.diagonalBlocks[i][j][p] else 0.0
  {
    var bs := m.blockSize;
    BlockIndex.Split(i, p, bs);
    BlockIndex.Split(j, q, bs);
    BlockIndex.Inside(i, p, bs, m.blockRows);
    BlockIndex.Inside(j, q, bs, m.blockCols);
  }

  // ---------------------------------------------------------------------
  // Addition

  /** Entry `(r, c)` of the dense form of a block-wise sum. */
  lemma AddDenseEntry(a: DiagonalBlockMatrix, b: DiagonalBlockMatrix, r: nat, c: nat)
    requires Valid(a) && Valid(b)
    requires a.blockRows == b.blockRows && a.blockCols == b.blockCols && a.blockSize == b.blockSize
    requires r < a.shape.0 && c < a.shape.1
    ensures Add(a, b).Ok?
    ensures DenseForm(Add(a, b).value)[r][c] == DenseForm(a)[r][c] + DenseForm(b)[r][c]
  {
    BlockIndex.Bound(r, a.blockSize, a.blockRows);
    BlockIndex.Bound(c, a.blockSize, a.blockCols);
  }

  /** The dense form of a block-wise sum is the entry-wise sum of the dense forms. */
  lemma AddDense(a: DiagonalBlockMatrix, b: DiagonalBlockMatrix)
    requires Valid(a) && Valid(b)
    requires a.blockRows == b.blockRows && a.blockCols == b.blockCols && a.blockSize == b.blockSize
    ensures Add(a, b).Ok?
    ensures DenseForm(Add(a, b).value) == Dense.Add(DenseForm(a), DenseForm(b))
  {
    var lhs, rhs := DenseForm(Add(a, b).value), Dense.Add(DenseForm(a), DenseForm(b));
    forall r | 0 <= r < a.shape.0
      ensures lhs[r] == rhs[r]
    {
      forall c | 0 <= c < a.shape.1
        ensures lhs[r][c] == rhs[r][c]
      {
        AddDenseEntry(a, b, r, c);
      }
    }
  }

  // ---------------------------------------------------------------------
  // Multiplication

  /** One more inner index adds one product to an entry of a product block. */
  lemma InnerSumLast(a: DiagonalBlockMatrix, b: DiagonalBlockMatrix, i: nat, j: nat, p: nat, k: nat)
    requires Conformable(a, b)
    requires i < a.blockRows && j < b.blockCols && p < a.blockSize && 0 < k <= a.blockCols
    ensures InnerSum(a, b, i, j, p, k) ==
      InnerSum(a, b, i, j, p, k - 1) + a.diagonalBlocks[i][k - 1][p] * b.diagonalBlocks[k - 1][j][p]
  {
  }

  /** Zero when dense row `r` and dense column `c` sit at different offsets
      `p` and `q` of their blocks; otherwise entry `p` of product block
      `(i, j)` accumulated over the block columns whose offset-`p` column
      lies below `t`. */
  ghost function PrefixValue(a: DiagonalBlockMatrix, b: DiagonalBlockMatrix, r: nat, c: nat, t: nat): real
    requires Conformable(a, b)
    requires r < a.shape.0 && c < b.shape.1 && t <= a.shape.1
  {
    var bs := a.blockSize;
    BlockIndex.Locate(r, bs, a.blockRows);
    BlockIndex.Locate(c, bs, b.blockCols);
    var i, p := BlockIndex.BlockOf(r, bs), BlockIndex.OffsetOf(r, bs);
    var j, q := BlockIndex.BlockOf(c, bs), BlockIndex.OffsetOf(c, bs);
    BlockIndex.CountBound(t, p, bs, a.blockCols);
    if p == q then InnerSum(a, b, i, j, p, BlockIndex.CountBefore(t, p, bs)) else 0.0
  }

  /** The terms of the inner sum for dense row `r` and dense column `c`. */
  ghost function Terms(a: DiagonalBlockMatrix, b: DiagonalBlockMatrix, r: nat, c: nat): (f: seq<real>)
    requires Conformable(a, b)
    requires r < a.shape.0 && c < b.shape.1
    ensures |f| == a.shape.1
  {
    seq(a.shape.1, s requires 0 <= s < a.shape.1 => TermValue(a, b, r, c, s))
  }

  /** At dense row `r` (offset `p` of block row `i`) and dense column `c`
      (offset `q` of block column `j`), the first `t` terms add up to zero
      when `p != q`, and otherwise to the product entry accumulated over the
      block columns whose offset-`p` column lies below `t`. */
  lemma {:induction false} PrefixSum(a: DiagonalBlockMatrix, b: DiagonalBlockMatrix, r: nat, c: nat, t: nat)
    requires Conformable(a, b)
    requires r < a.shape.0 && c < b.shape.1 && t <= a.shape.1
    ensures Dense.Sum(Terms(a, b, r, c), t) == PrefixValue(a, b, r, c, t)
    decreases t
  {
    if t == 0 {
      PrefixZero(a, b, r, c);
    } else {
      PrefixSum(a, b, r, c, t - 1);
      PrefixStep(a, b, r, c, t);
    }
  }

  /** Before any inner index, the prefix value is zero. */
  lemma PrefixZero(a: DiagonalBlockMatrix, b: DiagonalBlockMatrix, r: nat, c: nat)
    requires Conformable(a, b)
    requires r < a.shape.0 && c < b.shape.1
    ensures PrefixValue(a, b, r, c, 0) == 0.0
  {
    var bs := a.blockSize;
    BlockIndex.Locate(r, bs, a.blockRows);
    assert BlockIndex.CountBefore(0, BlockIndex.OffsetOf(r, bs), bs) == 0;
  }

  /** The term inner index `s` adds: the product of entry `p` of blocks
      `(i, k)` and `(k, j)` when row, column and inner index all sit at
      offset `p`, zero otherwise. */
  ghost function TermValue(a: DiagonalBlockMatrix, b: DiagonalBlockMatrix, r: nat, c: nat, s: nat): real
    requires Conformable(a, b)
    requires r < a.shape.0 && c < b.shape.1 && s < a.shape.1
  {
    var bs := a.blockSize;
    BlockIndex.Locate(r, bs, a.blockRows);
    BlockIndex.Locate(c, bs, b.blockCols);
    BlockIndex.Locate(s, bs, a.blockCols);
    var i, p := BlockIndex.BlockOf(r, bs), BlockIndex.OffsetOf(r, bs);
    var j, q := BlockIndex.BlockOf(c, bs), BlockIndex.OffsetOf(c, bs);
    var k, o := BlockIndex.BlockOf(s, bs), BlockIndex.OffsetOf(s, bs);
    if p == q && p == o then a.diagonalBlocks[i][k][p] * b.diagonalBlocks[k][j][p] else 0.0
  }

  /** The dense product term at inner index `s` is the term of the block product. */
  lemma TermDense(a: DiagonalBlockMatrix, b: DiagonalBlockMatrix, r: nat, c: nat, s: nat)
    requires Conformable(a, b)
    requires r < a.shape.0 && c < b.shape.1 && s < a.shape.1
    ensures DenseForm(a)[r][s] * DenseForm(b)[s][c] == TermValue(a, b, r, c, s)
  {
    var bs := a.blockSize;
    BlockIndex.Locate(r, bs, a.blockRows);
    BlockIndex.Locate(c, bs, b.blockCols);
    BlockIndex.Locate(s, bs, a.blockCols);
    var i, p := BlockIndex.BlockOf(r, bs), BlockIndex.OffsetOf(r, bs);
    var j, q := BlockIndex.BlockOf(c, bs), BlockIndex.OffsetOf(c, bs);
    var k, o := BlockIndex.BlockOf(s, bs), BlockIndex.OffsetOf(s, bs);
    var x, y := DenseForm(a)[r][s], DenseForm(b)[s][c];
    assert x == DenseEntry(a, r, s);
    assert y == DenseEntry(b, s, c);
    Dense.MeetingTerm(x, y, a.diagonalBlocks[i][k][p], b.diagonalBlocks[k][j][p], p == o && q == o);
  }

  /** Inner index `t - 1` adds its term to the prefix value. */
  lemma PrefixStep(a: DiagonalBlockMatrix, b: DiagonalBlockMatrix, r: nat, c: nat, t: nat)
    requires Conformable(a, b)
    requires r < a.shape.0 && c < b.shape.1 && 0 < t <= a.shape.1
    ensures PrefixValue(a, b, r, c, t) == PrefixValue(a, b, r, c, t - 1) + TermValue(a, b, r, c, t - 1)
  {
    var s := t - 1;
    var bs := a.blockSize;
    BlockIndex.Locate(r, bs, a.blockRows);
    BlockIndex.Locate(s, bs, a.blockCols);
    var i, p := BlockIndex.BlockOf(r, bs), BlockIndex.OffsetOf(r, bs);
    var k := BlockIndex.BlockOf(s, bs);
    BlockIndex.CountSucc(s, p, bs);
    BlockIndex.CountBound(t, p, bs, a.blockCols);
    BlockIndex.CountBound(s, p, bs, a.blockCols);
    if BlockIndex.OffsetOf(s, bs) == p {
      BlockIndex.Locate(c, bs, b.blockCols);
      InnerSumLast(a, b, i, BlockIndex.BlockOf(c, bs), p, k + 1);
    }
  }

  /** The dense form of the block product is the dense matrix product of the
      dense forms. */
  lemma ProductDense(a: DiagonalBlockMatrix, b: DiagonalBlockMatrix)
    requires Conformable(a, b)
    ensures Product(a, b).Ok?
    ensures a.shape.1 == b.shape.0
    ensures DenseForm(Product(a, b).value) ==
      Dense.MatMul(DenseForm(a), DenseForm(b), a.shape.0, a.shape.1, b.shape.1)
  {
    var lhs := DenseForm(Product(a, b).value);
    var rhs := Dense.MatMul(DenseForm(a), DenseForm(b), a.shape.0, a.shape.1, b.shape.1);
    forall r | 0 <= r < a.shape.0
      ensures lhs[r] == rhs[r]
    {
      forall c | 0 <= c < b.shape.1
        ensures lhs[r][c] == rhs[r][c]
      {
        ProductDenseEntry(a, b, r, c);
      }
    }
  }

  /** The dense product terms of row `r` and column `c` are the block product terms. */
  lemma TermsDense(a: DiagonalBlockMatrix, b: DiagonalBlockMatrix, r: nat, c: nat)
    requires Conformable(a, b)
    requires r < a.shape.0 && c < b.shape.1
    ensures forall s | 0 <= s < a.shape.1 ::
      c < |DenseForm(b)[s]| && DenseForm(a)[r][s] * DenseForm(b)[s][c] == Terms(a, b, r, c)[s]
  {
    forall s | 0 <= s < a.shape.1
      ensures c < |DenseForm(b)[s]| && DenseForm(a)[r][s] * DenseForm(b)[s][c] == Terms(a, b, r, c)[s]
    {
      TermDense(a, b, r, c, s);
    }
  }

  /** One entry of the dense form of the block product is the dense dot
      product of its row and column. */
  lemma ProductDenseEntry(a: DiagonalBlockMatrix, b: DiagonalBlockMatrix, r: nat, c: nat)
    requires Conformable(a, b)
    requires r < a.shape.0 && c < b.shape.1
    ensures Product(a, b).Ok?
    ensures DenseForm(Product(a, b).value)[r][c] ==
      Dense.Dot(DenseForm(a), DenseForm(b), r, c, 0, a.shape.1)
  {
    TermsDense(a, b, r, c);
    Dense.DotAsSum(DenseForm(a), DenseForm(b), r, c, a.shape.1, Terms(a, b, r, c));
    PrefixSum(a, b, r, c, a.shape.1);
    ProductEntryPrefix(a, b, r, c);
  }

  /** Over the whole inner index, the prefix value is the entry of the block product. */
  lemma ProductEntryPrefix(a: DiagonalBlockMatrix, b: DiagonalBlockMatrix, r: nat, c: nat)
    requires Conformable(a, b)
    requires r < a.shape.0 && c < b.shape.1
    ensures Product(a, b).Ok?
    ensures DenseForm(Product(a, b).value)[r][c] == PrefixValue(a, b, r, c, a.shape.1)
  {
    var bs := a.blockSize;
    BlockIndex.Locate(r, bs, a.blockRows);
    BlockIndex.Locate(c, bs, b.blockCols);
    BlockIndex.CountBound(a.shape.1, BlockIndex.OffsetOf(r, bs), bs, a.blockCols);
  }

  // ---------------------------------------------------------------------
  // Block-diagonal structure

  /** The dense form is zero wherever the row and the column fall in
      different blocks. */
  ghost predicate DenseBlockDiagonal(m: DiagonalBlockMatrix)
    requires Valid(m)
  {
    m.blockSize == 0 ||
    forall r, c | 0 <= r < m.shape.0 && 0 <= c < m.shape.1 ::
      BlockIndex.BlockOf(r, m.blockSize) != BlockIndex.BlockOf(c, m.blockSize) ==> DenseForm(m)[r][c] == 0.0
  }

  /** A matrix is block diagonal exactly when its dense form is. */
  lemma BlockDiagonalDense(m: DiagonalBlockMatrix)
    requires Valid(m)
    ensures BlockDiagonal(m) <==> DenseBlockDiagonal(m)
  {
    if BlockDiagonal(m) {
      BlockDiagonalToDense(m);
    }
    if DenseBlockDiagonal(m) {
      DenseToBlockDiagonal(m);
    }
  }

  lemma BlockDiagonalToDense(m: DiagonalBlockMatrix)
    requires Valid(m) && BlockDiagonal(m)
    ensures DenseBlockDiagonal(m)
  {
    var bs := m.blockSize;
    if bs > 0 {
      forall r, c | 0 <= r < m.shape.0 && 0 <= c < m.shape.1 &&
        BlockIndex.BlockOf(r, bs) != BlockIndex.BlockOf(c, bs)
        ensures DenseForm(m)[r][c] == 0.0
      {
        BlockIndex.Locate(r, bs, m.blockRows);
        BlockIndex.Locate(c, bs, m.blockCols);
      }
    }
  }

  lemma DenseToBlockDiagonal(m: DiagonalBlockMatrix)
    requires Valid(m) && DenseBlockDiagonal(m)
    ensures BlockDiagonal(m)
  {
    var bs := m.blockSize;
    ValidShape(m);
    forall i, j, p | 0 <= i < m.blockRows && 0 <= j < m.blockCols && i != j && 0 <= p < bs
      ensures m.diagonalBlocks[i][j][p] == 0.0
    {
      DenseBlockEntry(m, i, j, p, p);
      BlockIndex.Split(i, p, bs);
      BlockIndex.Split(j, p, bs);
    }
  }

  // ---------------------------------------------------------------------
  // Block-diagonal products and the fast inverse

  /** With a block-diagonal left factor only the inner index `t == i`
      contributes to entry `p` of product block `(i, j)`. */
  lemma {:induction false} InnerSumLeftDiagonal(a: DiagonalBlockMatrix, b: DiagonalBlockMatrix, i: nat, j: nat, p: nat, k: nat)
    requires Conformable(a, b) && BlockDiagonal(a)
    requires i < a.blockRows && j < b.blockCols && p < a.blockSize && k <= a.blockCols
    ensures InnerSum(a, b, i, j, p, k) ==
      if i < k then a.diagonalBlocks[i][i][p] * b.diagonalBlocks[i][j][p] else 0.0
  {
    ValidShape(a);
    ValidShape(b);
    if k > 0 {
      InnerSumLeftDiagonal(a, b, i, j, p, k - 1);
      InnerSumLast(a, b, i, j, p, k);
      if k - 1 != i {
        assert a.diagonalBlocks[i][k - 1][p] == 0.0;
      }
    }
  }

  /** The product of two block-diagonal matrices is block diagonal, and its
      diagonal blocks are the element-wise products of theirs. */
  lemma ProductOfBlockDiagonal(a: DiagonalBlockMatrix, b: DiagonalBlockMatrix)
    requires Conformable(a, b) && BlockDiagonal(a) && BlockDiagonal(b)
    ensures Product(a, b).Ok?
    ensures BlockDiagonal(Product(a, b).value)
    ensures forall i, j, p | 0 <= i < a.blockRows && 0 <= j < b.blockCols && 0 <= p < a.blockSize ::
      Product(a, b).value.diagonalBlocks[i][j][p] ==
        if i == j && i < a.blockCols then a.diagonalBlocks[i][i][p] * b.diagonalBlocks[i][i][p] else 0.0
  {
    ValidShape(a);
    ValidShape(b);
    var g := Product(a, b).value.diagonalBlocks;
    forall i, j, p | 0 <= i < a.blockRows && 0 <= j < b.blockCols && 0 <= p < a.blockSize
      ensures g[i][j][p] ==
        if i == j && i < a.blockCols then a.diagonalBlocks[i][i][p] * b.diagonalBlocks[i][i][p] else 0.0
    {
      InnerSumLeftDiagonal(a, b, i, j, p, a.blockCols);
      if i != j && i < a.blockCols {
        assert b.diagonalBlocks[i][j][p] == 0.0;
      }
    }
  }

  /** A square block grid whose diagonal blocks are all ones and whose other
      blocks are all zeros. */
  predicate BlockIdentity(m: DiagonalBlockMatrix)
    requires Valid(m)
  {
    ValidShape(m);
    m.blockRows == m.blockCols &&
    forall i, j, p | 0 <= i < m.blockRows && 0 <= j < m.blockCols && 0 <= p < m.blockSize ::
      m.diagonalBlocks[i][j][p] == if i == j then 1.0 else 0.0
  }

  /** The dense form of a block identity is the dense identity. */
  lemma BlockIdentityDense(m: DiagonalBlockMatrix)
    requires Valid(m) && BlockIdentity(m)
    ensures m.shape.0 == m.shape.1
    ensures DenseForm(m) == Dense.Identity(m.shape.0)
  {
    var bs, d, e := m.blockSize, DenseForm(m), Dense.Identity(m.shape.0);
    forall r | 0 <= r < m.shape.0
      ensures d[r] == e[r]
    {
      forall c | 0 <= c < m.shape.1
        ensures d[r][c] == e[r][c]
      {
        BlockIndex.Bound(r, bs, m.blockRows);
        BlockIndex.Bound(c, bs, m.blockCols);
      }
    }
  }

  /** Two square block-diagonal factors whose diagonal blocks multiply to
      ones element-wise have the block identity as their product. */
  lemma ReciprocalProduct(a: DiagonalBlockMatrix, b: DiagonalBlockMatrix)
    requires Conformable(a, b) && BlockDiagonal(a) && BlockDiagonal(b)
    requires a.blockRows == a.blockCols == b.blockCols
    requires forall i, p | 0 <= i < a.blockRows && 0 <= p < a.blockSize ::
      a.diagonalBlocks[i][i][p] * b.diagonalBlocks[i][i][p] == 1.0
    ensures Product(a, b).Ok? && BlockIdentity(Product(a, b).value)
  {
    ProductOfBlockDiagonal(a, b);
    var c := Product(a, b).value;
    forall i, j, p | 0 <= i < c.blockRows && 0 <= j < c.blockCols && 0 <= p < c.blockSize
      ensures c.diagonalBlocks[i][j][p] == if i == j then 1.0 else 0.0
    {
    }
  }

  /** On a square block-diagonal matrix the fast inverse is a two-sided
      inverse in the block product. */
  lemma FastInverseIsBlockInverse(m: DiagonalBlockMatrix)
    requires Valid(m) && BlockDiagonal(m) && m.blockRows == m.blockCols
    requires FastInverse(m).Ok?
    ensures Conformable(m, FastInverse(m).value) && Conformable(FastInverse(m).value, m)
    ensures Product(m, FastInverse(m).value).Ok? && BlockIdentity(Product(m, FastInverse(m).value).value)
    ensures Product(FastInverse(m).value, m).Ok? && BlockIdentity(Product(FastInverse(m).value, m).value)
  {
    ValidShape(m);
    var inv := FastInverse(m).value;
    forall i, p | 0 <= i < m.blockRows && 0 <= p < m.blockSize
      ensures m.diagonalBlocks[i][i][p] * inv.diagonalBlocks[i][i][p] == 1.0
      ensures inv.diagonalBlocks[i][i][p] * m.diagonalBlocks[i][i][p] == 1.0
    {
      var x := m.diagonalBlocks[i][i][p];
      assert x != 0.0;
      assert inv.diagonalBlocks[i][i][p] == 1.0 / x;
    }
    ReciprocalProduct(m, inv);
    ReciprocalProduct(inv, m);
  }

  /** On a square block-diagonal matrix the dense form of the fast inverse is
      the inverse of the dense form, on both sides. */
  lemma FastInverseIsDenseInverse(m: DiagonalBlockMatrix)
    requires Valid(m) && BlockDiagonal(m) && m.blockRows == m.blockCols
    requires FastInverse(m).Ok?
    ensures m.shape.0 == m.shape.1 == FastInverse(m).value.shape.0
    ensures var n := m.shape.0;
      Dense.MatMul(DenseForm(m), DenseForm(FastInverse(m).value), n, n, n) == Dense.Identity(n) &&
      Dense.MatMul(DenseForm(FastInverse(m).value), DenseForm(m), n, n, n) == Dense.Identity(n)
  {
    var inv := FastInverse(m).value;
    FastInverseIsBlockInverse(m);
    ProductDense(m, inv);
    ProductDense(inv, m);
    BlockIdentityDense(Product(m, inv).value);
    BlockIdentityDense(Product(inv, m).value);
  }
}
