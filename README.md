# Diagonal block matrices

This project models `DiagonalBlockMatrix` from `DBM.py`. The class handles a
block matrix in which every block is a diagonal `block_size` by `block_size`
matrix. It stores a grid `diagonal_blocks[i][j]` of block vectors; each vector
is the main diagonal of the block at block row `i`, block column `j`. The class
offers:

- construction, which derives the block counts, the block size and the dense
  shape;
- `to_dense`;
- block-wise `add`;
- the block product `multiply`, in which each block product is an element-wise
  product of diagonals;
- the structural test `is_block_diagonal`;
- `invert`, whose fast path takes element-wise reciprocals of the diagonal
  blocks of a block-diagonal matrix.

Entries are Dafny `real`, that is, exact rationals. Each operation is stated
against a dense-matrix reference:

- dense addition;
- the dense matrix product, a sum over the inner index;
- the dense identity.

The main results are:

- the dense form of a block sum is the sum of the dense forms;
- the dense form of a block product is the dense product of the dense forms;
- on a square block-diagonal matrix, the fast inverse is a two-sided inverse of
  the dense form.

Modules, one file each:

- `BlockIndex` (block_index.dfy): splits a dense index into a block number and an
  offset inside the block. It is written as recursion, so the proofs need no
  division.
- `Dense` (dense.dfy): the dense reference. Matrices are sequences of rows, with
  sum, dot product, matrix product and identity.
- `DBM` (block_matrix.dfy): the class itself.
  - The matrix is never changed after construction, so it is an immutable
    datatype with the source's five attributes. `New` is the constructor.
  - `DenseForm` is the pure meaning of `to_dense`.
  - `ToDense`, `Multiply`, `IsBlockDiagonal` and `Invert` keep the source's loops
    and are proved against pure functions: `DenseForm`, `Product`,
    `BlockDiagonal` and `FastInverse`.
  - `ToDense` writes into a two-dimensional array, as the source does.
  - `add` is a nested comprehension in the source, so `Add` is a function.
  - Failures are `Result` values, one per kind of error the source raises:
    - `IndexOutOfRange` for construction from an empty grid;
    - `DimensionMismatch` for the assertions in `add` and `multiply`;
    - `ZeroDiagonalEntry` for the `ValueError` of the fast inversion path.
- `DBMProperties` (properties.dfy): lemmas relating the operations to the dense
  reference.
- `DBMScenarios` (scenarios.dfy): the concrete matrices of `tests.py`, with the
  results the script expects of them.

Construction does no validation. The
code indexes `diagonal_blocks[0]` and `diagonal_blocks[0][0]`, so an empty grid
or an empty first row raises `IndexError`. The model follows the code: `New`
returns `Err(IndexOutOfRange)` in exactly those cases. For any other grid it
stores the metadata read off row 0 and block `[0][0]`. `Valid` holds exactly
when the grid is rectangular with uniform block length.

## Model

| member | source | states |
|---|---|---|
| DBM.New | DBM.py:23-27 | fails exactly when the grid or its first row is empty; otherwise stores the grid, counts rows, row 0 and block [0][0], sets the shape to (rows·size, cols·size), and the result is valid exactly when the grid is rectangular with one block length |
| DBMProperties.DenseBlockEntry | DBM.py:36-46 | dense entry (i·bs+p, j·bs+q) lies inside the shape and is entry p of block (i, j) when p = q and zero when p ≠ q |
| DBM.ToDense | DBM.py:36-46 | returns a fresh array of the dense shape whose every cell is the corresponding entry of the dense form |
| DBM.FillDiagonal | DBM.py:39-45 | writing one block onto the diagonal of its sub-region takes the partially filled matrix from "blocks before (i, j) written" to "blocks up to (i, j) written" |
| DBM.PartialSkip | DBM.py:44-45 | skipping an all-zero block leaves every cell at the value writing the block would give it |
| DBM.Add | DBM.py:61-66 | fails with DimensionMismatch exactly when the block counts differ; otherwise the result is valid, has the operands' block counts, block size and shape, and block (i, j) is the element-wise sum |
| DBMProperties.AddDense | DBM.py:61-66 | for matching operands the sum succeeds and its dense form is the entry-wise sum of the operands' dense forms |
| DBMScenarios.AddScenario | tests.py:19-35 | the two test matrices add to the expected blocks [[4,0],[4,0]], [[6,0],[6,0]] |
| DBM.Product | DBM.py:81-87 | fails with DimensionMismatch exactly when the left block columns differ from the right block rows; otherwise the result is valid with left block rows, right block columns and the common block size, and entry p of block (i, j) is the sum over k of left[i][k][p] · right[k][j][p] |
| DBM.Multiply | DBM.py:81-87 | the triple loop that accumulates from zero blocks returns exactly the block product, including the mismatch error |
| DBMProperties.ProductDense | DBM.py:81-87 | for conformable operands the product succeeds and its dense form is the dense matrix product of the operands' dense forms |
| DBMProperties.ProductDenseEntry | DBM.py:83-86 | each entry of the dense form of the block product is the dense dot product of its row of the left dense form and its column of the right dense form |
| DBMProperties.PrefixSum | DBM.py:83-86 | for a dense row and column, the first t inner terms add up to zero when the two sit at different block offsets, and otherwise to the product entry accumulated over the blocks whose column at that offset lies below t |
| DBMScenarios.MultiplyScenario | tests.py:24-43 | the two test matrices multiply to the expected blocks [[9,0],[13,0]], [[16,0],[12,0]] |
| DBM.IsBlockDiagonal | DBM.py:96-100 | the scan with early exit returns true exactly when every entry of every off-diagonal block is zero |
| DBMProperties.BlockDiagonalDense | DBM.py:96-100 | a matrix is block diagonal exactly when its dense form is zero at every row and column that fall in different blocks |
| DBM.FastInverse | DBM.py:114-128 | fails with ZeroDiagonalEntry exactly when some diagonal block has a zero entry; otherwise the result is valid and block diagonal, with the input's block counts, size and shape, reciprocals on the diagonal blocks and zeros elsewhere |
| DBM.Invert | DBM.py:114-135 | a matrix that is not block diagonal takes the dense path with its dense form; a block-diagonal one yields the zero-entry error or exactly the fast inverse |
| DBMProperties.ProductOfBlockDiagonal | DBM.py:83-86 | the product of two block-diagonal matrices is block diagonal, and its diagonal blocks are the element-wise products of theirs |
| DBMProperties.BlockIdentityDense | DBM.py:36-46 | the dense form of a square grid with ones on the diagonal blocks and zeros elsewhere is the dense identity |
| DBMProperties.FastInverseIsBlockInverse | DBM.py:119-128 | for a square block-diagonal matrix without zero diagonal entries, multiplying by the fast inverse on either side gives the block identity |
| DBMProperties.FastInverseIsDenseInverse | DBM.py:119-128 | for such a matrix the dense form of the fast inverse is a two-sided inverse of the dense form |
| DBMScenarios.DiagonalScenario | tests.py:90-100 | diag(1, 2, 3, 4) given in blocks is block diagonal, so inversion takes the fast path |
| DBMScenarios.FastInverseScenario | tests.py:90-106 | the fast inverse of diag(1, 2, 3, 4) in blocks is diag(1, 0.5, 1/3, 0.25) in blocks |
| DBMScenarios.DenseFallbackScenario | tests.py:74-88 | the test matrix with nonzero off-diagonal blocks is not block diagonal, so it takes the dense path, and its dense form is the listed 4 by 4 matrix |

## Left out

- The dense inversion of `invert` (`np.linalg.inv` and the rewrapped `LinAlgError`). It is a foreign numeric routine. `Invert` returns the tagged outcome `DenseFallback` carrying the dense form that would be handed to it, not an inverse.
- Floating point: entries are exact rationals, so `1.0 / block`, the float accumulators and the exact comparison with `np.linalg.inv` in the tests are not modelled for rounding.
- numpy broadcasting and dtype promotion. Blocks of mismatched length in `add` and `multiply` make numpy raise, or broadcast a length-1 vector. The model instead requires equal block sizes whenever the block counts match.
- DBM.Add: states the block-size agreement as a precondition and does not model numpy's broadcasting error.
- DBM.Product: states the block-size agreement as a precondition and does not model numpy's broadcasting error.
- DBM.Invert: on the dense path it returns the pure dense form rather than calling the `to_dense` loop. `ToDense` is proved to compute that same matrix.
- DBM.ToDense: the slice `dense_matrix[start_row:end_row, start_col:end_col]` that `np.fill_diagonal` writes through is modelled by writing the cells of the parent array directly.
- Aliasing: the source stores the caller's list and arrays without copying. The model's values cannot be shared or changed afterwards, and "the operands are unchanged" holds by construction.
- `tests.py` as a script. Only its data and expected results appear, as the lemmas of `DBMScenarios`. The comparison of the 4 by 4 block example against `np.matmul` (tests.py:48-71) is covered for all inputs by `DBMProperties.ProductDense`, not by a concrete instance.
