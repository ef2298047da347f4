/**
 * The row-major linear algebra wrappers of helper.c. Each multiply wrapper checks
 * the operand shapes and otherwise calls the reference BLAS (DGEMM or DGEMV with
 * alpha = 1 and beta = 0), which overwrites the result with the plain product; the
 * foreign routine is modelled by that product. Entries of a matrix with `cols`
 * columns are stored at index `j + i*cols`.
 */
module Helper {

  lemma MulLe(a: int, b: int, c: nat)
    requires a <= b
    ensures a * c <= b * c
  {
  }

  lemma MulCancel(a: int, b: int, c: nat)
    requires a * c < b * c
    ensures a < b
  {
    if a >= b {
      MulLe(b, a, c);
      assert false;
    }
  }

  lemma NextRow(i: int, cols: int)
    ensures i * cols + cols == (i + 1) * cols
  {
  }

  /** Row i of a matrix with `cols` columns lies inside a buffer holding `rows` rows. */
  lemma RowFits(i: nat, rows: nat, cols: nat)
    requires i < rows
    ensures i * cols + cols <= rows * cols
  {
    MulLe(i + 1, rows, cols);
    NextRow(i, cols);
  }

  /** Two sequences that agree on their first rows*cols entries agree on each of those rows. */
  lemma PrefixRow(a: seq<real>, a': seq<real>, rows: nat, cols: nat, i: nat)
    requires i < rows && rows * cols <= |a| && rows * cols <= |a'|
    requires a[..rows * cols] == a'[..rows * cols]
    ensures i * cols + cols <= |a| && i * cols + cols <= |a'|
    ensures a[i * cols..i * cols + cols] == a'[i * cols..i * cols + cols]
  {
    RowFits(i, rows, cols);
    var lo: nat := i * cols;
    assert a[lo..lo + cols] == a[..rows * cols][lo..lo + cols];
    assert a'[lo..lo + cols] == a'[..rows * cols][lo..lo + cols];
  }

  /** Every row-major index of a rows x cols matrix is below rows*cols. */
  lemma IndexFits(i: nat, j: nat, rows: nat, cols: nat)
    requires i < rows && j < cols
    ensures j + i * cols < rows * cols
  {
    RowFits(i, rows, cols);
  }

  /** Splitting a flat index below rows*cols into its row and its column. */
  lemma SplitIndex(k: nat, rows: nat, cols: nat)
    requires k < rows * cols
    ensures cols > 0 && k / cols < rows && k % cols < cols && k == k % cols + (k / cols) * cols
  {
    assert cols > 0;
    var q, r := k / cols, k % cols;
    assert k == q * cols + r;
    MulCancel(q, rows, cols);
  }

  /** The flat index j + i*cols has row i and column j. */
  lemma RowMajor(i: nat, j: nat, cols: nat)
    requires j < cols
    ensures (j + i * cols) / cols == i && (j + i * cols) % cols == j
  {
    var k := j + i * cols;
    var q, r := k / cols, k % cols;
    assert k == q * cols + r;
    NextRow(i, cols);
    NextRow(q, cols);
    MulCancel(q, i + 1, cols);
    MulCancel(i, q + 1, cols);
  }

  /**
   * The sum of the first k terms of the (i, j) entry of the product A*B, where A has
   * `inner` columns and B has `bCols` columns, summed in increasing order of the term.
   */
  function PartialEntry(a: seq<real>, b: seq<real>, inner: nat, bCols: nat, i: nat, j: nat, k: nat): real
    requires k <= inner && i * inner + inner <= |a|
    requires j < bCols && k * bCols <= |b|
  {
    if k == 0 then 0.0
    else PartialEntry(a, b, inner, bCols, i, j, k - 1) + a[k - 1 + i * inner] * b[j + (k - 1) * bCols]
  }

  /** The (i, j) entry of the product A*B. */
  function Entry(a: seq<real>, b: seq<real>, inner: nat, bCols: nat, i: nat, j: nat): real
    requires i * inner + inner <= |a|
    requires j < bCols && inner * bCols <= |b|
  {
    PartialEntry(a, b, inner, bCols, i, j, inner)
  }

  /** A partial entry depends on row i of A only through that row's `inner` values. */
  lemma {:induction false} PartialEntryRowFrame(a: seq<real>, a': seq<real>, b: seq<real>, inner: nat, bCols: nat,
                                                i: nat, j: nat, k: nat)
    requires k <= inner && i * inner + inner <= |a| && i * inner + inner <= |a'|
    requires j < bCols && k * bCols <= |b|
    requires a[i * inner..i * inner + inner] == a'[i * inner..i * inner + inner]
    ensures PartialEntry(a, b, inner, bCols, i, j, k) == PartialEntry(a', b, inner, bCols, i, j, k)
  {
    if k > 0 {
      MulLe(k - 1, k, bCols);
      PartialEntryRowFrame(a, a', b, inner, bCols, i, j, k - 1);
      assert a[k - 1 + i * inner] == a[i * inner..i * inner + inner][k - 1];
      assert a'[k - 1 + i * inner] == a'[i * inner..i * inner + inner][k - 1];
    }
  }

  /** An entry of A*B depends on A only through row i. */
  lemma EntryRowFrame(a: seq<real>, a': seq<real>, b: seq<real>, inner: nat, bCols: nat, i: nat, j: nat)
    requires i * inner + inner <= |a| && i * inner + inner <= |a'|
    requires j < bCols && inner * bCols <= |b|
    requires a[i * inner..i * inner + inner] == a'[i * inner..i * inner + inner]
    ensures Entry(a, b, inner, bCols, i, j) == Entry(a', b, inner, bCols, i, j)
  {
    PartialEntryRowFrame(a, a', b, inner, bCols, i, j, inner);
  }

  /**
   * The content of `result` after vector_matrix_multiply: unchanged when the matrix
   * does not have as many rows as the vector has entries, and when the vector is
   * empty (the BLAS routine rejects a leading dimension of 0 and writes nothing);
   * otherwise its first `matrixColumns` entries hold the row vector times the matrix.
   */
  function VectorMatrixProduct(vector: seq<real>, vectorSize: nat, matrix: seq<real>, matrixRows: nat,
                               matrixColumns: nat, result: seq<real>): seq<real>
    requires matrixRows == vectorSize > 0 ==>
      vectorSize <= |vector| && matrixRows * matrixColumns <= |matrix| && matrixColumns <= |result|
  {
    if matrixRows != vectorSize || vectorSize == 0 then
      result
    else
      seq(|result|, j requires 0 <= j < |result| =>
        if j < matrixColumns then Entry(vector, matrix, vectorSize, matrixColumns, 0, j) else result[j])
  }

  /**
   * The content of `result` after matrix_vector_multiply: unchanged when the matrix
   * does not have as many columns as the vector has entries, and when it has no
   * columns (the BLAS routine rejects a leading dimension of 0 and writes nothing);
   * otherwise its first `matrixRows` entries hold the matrix times the column vector.
   */
  function MatrixVectorProduct(vector: seq<real>, vectorSize: nat, matrix: seq<real>, matrixRows: nat,
                               matrixColumns: nat, result: seq<real>): seq<real>
    requires matrixColumns == vectorSize > 0 ==>
      vectorSize <= |vector| && matrixRows * matrixColumns <= |matrix| && matrixRows <= |result|
  {
    if matrixColumns != vectorSize || vectorSize == 0 then
      result
    else
      seq(|result|, r requires 0 <= r < |result| =>
        if r < matrixRows then
          RowFits(r, matrixRows, matrixColumns);
          Entry(matrix, vector, matrixColumns, 1, r, 0)
        else
          result[r])
  }

  /**
   * The content of `result` after matrix_matrix_multiply: unchanged when the inner
   * dimensions differ, and when they are 0 (the BLAS routine rejects a leading
   * dimension of 0 and writes nothing); otherwise its first rows1*columns2 entries
   * hold the row-major product.
   */
  function MatrixMatrixProduct(matrix1: seq<real>, rows1: nat, columns1: nat, matrix2: seq<real>, rows2: nat,
                               columns2: nat, result: seq<real>): seq<real>
    requires columns1 == rows2 > 0 ==>
      rows1 * columns1 <= |matrix1| && rows2 * columns2 <= |matrix2| && rows1 * columns2 <= |result|
  {
    if columns1 != rows2 || columns1 == 0 then
      result
    else
      seq(|result|, k requires 0 <= k < |result| =>
        if k < rows1 * columns2 then
          SplitIndex(k, rows1, columns2);
          RowFits(k / columns2, rows1, columns1);
          Entry(matrix1, matrix2, columns1, columns2, k / columns2, k % columns2)
        else
          result[k])
  }

  /** The content of `matrix` after matrix_update: every entry of the rows x cols matrix gains weight*update. */
  function MatrixUpdated(matrix: seq<real>, rows: nat, cols: nat, update: seq<real>, weight: real): seq<real>
    requires rows * cols <= |matrix| && rows * cols <= |update|
  {
    seq(|matrix|, k requires 0 <= k < |matrix| =>
      if k < rows * cols then matrix[k] + weight * update[k] else matrix[k])
  }

  /** Entry k of the rows x cols matrix after matrix_update with weight -rate loses rate * update[k]. */
  lemma MatrixUpdatedAt(matrix: seq<real>, rows: nat, cols: nat, update: seq<real>, rate: real, k: nat)
    requires rows * cols <= |matrix| && rows * cols <= |update| && k < rows * cols
    ensures MatrixUpdated(matrix, rows, cols, update, -rate)[k] == matrix[k] - rate * update[k]
  {
  }

  /** The n x n identity matrix in row-major order. */
  function Identity(n: nat): (m: seq<real>)
    ensures |m| == n * n
  {
    seq(n * n, k requires 0 <= k < n * n =>
      SplitIndex(k, n, n);
      if k / n == k % n then 1.0 else 0.0)
  }

  /** The entries of the identity matrix, addressed by row and column. */
  lemma IdentityAt(n: nat, i: nat, j: nat)
    requires i < n && j < n
    ensures j + i * n < n * n && Identity(n)[j + i * n] == if i == j then 1.0 else 0.0
  {
    IndexFits(i, j, n, n);
    RowMajor(i, j, n);
  }

  /** The first k terms of v * Identity(n) in column j keep only the diagonal term. */
  lemma {:induction false} PartialEntryIdentity(v: seq<real>, n: nat, j: nat, k: nat)
    requires n <= |v| && j < n && k <= n
    ensures PartialEntry(v, Identity(n), n, n, 0, j, k) == if j < k then v[j] else 0.0
  {
    if k > 0 {
      PartialEntryIdentity(v, n, j, k - 1);
      IdentityAt(n, k - 1, j);
    }
  }

  /** A row vector times the identity matrix is the vector itself. */
  lemma VectorTimesIdentity(v: seq<real>, n: nat, result: seq<real>)
    requires n <= |v| && n <= |result|
    ensures VectorMatrixProduct(v, n, Identity(n), n, n, result)[..n] == v[..n]
  {
    forall j | 0 <= j < n
      ensures VectorMatrixProduct(v, n, Identity(n), n, n, result)[j] == v[j]
    {
      PartialEntryIdentity(v, n, j, n);
    }
  }

  /**
   * With one inner column, matrix_matrix_multiply is the outer product of a column
   * vector and a row vector: entry (i, j) is column[i] * row[j].
   */
  lemma OuterProduct(column: seq<real>, rows: nat, row: seq<real>, cols: nat, result: seq<real>, i: nat, j: nat)
    requires rows <= |column| && cols <= |row| && rows * cols <= |result|
    requires i < rows && j < cols
    ensures j + i * cols < |result|
    ensures MatrixMatrixProduct(column, rows, 1, row, 1, cols, result)[j + i * cols] == column[i] * row[j]
  {
    IndexFits(i, j, rows, cols);
    RowMajor(i, j, cols);
    assert PartialEntry(column, row, 1, cols, i, j, 0) == 0.0;
    assert PartialEntry(column, row, 1, cols, i, j, 1) == column[i] * row[j];
  }

  /**
   * With an inner dimension of 0 each wrapper passes the BLAS routine a leading
   * dimension of 0, which it rejects, so the result buffer keeps its content.
   */
  lemma EmptyInnerDimension(vector: seq<real>, matrix: seq<real>, rows: nat, cols: nat, result: seq<real>)
    ensures VectorMatrixProduct(vector, 0, matrix, 0, cols, result) == result
    ensures MatrixVectorProduct(vector, 0, matrix, rows, 0, result) == result
    ensures MatrixMatrixProduct(vector, rows, 0, matrix, 0, cols, result) == result
  {
  }

  /** The expected result of test_vector_matrix_multiply: [1,2,3,4] times the 4 x 5 matrix 1..20. */
  lemma VectorMatrixExample(result: seq<real>)
    requires |result| == 5
    ensures VectorMatrixProduct([1.0, 2.0, 3.0, 4.0], 4,
                                [1.0, 2.0, 3.0, 4.0, 5.0, 6.0, 7.0, 8.0, 9.0, 10.0,
                                 11.0, 12.0, 13.0, 14.0, 15.0, 16.0, 17.0, 18.0, 19.0, 20.0],
                                4, 5, result)
            == [110.0, 120.0, 130.0, 140.0, 150.0]
  {
    var vector := [1.0, 2.0, 3.0, 4.0];
    var matrix := [1.0, 2.0, 3.0, 4.0, 5.0, 6.0, 7.0, 8.0, 9.0, 10.0,
                   11.0, 12.0, 13.0, 14.0, 15.0, 16.0, 17.0, 18.0, 19.0, 20.0];
    assert Entry(vector, matrix, 4, 5, 0, 0) == 110.0;
    assert Entry(vector, matrix, 4, 5, 0, 1) == 120.0;
    assert Entry(vector, matrix, 4, 5, 0, 2) == 130.0;
    assert Entry(vector, matrix, 4, 5, 0, 3) == 140.0;
    assert Entry(vector, matrix, 4, 5, 0, 4) == 150.0;
  }

  /** The expected result of test_matrix_vector_multiply: [[1,-1,2],[0,-3,1]] times [2,1,0]. */
  lemma MatrixVectorExample(result: seq<real>)
    requires |result| == 2
    ensures MatrixVectorProduct([2.0, 1.0, 0.0], 3, [1.0, -1.0, 2.0, 0.0, -3.0, 1.0], 2, 3, result) == [1.0, -3.0]
  {
    var vector, matrix := [2.0, 1.0, 0.0], [1.0, -1.0, 2.0, 0.0, -3.0, 1.0];
    assert Entry(matrix, vector, 3, 1, 0, 0) == 1.0;
    assert Entry(matrix, vector, 3, 1, 1, 0) == -3.0;
  }

  /** The expected result of test_matrix_matrix_multiply: the 4 x 1 matrix [1,2,3,4] times the 1 x 3 matrix [5,6,7]. */
  lemma MatrixMatrixExample(result: seq<real>)
    requires |result| == 12
    ensures MatrixMatrixProduct([1.0, 2.0, 3.0, 4.0], 4, 1, [5.0, 6.0, 7.0], 1, 3, result)
            == [5.0, 6.0, 7.0, 10.0, 12.0, 14.0, 15.0, 18.0, 21.0, 20.0, 24.0, 28.0]
  {
    var column, row := [1.0, 2.0, 3.0, 4.0], [5.0, 6.0, 7.0];
    var expected := [5.0, 6.0, 7.0, 10.0, 12.0, 14.0, 15.0, 18.0, 21.0, 20.0, 24.0, 28.0];
    forall k | 0 <= k < 12
      ensures MatrixMatrixProduct(column, 4, 1, row, 1, 3, result)[k] == expected[k]
    {
      OuterProduct(column, 4, row, 3, result, k / 3, k % 3);
    }
  }

  /** vector_matrix_multiply: `result` := vector * matrix, guarded by the shape check. */
  method VectorMatrixMultiply(vector: array<real>, vectorSize: nat, matrix: array<real>, matrixRows: nat,
                              matrixColumns: nat, result: array<real>)
    requires matrixRows == vectorSize > 0 ==>
      vectorSize <= vector.Length && matrixRows * matrixColumns <= matrix.Length && matrixColumns <= result.Length
    requires result != vector && result != matrix
    modifies result
    ensures result[..] == VectorMatrixProduct(vector[..], vectorSize, matrix[..], matrixRows, matrixColumns, old(result[..]))
  {
    if matrixRows != vectorSize {
      return;
    }
    if vectorSize == 0 {
      // cblas_dgemm rejects lda = 0 and leaves result alone
      return;
    }
    ghost var expected := VectorMatrixProduct(vector[..], vectorSize, matrix[..], matrixRows, matrixColumns, result[..]);
    forall j | 0 <= j < matrixColumns {
      result[j] := Entry(vector[..], matrix[..], vectorSize, matrixColumns, 0, j);
    }
    assert result[..] == expected;
    assert vector[..] == old(vector[..]) && matrix[..] == old(matrix[..]);
  }

  /** matrix_vector_multiply: `result` := matrix * vector, guarded by the shape check. */
  method MatrixVectorMultiply(vector: array<real>, vectorSize: nat, matrix: array<real>, matrixRows: nat,
                              matrixColumns: nat, result: array<real>)
    requires matrixColumns == vectorSize > 0 ==>
      vectorSize <= vector.Length && matrixRows * matrixColumns <= matrix.Length && matrixRows <= result.Length
    requires result != vector && result != matrix
    modifies result
    ensures result[..] == MatrixVectorProduct(vector[..], vectorSize, matrix[..], matrixRows, matrixColumns, old(result[..]))
  {
    if matrixColumns != vectorSize {
      return;
    }
    if vectorSize == 0 {
      // cblas_dgemv rejects lda = 0 and leaves result alone
      return;
    }
    forall r | 0 <= r < matrixRows
      ensures r * matrixColumns + matrixColumns <= matrix.Length
    {
      RowFits(r, matrixRows, matrixColumns);
    }
    ghost var expected := MatrixVectorProduct(vector[..], vectorSize, matrix[..], matrixRows, matrixColumns, result[..]);
    forall r | 0 <= r < matrixRows {
      result[r] := Entry(matrix[..], vector[..], matrixColumns, 1, r, 0);
    }
    assert result[..] == expected;
    assert vector[..] == old(vector[..]) && matrix[..] == old(matrix[..]);
  }

  /** matrix_matrix_multiply: `result` := matrix1 * matrix2, guarded by the shape check. */
  method MatrixMatrixMultiply(matrix1: array<real>, rows1: nat, columns1: nat, matrix2: array<real>, rows2: nat,
                              columns2: nat, result: array<real>)
    requires columns1 == rows2 > 0 ==>
      rows1 * columns1 <= matrix1.Length && rows2 * columns2 <= matrix2.Length && rows1 * columns2 <= result.Length
    requires result != matrix1 && result != matrix2
    modifies result
    ensures result[..] == MatrixMatrixProduct(matrix1[..], rows1, columns1, matrix2[..], rows2, columns2, old(result[..]))
  {
    if columns1 != rows2 {
      return;
    }
    if columns1 == 0 {
      // cblas_dgemm rejects lda = 0 and leaves result alone
      return;
    }
    forall k | 0 <= k < rows1 * columns2
      ensures columns2 > 0 && k / columns2 < rows1 && k % columns2 < columns2
      ensures (k / columns2) * columns1 + columns1 <= matrix1.Length
    {
      SplitIndex(k, rows1, columns2);
      RowFits(k / columns2, rows1, columns1);
    }
    ghost var expected := MatrixMatrixProduct(matrix1[..], rows1, columns1, matrix2[..], rows2, columns2, result[..]);
    forall k | 0 <= k < rows1 * columns2 {
      result[k] := Entry(matrix1[..], matrix2[..], columns1, columns2, k / columns2, k % columns2);
    }
    assert result[..] == expected;
    assert matrix1[..] == old(matrix1[..]) && matrix2[..] == old(matrix2[..]);
  }

  /** matrix_update: matrix[j + i*cols] += weight * update[j + i*cols] for every i < rows and j < cols. */
  method MatrixUpdate(matrix: array<real>, rows: nat, cols: nat, update: array<real>, weight: real)
    requires rows * cols <= matrix.Length && rows * cols <= update.Length
    requires matrix != update
    modifies matrix
    ensures matrix[..] == MatrixUpdated(old(matrix[..]), rows, cols, update[..], weight)
  {
    ghost var size := rows * cols;
    ghost var original := matrix[..];
    ghost var expected := MatrixUpdated(original, rows, cols, update[..], weight);
    var i := 0;
    ghost var done := 0;
    while i < rows
      invariant i <= rows && done == i * cols && done <= size
      invariant forall k :: 0 <= k < done ==> matrix[k] == expected[k]
      invariant forall k :: done <= k < matrix.Length ==> matrix[k] == original[k]
    {
      RowFits(i, rows, cols);
      NextRow(i, cols);
      var row := i * cols;
      var j := 0;
      while j < cols
        invariant j <= cols
        invariant forall k :: 0 <= k < row + j ==> matrix[k] == expected[k]
        invariant forall k :: row + j <= k < matrix.Length ==> matrix[k] == original[k]
      {
        matrix[j + row] := matrix[j + row] + weight * update[j + row];
        j := j + 1;
      }
      i := i + 1;
      done := row + cols;
    }
    assert forall k :: 0 <= k < matrix.Length ==> matrix[k] == expected[k];
    assert matrix[..] == expected;
  }
}
