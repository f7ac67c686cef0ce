/** The multiplication routines, on flat arrays the caller provides, and the transposition that links them. */
module MatrixOps {
  import opened Wrappers
  import opened Matrices

  datatype Error = NullArgument | IncompatibleDimensions

  /** The caller passes storage for at least `n` entries, or null. */
  predicate Fits<N>(m: array?<N>, n: nat) {
    m == null || m.Length >= n
  }

  /** Everything from place `n` on is as before. */
  ghost predicate RestKept<N>(r: seq<N>, was: seq<N>, n: nat) {
    |r| == |was| && forall x | n <= x < |r| :: r[x] == was[x]
  }

  /** `std::fill_n` */
  method FillZero<N>(ar: Arithmetic<N>, result: array<N>, ghost p: Problem<N>, n: nat)
    requires n <= result.Length && p.ar == ar && n == p.rowsA * p.colsB
    modifies result
    ensures RestKept(result[..], old(result[..]), n)
    ensures forall i: nat, j: nat | i < p.rowsA && j < p.colsB :: Cell(result[..], p.colsB, i, j, ar.zero) == p.Partial(i, j, 0)
  {
    for x := 0 to n
      invariant RestKept(result[..], old(result[..]), n)
      invariant forall y | 0 <= y < x :: result[y] == ar.zero
    {
      result[x] := ar.zero;
    }
    forall i: nat, j: nat | i < p.rowsA && j < p.colsB ensures Cell(result[..], p.colsB, i, j, ar.zero) == ar.zero {
      FlatBound(i, p.rowsA, j, p.colsB);
    }
  }

  /** The cells are complete up to row `row`, column `column`, in row order; the rest of the array is as before. */
  ghost predicate Filled<N>(p: Problem<N>, r: seq<N>, was: seq<N>, row: nat, column: nat) {
    && RestKept(r, was, p.rowsA * p.colsB)
    && forall i: nat, j: nat | i < p.rowsA && j < p.colsB && (i < row || (i == row && j < column)) ::
         Cell(r, p.colsB, i, j, p.ar.zero) == p.Partial(i, j, p.colsA)
  }

  /** Writing the next cell in row order. */
  lemma FillNext<N>(p: Problem<N>, r: seq<N>, was: seq<N>, row: nat, column: nat)
    requires Filled(p, r, was, row, column) && row < p.rowsA && column < p.colsB && |r| >= p.rowsA * p.colsB
    ensures Flat(row, column, p.colsB) < p.rowsA * p.colsB
    ensures Filled(p, r[Flat(row, column, p.colsB) := p.Partial(row, column, p.colsA)], was, row, column + 1)
  {
    FlatBound(row, p.rowsA, column, p.colsB);
    WriteCell(r, p.colsB, row, column, p.Partial(row, column, p.colsA), p.ar.zero);
  }

  lemma FillRow<N>(p: Problem<N>, r: seq<N>, was: seq<N>, row: nat)
    requires Filled(p, r, was, row, p.colsB)
    ensures Filled(p, r, was, row + 1, 0)
  {
  }

  lemma FillEnd<N>(p: Problem<N>, r: seq<N>, was: seq<N>)
    requires Filled(p, r, was, p.rowsA, 0) && |r| >= p.rowsA * p.colsB
    ensures r[..p.rowsA * p.colsB] == p.Product() && RestKept(r, was, p.rowsA * p.colsB)
  {
    Complete(p, r);
  }

  // ---------------------------------------------------------------- matrix by matrix

  method MultiplyMmNaive<N>(ar: Arithmetic<N>, matrixA: array?<N>, rowsA: nat, colsA: nat,
                            matrixB: array?<N>, rowsB: nat, colsB: nat, result: array?<N>) returns (error: Option<Error>)
    requires Fits(matrixA, rowsA * colsA) && Fits(matrixB, rowsB * colsB) && Fits(result, rowsA * colsB)
    requires result == null || (result != matrixA && result != matrixB)
    modifies result
    ensures error == if matrixA == null || matrixB == null || result == null then Some(NullArgument)
                     else if colsA != rowsB then Some(IncompatibleDimensions) else None
    ensures error.Some? && result != null ==> result[..] == old(result[..])
    ensures error == None ==>
              && result[..rowsA * colsB] == Problem(ar, matrixA[..], rowsA, colsA, matrixB[..], colsB).Product()
              && RestKept(result[..], old(result[..]), rowsA * colsB)
  {
    if matrixA == null || matrixB == null || result == null { return Some(NullArgument); }
    if colsA != rowsB { return Some(IncompatibleDimensions); }
    ghost var p := Problem(ar, matrixA[..], rowsA, colsA, matrixB[..], colsB);
    FillZero(ar, result, p, rowsA * colsB);
    assert Filled(p, result[..], old(result[..]), 0, 0);
    hide Flat;
    hide Filled;
    for i := 0 to rowsA
      invariant Filled(p, result[..], old(result[..]), i, 0)
    {
      for j := 0 to colsB
        invariant Filled(p, result[..], old(result[..]), i, j)
      {
        ghost var r := result[..];
        var sum := ar.zero;
        for k := 0 to colsA
          invariant sum == p.Partial(i, j, k) && result[..] == r
        {
          FlatBound(i, rowsA, k, colsA);
          FlatBound(k, rowsB, j, colsB);
          sum := ar.add(sum, ar.mul(matrixA[Flat(i, k, colsA)], matrixB[Flat(k, j, colsB)]));
        }
        FillNext(p, r, old(result[..]), i, j);
        result[Flat(i, j, colsB)] := sum;
        assert result[..] == r[Flat(i, j, colsB) := sum];
      }
      FillRow(p, result[..], old(result[..]), i);
    }
    FillEnd(p, result[..], old(result[..]));
    error := None;
  }

  /** The second matrix arrives transposed: row `j` of it is column `j` of the factor. */
  method MultiplyMmTransposedB<N>(ar: Arithmetic<N>, matrixA: array?<N>, rowsA: nat, colsA: nat,
                                  matrixBT: array?<N>, rowsBT: nat, colsBT: nat, result: array?<N>) returns (error: Option<Error>)
    requires Fits(matrixA, rowsA * colsA) && Fits(matrixBT, rowsBT * colsBT) && Fits(result, rowsA * rowsBT)
    requires result == null || (result != matrixA && result != matrixBT)
    modifies result
    ensures error == if matrixA == null || matrixBT == null || result == null then Some(NullArgument)
                     else if colsA != colsBT then Some(IncompatibleDimensions) else None
    ensures error.Some? && result != null ==> result[..] == old(result[..])
    ensures error == None ==>
              && result[..rowsA * rowsBT]
                 == Problem(ar, matrixA[..], rowsA, colsA, Transposed(matrixBT[..], rowsBT, colsBT, ar.zero), rowsBT).Product()
              && RestKept(result[..], old(result[..]), rowsA * rowsBT)
  {
    if matrixA == null || matrixBT == null || result == null { return Some(NullArgument); }
    if colsA != colsBT { return Some(IncompatibleDimensions); }
    ghost var p := Problem(ar, matrixA[..], rowsA, colsA, Transposed(matrixBT[..], rowsBT, colsBT, ar.zero), rowsBT);
    FillZero(ar, result, p, rowsA * rowsBT);
    assert Filled(p, result[..], old(result[..]), 0, 0);
    hide Flat;
    hide Filled;
    hide Transposed;
    for i := 0 to rowsA
      invariant Filled(p, result[..], old(result[..]), i, 0)
    {
      for j := 0 to rowsBT
        invariant Filled(p, result[..], old(result[..]), i, j)
      {
        ghost var r := result[..];
        var sum := ar.zero;
        for k := 0 to colsBT
          invariant sum == p.Partial(i, j, k) && result[..] == r
        {
          FlatBound(i, rowsA, k, colsA);
          FlatBound(j, rowsBT, k, colsBT);
          TransposedCell(matrixBT[..], rowsBT, colsBT, j, k, ar.zero);
          sum := ar.add(sum, ar.mul(matrixA[Flat(i, k, colsA)], matrixBT[Flat(j, k, colsBT)]));
        }
        FillNext(p, r, old(result[..]), i, j);
        result[Flat(i, j, rowsBT)] := sum;
        assert result[..] == r[Flat(i, j, rowsBT) := sum];
      }
      FillRow(p, result[..], old(result[..]), i);
    }
    FillEnd(p, result[..], old(result[..]));
    error := None;
  }

  // ---------------------------------------------------------------- the blocked product

  const BLOCK_SIZE: nat := 64

  function Min(a: nat, b: nat): nat { if a < b then a else b }

  /** How many terms cell (i, j) has received when the loops over blocks stand at (i0, j0, k0). */
  function Received(colsA: nat, i: nat, j: nat, i0: nat, j0: nat, k0: nat): nat {
    if i < i0 then colsA
    else if i >= i0 + BLOCK_SIZE then 0
    else if j < j0 then colsA
    else if j >= j0 + BLOCK_SIZE then 0
    else Min(k0, colsA)
  }

  ghost predicate Standing<N>(p: Problem<N>, r: seq<N>, was: seq<N>, i0: nat, j0: nat, k0: nat) {
    && RestKept(r, was, p.rowsA * p.colsB)
    && forall i: nat, j: nat | i < p.rowsA && j < p.colsB ::
         Cell(r, p.colsB, i, j, p.ar.zero) == p.Partial(i, j, Received(p.colsA, i, j, i0, j0, k0))
  }

  lemma NextColumnBlock<N>(p: Problem<N>, r: seq<N>, was: seq<N>, i0: nat, j0: nat, k0: nat)
    requires Standing(p, r, was, i0, j0, k0) && k0 >= p.colsA
    ensures Standing(p, r, was, i0, j0 + BLOCK_SIZE, 0)
  {
    forall i: nat, j: nat | i < p.rowsA && j < p.colsB
      ensures Cell(r, p.colsB, i, j, p.ar.zero) == p.Partial(i, j, Received(p.colsA, i, j, i0, j0 + BLOCK_SIZE, 0))
    {
      assert Received(p.colsA, i, j, i0, j0 + BLOCK_SIZE, 0) == Received(p.colsA, i, j, i0, j0, k0);
    }
  }

  lemma NextRowBlock<N>(p: Problem<N>, r: seq<N>, was: seq<N>, i0: nat, j0: nat)
    requires Standing(p, r, was, i0, j0, 0) && j0 >= p.colsB
    ensures Standing(p, r, was, i0 + BLOCK_SIZE, 0, 0)
  {
    forall i: nat, j: nat | i < p.rowsA && j < p.colsB
      ensures Cell(r, p.colsB, i, j, p.ar.zero) == p.Partial(i, j, Received(p.colsA, i, j, i0 + BLOCK_SIZE, 0, 0))
    {
      assert Received(p.colsA, i, j, i0 + BLOCK_SIZE, 0, 0) == Received(p.colsA, i, j, i0, j0, 0);
    }
  }

  lemma AllBlocks<N>(p: Problem<N>, r: seq<N>, was: seq<N>, i0: nat)
    requires Standing(p, r, was, i0, 0, 0) && i0 >= p.rowsA && |r| >= p.rowsA * p.colsB
    ensures r[..p.rowsA * p.colsB] == p.Product() && RestKept(r, was, p.rowsA * p.colsB)
  {
    Complete(p, r);
  }

  /** One block of the loops: rows i0.., columns j0.., terms k0... */
  datatype Block = Block(i0: nat, iMax: nat, j0: nat, jMax: nat, k0: nat, kMax: nat)

  function BlockAt<N>(p: Problem<N>, i0: nat, j0: nat, k0: nat): Block {
    Block(i0, Min(i0 + BLOCK_SIZE, p.rowsA), j0, Min(j0 + BLOCK_SIZE, p.colsB), k0, Min(k0 + BLOCK_SIZE, p.colsA))
  }

  /** How many terms cell (i, j) of the block has received when the loops inside it stand at (row, k, column). */
  function Inside(b: Block, i: nat, j: nat, row: nat, k: nat, column: nat): nat {
    if i < row then b.kMax
    else if i > row then b.k0
    else if j < column then k + 1
    else k
  }

  /** Inside the block the cells have received what `Inside` says; all others are untouched. */
  ghost predicate Working<N>(p: Problem<N>, r: seq<N>, was: seq<N>, b: Block, row: nat, k: nat, column: nat) {
    && RestKept(r, was, p.rowsA * p.colsB)
    && forall i: nat, j: nat | i < p.rowsA && j < p.colsB ::
         Cell(r, p.colsB, i, j, p.ar.zero)
         == if b.i0 <= i < b.iMax && b.j0 <= j < b.jMax then p.Partial(i, j, Inside(b, i, j, row, k, column))
            else Cell(was, p.colsB, i, j, p.ar.zero)
  }

  /** Adding one term to one cell of the block. */
  lemma AddTerm<N>(p: Problem<N>, r: seq<N>, was: seq<N>, b: Block, row: nat, k: nat, column: nat)
    requires Working(p, r, was, b, row, k, column) && |r| >= p.rowsA * p.colsB
    requires b.i0 <= row < b.iMax <= p.rowsA && b.j0 <= column < b.jMax <= p.colsB
    ensures Flat(row, column, p.colsB) < p.rowsA * p.colsB
    ensures r[Flat(row, column, p.colsB)] == p.Partial(row, column, k)
    ensures Working(p, r[Flat(row, column, p.colsB) := p.Partial(row, column, k + 1)], was, b, row, k, column + 1)
  {
    FlatBound(row, p.rowsA, column, p.colsB);
    WriteCell(r, p.colsB, row, column, p.Partial(row, column, k + 1), p.ar.zero);
    assert Cell(r, p.colsB, row, column, p.ar.zero) == r[Flat(row, column, p.colsB)];
  }

  lemma EnterBlock<N>(p: Problem<N>, r: seq<N>, start: seq<N>, i0: nat, j0: nat, k0: nat)
    requires Standing(p, r, start, i0, j0, k0) && k0 < p.colsA
    ensures Working(p, r, r, BlockAt(p, i0, j0, k0), i0, k0, j0)
  {
  }

  lemma NextTerm<N>(p: Problem<N>, r: seq<N>, was: seq<N>, b: Block, row: nat, k: nat)
    requires Working(p, r, was, b, row, k, b.jMax)
    ensures Working(p, r, was, b, row, k + 1, b.j0)
  {
  }

  lemma NextRow<N>(p: Problem<N>, r: seq<N>, was: seq<N>, b: Block, row: nat)
    requires Working(p, r, was, b, row, b.kMax, b.j0)
    ensures Working(p, r, was, b, row + 1, b.k0, b.j0)
  {
  }

  lemma LeaveBlock<N>(p: Problem<N>, r: seq<N>, was: seq<N>, start: seq<N>, i0: nat, j0: nat, k0: nat)
    requires Standing(p, was, start, i0, j0, k0) && k0 < p.colsA
    requires var b := BlockAt(p, i0, j0, k0); Working(p, r, was, b, b.iMax, b.k0, b.j0)
    ensures Standing(p, r, start, i0, j0, k0 + BLOCK_SIZE)
  {
    var b := BlockAt(p, i0, j0, k0);
    forall i: nat, j: nat | i < p.rowsA && j < p.colsB
      ensures Cell(r, p.colsB, i, j, p.ar.zero) == p.Partial(i, j, Received(p.colsA, i, j, i0, j0, k0 + BLOCK_SIZE))
    {
      if b.i0 <= i < b.iMax && b.j0 <= j < b.jMax {
        assert Received(p.colsA, i, j, i0, j0, k0 + BLOCK_SIZE) == b.kMax;
      } else {
        assert Received(p.colsA, i, j, i0, j0, k0 + BLOCK_SIZE) == Received(p.colsA, i, j, i0, j0, k0);
      }
    }
  }

  /** The three loops inside the block at (i0, j0, k0). */
  method MultiplyBlock<N>(ar: Arithmetic<N>, matrixA: array<N>, rowsA: nat, colsA: nat, matrixB: array<N>, rowsB: nat, colsB: nat,
                          result: array<N>, i0: nat, j0: nat, k0: nat, ghost p: Problem<N>, ghost start: seq<N>)
    requires matrixA.Length >= rowsA * colsA && matrixB.Length >= rowsB * colsB && result.Length >= rowsA * colsB
    requires result != matrixA && result != matrixB && colsA == rowsB
    requires p == Problem(ar, matrixA[..], rowsA, colsA, matrixB[..], colsB)
    requires i0 < rowsA && j0 < colsB && k0 < colsA && Standing(p, result[..], start, i0, j0, k0)
    modifies result
    ensures Standing(p, result[..], start, i0, j0, k0 + BLOCK_SIZE)
  {
    var iMax, jMax, kMax := Min(i0 + BLOCK_SIZE, rowsA), Min(j0 + BLOCK_SIZE, colsB), Min(k0 + BLOCK_SIZE, colsA);
    ghost var was, b := result[..], BlockAt(p, i0, j0, k0);
    EnterBlock(p, was, start, i0, j0, k0);
    hide Flat;
    hide Standing;
    hide Working;
    for i := i0 to iMax
      invariant Working(p, result[..], was, b, i, k0, j0)
    {
      for k := k0 to kMax
        invariant Working(p, result[..], was, b, i, k, j0)
      {
        FlatBound(i, rowsA, k, colsA);
        var aik := matrixA[Flat(i, k, colsA)];
        for j := j0 to jMax
          invariant Working(p, result[..], was, b, i, k, j)
        {
          AddTerm(p, result[..], was, b, i, k, j);
          FlatBound(k, rowsB, j, colsB);
          ghost var r := result[..];
          result[Flat(i, j, colsB)] := ar.add(result[Flat(i, j, colsB)], ar.mul(aik, matrixB[Flat(k, j, colsB)]));
          assert result[..] == r[Flat(i, j, colsB) := p.Partial(i, j, k + 1)];
        }
        NextTerm(p, result[..], was, b, i, k);
      }
      NextRow(p, result[..], was, b, i);
    }
    LeaveBlock(p, result[..], was, start, i0, j0, k0);
  }

  /** The six-loop product over blocks of 64 adds every term of every cell exactly once, in order: it computes what
      the naive product computes, whatever the dimensions. */
  method MultiplyMmOptimized<N>(ar: Arithmetic<N>, matrixA: array?<N>, rowsA: nat, colsA: nat,
                                matrixB: array?<N>, rowsB: nat, colsB: nat, result: array?<N>) returns (error: Option<Error>)
    requires Fits(matrixA, rowsA * colsA) && Fits(matrixB, rowsB * colsB) && Fits(result, rowsA * colsB)
    requires result == null || (result != matrixA && result != matrixB)
    modifies result
    ensures error == if matrixA == null || matrixB == null || result == null then Some(NullArgument)
                     else if colsA != rowsB then Some(IncompatibleDimensions) else None
    ensures error.Some? && result != null ==> result[..] == old(result[..])
    ensures error == None ==>
              && result[..rowsA * colsB] == Problem(ar, matrixA[..], rowsA, colsA, matrixB[..], colsB).Product()
              && RestKept(result[..], old(result[..]), rowsA * colsB)
  {
    if matrixA == null || matrixB == null || result == null { return Some(NullArgument); }
    if colsA != rowsB { return Some(IncompatibleDimensions); }
    ghost var p := Problem(ar, matrixA[..], rowsA, colsA, matrixB[..], colsB);
    FillZero(ar, result, p, rowsA * colsB);
    assert Standing(p, result[..], old(result[..]), 0, 0, 0);
    hide Flat;
    hide Standing;
    var i0: nat := 0;
    while i0 < rowsA
      invariant Standing(p, result[..], old(result[..]), i0, 0, 0)
    {
      var j0: nat := 0;
      while j0 < colsB
        invariant Standing(p, result[..], old(result[..]), i0, j0, 0)
      {
        var k0: nat := 0;
        while k0 < colsA
          invariant Standing(p, result[..], old(result[..]), i0, j0, k0)
        {
          MultiplyBlock(ar, matrixA, rowsA, colsA, matrixB, rowsB, colsB, result, i0, j0, k0, p, old(result[..]));
          k0 := k0 + BLOCK_SIZE;
        }
        NextColumnBlock(p, result[..], old(result[..]), i0, j0, k0);
        j0 := j0 + BLOCK_SIZE;
      }
      NextRowBlock(p, result[..], old(result[..]), i0, j0);
      i0 := i0 + BLOCK_SIZE;
    }
    AllBlocks(p, result[..], old(result[..]), i0);
    error := None;
  }

  // ---------------------------------------------------------------- matrix by vector

  /** A vector is a matrix of one column. */
  lemma OneColumn(i: nat)
    ensures Flat(i, 0, 1) == i
  {
  }

  method MultiplyMvRowMajor<N>(ar: Arithmetic<N>, matrix: array?<N>, rows: nat, cols: nat, vector: array?<N>, result: array?<N>)
    returns (error: Option<Error>)
    requires Fits(matrix, rows * cols) && Fits(vector, cols) && Fits(result, rows)
    requires result == null || (result != matrix && result != vector)
    modifies result
    ensures error == if matrix == null || vector == null || result == null then Some(NullArgument) else None
    ensures error.Some? && result != null ==> result[..] == old(result[..])
    ensures error == None ==>
              && result[..rows] == Problem(ar, matrix[..], rows, cols, vector[..], 1).Product()
              && RestKept(result[..], old(result[..]), rows)
  {
    if matrix == null || vector == null || result == null { return Some(NullArgument); }
    ghost var p := Problem(ar, matrix[..], rows, cols, vector[..], 1);
    FillZero(ar, result, p, rows);
    assert Filled(p, result[..], old(result[..]), 0, 0);
    hide Flat;
    hide Filled;
    for i := 0 to rows
      invariant Filled(p, result[..], old(result[..]), i, 0)
    {
      ghost var r := result[..];
      var sum := ar.zero;
      for k := 0 to cols
        invariant sum == p.Partial(i, 0, k) && result[..] == r
      {
        FlatBound(i, rows, k, cols);
        OneColumn(k);
        sum := ar.add(sum, ar.mul(matrix[Flat(i, k, cols)], vector[k]));
      }
      FillNext(p, r, old(result[..]), i, 0);
      OneColumn(i);
      result[i] := sum;
      assert result[..] == r[Flat(i, 0, 1) := sum];
      FillRow(p, result[..], old(result[..]), i);
    }
    FillEnd(p, result[..], old(result[..]));
    error := None;
  }

  /** The cells of the result have received the terms of the columns before `column`, and those before `row` that of `column` too. */
  ghost predicate ColumnsAdded<N>(p: Problem<N>, r: seq<N>, was: seq<N>, column: nat, row: nat) {
    && RestKept(r, was, p.rowsA)
    && forall i: nat | i < p.rowsA && i < |r| :: r[i] == p.Partial(i, 0, if i < row then column + 1 else column)
  }

  lemma ColumnsNext<N>(p: Problem<N>, r: seq<N>, was: seq<N>, column: nat, row: nat)
    requires ColumnsAdded(p, r, was, column, row) && row < p.rowsA <= |r|
    ensures r[row] == p.Partial(row, 0, column)
    ensures ColumnsAdded(p, r[row := p.Partial(row, 0, column + 1)], was, column, row + 1)
  {
  }

  lemma ColumnDone<N>(p: Problem<N>, r: seq<N>, was: seq<N>, column: nat)
    requires ColumnsAdded(p, r, was, column, p.rowsA)
    ensures ColumnsAdded(p, r, was, column + 1, 0)
  {
  }

  lemma ColumnsEnd<N>(p: Problem<N>, r: seq<N>, was: seq<N>)
    requires ColumnsAdded(p, r, was, p.colsA, 0) && |r| >= p.rowsA && p.colsB == 1
    ensures r[..p.rowsA] == p.Product() && RestKept(r, was, p.rowsA)
  {
    forall i: nat, j: nat | i < p.rowsA && j < p.colsB ensures Cell(r, 1, i, j, p.ar.zero) == p.Partial(i, j, p.colsA) {
      OneColumn(i);
    }
    Complete(p, r);
  }

  /** The matrix is stored column by column: its storage read row by row is its transpose. */
  method MultiplyMvColMajor<N>(ar: Arithmetic<N>, matrix: array?<N>, rows: nat, cols: nat, vector: array?<N>, result: array?<N>)
    returns (error: Option<Error>)
    requires Fits(matrix, cols * rows) && Fits(vector, cols) && Fits(result, rows)
    requires result == null || (result != matrix && result != vector)
    modifies result
    ensures error == if matrix == null || vector == null || result == null then Some(NullArgument) else None
    ensures error.Some? && result != null ==> result[..] == old(result[..])
    ensures error == None ==>
              && result[..rows] == Problem(ar, Transposed(matrix[..], cols, rows, ar.zero), rows, cols, vector[..], 1).Product()
              && RestKept(result[..], old(result[..]), rows)
  {
    if matrix == null || vector == null || result == null { return Some(NullArgument); }
    ghost var p := Problem(ar, Transposed(matrix[..], cols, rows, ar.zero), rows, cols, vector[..], 1);
    FillZero(ar, result, p, rows);
    forall i: nat | i < rows ensures result[i] == p.Partial(i, 0, 0) {
      OneColumn(i);
      assert Cell(result[..], 1, i, 0, ar.zero) == result[i];
    }
    assert ColumnsAdded(p, result[..], old(result[..]), 0, 0);
    hide Flat;
    hide Transposed;
    hide ColumnsAdded;
    for i := 0 to cols
      invariant ColumnsAdded(p, result[..], old(result[..]), i, 0)
    {
      for j := 0 to rows
        invariant ColumnsAdded(p, result[..], old(result[..]), i, j)
      {
        FlatBound(i, cols, j, rows);
        OneColumn(i);
        TransposedCell(matrix[..], cols, rows, i, j, ar.zero);
        ColumnsNext(p, result[..], old(result[..]), i, j);
        ghost var r := result[..];
        result[j] := ar.add(result[j], ar.mul(matrix[Flat(i, j, rows)], vector[i]));
        assert result[..] == r[j := p.Partial(j, 0, i + 1)];
      }
      ColumnDone(p, result[..], old(result[..]), i);
    }
    ColumnsEnd(p, result[..], old(result[..]));
    error := None;
  }

  // ---------------------------------------------------------------- transposition

  ghost predicate Moved<N>(m: seq<N>, rows: nat, cols: nat, t: seq<N>, row: nat, column: nat, default: N) {
    forall i: nat, j: nat | i < rows && j < cols && (i < row || (i == row && j < column)) ::
      Cell(t, rows, j, i, default) == Cell(m, cols, i, j, default)
  }

  lemma MoveNext<N>(m: seq<N>, rows: nat, cols: nat, t: seq<N>, row: nat, column: nat, default: N)
    requires |m| == |t| == rows * cols && Moved(m, rows, cols, t, row, column, default) && row < rows && column < cols
    ensures Flat(row, column, cols) < |m| && Flat(column, row, rows) < |t|
    ensures Moved(m, rows, cols, t[Flat(column, row, rows) := m[Flat(row, column, cols)]], row, column + 1, default)
  {
    FlatBound(row, rows, column, cols);
    FlatBound(column, cols, row, rows);
    WriteCell(t, rows, column, row, m[Flat(row, column, cols)], default);
  }

  lemma MoveEnd<N>(m: seq<N>, rows: nat, cols: nat, t: seq<N>, default: N)
    requires |m| == |t| == rows * cols && Moved(m, rows, cols, t, rows, 0, default)
    ensures t == Transposed(m, rows, cols, default)
  {
    forall j: nat, i: nat | j < cols && i < rows
      ensures Cell(t, rows, j, i, default) == Cell(Transposed(m, rows, cols, default), rows, j, i, default)
    {
      TransposedCell(m, rows, cols, i, j, default);
    }
    SameCells(t, Transposed(m, rows, cols, default), cols, rows, default);
  }

  /** `transpose_matrix`: refuses dimensions that are not positive, and data whose size does not match them. */
  method TransposeMatrix<N>(matrix: array<N>, rows: int, cols: int, zero: N) returns (transposed: array?<N>)
    ensures transposed == null <==> rows <= 0 || cols <= 0 || matrix.Length != rows * cols
    ensures transposed != null ==> fresh(transposed) && transposed[..] == Transposed(matrix[..], rows, cols, zero)
  {
    if rows <= 0 || cols <= 0 { return null; }
    if matrix.Length != rows * cols { return null; }
    var t := new N[cols * rows](_ => zero);
    assert Moved(matrix[..], rows, cols, t[..], 0, 0, zero);
    hide Flat;
    for i := 0 to rows
      invariant Moved(matrix[..], rows, cols, t[..], i, 0, zero)
    {
      for j := 0 to cols
        invariant Moved(matrix[..], rows, cols, t[..], i, j, zero)
      {
        MoveNext(matrix[..], rows, cols, t[..], i, j, zero);
        ghost var was := t[..];
        t[Flat(j, i, rows)] := matrix[Flat(i, j, cols)];
        assert t[..] == was[Flat(j, i, rows) := matrix[..][Flat(i, j, cols)]];
      }
    }
    MoveEnd(matrix[..], rows, cols, t[..], zero);
    transposed := t;
  }

  /** The three products of A and B agree when the transposed one is given what `TransposeMatrix` makes of B. */
  method ThreeWays<N>(ar: Arithmetic<N>, matrixA: array<N>, rowsA: nat, colsA: nat, matrixB: array<N>, rowsB: nat, colsB: nat)
    returns (naive: array<N>, blocked: array<N>, viaTransposed: array<N>)
    requires matrixA.Length == rowsA * colsA && matrixB.Length == rowsB * colsB && colsA == rowsB > 0 && colsB > 0
    ensures naive[..] == blocked[..] == viaTransposed[..] == Problem(ar, matrixA[..], rowsA, colsA, matrixB[..], colsB).Product()
  {
    hide Flat;
    hide Transposed;
    hide RestKept;
    hide Cell;
    ghost var p := Problem(ar, matrixA[..], rowsA, colsA, matrixB[..], colsB);
    naive := new N[rowsA * colsB](_ => ar.zero);
    var e := MultiplyMmNaive(ar, matrixA, rowsA, colsA, matrixB, rowsB, colsB, naive);
    assert naive[..] == p.Product();
    blocked := new N[rowsA * colsB](_ => ar.zero);
    e := MultiplyMmOptimized(ar, matrixA, rowsA, colsA, matrixB, rowsB, colsB, blocked);
    assert blocked[..] == p.Product();
    var t := TransposeMatrix(matrixB, rowsB, colsB, ar.zero);
    TransposedTwice(matrixB[..], rowsB, colsB, ar.zero);
    viaTransposed := new N[rowsA * colsB](_ => ar.zero);
    e := MultiplyMmTransposedB(ar, matrixA, rowsA, colsA, t, colsB, rowsB, viaTransposed);
    assert viaTransposed[..] == p.Product();
  }

  /** The two products of A and a vector agree when the column-major one is given what `TransposeMatrix` makes of A. */
  method TwoWays<N>(ar: Arithmetic<N>, matrix: array<N>, rows: nat, cols: nat, vector: array<N>)
    returns (rowMajor: array<N>, colMajor: array<N>)
    requires matrix.Length == rows * cols && vector.Length == cols > 0 && rows > 0
    ensures rowMajor[..] == colMajor[..] == Problem(ar, matrix[..], rows, cols, vector[..], 1).Product()
  {
    hide Flat;
    hide Transposed;
    rowMajor := new N[rows](_ => ar.zero);
    colMajor := new N[rows](_ => ar.zero);
    var e := MultiplyMvRowMajor(ar, matrix, rows, cols, vector, rowMajor);
    var t := TransposeMatrix(matrix, rows, cols, ar.zero);
    TransposedTwice(matrix[..], rows, cols, ar.zero);
    e := MultiplyMvColMajor(ar, t, rows, cols, vector, colMajor);
  }
}
