/** Matrices stored row by row, and the product the multiplication routines compute.

    The entries and their arithmetic are arbitrary: no law of addition or multiplication is used, because every
    routine adds the terms of a cell in the same order.  The results therefore agree bit for bit for floating
    point numbers too. */
module Matrices {
  datatype Arithmetic<!N> = Arithmetic(zero: N, add: (N, N) -> N, mul: (N, N) -> N)

  /** Where row `i`, column `j` is stored. */
  function Flat(i: nat, j: nat, cols: nat): nat {
    i * cols + j
  }

  lemma FlatBound(i: nat, rows: nat, j: nat, cols: nat)
    requires i < rows && j < cols
    ensures Flat(i, j, cols) < rows * cols
  {
    assert (i + 1) * cols <= rows * cols;
  }

  lemma FlatSplits(i: nat, j: nat, cols: nat)
    requires j < cols
    ensures Flat(i, j, cols) / cols == i && Flat(i, j, cols) % cols == j
  {
    var x := Flat(i, j, cols);
    UniqueSplit(i, j, x / cols, x % cols, cols);
  }

  lemma UniqueSplit(q: int, r: int, q': int, r': int, c: int)
    requires q * c + r == q' * c + r' && 0 <= r < c && 0 <= r' < c
    ensures q == q' && r == r'
  {
    var d := q - q';
    assert d * c == r' - r;
    assert d >= 1 ==> d * c >= c;
    assert d <= -1 ==> d * c <= -c;
  }

  /** The place with number `x` is in row `x / cols`, column `x % cols`. */
  lemma Unflat(x: nat, rows: nat, cols: nat)
    requires x < rows * cols
    ensures cols > 0 && x / cols < rows && x % cols < cols && Flat(x / cols, x % cols, cols) == x
  {
    RowBound(x / cols, rows, cols);
  }

  lemma RowBound(q: nat, rows: nat, cols: nat)
    requires q * cols < rows * cols
    ensures q < rows
  {
  }

  /** The entry at row `i`, column `j`. */
  function Cell<N>(m: seq<N>, cols: nat, i: nat, j: nat, default: N): N {
    if Flat(i, j, cols) < |m| then m[Flat(i, j, cols)] else default
  }

  /** A matrix is its cells. */
  lemma SameCells<N>(r: seq<N>, s: seq<N>, rows: nat, cols: nat, default: N)
    requires |r| == |s| == rows * cols
    requires forall i: nat, j: nat | i < rows && j < cols :: Cell(r, cols, i, j, default) == Cell(s, cols, i, j, default)
    ensures r == s
  {
    forall x | 0 <= x < rows * cols ensures r[x] == s[x] {
      Unflat(x, rows, cols);
      assert Cell(r, cols, x / cols, x % cols, default) == Cell(s, cols, x / cols, x % cols, default);
    }
  }

  // ---------------------------------------------------------------- product

  datatype Problem<!N> = Problem(ar: Arithmetic<N>, a: seq<N>, rowsA: nat, colsA: nat, b: seq<N>, colsB: nat)
  {
    function Term(i: nat, j: nat, k: nat): N {
      ar.mul(Cell(a, colsA, i, k, ar.zero), Cell(b, colsB, k, j, ar.zero))
    }

    /** The first `n` terms of row `i` times column `j`, added up in order. */
    function Partial(i: nat, j: nat, n: nat): N {
      if n == 0 then ar.zero else ar.add(Partial(i, j, n - 1), Term(i, j, n - 1))
    }

    function Product(): (r: seq<N>)
      ensures |r| == rowsA * colsB
    {
      if colsB == 0 then [] else seq(rowsA * colsB, x requires 0 <= x => Partial(x / colsB, x % colsB, colsA))
    }
  }

  /** Cell by cell, the product adds up all `colsA` terms. */
  lemma ProductCell<N>(p: Problem<N>, i: nat, j: nat)
    requires i < p.rowsA && j < p.colsB
    ensures Cell(p.Product(), p.colsB, i, j, p.ar.zero) == p.Partial(i, j, p.colsA)
  {
    FlatBound(i, p.rowsA, j, p.colsB);
    FlatSplits(i, j, p.colsB);
  }

  /** An array whose cells are all complete holds the product. */
  lemma Complete<N>(p: Problem<N>, r: seq<N>)
    requires |r| >= p.rowsA * p.colsB
    requires forall i: nat, j: nat | i < p.rowsA && j < p.colsB :: Cell(r, p.colsB, i, j, p.ar.zero) == p.Partial(i, j, p.colsA)
    ensures r[..p.rowsA * p.colsB] == p.Product()
  {
    var s := r[..p.rowsA * p.colsB];
    forall i: nat, j: nat | i < p.rowsA && j < p.colsB
      ensures Cell(s, p.colsB, i, j, p.ar.zero) == Cell(p.Product(), p.colsB, i, j, p.ar.zero)
    {
      FlatBound(i, p.rowsA, j, p.colsB);
      ProductCell(p, i, j);
      assert Cell(s, p.colsB, i, j, p.ar.zero) == Cell(r, p.colsB, i, j, p.ar.zero);
    }
    SameCells(s, p.Product(), p.rowsA, p.colsB, p.ar.zero);
  }

  /** Writing one cell leaves all others as they are. */
  lemma WriteCell<N>(r: seq<N>, cols: nat, i: nat, j: nat, v: N, default: N)
    requires j < cols && Flat(i, j, cols) < |r|
    ensures var r' := r[Flat(i, j, cols) := v];
            forall i': nat, j': nat | j' < cols ::
              Cell(r', cols, i', j', default) == if i' == i && j' == j then v else Cell(r, cols, i', j', default)
  {
    var r' := r[Flat(i, j, cols) := v];
    forall i': nat, j': nat | j' < cols
      ensures Cell(r', cols, i', j', default) == if i' == i && j' == j then v else Cell(r, cols, i', j', default)
    {
      FlatSplits(i, j, cols);
      FlatSplits(i', j', cols);
    }
  }

  // ---------------------------------------------------------------- transposition

  function Transposed<N>(m: seq<N>, rows: nat, cols: nat, default: N): (t: seq<N>)
    ensures |t| == rows * cols
  {
    if rows == 0 then [] else seq(rows * cols, x requires 0 <= x => Cell(m, cols, x % rows, x / rows, default))
  }

  lemma TransposedCell<N>(m: seq<N>, rows: nat, cols: nat, i: nat, j: nat, default: N)
    requires i < rows && j < cols
    ensures Cell(Transposed(m, rows, cols, default), rows, j, i, default) == Cell(m, cols, i, j, default)
  {
    FlatBound(j, cols, i, rows);
    FlatSplits(j, i, rows);
  }

  /** Transposing twice gives the matrix back. */
  lemma TransposedTwice<N>(m: seq<N>, rows: nat, cols: nat, default: N)
    requires |m| == rows * cols
    ensures Transposed(Transposed(m, rows, cols, default), cols, rows, default) == m
  {
    var t := Transposed(m, rows, cols, default);
    forall i: nat, j: nat | i < rows && j < cols
      ensures Cell(Transposed(t, cols, rows, default), cols, i, j, default) == Cell(m, cols, i, j, default)
    {
      TransposedCell(t, cols, rows, j, i, default);
      TransposedCell(m, rows, cols, i, j, default);
    }
    SameCells(Transposed(t, cols, rows, default), m, rows, cols, default);
  }

  // ---------------------------------------------------------------- the product over the integers

  /** Integer arithmetic, in which the product is the one of linear algebra. */
  function Integers(): Arithmetic<int> {
    Arithmetic(0, (x: int, y: int) => x + y, (x: int, y: int) => x * y)
  }

  function IntegerProduct(a: seq<int>, rowsA: nat, colsA: nat, b: seq<int>, colsB: nat): Problem<int> {
    Problem(Integers(), a, rowsA, colsA, b, colsB)
  }

  function Identity(n: nat): (m: seq<int>)
    ensures |m| == n * n
  {
    if n == 0 then [] else seq(n * n, x requires 0 <= x => if x / n == x % n then 1 else 0)
  }

  lemma IdentityCell(n: nat, i: nat, j: nat)
    requires i < n && j < n
    ensures Cell(Identity(n), n, i, j, 0) == if i == j then 1 else 0
  {
    FlatBound(i, n, j, n);
    FlatSplits(i, j, n);
  }

  lemma {:induction false} PartialIdentity(a: seq<int>, rows: nat, n: nat, i: nat, j: nat, k: nat)
    requires i < rows && j < n && k <= n
    ensures IntegerProduct(a, rows, n, Identity(n), n).Partial(i, j, k) == if k > j then Cell(a, n, i, j, 0) else 0
  {
    if k > 0 {
      PartialIdentity(a, rows, n, i, j, k - 1);
      IdentityCell(n, k - 1, j);
    }
  }

  lemma {:induction false} IdentityPartial(b: seq<int>, n: nat, cols: nat, i: nat, j: nat, k: nat)
    requires i < n && j < cols && k <= n
    ensures IntegerProduct(Identity(n), n, n, b, cols).Partial(i, j, k) == if k > i then Cell(b, cols, i, j, 0) else 0
  {
    if k > 0 {
      IdentityPartial(b, n, cols, i, j, k - 1);
      IdentityCell(n, i, k - 1);
    }
  }

  /** The identity matrix is neutral on both sides. */
  lemma IdentityNeutral(a: seq<int>, rows: nat, cols: nat)
    requires |a| == rows * cols
    ensures IntegerProduct(a, rows, cols, Identity(cols), cols).Product() == a
    ensures IntegerProduct(Identity(rows), rows, rows, a, cols).Product() == a
  {
    var p, q := IntegerProduct(a, rows, cols, Identity(cols), cols), IntegerProduct(Identity(rows), rows, rows, a, cols);
    forall i: nat, j: nat | i < rows && j < cols
      ensures Cell(p.Product(), cols, i, j, 0) == Cell(a, cols, i, j, 0) == Cell(q.Product(), cols, i, j, 0)
    {
      ProductCell(p, i, j);
      ProductCell(q, i, j);
      PartialIdentity(a, rows, cols, i, j, cols);
      IdentityPartial(a, rows, cols, i, j, rows);
    }
    SameCells(p.Product(), a, rows, cols, 0);
    SameCells(q.Product(), a, rows, cols, 0);
  }

  function Sum(a: seq<int>, b: seq<int>): seq<int>
    requires |a| == |b|
  {
    seq(|a|, i requires 0 <= i < |a| => a[i] + b[i])
  }

  lemma {:induction false} PartialAdditive(a: seq<int>, a': seq<int>, rows: nat, n: nat, b: seq<int>, b': seq<int>, cols: nat, i: nat, j: nat, k: nat)
    requires |a| == |a'| && |b| == |b'|
    ensures IntegerProduct(Sum(a, a'), rows, n, b, cols).Partial(i, j, k)
            == IntegerProduct(a, rows, n, b, cols).Partial(i, j, k) + IntegerProduct(a', rows, n, b, cols).Partial(i, j, k)
    ensures IntegerProduct(a, rows, n, Sum(b, b'), cols).Partial(i, j, k)
            == IntegerProduct(a, rows, n, b, cols).Partial(i, j, k) + IntegerProduct(a, rows, n, b', cols).Partial(i, j, k)
  {
    if k > 0 {
      PartialAdditive(a, a', rows, n, b, b', cols, i, j, k - 1);
      Distributes(Cell(a, n, i, k - 1, 0), Cell(a', n, i, k - 1, 0), Cell(b, cols, k - 1, j, 0));
      Distributes(Cell(b, cols, k - 1, j, 0), Cell(b', cols, k - 1, j, 0), Cell(a, n, i, k - 1, 0));
    }
  }

  lemma Distributes(x: int, y: int, z: int)
    ensures (x + y) * z == x * z + y * z && z * (x + y) == z * x + z * y
  {
  }

  /** The product is additive in each factor. */
  lemma ProductAdditive(a: seq<int>, a': seq<int>, rows: nat, n: nat, b: seq<int>, b': seq<int>, cols: nat)
    requires |a| == |a'| && |b| == |b'|
    ensures IntegerProduct(Sum(a, a'), rows, n, b, cols).Product()
            == Sum(IntegerProduct(a, rows, n, b, cols).Product(), IntegerProduct(a', rows, n, b, cols).Product())
    ensures IntegerProduct(a, rows, n, Sum(b, b'), cols).Product()
            == Sum(IntegerProduct(a, rows, n, b, cols).Product(), IntegerProduct(a, rows, n, b', cols).Product())
  {
    forall x | 0 <= x < rows * cols
      ensures IntegerProduct(Sum(a, a'), rows, n, b, cols).Product()[x]
              == IntegerProduct(a, rows, n, b, cols).Product()[x] + IntegerProduct(a', rows, n, b, cols).Product()[x]
      ensures IntegerProduct(a, rows, n, Sum(b, b'), cols).Product()[x]
              == IntegerProduct(a, rows, n, b, cols).Product()[x] + IntegerProduct(a, rows, n, b', cols).Product()[x]
    {
      Unflat(x, rows, cols);
      PartialAdditive(a, a', rows, n, b, b', cols, x / cols, x % cols, n);
    }
  }
}
