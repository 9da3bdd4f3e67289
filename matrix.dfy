/** Dense matrices stored the way Eigen stores them by default: column by
    column, so that linear index i + rows*j addresses entry (i, j). */
module Matrices {
  import opened Sums

  /** A rows x cols matrix held as its list of columns. */
  datatype Matrix<T> = Matrix(rows: nat, cols: nat, columns: seq<seq<T>>)
  {
    /** There are cols columns and each holds rows entries. */
    ghost predicate Valid()
    {
      |columns| == cols && forall j :: 0 <= j < cols ==> |columns[j]| == rows
    }

    /** Entry (i, j), Eigen's m(i, j). */
    function At(i: nat, j: nat): T
      requires Valid() && i < rows && j < cols
    {
      columns[j][i]
    }

    /** Column j, Eigen's m.col(j). */
    function Column(j: nat): (c: seq<T>)
      requires Valid() && j < cols
      ensures |c| == rows && forall i :: 0 <= i < rows ==> c[i] == At(i, j)
    {
      columns[j]
    }

    /** Row i, Eigen's m.row(i). */
    function Row(i: nat): (r: seq<T>)
      requires Valid() && i < rows
      ensures |r| == cols && forall j :: 0 <= j < cols ==> r[j] == At(i, j)
    {
      seq(cols, j requires 0 <= j < cols => columns[j][i])
    }

    /** Eigen's size(): the number of coefficients. */
    function Size(): nat
    {
      rows * cols
    }
  }

  /** A matrix whose columns are given in column-major order. */
  function FromColumns<T>(rows: nat, columns: seq<seq<T>>): (m: Matrix<T>)
    requires forall j :: 0 <= j < |columns| ==> |columns[j]| == rows
    ensures m.Valid() && m.rows == rows && m.cols == |columns|
  {
    Matrix(rows, |columns|, columns)
  }

  /** A column vector (n x 1). */
  function ColVector<T>(v: seq<T>): (m: Matrix<T>)
    ensures m.Valid() && m.rows == |v| && m.cols == 1
    ensures forall i :: 0 <= i < |v| ==> m.At(i, 0) == v[i]
  {
    Matrix(|v|, 1, [v])
  }

  /** A row vector (1 x n). */
  function RowVector<T>(v: seq<T>): (m: Matrix<T>)
    ensures m.Valid() && m.rows == 1 && m.cols == |v|
    ensures forall j :: 0 <= j < |v| ==> m.At(0, j) == v[j]
  {
    Matrix(1, |v|, seq(|v|, j requires 0 <= j < |v| => [v[j]]))
  }

  /** The coefficients in Eigen's linear (column-major) order. */
  function Flatten<T>(columns: seq<seq<T>>): seq<T>
  {
    if |columns| == 0 then [] else Flatten(columns[..|columns| - 1]) + columns[|columns| - 1]
  }

  /** Eigen's column-major linear index of entry (i, j). */
  function LinearIndex(i: nat, j: nat, rows: nat): nat
  {
    i + rows * j
  }

  /** Linear index i + rows*j holds entry (i, j), and there are rows*cols
      coefficients in all. */
  lemma {:induction false} FlattenIndex<T>(m: Matrix<T>)
    requires m.Valid()
    ensures |Flatten(m.columns)| == m.rows * m.cols
    ensures forall i: nat, j: nat :: i < m.rows && j < m.cols ==>
      LinearIndex(i, j, m.rows) < |Flatten(m.columns)| && Flatten(m.columns)[LinearIndex(i, j, m.rows)] == m.At(i, j)
  {
    FlattenLength(m.columns, m.rows);
    forall i: nat, j: nat | i < m.rows && j < m.cols
      ensures LinearIndex(i, j, m.rows) < |Flatten(m.columns)| && Flatten(m.columns)[LinearIndex(i, j, m.rows)] == m.At(i, j)
    {
      FlattenAt(m.columns, m.rows, i, j);
    }
  }

  /** Columns of r coefficients each flatten to r * (number of columns). */
  lemma {:induction false} FlattenLength<T>(columns: seq<seq<T>>, r: nat)
    requires forall j :: 0 <= j < |columns| ==> |columns[j]| == r
    ensures |Flatten(columns)| == r * |columns|
  {
    if |columns| > 0 {
      var n := |columns| - 1;
      FlattenLength(columns[..n], r);
      MulSucc(r, n);
    }
  }

  /** Coefficient i of column j sits at i + r*j of the flattened columns. */
  lemma {:induction false} FlattenAt<T>(columns: seq<seq<T>>, r: nat, i: nat, j: nat)
    requires forall k :: 0 <= k < |columns| ==> |columns[k]| == r
    requires i < r && j < |columns|
    ensures LinearIndex(i, j, r) < |Flatten(columns)| && Flatten(columns)[LinearIndex(i, j, r)] == columns[j][i]
  {
    var n := |columns| - 1;
    var front := columns[..n];
    var F, G := Flatten(columns), Flatten(front);
    assert F == G + columns[n];
    FlattenLength(front, r);
    FlattenLength(columns, r);
    if j < n {
      FlattenAt(front, r, i, j);
      assert F[LinearIndex(i, j, r)] == G[LinearIndex(i, j, r)];
    } else {
      assert LinearIndex(i, j, r) == |G| + i;
    }
  }

  lemma {:induction false} MulSucc(r: nat, n: nat)
    ensures r * (n + 1) == r * n + r
  {
  }

  /** i + rows*j stays below rows*cols. */
  lemma {:induction false} LinearIndexBound(i: nat, j: nat, rows: nat, cols: nat)
    requires i < rows && j < cols
    ensures i + rows * j < rows * cols
  {
    assert rows * j + rows <= rows * cols by {
      assert rows * (j + 1) <= rows * cols;
    }
  }

  /** Distinct cells have distinct linear indices. */
  lemma {:induction false} LinearIndexInjective(i1: nat, j1: nat, i2: nat, j2: nat, rows: nat)
    requires i1 < rows && i2 < rows
    requires i1 + rows * j1 == i2 + rows * j2
    ensures i1 == i2 && j1 == j2
  {
    LinearIndexOrder(i1, j1, i2, j2, rows);
    LinearIndexOrder(i2, j2, i1, j1, rows);
  }

  /** A cell in an earlier column has a smaller linear index. */
  lemma {:induction false} LinearIndexOrder(i1: nat, j1: nat, i2: nat, j2: nat, rows: nat)
    requires i1 < rows && i2 < rows
    ensures j1 < j2 ==> i1 + rows * j1 < i2 + rows * j2
  {
    if j1 < j2 {
      assert rows * j2 >= rows * (j1 + 1);
    }
  }

  /** The same function applied to every coefficient. */
  function MapEntries<A, B>(m: Matrix<A>, f: A -> B): (r: Matrix<B>)
    requires m.Valid()
    ensures r.Valid() && r.rows == m.rows && r.cols == m.cols
    ensures forall i, j :: 0 <= i < m.rows && 0 <= j < m.cols ==> r.At(i, j) == f(m.At(i, j))
  {
    Matrix(m.rows, m.cols, seq(m.cols, j requires 0 <= j < m.cols =>
      seq(m.rows, i requires 0 <= i < m.rows => f(m.columns[j][i]))))
  }

  /** The transpose. */
  function Transpose<T>(m: Matrix<T>): (r: Matrix<T>)
    requires m.Valid()
    ensures r.Valid() && r.rows == m.cols && r.cols == m.rows
    ensures forall i, j :: 0 <= i < m.cols && 0 <= j < m.rows ==> r.At(i, j) == m.At(j, i)
  {
    Matrix(m.cols, m.rows, seq(m.rows, j requires 0 <= j < m.rows => m.Row(j)))
  }

  /** The matrix product a * b: entry (i, j) is row i of a dotted with
      column j of b. */
  function Product(a: Matrix<real>, b: Matrix<real>): (r: Matrix<real>)
    requires a.Valid() && b.Valid() && a.cols == b.rows
    ensures r.Valid() && r.rows == a.rows && r.cols == b.cols
    ensures forall i, j :: 0 <= i < a.rows && 0 <= j < b.cols ==>
      r.At(i, j) == Dot(a.Row(i), b.Column(j))
  {
    Matrix(a.rows, b.cols, seq(b.cols, j requires 0 <= j < b.cols =>
      seq(a.rows, i requires 0 <= i < a.rows => Dot(a.Row(i), b.Column(j)))))
  }

  /** Entrywise sum of two matrices of the same shape. */
  function Plus(a: Matrix<real>, b: Matrix<real>): (r: Matrix<real>)
    requires a.Valid() && b.Valid() && a.rows == b.rows && a.cols == b.cols
    ensures r.Valid() && r.rows == a.rows && r.cols == a.cols
    ensures forall i, j :: 0 <= i < a.rows && 0 <= j < a.cols ==> r.At(i, j) == a.At(i, j) + b.At(i, j)
  {
    Matrix(a.rows, a.cols, seq(a.cols, j requires 0 <= j < a.cols =>
      seq(a.rows, i requires 0 <= i < a.rows => a.columns[j][i] + b.columns[j][i])))
  }

  /** The diagonal of a square matrix as a row vector, Eigen's
      diagonal().transpose(). */
  function DiagonalRow(m: Matrix<real>): (r: Matrix<real>)
    requires m.Valid() && m.rows == m.cols
    ensures r.Valid() && r.rows == 1 && r.cols == m.cols
    ensures forall j :: 0 <= j < m.cols ==> r.At(0, j) == m.At(j, j)
  {
    RowVector(seq(m.cols, j requires 0 <= j < m.cols => m.columns[j][j]))
  }

  /** A matrix is symmetric when it equals its transpose. */
  ghost predicate Symmetric(m: Matrix<real>)
    requires m.Valid()
  {
    m.rows == m.cols && forall i, j :: 0 <= i < m.rows && 0 <= j < m.cols ==> m.At(i, j) == m.At(j, i)
  }

  /** The dot product is symmetric in its operands. */
  lemma {:induction false} DotSymmetric(a: seq<real>, b: seq<real>)
    requires |a| == |b|
    ensures Dot(a, b) == Dot(b, a)
  {
    assert Mul(a, b) == Mul(b, a);
  }

  /** Two matrices of the same shape with the same entries are equal. */
  lemma {:induction false} MatrixEqual<T>(a: Matrix<T>, b: Matrix<T>)
    requires a.Valid() && b.Valid() && a.rows == b.rows && a.cols == b.cols
    requires forall i, j :: 0 <= i < a.rows && 0 <= j < a.cols ==> a.At(i, j) == b.At(i, j)
    ensures a == b
  {
    forall j | 0 <= j < a.cols ensures a.columns[j] == b.columns[j] {
      forall i | 0 <= i < a.rows ensures a.columns[j][i] == b.columns[j][i] {
        assert a.At(i, j) == b.At(i, j);
      }
    }
  }

  /** Row i of the transpose is column i. */
  lemma {:induction false} TransposeRow<T>(m: Matrix<T>, i: nat)
    requires m.Valid() && i < m.cols
    ensures Transpose(m).Row(i) == m.Column(i)
  {
    var r := Transpose(m).Row(i);
    forall k | 0 <= k < m.rows ensures r[k] == m.Column(i)[k] {
      assert r[k] == Transpose(m).At(i, k);
    }
  }

  /** Column j of the transpose is row j. */
  lemma {:induction false} TransposeColumn<T>(m: Matrix<T>, j: nat)
    requires m.Valid() && j < m.rows
    ensures Transpose(m).Column(j) == m.Row(j)
  {
  }
}
