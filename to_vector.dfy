/** prim to_vector: a column vector gathered from a matrix by index lists,
    flattened from a matrix in column-major order, or copied from a
    std::vector. */
module ToVector {
  import opened Wrappers
  import opened Checks
  import opened Matrices
  import Slots

  /** to_vector(matrix, ind1, ind2): after the two index lists are checked
      for equal length and every row index for [0, rows - 1] and every column
      index for [0, cols - 1], entry k is the coefficient (ind1[k], ind2[k]).
      The checks run in that order, so the first failing one is reported. */
  function Gather<T>(m: Matrix<T>, ind1: seq<int>, ind2: seq<int>): (r: Result<seq<T>>)
    requires m.Valid()
    ensures r.Ok? <==> (|ind1| == |ind2|
      && (forall k :: 0 <= k < |ind1| ==> 0 <= ind1[k] < m.rows)
      && (forall k :: 0 <= k < |ind2| ==> 0 <= ind2[k] < m.cols))
    ensures |ind1| != |ind2| ==> r == Err(SizeMismatch(|ind1|, |ind2|))
    ensures r.Err? && |ind1| == |ind2| ==> r.error.Kind() == DomainError
    ensures r.Ok? ==> (|r.value| == |ind1|
      && forall k :: 0 <= k < |ind1| ==> r.value[k] == m.At(ind1[k], ind2[k]))
  {
    var _ :- CheckSizeMatch(|ind1|, |ind2|);
    var _ :- CheckBounded(ind1, 0, m.rows - 1);
    var _ :- CheckBounded(ind2, 0, m.cols - 1);
    Ok(seq(|ind1|, k requires 0 <= k < |ind1| && 0 <= ind1[k] < m.rows && 0 <= ind2[k] < m.cols =>
      m.At(ind1[k], ind2[k])))
  }

  /** A matrix with no rows accepts no row index at all. */
  lemma {:induction false} GatherNoRows<T>(m: Matrix<T>, ind1: seq<int>, ind2: seq<int>)
    requires m.Valid() && m.rows == 0 && |ind1| == |ind2| > 0
    ensures Gather(m, ind1, ind2).Err?
    ensures Gather(m, ind1, ind2).error.Kind() == DomainError
  {
  }

  /** The row and column index lists that walk the whole matrix in
      column-major order. */
  function GridRows(rows: nat, cols: nat): (r: seq<int>)
    ensures |r| == rows * cols
  {
    seq(rows * cols, l requires 0 <= l < rows * cols => l % rows)
  }

  function GridCols(rows: nat, cols: nat): (r: seq<int>)
    ensures |r| == rows * cols
  {
    seq(rows * cols, l requires 0 <= l < rows * cols => l / rows)
  }

  /** Gathering along the column-major walk of the whole matrix gives the
      flattened matrix: the index form and the matrix form agree. */
  lemma {:induction false} GatherAllIsFlattened<T>(m: Matrix<T>)
    requires m.Valid()
    ensures Gather(m, GridRows(m.rows, m.cols), GridCols(m.rows, m.cols)) == Ok(Flatten(m.columns))
  {
    var R, C := m.rows, m.cols;
    FlattenIndex(m);
    var ind1, ind2 := GridRows(R, C), GridCols(R, C);
    forall l | 0 <= l < R * C
      ensures 0 <= ind1[l] < R && 0 <= ind2[l] < C && ind1[l] + R * ind2[l] == l
    {
      var i, j := l % R, l / R;
      assert i + R * j == l;
      if j >= C {
        Slots.MultiplyMonotone(C, j, R);
      }
    }
    var g := Gather(m, ind1, ind2);
    assert g.Ok?;
    assert g.value == Flatten(m.columns) by {
      forall l | 0 <= l < R * C ensures g.value[l] == Flatten(m.columns)[l] {
        assert Flatten(m.columns)[LinearIndex(ind1[l], ind2[l], R)] == m.At(ind1[l], ind2[l]);
      }
    }
  }

  /** to_vector(std::vector<T>): the same elements in the same order, so a
      std::vector and the column vector holding it give the same result. */
  function FromStdVector<T>(v: seq<T>): (r: seq<T>)
    ensures r == Flatten(ColVector(v).columns)
  {
    var m := ColVector(v);
    FlattenIndex(m);
    assert forall i :: 0 <= i < |v| ==> Flatten(m.columns)[LinearIndex(i, 0, m.rows)] == v[i];
    v
  }

  /** The doubles the int overload produces: each int converted exactly. */
  function AsReals(v: seq<int>): (r: seq<real>)
    ensures |r| == |v|
  {
    seq(|v|, i requires 0 <= i < |v| => v[i] as real)
  }

  /** to_vector(std::vector<int>): a loop converts element by element. */
  method FromInts(vec: seq<int>) returns (result: array<real>)
    ensures fresh(result)
    ensures result[..] == AsReals(vec)
  {
    result := new real[|vec|];
    var i := 0;
    while i < |vec|
      invariant 0 <= i <= |vec|
      invariant forall k :: 0 <= k < i ==> result[k] == vec[k] as real
    {
      result[i] := vec[i] as real;
      i := i + 1;
    }
  }

  /** The conversion loses nothing: every converted entry truncates back to
      the original int. */
  lemma {:induction false} AsRealsRoundTrip(v: seq<int>)
    ensures |AsReals(v)| == |v|
    ensures forall i :: 0 <= i < |v| ==> AsReals(v)[i].Floor == v[i]
  {
  }
}
