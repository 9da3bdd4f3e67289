/** to_fvar: turning double matrices into fvar matrices. */
module FwdToFvar {
  import opened Wrappers
  import opened Checks
  import opened Matrices
  import opened Duals

  /** The rows x cols matrix of zeros. */
  function Zeros(rows: nat, cols: nat): (r: Matrix<real>)
    ensures r.Valid() && r.rows == rows && r.cols == cols
    ensures forall i, j :: 0 <= i < rows && 0 <= j < cols ==> r.At(i, j) == 0.0
  {
    Matrix(rows, cols, seq(cols, j => seq(rows, i => 0.0)))
  }

  /** to_fvar of a double matrix: the same shape and values, every tangent
      left at the default 0. */
  function ToFvar(m: Matrix<real>): (r: Matrix<Dual>)
    requires m.Valid()
    ensures r.Valid() && r.rows == m.rows && r.cols == m.cols
    ensures forall i, j :: 0 <= i < m.rows && 0 <= j < m.cols ==> r.At(i, j) == Dual(m.At(i, j), 0.0)
  {
    Pair(m, Zeros(m.rows, m.cols))
  }

  /** The values of to_fvar(m) are m, and its tangents are all zero. */
  lemma {:induction false} ToFvarParts(m: Matrix<real>)
    requires m.Valid()
    ensures ValPart(ToFvar(m)) == m && TanPart(ToFvar(m)) == Zeros(m.rows, m.cols)
  {
    PairParts(m, Zeros(m.rows, m.cols));
  }

  /** to_fvar(val, deriv): check_matching_dims, then the fvar matrix with
      exactly those values and tangents. */
  function ToFvarPair(val: Matrix<real>, deriv: Matrix<real>): (r: Result<Matrix<Dual>>)
    requires val.Valid() && deriv.Valid()
    ensures r.Ok? <==> val.rows == deriv.rows && val.cols == deriv.cols
    ensures r.Err? ==> r.error == DimensionMismatch(val.rows, val.cols, deriv.rows, deriv.cols)
    ensures r.Ok? ==> r.value.Valid() && r.value.rows == val.rows && r.value.cols == val.cols
    ensures r.Ok? ==> ValPart(r.value) == val && TanPart(r.value) == deriv
  {
    var _ :- CheckMatchingDims(val.rows, val.cols, deriv.rows, deriv.cols);
    PairParts(val, deriv);
    Ok(Pair(val, deriv))
  }

  /** Splitting an fvar matrix into values and tangents and pairing them
      again gives it back. */
  lemma {:induction false} ToFvarPairRoundTrip(x: Matrix<Dual>)
    requires x.Valid()
    ensures ToFvarPair(ValPart(x), TanPart(x)) == Ok(x)
  {
    PairRoundTrip(x);
  }
}
