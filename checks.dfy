/** Argument checks. check_vector and check_row_index are modelled from
    their code; the other checks (check_nonzero_size, check_size_match,
    check_bounded, check_matching_dims, check_multiplicable) are called by
    the core but not part of this model, and stand here for the one rule
    each of them is named after. */
module Checks {
  import opened Wrappers

  /** A matrix type's RowsAtCompileTime / ColsAtCompileTime. */
  datatype Extent = Dynamic | Fixed(n: nat)

  /** The compile-time extent agrees with the run-time one. */
  predicate Agrees(e: Extent, n: nat)
  {
    e.Fixed? ==> e.n == n
  }

  /** check_vector: a type that is a row or column vector at compile time
      passes outright; otherwise the run-time shape must have one row or one
      column, or std::invalid_argument reports both dimensions. */
  function CheckVector(rowsAtCompileTime: Extent, colsAtCompileTime: Extent, rows: nat, cols: nat): (r: Result<()>)
    ensures r.Ok? <==> rowsAtCompileTime == Fixed(1) || colsAtCompileTime == Fixed(1) || rows == 1 || cols == 1
    ensures r.Err? ==> r.error == NotAVector(rows, cols) && r.error.Kind() == InvalidArgument
  {
    if rowsAtCompileTime == Fixed(1) then Ok(())
    else if colsAtCompileTime == Fixed(1) then Ok(())
    else if rows == 1 || cols == 1 then Ok(())
    else Err(NotAVector(rows, cols))
  }

  /** For a matrix whose compile-time extents agree with its shape, the
      compile-time shortcuts decide nothing the run-time test would not:
      check_vector passes exactly for one row or one column. */
  lemma {:induction false} CheckVectorShape(rowsAtCompileTime: Extent, colsAtCompileTime: Extent, rows: nat, cols: nat)
    requires Agrees(rowsAtCompileTime, rows) && Agrees(colsAtCompileTime, cols)
    ensures CheckVector(rowsAtCompileTime, colsAtCompileTime, rows, cols).Ok? <==> rows == 1 || cols == 1
  {
  }

  /** check_row_index: i names a row when errorIndex <= i < rows + errorIndex
      (errorIndex is stan::error_index::value, 0 or 1); otherwise
      std::out_of_range reports the row count and i. Only the row count is
      read, never the coefficients. */
  function CheckRowIndex(rows: nat, i: nat, errorIndex: nat): (r: Result<bool>)
    ensures r.Ok? <==> errorIndex <= i && i - errorIndex < rows
    ensures r.Ok? ==> r.value
    ensures r.Err? ==> r.error == IndexOutOfRange(rows, i) && r.error.Kind() == OutOfRange
  {
    if i >= errorIndex && i < rows + errorIndex then Ok(true)
    else Err(IndexOutOfRange(rows, i))
  }

  /** A matrix with no rows rejects every index. */
  lemma {:induction false} NoRowsNoIndex(i: nat, errorIndex: nat)
    ensures CheckRowIndex(0, i, errorIndex).Err?
  {
  }

  /** The accepted indices are exactly rows consecutive values. */
  lemma {:induction false} RowIndexShift(rows: nat, k: nat, errorIndex: nat)
    ensures CheckRowIndex(rows, k + errorIndex, errorIndex).Ok? <==> k < rows
  {
  }

  /** check_nonzero_size: an empty container throws std::invalid_argument. */
  function CheckNonzeroSize(size: nat): (r: Result<()>)
    ensures r.Ok? <==> size > 0
    ensures r.Err? ==> r.error.Kind() == InvalidArgument
  {
    if size == 0 then Err(ZeroSize) else Ok(())
  }

  /** check_size_match. */
  function CheckSizeMatch(size1: nat, size2: nat): (r: Result<()>)
    ensures r.Ok? <==> size1 == size2
    ensures r.Err? ==> r.error.Kind() == InvalidArgument
  {
    if size1 == size2 then Ok(()) else Err(SizeMismatch(size1, size2))
  }

  /** check_bounded over a list: the first entry outside [low, high] is
      reported, as a std::domain_error. */
  function CheckBounded(xs: seq<int>, low: int, high: int): (r: Result<()>)
    ensures r.Ok? <==> forall k :: 0 <= k < |xs| ==> low <= xs[k] <= high
    ensures r.Err? ==> r.error.Kind() == DomainError
    ensures r.Err? ==> exists k :: 0 <= k < |xs| && !(low <= xs[k] <= high) && r.error == OutOfBounds(xs[k], low, high)
  {
    if |xs| == 0 then Ok(())
    else if !(low <= xs[0] <= high) then Err(OutOfBounds(xs[0], low, high))
    else
      var rest := CheckBounded(xs[1..], low, high);
      assert forall k :: 1 <= k < |xs| ==> xs[k] == xs[1..][k - 1];
      rest
  }

  /** check_matching_dims. */
  function CheckMatchingDims(rows1: nat, cols1: nat, rows2: nat, cols2: nat): (r: Result<()>)
    ensures r.Ok? <==> rows1 == rows2 && cols1 == cols2
    ensures r.Err? ==> r.error.Kind() == InvalidArgument
  {
    if rows1 == rows2 && cols1 == cols2 then Ok(()) else Err(DimensionMismatch(rows1, cols1, rows2, cols2))
  }

  /** check_multiplicable: the left operand's columns match the right
      operand's rows. */
  function CheckMultiplicable(cols1: nat, rows2: nat): (r: Result<()>)
    ensures r.Ok? <==> cols1 == rows2
    ensures r.Err? ==> r.error.Kind() == InvalidArgument
  {
    if cols1 == rows2 then Ok(()) else Err(NotMultiplicable(cols1, rows2))
  }
}
