/** Applying a function to every row of a set of arguments: row_index,
    as_row_vector, max_rows, rowwise_impl and cond_index. The user
    function is a parameter; the arguments after it (the "extra" ones) are
    handed unchanged to every call. */
module Rowwise {
  import opened Matrices

  /** An argument: a dynamic matrix, a column vector, a row vector or a
      scalar. */
  datatype Arg = MatrixArg(m: Matrix<real>) | ColumnArg(v: seq<real>) | RowArg(v: seq<real>) | ScalarArg(x: real)

  /** What the user function returns: a scalar or a vector. */
  datatype Value = ScalarValue(x: real) | ColumnValue(v: seq<real>) | RowValue(v: seq<real>)

  /** Eigen's rows() of a matrix or vector argument. */
  function Rows(a: Arg): nat
    requires !a.ScalarArg?
  {
    match a
    case MatrixArg(m) => m.rows
    case ColumnArg(v) => |v|
    case RowArg(_) => 1
  }

  /** row_index: row i of a dynamic matrix; any other argument as it is. */
  function RowIndex(a: Arg, i: nat): Arg
    requires a.MatrixArg? ==> a.m.Valid() && i < a.m.rows
  {
    if a.MatrixArg? then RowArg(a.m.Row(i)) else a
  }

  /** The arguments every matrix of which has a row i. */
  ghost predicate HasRow(xs: seq<Arg>, i: nat)
  {
    forall k :: 0 <= k < |xs| && xs[k].MatrixArg? ==> xs[k].m.Valid() && i < xs[k].m.rows
  }

  /** row_index applied to each iterated argument. */
  function RowIndexAll(xs: seq<Arg>, i: nat): (r: seq<Arg>)
    requires HasRow(xs, i)
    ensures |r| == |xs| && forall k :: 0 <= k < |xs| ==> r[k] == RowIndex(xs[k], i)
  {
    seq(|xs|, k requires 0 <= k < |xs| => RowIndex(xs[k], i))
  }

  /** as_row_vector: a column vector transposed, a row vector as it is, a
      scalar as a one-entry row. */
  function AsRowVector(v: Value): seq<real>
  {
    match v
    case ScalarValue(x) => [x]
    case ColumnValue(c) => c
    case RowValue(r) => r
  }

  /** stan::math::size of a returned value: 1 for a scalar. */
  function SizeOf(v: Value): nat
  {
    match v
    case ScalarValue(_) => 1
    case ColumnValue(c) => |c|
    case RowValue(r) => |r|
  }

  /** The largest rows() over the iterated arguments. */
  function MaxRows(xs: seq<Arg>): (r: nat)
    requires |xs| > 0 && forall k :: 0 <= k < |xs| ==> !xs[k].ScalarArg?
    ensures forall k :: 0 <= k < |xs| ==> Rows(xs[k]) <= r
    ensures exists k :: 0 <= k < |xs| && Rows(xs[k]) == r
  {
    if |xs| == 1 then Rows(xs[0])
    else
      var rest := MaxRows(xs[1..]);
      assert forall k :: 1 <= k < |xs| ==> xs[k] == xs[1..][k - 1];
      if Rows(xs[0]) >= rest then Rows(xs[0]) else rest
  }

  /** The arguments rowwise_impl can iterate: at least one, none a scalar,
      every matrix with as many rows as the largest argument (a shorter
      matrix would be read past its last row) and at least one row. */
  ghost predicate Iterable(xs: seq<Arg>)
  {
    |xs| > 0 && (forall k :: 0 <= k < |xs| ==> !xs[k].ScalarArg?) &&
    (forall k :: 0 <= k < |xs| && xs[k].MatrixArg? ==> xs[k].m.Valid() && xs[k].m.rows == MaxRows(xs)) &&
    MaxRows(xs) > 0
  }

  /** rtn.row(i) = row. */
  method SetRow(rtn: array2<real>, i: nat, row: seq<real>)
    requires i < rtn.Length0 && |row| == rtn.Length1
    modifies rtn
    ensures forall i', j :: 0 <= i' < rtn.Length0 && 0 <= j < rtn.Length1 ==>
      rtn[i', j] == if i' == i then row[j] else old(rtn[i', j])
  {
    forall j | 0 <= j < rtn.Length1 {
      rtn[i, j] := row[j];
    }
  }

  /** The Eigen matrix held in a 2-D array, as a value. */
  method ToMatrix(a: array2<real>) returns (m: Matrix<real>)
    ensures m.Valid() && m.rows == a.Length0 && m.cols == a.Length1
    ensures forall i, j :: 0 <= i < a.Length0 && 0 <= j < a.Length1 ==> m.At(i, j) == a[i, j]
  {
    var R, C := a.Length0, a.Length1;
    m := Matrix(R, C, seq(C, j requires 0 <= j < C reads a => seq(R, i requires 0 <= i < R reads a => a[i, j])));
  }

  /** rowwise_impl: the first call fixes the width, then row i of the
      result is the function applied to row i of every iterated matrix (and
      the other iterated arguments whole), followed by the extra arguments.
      A scalar-valued function gives a single column. */
  method RowwiseImpl(x: seq<Arg>, f: seq<Arg> -> Value, xargs: seq<Arg>) returns (r: Matrix<real>)
    requires Iterable(x)
    requires forall i :: 0 <= i < MaxRows(x) ==>
      SizeOf(f(RowIndexAll(x, i) + xargs)) == SizeOf(f(RowIndexAll(x, 0) + xargs))
    ensures r.Valid() && r.rows == MaxRows(x) && r.cols == SizeOf(f(RowIndexAll(x, 0) + xargs))
    ensures forall i :: 0 <= i < r.rows ==> r.Row(i) == AsRowVector(f(RowIndexAll(x, i) + xargs))
    ensures f(RowIndexAll(x, 0) + xargs).ScalarValue? ==> r.cols == 1
  {
    var iter0 := f(RowIndexAll(x, 0) + xargs);
    var rs := MaxRows(x);
    var width := SizeOf(iter0);
    var rtn := new real[rs, width];
    SetRow(rtn, 0, AsRowVector(iter0));
    for i := 1 to rs
      invariant forall i', j :: 0 <= i' < i && 0 <= j < width ==>
        rtn[i', j] == AsRowVector(f(RowIndexAll(x, i') + xargs))[j]
    {
      SetRow(rtn, i, AsRowVector(f(RowIndexAll(x, i) + xargs)));
    }
    r := ToMatrix(rtn);
    forall i | 0 <= i < rs ensures r.Row(i) == AsRowVector(f(RowIndexAll(x, i) + xargs)) {
      var row := r.Row(i);
      assert forall j :: 0 <= j < width ==> row[j] == rtn[i, j];
    }
  }

  /** cond_index: count plus the number of leading arguments that satisfy
      the condition, the condition of each argument's type being given as
      a boolean. */
  function CondIndex(count: nat, conds: seq<bool>): (r: nat)
    ensures count <= r <= count + |conds|
    ensures forall k :: 0 <= k < r - count ==> conds[k]
    ensures r - count < |conds| ==> !conds[r - count]
    decreases |conds|
  {
    if |conds| == 0 then count
    else if |conds| == 1 then (if !conds[0] then count else count + 1)
    else if !conds[0] then count
    else
      var r := CondIndex(count + 1, conds[1..]);
      assert forall k :: 1 <= k < |conds| ==> conds[k] == conds[1..][k - 1];
      r
  }

}
