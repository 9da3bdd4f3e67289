/** Applying a function to every column of a set of arguments: cols_equal,
    col_index and colwise. The arguments before the function are iterated
    column by column; the ones after it are handed unchanged to every call. */
module Colwise {
  import opened Matrices
  import opened Wrappers
  import opened Rowwise

  /** Eigen's cols() of a matrix or vector argument. */
  function Cols(a: Arg): nat
    requires !a.ScalarArg?
  {
    match a
    case MatrixArg(m) => m.cols
    case ColumnArg(_) => 1
    case RowArg(v) => |v|
  }

  /** The column counts of the iterated arguments, in order. */
  function ColCounts(xs: seq<Arg>): (r: seq<nat>)
    requires forall k :: 0 <= k < |xs| ==> !xs[k].ScalarArg?
    ensures |r| == |xs| && forall k :: 0 <= k < |xs| ==> r[k] == Cols(xs[k])
  {
    seq(|xs|, k requires 0 <= k < |xs| => Cols(xs[k]))
  }

  /** all_of over the counts: every one equals c. */
  function AllEqualTo(counts: seq<nat>, c: nat): (r: bool)
    ensures r <==> forall k :: 0 <= k < |counts| ==> counts[k] == c
  {
    if |counts| == 0 then true
    else
      var rest := AllEqualTo(counts[1..], c);
      assert forall k :: 1 <= k < |counts| ==> counts[k] == counts[1..][k - 1];
      counts[0] == c && rest
  }

  /** cols_equal: every count equals the first one. */
  function ColsEqual(counts: seq<nat>): bool
    requires |counts| > 0
  {
    AllEqualTo(counts, counts[0])
  }

  /** Comparing with the first is comparing every pair. */
  lemma {:induction false} ColsEqualPairwise(counts: seq<nat>)
    requires |counts| > 0
    ensures ColsEqual(counts) <==> forall k, l :: 0 <= k < |counts| && 0 <= l < |counts| ==> counts[k] == counts[l]
  {
  }

  /** col(x, j), 1-based: column j of a matrix as a column vector; a column
      vector is its own first column, column j of a row vector is its
      entry j. */
  function Col(a: Arg, j: nat): (r: Arg)
    requires !a.ScalarArg? && (a.MatrixArg? ==> a.m.Valid()) && 1 <= j <= Cols(a)
    ensures r.ColumnArg?
  {
    match a
    case MatrixArg(m) => ColumnArg(m.Column(j - 1))
    case ColumnArg(_) => a
    case RowArg(v) => ColumnArg([v[j - 1]])
  }

  /** The arguments colwise can iterate: at least one, none a scalar, every
      matrix well formed. */
  ghost predicate ColIterable(xs: seq<Arg>)
  {
    |xs| > 0 && (forall k :: 0 <= k < |xs| ==> !xs[k].ScalarArg?) &&
    forall k :: 0 <= k < |xs| && xs[k].MatrixArg? ==> xs[k].m.Valid()
  }

  /** col_index: column i (0-based) of every iterated argument. */
  function ColIndex(xs: seq<Arg>, i: nat): (r: seq<Arg>)
    requires ColIterable(xs) && forall k :: 0 <= k < |xs| ==> i < Cols(xs[k])
    ensures |r| == |xs| && forall k :: 0 <= k < |xs| ==> r[k] == Col(xs[k], i + 1)
  {
    seq(|xs|, k requires 0 <= k < |xs| => Col(xs[k], i + 1))
  }

  /** as_column_vector: a row vector transposed, a column vector as it is,
      a scalar as a one-entry column. */
  function AsColumnVector(v: Value): (r: seq<real>)
    ensures |r| == SizeOf(v)
  {
    match v
    case ScalarValue(x) => [x]
    case ColumnValue(c) => c
    case RowValue(w) => w
  }

  /** rtn.col(j) = column. */
  method SetColumn(rtn: array2<real>, j: nat, column: seq<real>)
    requires j < rtn.Length1 && |column| == rtn.Length0
    modifies rtn
    ensures forall i, j' :: 0 <= i < rtn.Length0 && 0 <= j' < rtn.Length1 ==>
      rtn[i, j'] == if j' == j then column[i] else old(rtn[i, j'])
  {
    forall i | 0 <= i < rtn.Length0 {
      rtn[i, j] := column[i];
    }
  }

  /** colwise: invalid_argument unless every iterated argument has the same
      number of columns; out_of_range from col(x, 1) when that number is
      zero; otherwise column i of the result is the function applied to
      column i of every iterated argument, followed by the other arguments.
      A scalar-valued function gives a single row. */
  method Colwise(xs: seq<Arg>, f: seq<Arg> -> Value, rest: seq<Arg>) returns (r: Result<Matrix<real>>)
    requires ColIterable(xs)
    requires ColsEqual(ColCounts(xs)) ==> forall i :: 0 <= i < Cols(xs[0]) ==>
      SizeOf(f(ColIndex(xs, i) + rest)) == SizeOf(f(ColIndex(xs, 0) + rest))
    ensures r.Err? <==> !ColsEqual(ColCounts(xs)) || Cols(xs[0]) == 0
    ensures !ColsEqual(ColCounts(xs)) ==> r == Err(ColumnCountsDiffer) && r.error.Kind() == InvalidArgument
    ensures ColsEqual(ColCounts(xs)) && Cols(xs[0]) == 0 ==>
      r == Err(IndexOutOfRange(0, 1)) && r.error.Kind() == OutOfRange
    ensures r.Ok? ==> r.value.Valid() && r.value.cols == Cols(xs[0])
    ensures r.Ok? ==> r.value.rows == SizeOf(f(ColIndex(xs, 0) + rest))
    ensures r.Ok? ==> forall i :: 0 <= i < r.value.cols ==>
      r.value.Column(i) == AsColumnVector(f(ColIndex(xs, i) + rest))
    ensures r.Ok? && f(ColIndex(xs, 0) + rest).ScalarValue? ==> r.value.rows == 1
  {
    if !ColsEqual(ColCounts(xs)) {
      return Err(ColumnCountsDiffer);
    }
    var cs := Cols(xs[0]);
    if cs == 0 {
      // col(x, 1) of a matrix with no columns: check_column_index throws
      return Err(IndexOutOfRange(0, 1));
    }
    var iter0 := f(ColIndex(xs, 0) + rest);
    var height := SizeOf(iter0);
    var rtn := new real[height, cs];
    SetColumn(rtn, 0, AsColumnVector(iter0));
    for i := 1 to cs
      invariant forall i', j :: 0 <= i' < height && 0 <= j < i ==>
        rtn[i', j] == AsColumnVector(f(ColIndex(xs, j) + rest))[i']
    {
      SetColumn(rtn, i, AsColumnVector(f(ColIndex(xs, i) + rest)));
    }
    var m := ToMatrix(rtn);
    forall j | 0 <= j < cs ensures m.Column(j) == AsColumnVector(f(ColIndex(xs, j) + rest)) {
      var column := m.Column(j);
      assert forall i :: 0 <= i < height ==> column[i] == rtn[i, j];
    }
    r := Ok(m);
  }

  /** Two iterated matrices with different column counts, five and three,
      are refused whatever the function. */
  lemma {:induction false} DifferentColumnCountsRefused(a: Matrix<real>, b: Matrix<real>)
    requires a.Valid() && b.Valid() && a.cols == 5 && b.cols == 3
    ensures !ColsEqual(ColCounts([MatrixArg(a), MatrixArg(b)]))
  {
    assert ColCounts([MatrixArg(a), MatrixArg(b)])[1] == 3;
  }
}
