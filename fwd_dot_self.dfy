/** Forward-mode dot_self: the value is the squared norm of the values and
    the tangent twice the dot product of values and tangents. */
module FwdDotSelf {
  import opened Sums
  import opened Wrappers
  import opened Checks
  import opened Duals
  import Reductions

  /** dot_self of an fvar vector as intended: check_vector first, then the
      squared norm of the values and twice the values dotted with the
      tangents, for row and column vectors alike. */
  function DotSelfDual(rowsAtCompileTime: Extent, colsAtCompileTime: Extent, rows: nat, cols: nat, v: seq<Dual>): (r: Result<Dual>)
    ensures r.Ok? <==> CheckVector(rowsAtCompileTime, colsAtCompileTime, rows, cols).Ok?
    ensures r.Err? ==> r.error == NotAVector(rows, cols)
    ensures r.Ok? ==> r.value.val >= 0.0
  {
    var _ :- CheckVector(rowsAtCompileTime, colsAtCompileTime, rows, cols);
    SquaredNormNonNegative(Vals(v));
    Ok(Dual(SquaredNorm(Vals(v)), 2.0 * Dot(Vals(v), Tans(v))))
  }

  /** What a call does: return a value or throw, or trip one of Eigen's
      size checks on two operands (a compile error when both sizes are
      fixed, an assertion or undefined behaviour when one is dynamic). */
  datatype Outcome = Returned(result: Result<Dual>) | SizeClash(rows1: nat, cols1: nat, rows2: nat, cols2: nat)

  /** dot_self of an fvar vector as written: the values are copied into a
      column vector, but the tangents keep the argument's shape, so for a
      row vector of n != 1 entries (the empty 1 x 0 one included) the
      elementwise product pairs an n x 1 with a 1 x n operand. */
  function DotSelfDualAsWritten(rowsAtCompileTime: Extent, colsAtCompileTime: Extent, rows: nat, cols: nat, v: seq<Dual>): (o: Outcome)
    ensures o.SizeClash? <==> CheckVector(rowsAtCompileTime, colsAtCompileTime, rows, cols).Ok? && rows == 1 && cols != 1
    ensures o.Returned? && o.result.Err? ==> o.result.error == NotAVector(rows, cols)
  {
    match CheckVector(rowsAtCompileTime, colsAtCompileTime, rows, cols)
    case Err(e) => Returned(Err(e))
    case Ok(_) =>
      if rows == 1 && cols != 1 then SizeClash(cols, 1, 1, cols)
      else Returned(Ok(Dual(SquaredNorm(Vals(v)), 2.0 * Dot(Vals(v), Tans(v)))))
  }

  /** Off row vectors of other than one entry the code as written returns
      what DotSelfDual does. */
  lemma {:induction false} AsWrittenAgreesOffRowVectors(rowsAtCompileTime: Extent, colsAtCompileTime: Extent, rows: nat, cols: nat, v: seq<Dual>)
    requires rows != 1 || cols == 1
    ensures DotSelfDualAsWritten(rowsAtCompileTime, colsAtCompileTime, rows, cols, v)
      == Returned(DotSelfDual(rowsAtCompileTime, colsAtCompileTime, rows, cols, v))
  {
  }

  /** A row vector of two entries passes check_vector, yet the code as
      written pairs a 2 x 1 with a 1 x 2 operand instead of returning the
      sum of squares that DotSelfDual gives; the empty row vector pairs a
      0 x 1 with a 1 x 0 operand instead of returning 0. */
  lemma {:induction false} RowVectorClashesAsWritten(v: seq<Dual>)
    requires |v| == 2
    ensures DotSelfDualAsWritten(Fixed(1), Dynamic, 1, 2, v) == SizeClash(2, 1, 1, 2)
    ensures DotSelfDual(Fixed(1), Dynamic, 1, 2, v).Ok?
    ensures DotSelfDualAsWritten(Fixed(1), Dynamic, 1, 0, []) == SizeClash(0, 1, 1, 0)
    ensures DotSelfDual(Fixed(1), Dynamic, 1, 0, []) == Ok(Dual(0.0, 0.0))
  {
  }

  /** A dot product with a zero vector is zero. */
  lemma {:induction false} DotZeroRight(a: seq<real>, z: seq<real>)
    requires |a| == |z| && forall k :: 0 <= k < |z| ==> z[k] == 0.0
    ensures Dot(a, z) == 0.0
  {
    SumConstant(Mul(a, z), 0.0);
  }

  /** Constant inputs (all tangents zero) give a zero tangent. */
  lemma {:induction false} DotSelfDualConstant(rowsAtCompileTime: Extent, colsAtCompileTime: Extent, rows: nat, cols: nat, v: seq<Dual>)
    requires forall k :: 0 <= k < |v| ==> v[k].d == 0.0
    requires DotSelfDual(rowsAtCompileTime, colsAtCompileTime, rows, cols, v).Ok?
    ensures DotSelfDual(rowsAtCompileTime, colsAtCompileTime, rows, cols, v).value.d == 0.0
  {
    DotZeroRight(Vals(v), Tans(v));
  }

  /** The value part is the plain dot_self of the values. */
  lemma {:induction false} DotSelfDualValue(rowsAtCompileTime: Extent, colsAtCompileTime: Extent, rows: nat, cols: nat, v: seq<Dual>)
    ensures DotSelfDual(rowsAtCompileTime, colsAtCompileTime, rows, cols, v).Ok?
      == Reductions.DotSelf(rowsAtCompileTime, colsAtCompileTime, rows, cols, Vals(v)).Ok?
    ensures DotSelfDual(rowsAtCompileTime, colsAtCompileTime, rows, cols, v).Ok? ==>
      DotSelfDual(rowsAtCompileTime, colsAtCompileTime, rows, cols, v).value.val
        == Reductions.DotSelf(rowsAtCompileTime, colsAtCompileTime, rows, cols, Vals(v)).value
  {
  }

  /** The tangent is the exact rate of change: moving the values along
      their tangents by h changes the squared norm by h times d, plus h^2
      times the squared norm of the tangents. */
  lemma {:induction false} DotSelfDualTangent(rowsAtCompileTime: Extent, colsAtCompileTime: Extent, rows: nat, cols: nat, v: seq<Dual>, h: real)
    requires DotSelfDual(rowsAtCompileTime, colsAtCompileTime, rows, cols, v).Ok?
    ensures SquaredNorm(Perturb(Vals(v), Tans(v), h))
      == DotSelfDual(rowsAtCompileTime, colsAtCompileTime, rows, cols, v).value.val
        + h * DotSelfDual(rowsAtCompileTime, colsAtCompileTime, rows, cols, v).value.d
        + h * h * SquaredNorm(Tans(v))
  {
    var x, dx := Vals(v), Tans(v);
    DotPerturbed(x, dx, x, dx, h);
    assert Dot(dx, x) == Dot(x, dx) by {
      Matrices.DotSymmetric(dx, x);
    }
  }
}
