/** Forward-mode multiply: an fvar matrix scaled by a scalar, the product
    of two matrices and the product of a row vector and a column vector,
    each with fvar or double operands. */
module FwdMultiply {
  import opened Sums
  import opened Wrappers
  import opened Checks
  import opened Matrices
  import opened Duals
  import opened FwdToFvar

  /** Every entry multiplied by c, Eigen's array() * c. */
  function ScaleEntries(m: Matrix<real>, c: real): (r: Matrix<real>)
    requires m.Valid()
    ensures r.Valid() && r.rows == m.rows && r.cols == m.cols
    ensures forall i, j :: 0 <= i < m.rows && 0 <= j < m.cols ==> r.At(i, j) == m.At(i, j) * c
  {
    MapEntries(m, (y: real) => y * c)
  }

  // ---------------------------------------------------------------------
  // matrix times scalar

  /** multiply(fvar matrix, fvar): every entry is the product of fvars
      with c. */
  function MultiplyScalar(m: Matrix<Dual>, c: Dual): (r: Matrix<Dual>)
    requires m.Valid()
    ensures r.Valid() && r.rows == m.rows && r.cols == m.cols
    ensures forall i, j :: 0 <= i < m.rows && 0 <= j < m.cols ==> r.At(i, j) == Times(m.At(i, j), c)
  {
    var mval := ValPart(m);
    Pair(ScaleEntries(mval, c.val), Plus(ScaleEntries(mval, c.d), ScaleEntries(TanPart(m), c.val)))
  }

  /** multiply(fvar matrix, double): values and tangents both scaled by c. */
  function MultiplyByDouble(m: Matrix<Dual>, c: real): (r: Matrix<Dual>)
    requires m.Valid()
    ensures r.Valid() && r.rows == m.rows && r.cols == m.cols
    ensures forall i, j :: 0 <= i < m.rows && 0 <= j < m.cols ==>
      r.At(i, j) == Dual(m.At(i, j).val * c, m.At(i, j).d * c)
  {
    Pair(ScaleEntries(ValPart(m), c), ScaleEntries(TanPart(m), c))
  }

  /** multiply(double matrix, fvar): the tangent is the matrix scaled by
      c's tangent. */
  function MultiplyDoubleMatrix(m: Matrix<real>, c: Dual): (r: Matrix<Dual>)
    requires m.Valid()
    ensures r.Valid() && r.rows == m.rows && r.cols == m.cols
    ensures forall i, j :: 0 <= i < m.rows && 0 <= j < m.cols ==>
      r.At(i, j) == Dual(m.At(i, j) * c.val, m.At(i, j) * c.d)
  {
    Pair(ScaleEntries(m, c.val), ScaleEntries(m, c.d))
  }

  /** A double operand behaves as an fvar with zero tangent: both mixed
      overloads agree with the fvar one on the promoted operand. */
  lemma {:induction false} MultiplyScalarMixed(m: Matrix<Dual>, c: real, w: Matrix<real>, e: Dual)
    requires m.Valid() && w.Valid()
    ensures MultiplyByDouble(m, c) == MultiplyScalar(m, Dual(c, 0.0))
    ensures MultiplyDoubleMatrix(w, e) == MultiplyScalar(ToFvar(w), e)
  {
    MatrixEqual(MultiplyByDouble(m, c), MultiplyScalar(m, Dual(c, 0.0)));
    MatrixEqual(MultiplyDoubleMatrix(w, e), MultiplyScalar(ToFvar(w), e));
  }

  /** multiply(fvar, fvar matrix): the matrix-first overload with the
      operands swapped. */
  function ScalarMultiply(c: Dual, m: Matrix<Dual>): (r: Matrix<Dual>)
    requires m.Valid()
    ensures r.Valid() && r.rows == m.rows && r.cols == m.cols
    ensures forall i, j :: 0 <= i < m.rows && 0 <= j < m.cols ==> r.At(i, j) == Times(c, m.At(i, j))
  {
    TimesCommutesEntries(m, c);
    MultiplyScalar(m, c)
  }

  /** Each entry times c is c times the entry. */
  lemma {:induction false} TimesCommutesEntries(m: Matrix<Dual>, c: Dual)
    requires m.Valid()
    ensures forall i, j :: 0 <= i < m.rows && 0 <= j < m.cols ==> Times(m.At(i, j), c) == Times(c, m.At(i, j))
  {
    forall i, j | 0 <= i < m.rows && 0 <= j < m.cols ensures Times(m.At(i, j), c) == Times(c, m.At(i, j)) {
      TimesCommutes(m.At(i, j), c);
    }
  }

  /** multiply(double, fvar matrix). */
  function DoubleMultiply(c: real, m: Matrix<Dual>): (r: Matrix<Dual>)
    requires m.Valid()
    ensures r.Valid() && r.rows == m.rows && r.cols == m.cols
    ensures forall i, j :: 0 <= i < m.rows && 0 <= j < m.cols ==>
      r.At(i, j) == Dual(c * m.At(i, j).val, c * m.At(i, j).d)
  {
    MultiplyByDouble(m, c)
  }

  /** multiply(fvar, double matrix). */
  function ScalarMultiplyDouble(c: Dual, m: Matrix<real>): (r: Matrix<Dual>)
    requires m.Valid()
    ensures r.Valid() && r.rows == m.rows && r.cols == m.cols
    ensures forall i, j :: 0 <= i < m.rows && 0 <= j < m.cols ==>
      r.At(i, j) == Dual(c.val * m.At(i, j), c.d * m.At(i, j))
  {
    MultiplyDoubleMatrix(m, c)
  }

  /** Handing the scalar-first overloads to the matrix-first ones is right
      because the product of fvars commutes: each entry is c times the
      entry, with c on the left. */
  lemma {:induction false} ScalarFirstCommutes(c: Dual, m: Matrix<Dual>, k: real, w: Matrix<real>, i: nat, j: nat)
    requires m.Valid() && w.Valid()
    ensures i < m.rows && j < m.cols ==> ScalarMultiply(c, m).At(i, j) == Times(c, m.At(i, j))
    ensures i < m.rows && j < m.cols ==> DoubleMultiply(k, m).At(i, j) == Times(Dual(k, 0.0), m.At(i, j))
    ensures i < w.rows && j < w.cols ==> ScalarMultiplyDouble(c, w).At(i, j) == Times(c, Dual(w.At(i, j), 0.0))
  {
    if i < m.rows && j < m.cols {
      TimesCommutes(m.At(i, j), c);
      MultiplyScalarMixed(m, k, w, c);
      TimesCommutes(m.At(i, j), Dual(k, 0.0));
    }
    if i < w.rows && j < w.cols {
      MultiplyScalarMixed(m, k, w, c);
      TimesCommutes(Dual(w.At(i, j), 0.0), c);
    }
  }

  /** Each entry's tangent is the exact rate of change of the entry's
      value times c's value when both move along their tangents. */
  lemma {:induction false} MultiplyScalarTangent(m: Matrix<Dual>, c: Dual, i: nat, j: nat, h: real)
    requires m.Valid() && i < m.rows && j < m.cols
    ensures (m.At(i, j).val + h * m.At(i, j).d) * (c.val + h * c.d)
      == Expansion(MultiplyScalar(m, c).At(i, j), h, m.At(i, j).d * c.d)
  {
    TimesPerturbed(m.At(i, j), c, h);
  }

  // ---------------------------------------------------------------------
  // matrix times matrix

  /** multiply of two fvar matrices: check_multiplicable, then m1 m2 for the
      values and m1 dm2 + dm1 m2 for the tangents. */
  function MultiplyMatrices(m1: Matrix<Dual>, m2: Matrix<Dual>): (r: Result<Matrix<Dual>>)
    requires m1.Valid() && m2.Valid()
    ensures r.Ok? <==> m1.cols == m2.rows
    ensures r.Err? ==> r.error == NotMultiplicable(m1.cols, m2.rows)
    ensures r.Ok? ==> r.value.Valid() && r.value.rows == m1.rows && r.value.cols == m2.cols
  {
    var _ :- CheckMultiplicable(m1.cols, m2.rows);
    var m1val, m2val := ValPart(m1), ValPart(m2);
    Ok(Pair(Product(m1val, m2val), Plus(Product(m1val, TanPart(m2)), Product(TanPart(m1), m2val))))
  }

  /** Entry (i, j) is row i of m1 dotted with column j of m2, with the
      product-rule tangent. */
  lemma {:induction false} MultiplyMatricesEntry(m1: Matrix<Dual>, m2: Matrix<Dual>, i: nat, j: nat)
    requires m1.Valid() && m2.Valid() && m1.cols == m2.rows && i < m1.rows && j < m2.cols
    ensures MultiplyMatrices(m1, m2).value.At(i, j)
      == Dual(Dot(ValPart(m1).Row(i), ValPart(m2).Column(j)),
              Dot(TanPart(m1).Row(i), ValPart(m2).Column(j)) + Dot(ValPart(m1).Row(i), TanPart(m2).Column(j)))
  {
  }

  /** The tangent of each entry is the exact rate of change of the matrix
      product when both factors move along their tangents. */
  lemma {:induction false} MultiplyMatricesTangent(m1: Matrix<Dual>, m2: Matrix<Dual>, i: nat, j: nat, h: real)
    requires m1.Valid() && m2.Valid() && m1.cols == m2.rows && i < m1.rows && j < m2.cols
    ensures var e := MultiplyMatrices(m1, m2).value.At(i, j);
      var a, da, b, db := ValPart(m1).Row(i), TanPart(m1).Row(i), ValPart(m2).Column(j), TanPart(m2).Column(j);
      Dot(Perturb(a, da, h), Perturb(b, db, h)) == Expansion(e, h, Dot(da, db))
  {
    var a, da, b, db := ValPart(m1).Row(i), TanPart(m1).Row(i), ValPart(m2).Column(j), TanPart(m2).Column(j);
    var e := MultiplyMatrices(m1, m2).value.At(i, j);
    MultiplyMatricesEntry(m1, m2, i, j);
    DualDotPerturbed(a, da, b, db, h, e);
  }

  /** multiply(fvar matrix, double matrix): m1 m2 and dm1 m2. */
  function MultiplyFvarDouble(m1: Matrix<Dual>, m2: Matrix<real>): (r: Result<Matrix<Dual>>)
    requires m1.Valid() && m2.Valid()
    ensures r.Ok? <==> m1.cols == m2.rows
    ensures r.Err? ==> r.error == NotMultiplicable(m1.cols, m2.rows)
    ensures r.Ok? ==> r.value.Valid() && r.value.rows == m1.rows && r.value.cols == m2.cols
    ensures r.Ok? ==> forall i, j :: 0 <= i < m1.rows && 0 <= j < m2.cols ==>
      r.value.At(i, j) == Dual(Dot(ValPart(m1).Row(i), m2.Column(j)), Dot(TanPart(m1).Row(i), m2.Column(j)))
  {
    var _ :- CheckMultiplicable(m1.cols, m2.rows);
    Ok(Pair(Product(ValPart(m1), m2), Product(TanPart(m1), m2)))
  }

  /** multiply(double matrix, fvar matrix): m1 m2 and m1 dm2. */
  function MultiplyDoubleFvar(m1: Matrix<real>, m2: Matrix<Dual>): (r: Result<Matrix<Dual>>)
    requires m1.Valid() && m2.Valid()
    ensures r.Ok? <==> m1.cols == m2.rows
    ensures r.Err? ==> r.error == NotMultiplicable(m1.cols, m2.rows)
    ensures r.Ok? ==> r.value.Valid() && r.value.rows == m1.rows && r.value.cols == m2.cols
    ensures r.Ok? ==> forall i, j :: 0 <= i < m1.rows && 0 <= j < m2.cols ==>
      r.value.At(i, j) == Dual(Dot(m1.Row(i), ValPart(m2).Column(j)), Dot(m1.Row(i), TanPart(m2).Column(j)))
  {
    var _ :- CheckMultiplicable(m1.cols, m2.rows);
    Ok(Pair(Product(m1, ValPart(m2)), Product(m1, TanPart(m2))))
  }

  /** Row i of a to_fvar matrix's tangents is all zeros. */
  lemma {:induction false} ZerosRow(m: Matrix<real>, i: nat)
    requires m.Valid() && i < m.rows
    ensures forall k :: 0 <= k < m.cols ==> TanPart(ToFvar(m)).Row(i)[k] == 0.0
  {
    ToFvarParts(m);
  }

  /** Column j of a to_fvar matrix's tangents is all zeros. */
  lemma {:induction false} ZerosColumn(m: Matrix<real>, j: nat)
    requires m.Valid() && j < m.cols
    ensures forall k :: 0 <= k < m.rows ==> TanPart(ToFvar(m)).Column(j)[k] == 0.0
  {
    ToFvarParts(m);
  }

  /** With a double operand only the other operand's tangent contributes:
      multiply(fvar, double) is multiply(fvar, to_fvar(double)). */
  lemma {:induction false} MultiplyFvarDoubleMixed(m1: Matrix<Dual>, m2: Matrix<real>)
    requires m1.Valid() && m2.Valid()
    ensures MultiplyFvarDouble(m1, m2) == MultiplyMatrices(m1, ToFvar(m2))
  {
    ToFvarParts(m2);
    if m1.cols == m2.rows {
      var r, s := MultiplyFvarDouble(m1, m2).value, MultiplyMatrices(m1, ToFvar(m2)).value;
      forall i, j | 0 <= i < m1.rows && 0 <= j < m2.cols ensures r.At(i, j) == s.At(i, j) {
        MultiplyMatricesEntry(m1, ToFvar(m2), i, j);
        ZerosColumn(m2, j);
        DotZero(ValPart(m1).Row(i), TanPart(ToFvar(m2)).Column(j));
      }
      MatrixEqual(r, s);
    }
  }

  /** multiply(double, fvar) is multiply(to_fvar(double), fvar). */
  lemma {:induction false} MultiplyDoubleFvarMixed(m1: Matrix<real>, m2: Matrix<Dual>)
    requires m1.Valid() && m2.Valid()
    ensures MultiplyDoubleFvar(m1, m2) == MultiplyMatrices(ToFvar(m1), m2)
  {
    ToFvarParts(m1);
    if m1.cols == m2.rows {
      var r, s := MultiplyDoubleFvar(m1, m2).value, MultiplyMatrices(ToFvar(m1), m2).value;
      forall i, j | 0 <= i < m1.rows && 0 <= j < m2.cols ensures r.At(i, j) == s.At(i, j) {
        MultiplyMatricesEntry(ToFvar(m1), m2, i, j);
        ZerosRow(m1, i);
        DotZero(ValPart(m2).Column(j), TanPart(ToFvar(m1)).Row(i));
      }
      MatrixEqual(r, s);
    }
  }

  // ---------------------------------------------------------------------
  // row vector times column vector

  /** dot_product of two fvar vectors, by the product rule: the dot
      product of the values, with tangent da . b + a . db. */
  function DotProduct(a: seq<Dual>, b: seq<Dual>): (r: Dual)
    requires |a| == |b|
    ensures r.val == Dot(Vals(a), Vals(b))
  {
    Dual(Dot(Vals(a), Vals(b)), Dot(Tans(a), Vals(b)) + Dot(Vals(a), Tans(b)))
  }

  /** multiply(row vector, column vector): check_multiplicable, then
      dot_product. */
  function MultiplyRowCol(rv: Matrix<Dual>, v: Matrix<Dual>): (r: Result<Dual>)
    requires rv.Valid() && v.Valid() && rv.rows == 1 && v.cols == 1
    ensures r.Ok? <==> rv.cols == v.rows
    ensures r.Err? ==> r.error == NotMultiplicable(rv.cols, v.rows)
  {
    var _ :- CheckMultiplicable(rv.cols, v.rows);
    Ok(DotProduct(rv.Row(0), v.Column(0)))
  }

  /** The values of an fvar matrix's row are the row of its values. */
  lemma {:induction false} ValsRow(m: Matrix<Dual>, i: nat)
    requires m.Valid() && i < m.rows
    ensures Vals(m.Row(i)) == ValPart(m).Row(i) && Tans(m.Row(i)) == TanPart(m).Row(i)
  {
  }

  /** The values of an fvar matrix's column are the column of its values. */
  lemma {:induction false} ValsColumn(m: Matrix<Dual>, j: nat)
    requires m.Valid() && j < m.cols
    ensures Vals(m.Column(j)) == ValPart(m).Column(j) && Tans(m.Column(j)) == TanPart(m).Column(j)
  {
  }

  /** Row vector times column vector is the single entry of the general
      matrix product, and fails exactly when that product fails. */
  lemma {:induction false} MultiplyRowColAgrees(rv: Matrix<Dual>, v: Matrix<Dual>)
    requires rv.Valid() && v.Valid() && rv.rows == 1 && v.cols == 1
    ensures MultiplyRowCol(rv, v).Ok? == MultiplyMatrices(rv, v).Ok?
    ensures MultiplyRowCol(rv, v).Ok? ==> MultiplyRowCol(rv, v).value == MultiplyMatrices(rv, v).value.At(0, 0)
  {
    if rv.cols == v.rows {
      ValsRow(rv, 0);
      ValsColumn(v, 0);
      MultiplyMatricesEntry(rv, v, 0, 0);
    }
  }

  /** multiply(fvar row vector, double column vector): the double operand
      joins dot_product with zero tangents. */
  function MultiplyRowColFvarDouble(rv: Matrix<Dual>, v: Matrix<real>): (r: Result<Dual>)
    requires rv.Valid() && v.Valid() && rv.rows == 1 && v.cols == 1
    ensures r.Ok? <==> rv.cols == v.rows
    ensures r.Err? ==> r.error == NotMultiplicable(rv.cols, v.rows)
    ensures r.Ok? ==> r.value == Dual(Dot(ValPart(rv).Row(0), v.Column(0)), Dot(TanPart(rv).Row(0), v.Column(0)))
  {
    var _ :- CheckMultiplicable(rv.cols, v.rows);
    ToFvarParts(v);
    ValsRow(rv, 0);
    ValsColumn(ToFvar(v), 0);
    ZerosColumn(v, 0);
    DotZero(ValPart(rv).Row(0), TanPart(ToFvar(v)).Column(0));
    Ok(DotProduct(rv.Row(0), ToFvar(v).Column(0)))
  }

  /** multiply(double row vector, fvar column vector). */
  function MultiplyRowColDoubleFvar(rv: Matrix<real>, v: Matrix<Dual>): (r: Result<Dual>)
    requires rv.Valid() && v.Valid() && rv.rows == 1 && v.cols == 1
    ensures r.Ok? <==> rv.cols == v.rows
    ensures r.Err? ==> r.error == NotMultiplicable(rv.cols, v.rows)
    ensures r.Ok? ==> r.value == Dual(Dot(rv.Row(0), ValPart(v).Column(0)), Dot(rv.Row(0), TanPart(v).Column(0)))
  {
    var _ :- CheckMultiplicable(rv.cols, v.rows);
    ToFvarParts(rv);
    ValsRow(ToFvar(rv), 0);
    ValsColumn(v, 0);
    ZerosRow(rv, 0);
    DotZero(ValPart(v).Column(0), TanPart(ToFvar(rv)).Row(0));
    Ok(DotProduct(ToFvar(rv).Row(0), v.Column(0)))
  }
}
