/** Forward-mode columns_dot_self, columns_dot_product and crossprod: the
    values come from products of the value matrices and the tangents from
    the product rule. */
module FwdColumns {
  import opened Sums
  import opened Wrappers
  import opened Checks
  import opened Matrices
  import opened Duals
  import opened FwdToFvar

  /** Every entry doubled, Eigen's array() * 2.0. */
  function Twice(m: Matrix<real>): (r: Matrix<real>)
    requires m.Valid()
    ensures r.Valid() && r.rows == m.rows && r.cols == m.cols
    ensures forall i, j :: 0 <= i < m.rows && 0 <= j < m.cols ==> r.At(i, j) == m.At(i, j) * 2.0
  {
    MapEntries(m, (y: real) => y * 2.0)
  }

  /** Entry (i, j) of a^T b is column i of a dotted with column j of b. */
  lemma {:induction false} TransposeProductAt(a: Matrix<real>, b: Matrix<real>, i: nat, j: nat)
    requires a.Valid() && b.Valid() && a.rows == b.rows && i < a.cols && j < b.cols
    ensures Product(Transpose(a), b).At(i, j) == Dot(a.Column(i), b.Column(j))
  {
    TransposeRow(a, i);
  }

  // ---------------------------------------------------------------------
  // columns_dot_self

  /** columns_dot_self: the diagonal of x^T x for the values, and twice the
      diagonal of x^T dx for the tangents. */
  function ColumnsDotSelf(x: Matrix<Dual>): (r: Matrix<Dual>)
    requires x.Valid()
    ensures r.Valid() && r.rows == 1 && r.cols == x.cols
  {
    var xval := ValPart(x);
    Pair(DiagonalRow(Product(Transpose(xval), xval)),
         Twice(DiagonalRow(Product(Transpose(xval), TanPart(x)))))
  }

  /** Entry j is the squared norm of column j, with tangent twice the dot
      product of that column's values and tangents. */
  lemma {:induction false} ColumnsDotSelfEntry(x: Matrix<Dual>, j: nat)
    requires x.Valid() && j < x.cols
    ensures ColumnsDotSelf(x).At(0, j)
      == Dual(SquaredNorm(ValPart(x).Column(j)), 2.0 * Dot(ValPart(x).Column(j), TanPart(x).Column(j)))
  {
    TransposeProductAt(ValPart(x), ValPart(x), j, j);
    TransposeProductAt(ValPart(x), TanPart(x), j, j);
  }

  /** The tangent is the exact rate of change of the column's squared norm
      along the column's tangents. */
  lemma {:induction false} ColumnsDotSelfTangent(x: Matrix<Dual>, j: nat, h: real)
    requires x.Valid() && j < x.cols
    ensures SquaredNorm(PerturbMatrix(ValPart(x), TanPart(x), h).Column(j))
      == ColumnsDotSelf(x).At(0, j).val + h * ColumnsDotSelf(x).At(0, j).d
        + h * h * SquaredNorm(TanPart(x).Column(j))
  {
    var a, da := ValPart(x).Column(j), TanPart(x).Column(j);
    ColumnsDotSelfEntry(x, j);
    assert PerturbMatrix(ValPart(x), TanPart(x), h).Column(j) == Perturb(a, da, h);
    SquaredNormPerturbed(a, da, h);
    assert SquaredNorm(a) == ColumnsDotSelf(x).At(0, j).val && 2.0 * Dot(a, da) == ColumnsDotSelf(x).At(0, j).d;
  }

  /** Moving a along da by h changes its squared norm by h times twice
      a . da, plus h^2 times the squared norm of da. */
  lemma {:induction false} SquaredNormPerturbed(a: seq<real>, da: seq<real>, h: real)
    requires |a| == |da|
    ensures SquaredNorm(Perturb(a, da, h)) == SquaredNorm(a) + h * (2.0 * Dot(a, da)) + h * h * SquaredNorm(da)
  {
    calc {
      SquaredNorm(Perturb(a, da, h));
    == { DotPerturbed(a, da, a, da, h); }
      Dot(a, a) + h * (Dot(da, a) + Dot(a, da)) + h * h * Dot(da, da);
    == { DotSymmetric(da, a); }
      Dot(a, a) + h * (2.0 * Dot(a, da)) + h * h * Dot(da, da);
    }
  }

  /** For a one-row matrix, entry j is x^2 with tangent 2 x dx, where x
      is the single entry of column j. */
  lemma {:induction false} ColumnsDotSelfOneRow(x: Matrix<Dual>, j: nat)
    requires x.Valid() && x.rows == 1 && j < x.cols
    ensures ColumnsDotSelf(x).At(0, j)
      == Dual(x.At(0, j).val * x.At(0, j).val, 2.0 * (x.At(0, j).val * x.At(0, j).d))
  {
    ColumnsDotSelfEntry(x, j);
    DotOne(ValPart(x).Column(j), ValPart(x).Column(j));
    DotOne(ValPart(x).Column(j), TanPart(x).Column(j));
  }

  /** For a two-row matrix, entry j is the squared norm of the two entries
      of column j, with tangent twice their dot product with the
      tangents. */
  lemma {:induction false} ColumnsDotSelfTwoRows(x: Matrix<Dual>, j: nat)
    requires x.Valid() && x.rows == 2 && j < x.cols
    ensures ColumnsDotSelf(x).At(0, j)
      == Dual(x.At(0, j).val * x.At(0, j).val + x.At(1, j).val * x.At(1, j).val,
              2.0 * (x.At(0, j).val * x.At(0, j).d + x.At(1, j).val * x.At(1, j).d))
  {
    var a, da := ValPart(x).Column(j), TanPart(x).Column(j);
    ColumnsDotSelfEntry(x, j);
    assert a == [x.At(0, j).val, x.At(1, j).val] && da == [x.At(0, j).d, x.At(1, j).d];
    TwoEntries(ColumnsDotSelf(x).At(0, j), a, da, x.At(0, j).val, x.At(1, j).val, x.At(0, j).d, x.At(1, j).d);
  }

  /** The squared norm of (x0, x1) with twice its dot product with
      (d0, d1). */
  lemma {:induction false} TwoEntries(e: Dual, a: seq<real>, da: seq<real>, x0: real, x1: real, d0: real, d1: real)
    requires a == [x0, x1] && da == [d0, d1]
    requires e == Dual(SquaredNorm(a), 2.0 * Dot(a, da))
    ensures e == Dual(x0 * x0 + x1 * x1, 2.0 * (x0 * d0 + x1 * d1))
  {
    DotTwo(a, a);
    DotTwo(a, da);
  }

  /** The 1 x 1 and 1 x 2 cases of the unit test: [2] and [2 3], every
      tangent 1. */
  lemma {:induction false} ColumnsDotSelfExampleRow()
    ensures ColumnsDotSelf(Matrix(1, 1, [[Dual(2.0, 1.0)]])).At(0, 0) == Dual(4.0, 4.0)
    ensures ColumnsDotSelf(Matrix(1, 2, [[Dual(2.0, 1.0)], [Dual(3.0, 1.0)]])).At(0, 0) == Dual(4.0, 4.0)
    ensures ColumnsDotSelf(Matrix(1, 2, [[Dual(2.0, 1.0)], [Dual(3.0, 1.0)]])).At(0, 1) == Dual(9.0, 6.0)
  {
    ColumnsDotSelfOneRow(Matrix(1, 1, [[Dual(2.0, 1.0)]]), 0);
    var m := Matrix(1, 2, [[Dual(2.0, 1.0)], [Dual(3.0, 1.0)]]);
    ColumnsDotSelfOneRow(m, 0);
    ColumnsDotSelfOneRow(m, 1);
  }

  /** The 2 x 2 case of the unit test: columns (2, 4) and (3, 5), every
      tangent 1. */
  lemma {:induction false} ColumnsDotSelfExampleSquare()
    ensures ColumnsDotSelf(Matrix(2, 2, [[Dual(2.0, 1.0), Dual(4.0, 1.0)], [Dual(3.0, 1.0), Dual(5.0, 1.0)]])).At(0, 0) == Dual(20.0, 12.0)
    ensures ColumnsDotSelf(Matrix(2, 2, [[Dual(2.0, 1.0), Dual(4.0, 1.0)], [Dual(3.0, 1.0), Dual(5.0, 1.0)]])).At(0, 1) == Dual(34.0, 16.0)
  {
    var m := Matrix(2, 2, [[Dual(2.0, 1.0), Dual(4.0, 1.0)], [Dual(3.0, 1.0), Dual(5.0, 1.0)]]);
    ColumnsDotSelfTwoRows(m, 0);
    ColumnsDotSelfTwoRows(m, 1);
  }

  /** The dot product of two vectors of length one. */
  lemma {:induction false} DotOne(a: seq<real>, b: seq<real>)
    requires |a| == |b| == 1
    ensures Dot(a, b) == a[0] * b[0]
  {
    var m := Mul(a, b);
    assert m[..0] == [];
    assert Sum(m) == Sum(m[..0]) + m[0];
  }

  /** The dot product of two vectors of length two. */
  lemma {:induction false} DotTwo(a: seq<real>, b: seq<real>)
    requires |a| == |b| == 2
    ensures Dot(a, b) == a[0] * b[0] + a[1] * b[1]
  {
    var m := Mul(a, b);
    var m1 := m[..1];
    assert m1[..0] == [];
    assert Sum(m1) == Sum(m1[..0]) + m1[0];
    assert Sum(m) == Sum(m1) + m[1];
  }

  // ---------------------------------------------------------------------
  // columns_dot_product

  /** columns_dot_product of two fvar matrices: check_matching_dims, then
      the diagonal of v2^T v1 for the values and of dv2^T v1 + v2^T dv1 for
      the tangents. */
  function ColumnsDotProduct(v1: Matrix<Dual>, v2: Matrix<Dual>): (r: Result<Matrix<Dual>>)
    requires v1.Valid() && v2.Valid()
    ensures r.Ok? <==> v1.rows == v2.rows && v1.cols == v2.cols
    ensures r.Err? ==> r.error == DimensionMismatch(v1.rows, v1.cols, v2.rows, v2.cols)
    ensures r.Ok? ==> r.value.Valid() && r.value.rows == 1 && r.value.cols == v1.cols
  {
    var _ :- CheckMatchingDims(v1.rows, v1.cols, v2.rows, v2.cols);
    var v1val, v2val := ValPart(v1), ValPart(v2);
    Ok(Pair(DiagonalRow(Product(Transpose(v2val), v1val)),
            Plus(DiagonalRow(Product(Transpose(TanPart(v2)), v1val)),
                 DiagonalRow(Product(Transpose(v2val), TanPart(v1))))))
  }

  /** Entry j is the dot product of column j of each operand, with the
      product-rule tangent. */
  lemma {:induction false} ColumnsDotProductEntry(v1: Matrix<Dual>, v2: Matrix<Dual>, j: nat)
    requires v1.Valid() && v2.Valid() && v1.rows == v2.rows && v1.cols == v2.cols && j < v1.cols
    ensures ColumnsDotProduct(v1, v2).value.At(0, j)
      == Dual(Dot(ValPart(v1).Column(j), ValPart(v2).Column(j)),
              Dot(TanPart(v1).Column(j), ValPart(v2).Column(j)) + Dot(ValPart(v1).Column(j), TanPart(v2).Column(j)))
  {
    var a, da, b, db := ValPart(v1).Column(j), TanPart(v1).Column(j), ValPart(v2).Column(j), TanPart(v2).Column(j);
    TransposeProductAt(ValPart(v2), ValPart(v1), j, j);
    TransposeProductAt(TanPart(v2), ValPart(v1), j, j);
    TransposeProductAt(ValPart(v2), TanPart(v1), j, j);
    DotSymmetric(b, a);
    DotSymmetric(db, a);
    DotSymmetric(b, da);
  }

  /** The tangent is the exact rate of change of the column dot product
      when both operands move along their tangents. */
  lemma {:induction false} ColumnsDotProductTangent(v1: Matrix<Dual>, v2: Matrix<Dual>, j: nat, h: real)
    requires v1.Valid() && v2.Valid() && v1.rows == v2.rows && v1.cols == v2.cols && j < v1.cols
    ensures var e := ColumnsDotProduct(v1, v2).value.At(0, j);
      var a, da, b, db := ValPart(v1).Column(j), TanPart(v1).Column(j), ValPart(v2).Column(j), TanPart(v2).Column(j);
      Dot(Perturb(a, da, h), Perturb(b, db, h)) == Expansion(e, h, Dot(da, db))
  {
    var a, da, b, db := ValPart(v1).Column(j), TanPart(v1).Column(j), ValPart(v2).Column(j), TanPart(v2).Column(j);
    var e := ColumnsDotProduct(v1, v2).value.At(0, j);
    ColumnsDotProductEntry(v1, v2, j);
    DualDotPerturbed(a, da, b, db, h, e);
  }

  /** columns_dot_product of an fvar matrix and a double matrix. */
  function ColumnsDotProductFvarDouble(v1: Matrix<Dual>, v2: Matrix<real>): (r: Result<Matrix<Dual>>)
    requires v1.Valid() && v2.Valid()
    ensures r.Ok? <==> v1.rows == v2.rows && v1.cols == v2.cols
    ensures r.Err? ==> r.error == DimensionMismatch(v1.rows, v1.cols, v2.rows, v2.cols)
    ensures r.Ok? ==> r.value.Valid() && r.value.rows == 1 && r.value.cols == v1.cols
  {
    var _ :- CheckMatchingDims(v1.rows, v1.cols, v2.rows, v2.cols);
    Ok(Pair(DiagonalRow(Product(Transpose(v2), ValPart(v1))),
            DiagonalRow(Product(Transpose(v2), TanPart(v1)))))
  }

  /** columns_dot_product of a double matrix and an fvar matrix. */
  function ColumnsDotProductDoubleFvar(v1: Matrix<real>, v2: Matrix<Dual>): (r: Result<Matrix<Dual>>)
    requires v1.Valid() && v2.Valid()
    ensures r.Ok? <==> v1.rows == v2.rows && v1.cols == v2.cols
    ensures r.Err? ==> r.error == DimensionMismatch(v1.rows, v1.cols, v2.rows, v2.cols)
    ensures r.Ok? ==> r.value.Valid() && r.value.rows == 1 && r.value.cols == v1.cols
  {
    var _ :- CheckMatchingDims(v1.rows, v1.cols, v2.rows, v2.cols);
    Ok(Pair(DiagonalRow(Product(Transpose(ValPart(v2)), v1)),
            DiagonalRow(Product(Transpose(TanPart(v2)), v1))))
  }

  /** With a double operand, only the other operand's tangent contributes:
      each mixed overload is the fvar one with the double operand promoted
      by to_fvar (zero tangents). */
  lemma {:induction false} ColumnsDotProductMixed(v1: Matrix<Dual>, v2: Matrix<real>, w1: Matrix<real>, w2: Matrix<Dual>)
    requires v1.Valid() && v2.Valid() && w1.Valid() && w2.Valid()
    ensures ColumnsDotProductFvarDouble(v1, v2) == ColumnsDotProduct(v1, ToFvar(v2))
    ensures ColumnsDotProductDoubleFvar(w1, w2) == ColumnsDotProduct(ToFvar(w1), w2)
  {
    ToFvarParts(v2);
    ToFvarParts(w1);
    if v1.rows == v2.rows && v1.cols == v2.cols {
      var r, s := ColumnsDotProductFvarDouble(v1, v2).value, ColumnsDotProduct(v1, ToFvar(v2)).value;
      forall i, j | 0 <= i < 1 && 0 <= j < v1.cols ensures r.At(i, j) == s.At(i, j) {
        FvarDoubleEntry(v1, v2, j);
      }
      MatrixEqual(r, s);
    }
    if w1.rows == w2.rows && w1.cols == w2.cols {
      var r, s := ColumnsDotProductDoubleFvar(w1, w2).value, ColumnsDotProduct(ToFvar(w1), w2).value;
      forall i, j | 0 <= i < 1 && 0 <= j < w1.cols ensures r.At(i, j) == s.At(i, j) {
        DoubleFvarEntry(w1, w2, j);
      }
      MatrixEqual(r, s);
    }
  }

  lemma {:induction false} FvarDoubleEntry(v1: Matrix<Dual>, v2: Matrix<real>, j: nat)
    requires v1.Valid() && v2.Valid() && v1.rows == v2.rows && v1.cols == v2.cols && j < v1.cols
    ensures ColumnsDotProductFvarDouble(v1, v2).value.At(0, j) == ColumnsDotProduct(v1, ToFvar(v2)).value.At(0, j)
  {
    ToFvarParts(v2);
    ColumnsDotProductEntry(v1, ToFvar(v2), j);
    TransposeProductAt(v2, ValPart(v1), j, j);
    TransposeProductAt(v2, TanPart(v1), j, j);
    DotSymmetric(v2.Column(j), ValPart(v1).Column(j));
    DotSymmetric(v2.Column(j), TanPart(v1).Column(j));
    DotZero(ValPart(v1).Column(j), Zeros(v2.rows, v2.cols).Column(j));
  }

  lemma {:induction false} DoubleFvarEntry(w1: Matrix<real>, w2: Matrix<Dual>, j: nat)
    requires w1.Valid() && w2.Valid() && w1.rows == w2.rows && w1.cols == w2.cols && j < w1.cols
    ensures ColumnsDotProductDoubleFvar(w1, w2).value.At(0, j) == ColumnsDotProduct(ToFvar(w1), w2).value.At(0, j)
  {
    ToFvarParts(w1);
    ColumnsDotProductEntry(ToFvar(w1), w2, j);
    TransposeProductAt(ValPart(w2), w1, j, j);
    TransposeProductAt(TanPart(w2), w1, j, j);
    DotSymmetric(ValPart(w2).Column(j), w1.Column(j));
    DotSymmetric(TanPart(w2).Column(j), w1.Column(j));
    DotZero(ValPart(w2).Column(j), Zeros(w1.rows, w1.cols).Column(j));
  }


  // ---------------------------------------------------------------------
  // crossprod

  /** crossprod: a matrix with no rows gives the empty 0 x 0 matrix;
      otherwise m^T m for the values and m^T dm + dm^T m for the
      tangents. */
  function Crossprod(m: Matrix<Dual>): (r: Matrix<Dual>)
    requires m.Valid()
    ensures r.Valid()
    ensures m.rows == 0 ==> r.rows == 0 && r.cols == 0
    ensures m.rows > 0 ==> r.rows == m.cols && r.cols == m.cols
  {
    if m.rows == 0 then Matrix(0, 0, [])
    else
      var mval := ValPart(m);
      Pair(Product(Transpose(mval), mval),
           Plus(Product(Transpose(mval), TanPart(m)), Product(Transpose(TanPart(m)), mval)))
  }

  /** Entry (i, j) is column i dotted with column j, with the product-rule
      tangent. */
  lemma {:induction false} CrossprodEntry(m: Matrix<Dual>, i: nat, j: nat)
    requires m.Valid() && m.rows > 0 && i < m.cols && j < m.cols
    ensures Crossprod(m).At(i, j)
      == Dual(Dot(ValPart(m).Column(i), ValPart(m).Column(j)),
              Dot(ValPart(m).Column(i), TanPart(m).Column(j)) + Dot(TanPart(m).Column(i), ValPart(m).Column(j)))
  {
    TransposeProductAt(ValPart(m), ValPart(m), i, j);
    TransposeProductAt(ValPart(m), TanPart(m), i, j);
    TransposeProductAt(TanPart(m), ValPart(m), i, j);
  }

  /** Both the values and the tangents of crossprod are symmetric. */
  lemma {:induction false} CrossprodSymmetric(m: Matrix<Dual>)
    requires m.Valid()
    ensures Symmetric(ValPart(Crossprod(m))) && Symmetric(TanPart(Crossprod(m)))
  {
    if m.rows > 0 {
      forall i, j | 0 <= i < m.cols && 0 <= j < m.cols
        ensures Crossprod(m).At(i, j) == Crossprod(m).At(j, i)
      {
        CrossprodEntry(m, i, j);
        CrossprodEntry(m, j, i);
        DotSymmetric(ValPart(m).Column(i), ValPart(m).Column(j));
        DotSymmetric(ValPart(m).Column(i), TanPart(m).Column(j));
        DotSymmetric(TanPart(m).Column(i), ValPart(m).Column(j));
      }
    }
  }

  /** The tangent is the exact rate of change of each entry of m^T m when
      m moves along its tangents. */
  lemma {:induction false} CrossprodTangent(m: Matrix<Dual>, i: nat, j: nat, h: real)
    requires m.Valid() && m.rows > 0 && i < m.cols && j < m.cols
    ensures var e := Crossprod(m).At(i, j);
      var a, da, b, db := ValPart(m).Column(i), TanPart(m).Column(i), ValPart(m).Column(j), TanPart(m).Column(j);
      Dot(Perturb(a, da, h), Perturb(b, db, h)) == Expansion(e, h, Dot(da, db))
  {
    var a, da, b, db := ValPart(m).Column(i), TanPart(m).Column(i), ValPart(m).Column(j), TanPart(m).Column(j);
    var e := Crossprod(m).At(i, j);
    CrossprodEntry(m, i, j);
    DualDotPerturbed(a, da, b, db, h, e);
  }
}
