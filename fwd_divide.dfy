/** Forward-mode divide of a matrix by a scalar. The library does not check
    the divisor, so every operation here requires its value to be nonzero;
    operator/ forwards to the same functions. */
module FwdDivide {
  import opened Matrices
  import opened Duals
  import opened FwdToFvar

  /** divide(fvar matrix, fvar): every entry's value is divided by c's
      value and its tangent is (dv c - v dc) / c^2, the quotient of fvars. */
  function Divide(v: Matrix<Dual>, c: Dual): (r: Matrix<Dual>)
    requires v.Valid() && c.val != 0.0
    ensures r.Valid() && r.rows == v.rows && r.cols == v.cols
    ensures forall i, j :: 0 <= i < v.rows && 0 <= j < v.cols ==> r.At(i, j) == Over(v.At(i, j), c)
  {
    MapEntries(v, (x: Dual) => Over(x, c))
  }

  /** The entry of divide(fvar matrix, double): value and tangent both
      divided by c. */
  function OverDouble(x: Dual, c: real): Dual
    requires c != 0.0
  {
    Dual(x.val / c, x.d / c)
  }

  /** divide(fvar matrix, double). */
  function DivideByDouble(v: Matrix<Dual>, c: real): (r: Matrix<Dual>)
    requires v.Valid() && c != 0.0
    ensures r.Valid() && r.rows == v.rows && r.cols == v.cols
    ensures forall i, j :: 0 <= i < v.rows && 0 <= j < v.cols ==> r.At(i, j) == OverDouble(v.At(i, j), c)
  {
    MapEntries(v, (x: Dual) => OverDouble(x, c))
  }

  /** The entry of divide(double matrix, fvar): value y / c and tangent
      -y dc / c^2. */
  function DoubleOver(y: real, c: Dual): Dual
    requires c.val != 0.0
  {
    Dual(y / c.val, (-1.0 * y * c.d) / (c.val * c.val))
  }

  /** divide(double matrix, fvar). */
  function DivideDoubleMatrix(v: Matrix<real>, c: Dual): (r: Matrix<Dual>)
    requires v.Valid() && c.val != 0.0
    ensures r.Valid() && r.rows == v.rows && r.cols == v.cols
    ensures forall i, j :: 0 <= i < v.rows && 0 <= j < v.cols ==> r.At(i, j) == DoubleOver(v.At(i, j), c)
  {
    MapEntries(v, (y: real) => DoubleOver(y, c))
  }

  /** Multiplying each entry of the quotient back by c gives the dividend,
      tangents included: divide inverts multiplication by c. */
  lemma {:induction false} DivideInverts(v: Matrix<Dual>, c: Dual, i: nat, j: nat)
    requires v.Valid() && c.val != 0.0 && i < v.rows && j < v.cols
    ensures Times(Divide(v, c).At(i, j), c) == v.At(i, j)
  {
    TimesOver(v.At(i, j), c);
  }

  /** Dividing by a double is dividing by an fvar with zero tangent. */
  lemma {:induction false} DivideByDoubleMixed(v: Matrix<Dual>, c: real)
    requires v.Valid() && c != 0.0
    ensures DivideByDouble(v, c) == Divide(v, Dual(c, 0.0))
  {
    var r, s := DivideByDouble(v, c), Divide(v, Dual(c, 0.0));
    forall i, j | 0 <= i < v.rows && 0 <= j < v.cols ensures r.At(i, j) == s.At(i, j) {
      OverByDouble(v.At(i, j), c);
    }
    MatrixEqual(r, s);
  }

  /** Dividing a double matrix is dividing its to_fvar promotion. */
  lemma {:induction false} DivideDoubleMatrixMixed(v: Matrix<real>, c: Dual)
    requires v.Valid() && c.val != 0.0
    ensures DivideDoubleMatrix(v, c) == Divide(ToFvar(v), c)
  {
    var r, s := DivideDoubleMatrix(v, c), Divide(ToFvar(v), c);
    forall i, j | 0 <= i < v.rows && 0 <= j < v.cols ensures r.At(i, j) == s.At(i, j) {
      DoubleOverPromoted(v.At(i, j), c);
    }
    MatrixEqual(r, s);
  }

  /** Dividing an fvar by a double c is dividing it by the fvar c with
      zero tangent. */
  lemma {:induction false} OverByDouble(x: Dual, c: real)
    requires c != 0.0
    ensures OverDouble(x, c) == Over(x, Dual(c, 0.0))
  {
    var q := Dual(x.val / c, x.d / c);
    assert (x.val / c) * c == x.val;
    assert (x.d / c) * c == x.d;
    assert Times(q, Dual(c, 0.0)) == x;
    TimesOver(x, Dual(c, 0.0));
    TimesCancel(q, Over(x, Dual(c, 0.0)), Dual(c, 0.0));
  }

  /** Dividing a double y by an fvar c is dividing the fvar (y, 0) by c. */
  lemma {:induction false} DoubleOverPromoted(y: real, c: Dual)
    requires c.val != 0.0
    ensures DoubleOver(y, c) == Over(Dual(y, 0.0), c)
  {
    var q := DoubleOver(y, c);
    assert q.val * c.val == y;
    assert ((-1.0 * y * c.d) / (c.val * c.val)) * (c.val * c.val) == -1.0 * y * c.d;
    assert ((y / c.val) * c.d + ((-1.0 * y * c.d) / (c.val * c.val)) * c.val) * c.val == 0.0 * c.val;
    Cancel((y / c.val) * c.d + ((-1.0 * y * c.d) / (c.val * c.val)) * c.val, 0.0, c.val);
    assert Times(q, c) == Dual(y, 0.0);
    TimesOver(Dual(y, 0.0), c);
    TimesCancel(q, Over(Dual(y, 0.0), c), c);
  }

  /** Two fvars with the same product by c, whose value is nonzero, are
      equal: the quotient is unique. */
  lemma {:induction false} TimesCancel(a: Dual, b: Dual, c: Dual)
    requires c.val != 0.0 && Times(a, c) == Times(b, c)
    ensures a == b
  {
    Cancel(a.val, b.val, c.val);
    assert a.d * c.val == b.d * c.val;
    Cancel(a.d, b.d, c.val);
  }
}
