/** Forward-mode dual numbers: an fvar holds a value val_ and a tangent d_,
    the derivative of the value along the direction being differentiated. */
module Duals {
  import opened Sums
  import opened Matrices

  /** fvar<double>: the value and its tangent. */
  datatype Dual = Dual(val: real, d: real)

  /** The values of a vector of fvars, Eigen's val(). */
  function Vals(x: seq<Dual>): (r: seq<real>)
    ensures |r| == |x| && forall k :: 0 <= k < |x| ==> r[k] == x[k].val
  {
    seq(|x|, k requires 0 <= k < |x| => x[k].val)
  }

  /** The tangents of a vector of fvars, Eigen's d(). */
  function Tans(x: seq<Dual>): (r: seq<real>)
    ensures |r| == |x| && forall k :: 0 <= k < |x| ==> r[k] == x[k].d
  {
    seq(|x|, k requires 0 <= k < |x| => x[k].d)
  }

  /** The vector of fvars with the given values and tangents. */
  function Zip(vals: seq<real>, tans: seq<real>): (r: seq<Dual>)
    requires |vals| == |tans|
    ensures |r| == |vals|
  {
    seq(|vals|, k requires 0 <= k < |vals| => Dual(vals[k], tans[k]))
  }

  /** Splitting a vector of fvars and zipping the parts back gives it
      back ... */
  lemma {:induction false} ZipRoundTrip(x: seq<Dual>)
    ensures Zip(Vals(x), Tans(x)) == x
  {
    var z := Zip(Vals(x), Tans(x));
    forall k | 0 <= k < |x| ensures z[k] == x[k] {
    }
  }

  /** ... and zipping then splitting gives back the parts. */
  lemma {:induction false} ZipParts(vals: seq<real>, tans: seq<real>)
    requires |vals| == |tans|
    ensures Vals(Zip(vals, tans)) == vals && Tans(Zip(vals, tans)) == tans
  {
    var z := Zip(vals, tans);
    assert forall k :: 0 <= k < |z| ==> z[k] == Dual(vals[k], tans[k]);
  }

  /** The values of a matrix of fvars, val_(). */
  function ValPart(m: Matrix<Dual>): (r: Matrix<real>)
    requires m.Valid()
    ensures r.Valid() && r.rows == m.rows && r.cols == m.cols
    ensures forall i, j :: 0 <= i < m.rows && 0 <= j < m.cols ==> r.At(i, j) == m.At(i, j).val
  {
    MapEntries(m, (x: Dual) => x.val)
  }

  /** The tangents of a matrix of fvars, d_(). */
  function TanPart(m: Matrix<Dual>): (r: Matrix<real>)
    requires m.Valid()
    ensures r.Valid() && r.rows == m.rows && r.cols == m.cols
    ensures forall i, j :: 0 <= i < m.rows && 0 <= j < m.cols ==> r.At(i, j) == m.At(i, j).d
  {
    MapEntries(m, (x: Dual) => x.d)
  }

  /** The matrix of fvars with the given values and tangents. */
  function Pair(v: Matrix<real>, t: Matrix<real>): (r: Matrix<Dual>)
    requires v.Valid() && t.Valid() && v.rows == t.rows && v.cols == t.cols
    ensures r.Valid() && r.rows == v.rows && r.cols == v.cols
    ensures forall i, j :: 0 <= i < v.rows && 0 <= j < v.cols ==> r.At(i, j) == Dual(v.At(i, j), t.At(i, j))
  {
    Matrix(v.rows, v.cols, seq(v.cols, j requires 0 <= j < v.cols =>
      seq(v.rows, i requires 0 <= i < v.rows => Dual(v.columns[j][i], t.columns[j][i]))))
  }

  lemma {:induction false} PairRoundTrip(m: Matrix<Dual>)
    requires m.Valid()
    ensures Pair(ValPart(m), TanPart(m)) == m
  {
    MatrixEqual(Pair(ValPart(m), TanPart(m)), m);
  }

  lemma {:induction false} PairParts(v: Matrix<real>, t: Matrix<real>)
    requires v.Valid() && t.Valid() && v.rows == t.rows && v.cols == t.cols
    ensures ValPart(Pair(v, t)) == v && TanPart(Pair(v, t)) == t
  {
    MatrixEqual(ValPart(Pair(v, t)), v);
    MatrixEqual(TanPart(Pair(v, t)), t);
  }

  /** The point x + h dx: moving a distance h along the tangent dx. */
  function Perturb(x: seq<real>, dx: seq<real>, h: real): (r: seq<real>)
    requires |x| == |dx|
    ensures |r| == |x| && forall k :: 0 <= k < |x| ==> r[k] == x[k] + h * dx[k]
  {
    Add(x, Scale(h, dx))
  }

  /** A sum is linear: moving along dx moves it by h times the sum of dx. */
  lemma {:induction false} SumPerturbed(x: seq<real>, dx: seq<real>, h: real)
    requires |x| == |dx|
    ensures Sum(Perturb(x, dx, h)) == Sum(x) + h * Sum(dx)
  {
    SumAdd(x, Scale(h, dx));
    SumScale(h, dx);
  }

  /** A dot product moves by h times the product-rule tangent, plus a
      second-order term. */
  lemma {:induction false} DotPerturbed(a: seq<real>, da: seq<real>, b: seq<real>, db: seq<real>, h: real)
    requires |a| == |da| == |b| == |db|
    ensures Dot(Perturb(a, da, h), Perturb(b, db, h))
      == Dot(a, b) + h * (Dot(da, b) + Dot(a, db)) + h * h * Dot(da, db)
  {
    var pb := Perturb(b, db, h);
    DotAddLeft(a, Scale(h, da), pb);
    DotScaleLeft(h, da, pb);
    DotAddRight(b, Scale(h, db), a);
    DotScaleRight(h, db, a);
    DotAddRight(b, Scale(h, db), da);
    DotScaleRight(h, db, da);
    var x, y, z, w := Dot(a, b), Dot(a, db), Dot(da, b), Dot(da, db);
    assert Dot(Perturb(a, da, h), pb) == (x + h * y) + h * (z + h * w);
    assert (x + h * y) + h * (z + h * w) == x + h * (z + y) + h * h * w;
  }

  /** e.val + h e.d + h^2 q: the value at distance h of a quantity whose
      value is e.val, whose derivative is e.d and whose second-order term
      is q. */
  function Expansion(e: Dual, h: real, q: real): real
  {
    e.val + h * e.d + h * h * q
  }

  /** The same statement for a dual number already known to hold the dot
      product and its product-rule tangent. */
  lemma {:induction false} DualDotPerturbed(a: seq<real>, da: seq<real>, b: seq<real>, db: seq<real>, h: real, e: Dual)
    requires |a| == |da| == |b| == |db|
    requires e.val == Dot(a, b) && e.d == Dot(da, b) + Dot(a, db)
    ensures Dot(Perturb(a, da, h), Perturb(b, db, h)) == Expansion(e, h, Dot(da, db))
  {
    DotPerturbed(a, da, b, db, h);
    Regroup(Dot(Perturb(a, da, h), Perturb(b, db, h)), e.val, e.d, Dot(da, b), Dot(a, db), Dot(da, db), h);
  }

  /** Replacing a sum by a name for it, kept away from any sequence facts. */
  lemma {:induction false} Regroup(p: real, v: real, d: real, s1: real, s2: real, q: real, h: real)
    requires p == v + h * (s1 + s2) + h * h * q && d == s1 + s2
    ensures p == v + h * d + h * h * q
  {
  }

  function PerturbMatrix(m: Matrix<real>, dm: Matrix<real>, h: real): (r: Matrix<real>)
    requires m.Valid() && dm.Valid() && m.rows == dm.rows && m.cols == dm.cols
    ensures r.Valid() && r.rows == m.rows && r.cols == m.cols
    ensures forall j :: 0 <= j < m.cols ==> r.Column(j) == Perturb(m.Column(j), dm.Column(j), h)
    ensures forall i, j :: 0 <= i < m.rows && 0 <= j < m.cols ==> r.At(i, j) == m.At(i, j) + h * dm.At(i, j)
  {
    Matrix(m.rows, m.cols, seq(m.cols, j requires 0 <= j < m.cols => Perturb(m.columns[j], dm.columns[j], h)))
  }

  /** Row i of m + h dm is row i of m moved along row i of dm. */
  lemma {:induction false} PerturbRow(m: Matrix<real>, dm: Matrix<real>, h: real, i: nat)
    requires m.Valid() && dm.Valid() && m.rows == dm.rows && m.cols == dm.cols && i < m.rows
    ensures PerturbMatrix(m, dm, h).Row(i) == Perturb(m.Row(i), dm.Row(i), h)
  {
    var p := PerturbMatrix(m, dm, h);
    forall j | 0 <= j < m.cols ensures p.Row(i)[j] == Perturb(m.Row(i), dm.Row(i), h)[j] {
      assert p.Row(i)[j] == p.At(i, j);
    }
  }

  /** The product of two fvars: the values multiply and the tangent follows
      the product rule. */
  function Times(x: Dual, c: Dual): Dual
  {
    Dual(x.val * c.val, x.val * c.d + x.d * c.val)
  }

  /** The product of fvars does not depend on the order of its factors. */
  lemma {:induction false} TimesCommutes(x: Dual, c: Dual)
    ensures Times(x, c) == Times(c, x)
  {
    assert x.val * c.val == c.val * x.val;
    assert x.val * c.d + x.d * c.val == c.val * x.d + c.d * x.val;
  }

  /** The tangent of a product is the exact rate of change of the product
      of the two values moved along their tangents. */
  lemma {:induction false} TimesPerturbed(x: Dual, c: Dual, h: real)
    ensures (x.val + h * x.d) * (c.val + h * c.d) == Expansion(Times(x, c), h, x.d * c.d)
  {
    var a, da, b, db := x.val, x.d, c.val, c.d;
    calc {
      (a + h * da) * (b + h * db);
      a * b + h * (a * db + da * b) + h * h * (da * db);
    }
  }

  /** The quotient of two fvars, defined when the divisor's value is
      nonzero: the quotient rule. */
  function Over(x: Dual, c: Dual): Dual
    requires c.val != 0.0
  {
    Dual(x.val / c.val, (x.d * c.val - x.val * c.d) / (c.val * c.val))
  }

  /** Dividing by c and multiplying back by c gives the dividend again, its
      tangent included: the quotient rule inverts the product rule. */
  lemma {:induction false} TimesOver(x: Dual, c: Dual)
    requires c.val != 0.0
    ensures Times(Over(x, c), c) == x
  {
    var q := Over(x, c);
    var v := c.val;
    assert q.val * v == x.val;
    assert v * v != 0.0;
    assert q.d * (v * v) == x.d * v - x.val * c.d;
    var lhs := q.val * c.d + q.d * v;
    calc {
      lhs * v;
      == (q.val * v) * c.d + q.d * (v * v);
      == x.val * c.d + (x.d * v - x.val * c.d);
      == x.d * v;
    }
    Cancel(lhs, x.d, v);
  }

  /** A nonzero factor can be cancelled. */
  lemma {:induction false} Cancel(a: real, b: real, v: real)
    requires v != 0.0 && a * v == b * v
    ensures a == b
  {
    assert (a - b) * v == 0.0;
  }
}
