/** Forward-mode sum: the value is the sum of the values and the tangent the
    sum of the tangents, for a vector of fvars and for an fvar matrix. */
module FwdSum {
  import opened Sums
  import opened Matrices
  import opened Duals

  /** sum of a container of fvars: zero when empty. */
  function SumDual(x: seq<Dual>): (r: Dual)
    ensures |x| == 0 ==> r == Dual(0.0, 0.0)
    ensures |x| > 0 ==> r == Dual(Sum(Vals(x)), Sum(Tans(x)))
  {
    if |x| == 0 then Dual(0.0, 0.0) else Dual(Sum(Vals(x)), Sum(Tans(x)))
  }

  /** The tangent is the exact rate of change of the sum: moving every
      value along its tangent by h moves the sum by h times r.d. */
  lemma {:induction false} SumDualTangent(x: seq<Dual>, h: real)
    ensures Sum(Perturb(Vals(x), Tans(x), h)) == SumDual(x).val + h * SumDual(x).d
  {
    SumPerturbed(Vals(x), Tans(x), h);
  }

  /** A single fvar sums to itself. */
  lemma {:induction false} SumDualSingleton(x: Dual)
    ensures SumDual([x]) == x
  {
    SumSingleton(x.val);
    SumSingleton(x.d);
    assert Vals([x]) == [x.val] && Tans([x]) == [x.d];
  }

  /** Sums of the values and of the tangents depend only on the multiset of
      fvars. */
  lemma {:induction false} PartsPermutation(a: seq<Dual>, b: seq<Dual>)
    requires multiset(a) == multiset(b)
    ensures Sum(Vals(a)) == Sum(Vals(b)) && Sum(Tans(a)) == Sum(Tans(b))
    decreases |a|
  {
    if |a| == 0 {
      assert |b| == |multiset(b)| == 0;
    } else {
      var n := |a| - 1;
      var k := MatchLast(a, b);
      var rest := b[..k] + b[k + 1..];
      PartsPermutation(a[..n], rest);
      PartsLast(a);
      RemoveParts(b, k);
    }
  }

  /** The sums of the parts of a are those of all but its last fvar plus
      that fvar's parts. */
  lemma {:induction false} PartsLast(a: seq<Dual>)
    requires |a| > 0
    ensures Sum(Vals(a)) == Sum(Vals(a[..|a| - 1])) + a[|a| - 1].val
    ensures Sum(Tans(a)) == Sum(Tans(a[..|a| - 1])) + a[|a| - 1].d
  {
    var n := |a| - 1;
    assert Vals(a) == Vals(a[..n]) + [a[n].val];
    assert Tans(a) == Tans(a[..n]) + [a[n].d];
    SumAppend(Vals(a[..n]), [a[n].val]);
    SumAppend(Tans(a[..n]), [a[n].d]);
    SumSingleton(a[n].val);
    SumSingleton(a[n].d);
  }

  /** The last fvar of a sits somewhere in b, and the rest of a is a
      permutation of the rest of b. */
  lemma {:induction false} MatchLast(a: seq<Dual>, b: seq<Dual>) returns (k: nat)
    requires multiset(a) == multiset(b) && |a| > 0
    ensures k < |b| && b[k] == a[|a| - 1]
    ensures multiset(a[..|a| - 1]) == multiset(b[..k] + b[k + 1..])
  {
    var n := |a| - 1;
    var x := a[n];
    assert x in multiset(b);
    k :| 0 <= k < |b| && b[k] == x;
    var rest := b[..k] + b[k + 1..];
    assert b == b[..k] + [x] + b[k + 1..];
    assert multiset(b) == multiset(rest) + multiset{x};
    assert a == a[..n] + [x];
    assert multiset(a) == multiset(a[..n]) + multiset{x};
    calc {
      multiset(a[..n]);
      multiset(a) - multiset{x};
      multiset(b) - multiset{x};
      multiset(rest);
    }
  }

  /** Dropping fvar k drops its value and its tangent, so the sums lose
      exactly those. */
  lemma {:induction false} RemoveParts(b: seq<Dual>, k: nat)
    requires k < |b|
    ensures Sum(Vals(b)) == b[k].val + Sum(Vals(b[..k] + b[k + 1..]))
    ensures Sum(Tans(b)) == b[k].d + Sum(Tans(b[..k] + b[k + 1..]))
  {
    var rest := b[..k] + b[k + 1..];
    assert Vals(rest) == Vals(b)[..k] + Vals(b)[k + 1..];
    assert Tans(rest) == Tans(b)[..k] + Tans(b)[k + 1..];
    SumRemove(Vals(b), k);
    SumRemove(Tans(b), k);
  }

  /** So the sum of a container is the same in any order. */
  lemma {:induction false} SumDualPermutation(a: seq<Dual>, b: seq<Dual>)
    requires multiset(a) == multiset(b)
    ensures SumDual(a) == SumDual(b)
  {
    PartsPermutation(a, b);
    assert |a| == |multiset(a)| == |multiset(b)| == |b|;
  }

  /** The entries of f applied to every coefficient, in linear order, are f
      applied to the entries in linear order. */
  lemma {:induction false} FlattenMapEntries(m: Matrix<Dual>)
    requires m.Valid()
    ensures Flatten(ValPart(m).columns) == Vals(Flatten(m.columns))
    ensures Flatten(TanPart(m).columns) == Tans(Flatten(m.columns))
  {
    FlattenValPart(m);
    FlattenTanPart(m);
  }

  lemma {:induction false} FlattenValPart(m: Matrix<Dual>)
    requires m.Valid()
    ensures Flatten(ValPart(m).columns) == Vals(Flatten(m.columns))
    decreases m.cols
  {
    if m.cols > 0 {
      var n := m.cols - 1;
      var front := Matrix(m.rows, n, m.columns[..n]);
      FlattenValPart(front);
      var v := ValPart(m).columns;
      assert v[..n] == ValPart(front).columns;
      assert m.columns[..n] == front.columns;
      var f, c := Flatten(front.columns), m.columns[n];
      assert Flatten(m.columns) == f + c;
      assert Flatten(v) == Flatten(v[..n]) + v[n];
      assert Vals(f + c) == Vals(f) + Vals(c);
      assert Vals(c) == v[n];
    }
  }

  lemma {:induction false} FlattenTanPart(m: Matrix<Dual>)
    requires m.Valid()
    ensures Flatten(TanPart(m).columns) == Tans(Flatten(m.columns))
    decreases m.cols
  {
    if m.cols > 0 {
      var n := m.cols - 1;
      var front := Matrix(m.rows, n, m.columns[..n]);
      FlattenTanPart(front);
      var t := TanPart(m).columns;
      assert t[..n] == TanPart(front).columns;
      assert m.columns[..n] == front.columns;
      var f, c := Flatten(front.columns), m.columns[n];
      assert Flatten(m.columns) == f + c;
      assert Flatten(t) == Flatten(t[..n]) + t[n];
      assert Tans(f + c) == Tans(f) + Tans(c);
      assert Tans(c) == t[n];
    }
  }

  /** sum of an fvar matrix: 0 when it has no coefficients, otherwise the
      sums of val_() and d_(). */
  function SumDualMatrix(m: Matrix<Dual>): (r: Dual)
    requires m.Valid()
    ensures r == SumDual(Flatten(m.columns))
  {
    FlattenIndex(m);
    FlattenMapEntries(m);
    if m.Size() == 0 then Dual(0.0, 0.0)
    else Dual(Sum(Flatten(ValPart(m).columns)), Sum(Flatten(TanPart(m).columns)))
  }

  /** The matrix sum depends on the entries only, not on the shape or the
      order: any two matrices holding the same multiset of fvars have the
      same sum. */
  lemma {:induction false} SumDualMatrixShape(m1: Matrix<Dual>, m2: Matrix<Dual>)
    requires m1.Valid() && m2.Valid()
    requires multiset(Flatten(m1.columns)) == multiset(Flatten(m2.columns))
    ensures SumDualMatrix(m1) == SumDualMatrix(m2)
  {
    SumDualPermutation(Flatten(m1.columns), Flatten(m2.columns));
  }
}
