/** The plain (double-valued) reductions: sum, prod, mean, variance and
    dot_self over the coefficients of a container, in linear order. */
module Reductions {
  import opened Sums
  import opened Wrappers
  import opened Checks

  /** sum(double): the sum of one value. */
  function SumScalar(v: real): (r: real)
    ensures r == Sum([v])
  {
    assert [v][..0] == [];
    v
  }

  /** sum(int): the sum of one integer. */
  function SumInt(v: int): (r: int)
    ensures r as real == Sum([v as real])
  {
    assert [v as real][..0] == [];
    v
  }

  /** sum of a container: no size check, so the empty container gives 0. */
  function SumOf(s: seq<real>): (r: real)
    ensures |s| == 0 ==> r == 0.0
    ensures |s| == 1 ==> r == s[0]
  {
    if |s| == 1 then
      SumSingleton(s[0]);
      assert s == [s[0]];
      Sum(s)
    else Sum(s)
  }

  /** The sum of a concatenation adds up the parts. */
  lemma {:induction false} SumOfAppend(a: seq<real>, b: seq<real>)
    ensures SumOf(a + b) == SumOf(a) + SumOf(b)
  {
    SumAppend(a, b);
  }

  /** prod: 1 for the empty container, never an error. */
  function ProdOf(s: seq<real>): (r: real)
    ensures |s| == 0 ==> r == 1.0
    ensures |s| == 1 ==> r == s[0]
  {
    if |s| == 0 then 1.0
    else if |s| == 1 then
      ProdSingleton(s[0]);
      assert s == [s[0]];
      Prod(s)
    else Prod(s)
  }

  /** The product of a concatenation multiplies the parts. */
  lemma {:induction false} ProdOfAppend(a: seq<real>, b: seq<real>)
    ensures ProdOf(a + b) == ProdOf(a) * ProdOf(b)
    decreases |b|
  {
    if |b| == 0 {
      assert a + b == a;
    } else {
      var n := |b| - 1;
      assert (a + b)[..|a + b| - 1] == a + b[..n];
      ProdOfAppend(a, b[..n]);
      if |a| == 0 && n == 0 {
        assert a + b == b;
      }
    }
  }

  /** Eigen's mean(): the sum over the count. */
  function MeanOf(s: seq<real>): real
    requires |s| > 0
  {
    Sum(s) / |s| as real
  }

  /** mean: an empty container throws; otherwise the sum divided by n. */
  function Mean(s: seq<real>): (r: Result<real>)
    ensures r.Ok? <==> |s| > 0
    ensures r.Err? ==> r.error.Kind() == InvalidArgument
    ensures r.Ok? ==> r.value * |s| as real == Sum(s)
  {
    var check := CheckNonzeroSize(|s|);
    if check.Err? then Err(check.error) else Ok(MeanOf(s))
  }

  lemma {:induction false} MeanSingleton(x: real)
    ensures Mean([x]) == Ok(x)
  {
    SumSingleton(x);
  }

  /** The mean of a constant container is that constant. */
  lemma {:induction false} MeanConstant(s: seq<real>, c: real)
    requires |s| > 0 && forall k :: 0 <= k < |s| ==> s[k] == c
    ensures Mean(s) == Ok(c)
  {
    SumConstant(s, c);
    var n := |s| as real;
    assert (n * c) / n == c;
    assert MeanOf(s) == c;
  }

  /** Each coefficient minus the mean. */
  function Deviations(s: seq<real>): (r: seq<real>)
    requires |s| > 0
    ensures |r| == |s| && forall k :: 0 <= k < |s| ==> r[k] == s[k] - MeanOf(s)
  {
    seq(|s|, k requires 0 <= k < |s| => s[k] - MeanOf(s))
  }

  /** The deviations from the mean cancel out. */
  lemma {:induction false} DeviationsSumToZero(s: seq<real>)
    requires |s| > 0
    ensures Sum(Deviations(s)) == 0.0
  {
    var m := MeanOf(s);
    var c := seq(|s|, k requires 0 <= k < |s| => -m);
    assert Deviations(s) == Add(s, c);
    SumAdd(s, c);
    SumConstant(c, -m);
    var n := |s| as real;
    assert n * (Sum(s) / n) == Sum(s);
  }

  /** Sum of squared deviations over n - 1. */
  function SampleVariance(s: seq<real>): real
    requires |s| >= 2
  {
    SquaredNorm(Deviations(s)) / (|s| - 1) as real
  }

  lemma {:induction false} QuotientNonNegative(a: real, b: real)
    requires a >= 0.0 && b > 0.0
    ensures a / b >= 0.0
  {
    var q := a / b;
    assert q * b == a;
    if q < 0.0 {
      PositiveProduct(-q, b);
    }
  }

  lemma {:induction false} SampleVarianceNonNegative(s: seq<real>)
    requires |s| >= 2
    ensures SampleVariance(s) >= 0.0
  {
    SquaredNormNonNegative(Deviations(s));
    QuotientNonNegative(SquaredNorm(Deviations(s)), (|s| - 1) as real);
  }

  /** variance: an empty container throws, one coefficient gives 0, and
      otherwise the sample variance, which is never negative. */
  function Variance(s: seq<real>): (r: Result<real>)
    ensures r.Ok? <==> |s| > 0
    ensures r.Err? ==> r.error.Kind() == InvalidArgument
    ensures |s| == 1 ==> r == Ok(0.0)
    ensures |s| >= 2 ==> r == Ok(SampleVariance(s))
    ensures r.Ok? ==> r.value >= 0.0
  {
    var check := CheckNonzeroSize(|s|);
    if check.Err? then Err(check.error)
    else if |s| == 1 then Ok(0.0)
    else
      SampleVarianceNonNegative(s);
      Ok(SampleVariance(s))
  }

  /** A constant container has variance 0. */
  lemma {:induction false} VarianceConstant(s: seq<real>, c: real)
    requires |s| > 0 && forall k :: 0 <= k < |s| ==> s[k] == c
    ensures Variance(s) == Ok(0.0)
  {
    if |s| >= 2 {
      MeanConstant(s, c);
      var d := Deviations(s);
      forall k | 0 <= k < |s| ensures Mul(d, d)[k] == 0.0 {
      }
      SumConstant(Mul(d, d), 0.0);
    }
  }

  /** A nonzero number has a positive square. */
  lemma {:induction false} SquarePositive(x: real, y: real)
    requires x != 0.0 && y == x * x
    ensures y > 0.0
  {
    var z := if x < 0.0 then -x else x;
    calc {
      y;
    ==
      z * z;
    >
      0.0;
    }
  }

  /** The squared norm vanishes exactly on the zero vector. */
  lemma {:induction false} SquaredNormZero(v: seq<real>)
    ensures SquaredNorm(v) == 0.0 <==> forall k :: 0 <= k < |v| ==> v[k] == 0.0
  {
    var m := Mul(v, v);
    forall k | 0 <= k < |v| ensures m[k] >= 0.0 && (m[k] == 0.0 <==> v[k] == 0.0) {
      SquareNonNegative(v[k]);
      if v[k] != 0.0 {
        SquarePositive(v[k], m[k]);
      } else {
        assert m[k] == 0.0 * 0.0 == 0.0;
      }
    }
    SumNonNegative(m);
  }

  /** dot_self: check_vector first, then the squared norm. */
  function DotSelf(rowsAtCompileTime: Extent, colsAtCompileTime: Extent, rows: nat, cols: nat, v: seq<real>): (r: Result<real>)
    ensures r.Ok? <==> CheckVector(rowsAtCompileTime, colsAtCompileTime, rows, cols).Ok?
    ensures r.Err? ==> r.error == NotAVector(rows, cols)
    ensures r.Ok? ==> r.value == SquaredNorm(v)
    ensures r.Ok? ==> r.value >= 0.0 && (r.value == 0.0 <==> forall k :: 0 <= k < |v| ==> v[k] == 0.0)
  {
    var check := CheckVector(rowsAtCompileTime, colsAtCompileTime, rows, cols);
    if check.Err? then Err(check.error)
    else
      SquaredNormNonNegative(v);
      SquaredNormZero(v);
      Ok(SquaredNorm(v))
  }
}
