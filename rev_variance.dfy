/** Reverse-mode variance: calc_variance builds one stored-gradient node
    whose partials are 2 (x_k - mean) / (n - 1). */
module RevVariance {
  import opened Sums
  import opened Tapes
  import opened Wrappers
  import opened Checks
  import opened Reductions

  /** Twice each deviation, over m. */
  function TwiceOver(d: seq<real>, m: real): (r: seq<real>)
    requires m != 0.0
    ensures |r| == |d|
  {
    seq(|d|, k requires 0 <= k < |d| => 2.0 * d[k] / m)
  }

  lemma {:induction false} TwiceOverIsScale(d: seq<real>, m: real)
    requires m != 0.0
    ensures TwiceOver(d, m) == Scale(2.0 / m, d)
  {
    var c := 2.0 / m;
    forall k | 0 <= k < |d| ensures TwiceOver(d, m)[k] == Scale(c, d)[k] {
      assert 2.0 * d[k] / m == c * d[k];
    }
  }

  /** The partials calc_variance stores: twice each deviation, over n - 1. */
  function VariancePartials(x: seq<real>): (r: seq<real>)
    requires |x| >= 2
    ensures |r| == |x|
  {
    TwiceOver(Deviations(x), (|x| - 1) as real)
  }

  /** The partials sum to zero: shifting every input by the same amount
      leaves the variance where it was. */
  lemma {:induction false} VariancePartialsSumToZero(x: seq<real>)
    requires |x| >= 2
    ensures Sum(VariancePartials(x)) == 0.0
  {
    var d := Deviations(x);
    var m := (|x| - 1) as real;
    TwiceOverIsScale(d, m);
    SumScale(2.0 / m, d);
    DeviationsSumToZero(x);
  }

  lemma {:induction false} TwiceOverDot(d: seq<real>, m: real)
    requires m != 0.0
    ensures Dot(TwiceOver(d, m), d) == 2.0 * (SquaredNorm(d) / m)
  {
    var c := 2.0 / m;
    TwiceOverIsScale(d, m);
    forall k | 0 <= k < |d| ensures Mul(Scale(c, d), d)[k] == Scale(c, Mul(d, d))[k] {
      assert (c * d[k]) * d[k] == c * (d[k] * d[k]);
    }
    assert Mul(Scale(c, d), d) == Scale(c, Mul(d, d));
    SumScale(c, Mul(d, d));
    assert c * SquaredNorm(d) == 2.0 * (SquaredNorm(d) / m);
  }

  /** The partials weighted by the deviations give twice the value, as for
      any quadratic form in the deviations. */
  lemma {:induction false} VariancePartialsDotDeviations(x: seq<real>)
    requires |x| >= 2
    ensures Dot(VariancePartials(x), Deviations(x)) == 2.0 * SampleVariance(x)
  {
    TwiceOverDot(Deviations(x), (|x| - 1) as real);
  }

  /** calc_variance: the parents are the inputs in order, the partials are
      VariancePartials of their values and the value is the sample
      variance. The caller guarantees at least two inputs, so n - 1 is not
      zero. */
  method CalcVariance(t: Tape, parents: seq<nat>) returns (node: PrecomputedNode)
    requires t.Valid() && AllBelow(parents, t.Size()) && |parents| >= 2
    ensures fresh(node.varis) && fresh(node.partials)
    ensures node.Valid() && node.offset == 0 && node.size == |parents|
    ensures node.Parents() == parents
    ensures node.Partials() == VariancePartials(Gather(t.val[..], parents))
    ensures node.value == SampleVariance(Gather(t.val[..], parents))
  {
    var n := |parents|;
    var varis := new nat[n](k requires 0 <= k < n => parents[k]);
    var values := Gather(t.val[..], parents);
    var diff := Deviations(values);
    var sizeM1 := (n - 1) as real;
    var partials := new real[n](k requires 0 <= k < n => 2.0 * diff[k] / sizeM1);
    var variance := SquaredNorm(diff) / sizeM1;
    node := PrecomputedNode(variance, n, varis, partials, 0);
    assert varis[..] == parents;
    assert partials[..] == VariancePartials(values);
  }

  /** variance of a var container: an empty one throws, one coefficient
      gives the constant 0, anything longer a calc_variance node. */
  method Variance(t: Tape, parents: seq<nat>) returns (r: Result<Output<PrecomputedNode>>)
    requires t.Valid() && AllBelow(parents, t.Size())
    ensures r.Err? <==> |parents| == 0
    ensures r.Err? ==> r.error == ZeroSize
    ensures |parents| == 1 ==> r == Ok(Constant(0.0))
    ensures |parents| >= 2 ==> (r.Ok? && r.value.Built?
      && fresh(r.value.node.varis) && fresh(r.value.node.partials)
      && r.value.node.Valid() && r.value.node.Parents() == parents
      && r.value.node.Partials() == VariancePartials(Gather(t.val[..], parents))
      && r.value.node.value == SampleVariance(Gather(t.val[..], parents)))
  {
    var check := CheckNonzeroSize(|parents|);
    if check.Err? {
      return Err(check.error);
    }
    if |parents| == 1 {
      return Ok(Constant(0.0));
    }
    var node := CalcVariance(t, parents);
    return Ok(Built(node));
  }

  /** Propagating a variance node leaves the total of all adjoints where it
      was, whatever the node's adjoint and even if an input repeats. */
  lemma {:induction false} VarianceChainKeepsTotal(adj: seq<real>, parents: seq<nat>, x: seq<real>, a: real)
    requires |x| == |parents| >= 2 && AllBelow(parents, |adj|)
    ensures Sum(Scatter(adj, parents, Scale(a, VariancePartials(x)))) == Sum(adj)
  {
    var p := VariancePartials(x);
    ScatterTotal(adj, parents, Scale(a, p));
    SumScale(a, p);
    VariancePartialsSumToZero(x);
    assert Sum(Scale(a, p)) == 0.0;
  }
}
