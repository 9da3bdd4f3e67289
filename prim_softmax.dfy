/** The double softmax that the fvar and var forms call for their values.
    exp is not modelled: the exps of the shifted inputs, exp(v - max v),
    are an input, and softmax divides them by their sum. */
module PrimSoftmax {
  import opened Sums
  import opened Wrappers
  import opened Checks

  /** The exps divided by their own sum. */
  function Normalise(e: seq<real>): (r: seq<real>)
    requires Sum(e) != 0.0
    ensures |r| == |e| && forall k :: 0 <= k < |e| ==> r[k] == e[k] / Sum(e)
  {
    seq(|e|, k requires 0 <= k < |e| => e[k] / Sum(e))
  }

  /** The normalised values form a simplex: they sum to one. */
  lemma {:induction false} NormaliseSumsToOne(e: seq<real>)
    requires Sum(e) != 0.0
    ensures Sum(Normalise(e)) == 1.0
  {
    var c := 1.0 / Sum(e);
    forall k | 0 <= k < |e| ensures Normalise(e)[k] == Scale(c, e)[k] {
      assert e[k] / Sum(e) == c * e[k];
    }
    assert Normalise(e) == Scale(c, e);
    SumScale(c, e);
  }

  /** A non-empty list of positive exps has a positive sum. */
  lemma {:induction false} PositiveSum(e: seq<real>)
    requires |e| > 0 && forall k :: 0 <= k < |e| ==> e[k] > 0.0
    ensures Sum(e) > 0.0
  {
    SumNonNegative(e);
  }

  /** softmax of a double vector: check_nonzero_size, then the exps
      divided by their sum, which are positive and sum to one. */
  function Softmax(exps: seq<real>): (r: Result<seq<real>>)
    requires forall k :: 0 <= k < |exps| ==> exps[k] > 0.0
    ensures r.Ok? <==> |exps| > 0
    ensures r.Err? ==> r.error == ZeroSize
    ensures r.Ok? ==> |r.value| == |exps| && Sum(r.value) == 1.0
    ensures r.Ok? ==> forall k :: 0 <= k < |exps| ==> r.value[k] > 0.0
    ensures r.Ok? ==> Sum(exps) > 0.0 && r.value == Normalise(exps)
  {
    var _ :- CheckNonzeroSize(|exps|);
    PositiveSum(exps);
    NormaliseSumsToOne(exps);
    Ok(Normalise(exps))
  }
}
