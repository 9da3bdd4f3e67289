/** softmax of a vector of fvars. The values are the double softmax of the
    input values; the tangents start at zero and are accumulated by a
    double loop over (m, k). exp is not modelled: the method takes the
    exps of the shifted values, exp(alpha.val - max alpha.val), as an input. */
module FwdSoftmax {
  import opened Sums
  import opened Wrappers
  import opened Checks
  import opened Matrices
  import opened Duals
  import PrimSoftmax

  /** The tangent of softmax along da at the point whose softmax is s:
      s[k] * (da[k] - da . s). */
  function SoftmaxTangent(da: seq<real>, s: seq<real>): (r: seq<real>)
    requires |da| == |s|
    ensures |r| == |s|
  {
    seq(|s|, k requires 0 <= k < |s| => s[k] * (da[k] - Dot(da, s)))
  }

  /** The Jacobian entry d softmax(y)[k] / d y[m], as the double softmax
      documents it: s[k] (1 - s[m]) on the diagonal, -s[k] s[m] off it. */
  function Jacobian(s: seq<real>, k: nat, m: nat): real
    requires k < |s| && m < |s|
  {
    if m == k then s[k] * (1.0 - s[m]) else -s[k] * s[m]
  }

  /** Row k of the Jacobian. */
  function JacobianRow(s: seq<real>, k: nat): (r: seq<real>)
    requires k < |s|
    ensures |r| == |s|
  {
    seq(|s|, m requires 0 <= m < |s| => Jacobian(s, k, m))
  }

  /** What step (m, k) of the loop adds to tangent k: s_k (a_m.d - a_m.d s_m)
      when m == k, and (-a_m.d s_m) s_k otherwise. */
  function Step(da: seq<real>, s: seq<real>, m: nat, k: nat): real
    requires |da| == |s| && m < |s| && k < |s|
  {
    if m == k then s[k] * (da[m] + -da[m] * s[m]) else (-da[m] * s[m]) * s[k]
  }

  /** Step in terms of the hoisted product neg = -a_m.d s_m. */
  lemma {:induction false} StepWith(da: seq<real>, s: seq<real>, m: nat, k: nat, neg: real)
    requires |da| == |s| && m < |s| && k < |s| && neg == -da[m] * s[m]
    ensures Step(da, s, m, k) == if m == k then s[k] * (da[m] + neg) else neg * s[k]
  {
  }

  /** The loop's update, read off the fvars, moves tangent k from row m
      to row m + 1. */
  lemma {:induction false} StepUpdate(da: seq<real>, s: seq<real>, m: nat, k: nat, neg: real, v: real, am: real, dk: real)
    requires |da| == |s| && m < |s| && k < |s| && neg == -da[m] * s[m]
    requires v == s[k] && am == da[m] && dk == PartialTangent(da, s, m, k)
    ensures (if m == k then dk + v * (am + neg) else dk + neg * v) == PartialTangent(da, s, m + 1, k)
  {
    PartialTangentStep(da, s, m, k);
    StepWith(da, s, m, k, neg);
  }

  /** Tangent k once rows 0 .. m-1 of the loop have run. */
  function PartialTangent(da: seq<real>, s: seq<real>, m: nat, k: nat): real
    requires |da| == |s| && m <= |s| && k < |s|
  {
    (if k < m then s[k] * da[k] else 0.0) - s[k] * Dot(da[..m], s[..m])
  }

  lemma {:induction false} DotPrefix(a: seq<real>, b: seq<real>, m: nat)
    requires |a| == |b| && m < |a|
    ensures Dot(a[..m + 1], b[..m + 1]) == Dot(a[..m], b[..m]) + a[m] * b[m]
  {
    var p := Mul(a[..m + 1], b[..m + 1]);
    var q := Mul(a[..m], b[..m]);
    assert |p| == m + 1;
    forall i | 0 <= i < m ensures p[..m][i] == q[i] {
      assert a[..m + 1][i] == a[..m][i] && b[..m + 1][i] == b[..m][i];
    }
    assert p[..m] == q;
    assert p[m] == a[m] * b[m];
  }

  /** Before any step every tangent is zero, the zero fill. */
  lemma {:induction false} PartialTangentStart(da: seq<real>, s: seq<real>, k: nat)
    requires |da| == |s| && k < |s|
    ensures PartialTangent(da, s, 0, k) == 0.0
  {
    assert Mul(da[..0], s[..0]) == [];
  }

  /** One step of the loop moves tangent k from row m to row m + 1. */
  lemma {:induction false} PartialTangentStep(da: seq<real>, s: seq<real>, m: nat, k: nat)
    requires |da| == |s| && m < |s| && k < |s|
    ensures PartialTangent(da, s, m + 1, k) == PartialTangent(da, s, m, k) + Step(da, s, m, k)
  {
    DotPrefix(da, s, m);
  }

  /** After the last row tangent k is the softmax tangent. */
  lemma {:induction false} PartialTangentComplete(da: seq<real>, s: seq<real>, k: nat)
    requires |da| == |s| && k < |s|
    ensures PartialTangent(da, s, |s|, k) == SoftmaxTangent(da, s)[k]
  {
    assert da[..|s|] == da && s[..|s|] == s;
  }

  /** Row m of the loop: every tangent k gets step (m, k) added. */
  method AccumulateRow(out: array<Dual>, alpha: seq<Dual>, ghost da: seq<real>, s: seq<real>, m: nat)
    modifies out
    requires out.Length == |alpha| == |s| && da == Tans(alpha) && m < |s|
    requires forall k :: 0 <= k < out.Length ==> out[k] == Dual(s[k], PartialTangent(da, s, m, k))
    ensures forall k :: 0 <= k < out.Length ==> out[k] == Dual(s[k], PartialTangent(da, s, m + 1, k))
  {
    var n := out.Length;
    var neg := -alpha[m].d * out[m].val;
    var k := 0;
    while k < n
      invariant 0 <= k <= n
      invariant neg == -da[m] * s[m]
      invariant forall j :: 0 <= j < k ==> out[j] == Dual(s[j], PartialTangent(da, s, m + 1, j))
      invariant forall j :: k <= j < n ==> out[j] == Dual(s[j], PartialTangent(da, s, m, j))
    {
      StepUpdate(da, s, m, k, neg, out[k].val, alpha[m].d, out[k].d);
      if m == k {
        out[k] := out[k].(d := out[k].d + out[k].val * (alpha[m].d + neg));
      } else {
        out[k] := out[k].(d := out[k].d + neg * out[k].val);
      }
      k := k + 1;
    }
  }

  /** fvar softmax: check_nonzero_size on the values, then values equal to
      the double softmax and tangents equal to its Jacobian applied to the
      input tangents. */
  method Softmax(alpha: seq<Dual>, exps: seq<real>) returns (r: Result<seq<Dual>>)
    requires |exps| == |alpha|
    requires forall k :: 0 <= k < |exps| ==> exps[k] > 0.0
    ensures r.Ok? <==> |alpha| > 0
    ensures r.Err? ==> r.error == ZeroSize
    ensures r.Ok? ==> PrimSoftmax.Softmax(exps).Ok?
    ensures r.Ok? ==> Vals(r.value) == PrimSoftmax.Softmax(exps).value
    ensures r.Ok? ==> Tans(r.value) == SoftmaxTangent(Tans(alpha), PrimSoftmax.Softmax(exps).value)
  {
    var values := PrimSoftmax.Softmax(exps);
    if values.Err? {
      return Err(values.error);
    }
    var s := values.value;
    var n := |alpha|;
    ghost var da := Tans(alpha);
    var out := new Dual[n](k requires 0 <= k < n => Dual(s[k], 0.0));
    forall k | 0 <= k < n {
      PartialTangentStart(da, s, k);
    }
    var m := 0;
    while m < n
      invariant 0 <= m <= n
      invariant forall k :: 0 <= k < n ==> out[k] == Dual(s[k], PartialTangent(da, s, m, k))
    {
      AccumulateRow(out, alpha, da, s, m);
      m := m + 1;
    }
    forall k | 0 <= k < n {
      PartialTangentComplete(da, s, k);
    }
    r := Ok(out[..]);
    assert Vals(out[..]) == s;
    assert Tans(out[..]) == SoftmaxTangent(da, s);
  }

  /** Each tangent is row k of the documented Jacobian applied to the input
      tangents. */
  lemma {:induction false} SoftmaxTangentIsJacobianProduct(da: seq<real>, s: seq<real>, k: nat)
    requires |da| == |s| && k < |s|
    ensures SoftmaxTangent(da, s)[k] == Dot(JacobianRow(s, k), da)
  {
    JacobianRowDot(da, s, k);
    ScaledDot(da, s, k);
    DiagonalExpand(s[k], -s[k], da[k], Dot(da, s));
  }

  lemma {:induction false} JacobianRowDot(da: seq<real>, s: seq<real>, k: nat)
    requires |da| == |s| && k < |s|
    ensures Dot(JacobianRow(s, k), da) == Sum(Scale(-s[k], Mul(s, da))) + s[k] * da[k]
  {
    var unit := Fill(|s|, 0.0)[k := s[k] * da[k]];
    JacobianRowSplit(da, s, k);
    SumAdd(Scale(-s[k], Mul(s, da)), unit);
    SumFill(|s|, 0.0);
    SumUpdate(Fill(|s|, 0.0), k, s[k] * da[k]);
  }

  lemma {:induction false} ScaledDot(da: seq<real>, s: seq<real>, k: nat)
    requires |da| == |s| && k < |s|
    ensures Sum(Scale(-s[k], Mul(s, da))) == -s[k] * Dot(da, s)
  {
    SumScale(-s[k], Mul(s, da));
    DotSymmetric(s, da);
  }

  /** Row k of the Jacobian times da, entry by entry: -s[k] s[m] da[m],
      plus s[k] da[k] on the diagonal. */
  lemma {:induction false} JacobianRowSplit(da: seq<real>, s: seq<real>, k: nat)
    requires |da| == |s| && k < |s|
    ensures Mul(JacobianRow(s, k), da)
      == Add(Scale(-s[k], Mul(s, da)), Fill(|s|, 0.0)[k := s[k] * da[k]])
  {
    var unit := Fill(|s|, 0.0)[k := s[k] * da[k]];
    var scaled := Scale(-s[k], Mul(s, da));
    forall m | 0 <= m < |s|
      ensures Mul(JacobianRow(s, k), da)[m] == Add(scaled, unit)[m]
    {
      if m == k {
        DiagonalTerm(s[k], da[k]);
      } else {
        OffDiagonalTerm(s[k], s[m], da[m]);
      }
    }
  }

  lemma {:induction false} DiagonalExpand(sk: real, c: real, dk: real, dot: real)
    requires c == -sk
    ensures sk * (dk - dot) == c * dot + sk * dk
  {
  }

  lemma {:induction false} DiagonalTerm(sk: real, dk: real)
    ensures (sk * (1.0 - sk)) * dk == -sk * (sk * dk) + sk * dk
  {
  }

  lemma {:induction false} OffDiagonalTerm(sk: real, sm: real, dm: real)
    ensures (-sk * sm) * dm == -sk * (sm * dm) + 0.0
  {
  }

  /** On a simplex (values summing to one) the tangents sum to zero: the
      result stays on the simplex to first order. */
  lemma {:induction false} SoftmaxTangentSumsToZero(da: seq<real>, s: seq<real>)
    requires |da| == |s| && Sum(s) == 1.0
    ensures Sum(SoftmaxTangent(da, s)) == 0.0
  {
    var d := Dot(da, s);
    var t := SoftmaxTangent(da, s);
    forall k | 0 <= k < |s| ensures t[k] == Add(Mul(s, da), Scale(-d, s))[k] {
    }
    assert t == Add(Mul(s, da), Scale(-d, s));
    SumAdd(Mul(s, da), Scale(-d, s));
    SumScale(-d, s);
    DotSymmetric(s, da);
  }

  /** Zero input tangents give zero output tangents. */
  lemma {:induction false} SoftmaxTangentZero(da: seq<real>, s: seq<real>)
    requires |da| == |s| && forall k :: 0 <= k < |da| ==> da[k] == 0.0
    ensures forall k :: 0 <= k < |s| ==> SoftmaxTangent(da, s)[k] == 0.0
  {
    DotZero(s, da);
  }
}
