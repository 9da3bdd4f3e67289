/** Reverse-mode atan: the scalar atan_vari and the matrix node
    atan_matrix_vari. Both pass an output adjoint back to the input scaled
    by the derivative 1 / (1 + x^2). The arc tangent itself stays abstract:
    it is a parameter of the constructors. */
module RevAtan {
  import opened Sums
  import opened Tapes

  /** 1 + x^2, the denominator of both chain() rules; never below 1, so the
      division is always defined. */
  function Denominator(x: real): (d: real)
    ensures d >= 1.0
  {
    SquareNonNegative(x);
    1.0 + x * x
  }

  /** The derivative of atan at x. */
  function AtanPartial(x: real): (r: real)
    ensures 0.0 < r <= 1.0
    ensures r * Denominator(x) == 1.0
  {
    var d := Denominator(x);
    var r := 1.0 / d;
    assert r * d == 1.0;
    r
  }

  /** atan is odd, so its derivative is even. */
  lemma {:induction false} AtanPartialEven(x: real)
    ensures AtanPartial(-x) == AtanPartial(x)
  {
    assert Denominator(-x) == Denominator(x) by {
      assert (-x) * (-x) == x * x;
    }
  }

  /** The derivative is largest, 1, at zero. */
  lemma {:induction false} AtanPartialAtZero()
    ensures AtanPartial(0.0) == 1.0
  {
    assert Denominator(0.0) == 1.0;
  }

  function Abs(x: real): real
  {
    if x < 0.0 then -x else x
  }

  /** Dividing an adjoint by 1 + x^2 keeps its sign and never increases its
      size. */
  lemma {:induction false} DividedAdjointBounded(a: real, x: real)
    ensures a / Denominator(x) == a * AtanPartial(x)
    ensures Abs(a / Denominator(x)) <= Abs(a)
    ensures (a >= 0.0) == (a / Denominator(x) >= 0.0)
  {
    var d := Denominator(x);
    var p := AtanPartial(x);
    assert a / d == a * p by {
      assert (a * p) * d == a * (p * d);
    }
    if a >= 0.0 {
      assert a * p <= a * 1.0;
      assert a * p >= 0.0 * p;
    } else {
      assert (-a) * p <= (-a) * 1.0;
      assert (-a) * p > 0.0 * p;
    }
  }

  /** The adjoints after the scalar chain() of the node at id whose input
      is avi with value x: the input's adjoint grows by adj_ / (1 + x^2). */
  function ScalarChain(adj: seq<real>, id: nat, avi: nat, x: real): (r: seq<real>)
    requires id < |adj| && avi < |adj|
    ensures |r| == |adj|
    ensures r[avi] - adj[avi] == adj[id] * AtanPartial(x)
    ensures forall u :: 0 <= u < |adj| && u != avi ==> r[u] == adj[u]
  {
    DividedAdjointBounded(adj[id], x);
    adj[avi := adj[avi] + adj[id] / Denominator(x)]
  }

  /** atan_vari: the node at id over the input at avi. */
  class AtanVari {
    const id: nat
    const value: real
    const avi: nat

    ghost predicate OnTape(t: Tape)
      reads this, t
    {
      t.Valid() && avi < id < t.Size()
    }

    /** The value is the arc tangent of the input's value, given here. */
    constructor(t: Tape, id: nat, avi: nat, atan: real -> real)
      requires t.Valid() && avi < id < t.Size()
      ensures this.id == id && this.avi == avi && OnTape(t)
      ensures value == atan(t.val[avi])
    {
      this.id := id;
      this.avi := avi;
      value := atan(t.val[avi]);
    }

    /** chain(): the input's adjoint grows by adj_ / (1 + x^2). */
    method Chain(t: Tape)
      requires OnTape(t)
      modifies t.adj
      ensures t.adj[..] == ScalarChain(old(t.adj[..]), id, avi, t.val[avi])
    {
      t.adj[avi] := t.adj[avi] + t.adj[id] / (1.0 + t.val[avi] * t.val[avi]);
    }
  }

  /** What the matrix chain() adds to input k: the adjoint of output k
      divided by 1 + x_k^2, where x_k is the recorded input value. */
  function AtanContribs(outAdj: seq<real>, x: seq<real>): (r: seq<real>)
    requires |outAdj| == |x|
    ensures |r| == |x|
  {
    seq(|x|, k requires 0 <= k < |x| => outAdj[k] / Denominator(x[k]))
  }

  /** Input k receives output k's adjoint times the derivative at x_k. */
  lemma {:induction false} AtanContribsAt(outAdj: seq<real>, x: seq<real>, k: nat)
    requires |outAdj| == |x| && k < |x|
    ensures AtanContribs(outAdj, x)[k] == outAdj[k] * AtanPartial(x[k])
  {
    var r := AtanContribs(outAdj, x);
    assert r[k] == outAdj[k] / Denominator(x[k]);
    DividedAdjointBounded(outAdj[k], x[k]);
  }

  /** atan of each value. */
  function AtanOf(atan: real -> real, x: seq<real>): (r: seq<real>)
    ensures |r| == |x| && forall k :: 0 <= k < |x| ==> r[k] == atan(x[k])
  {
    seq(|x|, k requires 0 <= k < |x| => atan(x[k]))
  }

  /** The values after writing vs[k] into position ids[k], k = 0, 1, ... */
  function Overwrite(val: seq<real>, ids: seq<nat>, vs: seq<real>): (r: seq<real>)
    requires |ids| == |vs| && AllBelow(ids, |val|)
    ensures |r| == |val|
    decreases |ids|
  {
    if |ids| == 0 then val
    else
      var n := |ids| - 1;
      Overwrite(val, ids[..n], vs[..n])[ids[n] := vs[n]]
  }

  lemma {:induction false} OverwriteStep(val: seq<real>, ids: seq<nat>, vs: seq<real>, k: nat)
    requires |ids| == |vs| && AllBelow(ids, |val|) && k < |ids|
    ensures Overwrite(val, ids[..k + 1], vs[..k + 1]) == Overwrite(val, ids[..k], vs[..k])[ids[k] := vs[k]]
  {
    assert ids[..k + 1][..k] == ids[..k] && vs[..k + 1][..k] == vs[..k];
  }

  /** A position not written keeps its value. */
  lemma {:induction false} OverwriteUntouched(val: seq<real>, ids: seq<nat>, vs: seq<real>, u: nat)
    requires |ids| == |vs| && AllBelow(ids, |val|) && u < |val| && u !in ids
    ensures Overwrite(val, ids, vs)[u] == val[u]
    decreases |ids|
  {
    if |ids| > 0 {
      var n := |ids| - 1;
      OverwriteUntouched(val, ids[..n], vs[..n], u);
    }
  }

  /** With distinct positions, position ids[k] ends up holding vs[k]. */
  lemma {:induction false} OverwriteDistinct(val: seq<real>, ids: seq<nat>, vs: seq<real>, k: nat)
    requires |ids| == |vs| && AllBelow(ids, |val|) && Distinct(ids) && k < |ids|
    ensures Overwrite(val, ids, vs)[ids[k]] == vs[k]
    decreases |ids|
  {
    var n := |ids| - 1;
    if k < n {
      assert ids[n] != ids[k];
      OverwriteDistinct(val, ids[..n], vs[..n], k);
    }
  }

  /** No vari of ins is in outs. */
  predicate Apart(ins: seq<nat>, outs: seq<nat>)
  {
    forall i, j :: 0 <= i < |ins| && 0 <= j < |outs| ==> ins[i] != outs[j]
  }

  /** atan_matrix_vari: a node of value 0 at id that records, for a rows x
      cols input laid out column by column, the input varis (refA), their
      values (ad) and the output varis it created (refAtan). The outputs are
      created non-chaining: their own chain() does nothing, and this node
      passes their adjoints back. */
  class AtanMatrixVari {
    const id: nat
    const value: real
    const rows: nat
    const cols: nat
    const size: nat
    const ad: array<real>
    const refA: array<nat>
    const refAtan: array<nat>

    ghost predicate OnTape(t: Tape)
      reads this, t, refA, refAtan
    {
      t.Valid() && id < t.Size()
      && ad.Length == size && refA.Length == size && refAtan.Length == size
      && ad != t.adj
      && AllBelow(refA[..], id) && AllBelow(refAtan[..], t.Size())
      && Apart(refA[..], refAtan[..])
    }

    /** The constructor copies the input varis and values into arrays of
        size rows * cols and writes atan of each value into a new vari at
        the matching position of outs. */
    constructor(t: Tape, id: nat, rows: nat, cols: nat, ins: seq<nat>, outs: seq<nat>, atan: real -> real)
      requires t.Valid() && id < t.Size()
      requires |ins| == rows * cols && |outs| == rows * cols
      requires AllBelow(ins, id) && AllBelow(outs, t.Size()) && Distinct(outs)
      requires Apart(ins, outs) && id !in outs
      modifies t.val
      ensures this.id == id && this.rows == rows && this.cols == cols && size == rows * cols
      ensures value == 0.0 && OnTape(t)
      ensures fresh(ad) && fresh(refA) && fresh(refAtan)
      ensures refA[..] == ins && refAtan[..] == outs
      ensures ad[..] == Gather(old(t.val[..]), ins)
      ensures t.val[id] == 0.0
      ensures forall k :: 0 <= k < size ==> t.val[outs[k]] == atan(ad[k])
      ensures forall u :: 0 <= u < t.Size() && u != id && u !in outs ==> t.val[u] == old(t.val[u])
    {
      AllBelowWeaken(ins, id, t.Size());
      this.id := id;
      value := 0.0;
      this.rows := rows;
      this.cols := cols;
      var n := |ins|;
      size := n;
      var vals := Gather(t.val[..], ins);
      var a := new real[n](k requires 0 <= k < n => vals[k]);
      var ra := new nat[n](k requires 0 <= k < n => ins[k]);
      var rt := new nat[n](k requires 0 <= k < n => outs[k]);
      assert a[..] == vals && ra[..] == ins && rt[..] == outs;
      ad, refA, refAtan := a, ra, rt;
      new;
      t.val[id] := 0.0;
      NewOutputs(t, outs, vals, atan);
    }

    /** chain(): input k's adjoint grows by output k's adjoint divided by
        1 + x_k^2. */
    method Chain(t: Tape)
      requires OnTape(t)
      modifies t.adj
      ensures t.adj[..] == Scatter(old(t.adj[..]), refA[..], AtanContribs(Gather(old(t.adj[..]), refAtan[..]), ad[..]))
    {
      AllBelowWeaken(refA[..], id, t.adj.Length);
      ghost var adj0 := t.adj[..];
      ghost var parents := refA[..];
      ghost var outs := refAtan[..];
      ghost var x := ad[..];
      ghost var contribs := AtanContribs(Gather(adj0, outs), x);
      for k := 0 to size
        invariant t.adj[..] == Scatter(adj0, parents[..k], contribs[..k])
      {
        ChainStep(adj0, parents, outs, x, k, t.adj[..]);
        var o := t.adj[refAtan[k]];
        var d := Denominator(ad[k]);
        assert o == t.adj[..][outs[k]] && ad[k] == x[k];
        t.adj[refA[k]] := t.adj[refA[k]] + o / d;
      }
      assert parents[..size] == parents && contribs[..size] == contribs;
    }
  }

  /** The output varis of the matrix node: position outs[k] gets the value
      atan(x[k]); nothing else changes. */
  method NewOutputs(t: Tape, outs: seq<nat>, x: seq<real>, atan: real -> real)
    requires t.Valid() && |outs| == |x| && AllBelow(outs, t.Size()) && Distinct(outs)
    modifies t.val
    ensures t.val[..] == Overwrite(old(t.val[..]), outs, AtanOf(atan, x))
    ensures forall k :: 0 <= k < |outs| ==> t.val[outs[k]] == atan(x[k])
    ensures forall u :: 0 <= u < t.Size() && u !in outs ==> t.val[u] == old(t.val[u])
  {
    ghost var start := t.val[..];
    ghost var atans := AtanOf(atan, x);
    for k := 0 to |outs|
      invariant t.val[..] == Overwrite(start, outs[..k], atans[..k])
    {
      OverwriteStep(start, outs, atans, k);
      t.val[outs[k]] := atan(x[k]);
    }
    assert outs[..|outs|] == outs && atans[..|outs|] == atans;
    forall k | 0 <= k < |outs| ensures t.val[outs[k]] == atan(x[k]) {
      OverwriteDistinct(start, outs, atans, k);
    }
    forall u | 0 <= u < t.Size() && u !in outs ensures t.val[u] == old(t.val[u]) {
      OverwriteUntouched(start, outs, atans, u);
    }
  }

  /** One pass of the matrix chain() loop: output k's adjoint is still the
      one chain() started with, since no input is an output. */
  lemma {:induction false} ChainStep(adj0: seq<real>, ins: seq<nat>, outs: seq<nat>, x: seq<real>, k: nat, cur: seq<real>)
    requires |ins| == |outs| == |x| && k < |ins|
    requires AllBelow(ins, |adj0|) && AllBelow(outs, |adj0|) && Apart(ins, outs)
    requires cur == Scatter(adj0, ins[..k], AtanContribs(Gather(adj0, outs), x)[..k])
    ensures Scatter(adj0, ins[..k + 1], AtanContribs(Gather(adj0, outs), x)[..k + 1])
      == cur[ins[k] := cur[ins[k]] + cur[outs[k]] / Denominator(x[k])]
  {
    var c := AtanContribs(Gather(adj0, outs), x);
    assert c[k] == adj0[outs[k]] / Denominator(x[k]);
    ScatterUntouched(adj0, ins[..k], c[..k], outs[k]);
    ScatterStep(adj0, ins, c, k);
  }

  /** With distinct inputs, the matrix chain() gives input k what the
      scalar chain() of output k would give it ... */
  lemma {:induction false} MatrixAgreesWithScalar(adj: seq<real>, ins: seq<nat>, outs: seq<nat>, x: seq<real>, k: nat)
    requires |ins| == |outs| == |x| && k < |ins|
    requires AllBelow(ins, |adj|) && AllBelow(outs, |adj|) && Distinct(ins)
    ensures Scatter(adj, ins, AtanContribs(Gather(adj, outs), x))[ins[k]]
      == ScalarChain(adj, outs[k], ins[k], x[k])[ins[k]]
  {
    ScatterDistinct(adj, ins, AtanContribs(Gather(adj, outs), x), k);
  }

  /** ... and leaves every vari that is not an input alone. */
  lemma {:induction false} MatrixLeavesOthers(adj: seq<real>, ins: seq<nat>, outs: seq<nat>, x: seq<real>, u: nat)
    requires |ins| == |outs| == |x| && u < |adj|
    requires AllBelow(ins, |adj|) && AllBelow(outs, |adj|) && u !in ins
    ensures Scatter(adj, ins, AtanContribs(Gather(adj, outs), x))[u] == adj[u]
  {
    ScatterUntouched(adj, ins, AtanContribs(Gather(adj, outs), x), u);
  }

  /** atan of a container of vars: one atan_matrix_vari, and a result of
      the same shape whose varis are the node's outputs, holding atan of
      the inputs' values. */
  method AtanContainer(t: Tape, id: nat, rows: nat, cols: nat, ins: seq<nat>, outs: seq<nat>, atan: real -> real)
    returns (node: AtanMatrixVari, result: seq<nat>)
    requires t.Valid() && id < t.Size()
    requires |ins| == rows * cols && |outs| == rows * cols
    requires AllBelow(ins, id) && AllBelow(outs, t.Size()) && Distinct(outs)
    requires Apart(ins, outs) && id !in outs
    modifies t.val
    ensures fresh(node) && node.OnTape(t) && node.rows == rows && node.cols == cols
    ensures node.refA[..] == ins && result == node.refAtan[..] == outs
    ensures forall k :: 0 <= k < |ins| ==> t.val[result[k]] == atan(old(t.val[ins[k]]))
  {
    node := new AtanMatrixVari(t, id, rows, cols, ins, outs, atan);
    result := node.refAtan[..];
  }
}
