/** Reverse-mode log_softmax. The older form builds one log_softmax_elt_vari
    per output, all sharing the input varis and the softmax values; the
    newer form registers one reverse-pass callback. The softmax values
    (exp of the shifted inputs, and their logarithms) are inputs here. */
module RevLogSoftmax {
  import opened Sums
  import opened Tapes
  import opened Wrappers
  import opened Checks
  import opened Accumulation
  import opened PrimSoftmax

  /** What the chain() of output idx adds to input m: adj (1 - s_m) at
      m = idx and - adj s_m everywhere else. */
  function EltContribs(s: seq<real>, idx: nat, a: real): (r: seq<real>)
    ensures |r| == |s|
  {
    seq(|s|, m requires 0 <= m < |s| => if m == idx then a * (1.0 - s[m]) else -(a * s[m]))
  }

  /** One output's increments are -adj s, except at idx. */
  lemma {:induction false} EltContribsAsUpdate(s: seq<real>, idx: nat, a: real)
    requires idx < |s|
    ensures EltContribs(s, idx, a) == Scale(-a, s)[idx := a * (1.0 - s[idx])]
  {
    var r := Scale(-a, s)[idx := a * (1.0 - s[idx])];
    forall m | 0 <= m < |s| ensures EltContribs(s, idx, a)[m] == r[m] {
    }
  }

  /** One output's chain() moves the inputs' adjoints in total by
      adj (1 - sum of s). */
  lemma {:induction false} EltContribsTotal(s: seq<real>, idx: nat, a: real)
    requires idx < |s|
    ensures Sum(EltContribs(s, idx, a)) == a * (1.0 - Sum(s))
  {
    var u := Scale(-a, s)[idx := a * (1.0 - s[idx])];
    EltContribsAsUpdate(s, idx, a);
    assert Sum(EltContribs(s, idx, a)) == Sum(u);
    UpdateTotal(s, idx, a);
  }

  /** For a simplex s, one output's chain() moves nothing in total. */
  lemma {:induction false} EltContribsVanish(s: seq<real>, idx: nat, a: real)
    requires idx < |s| && Sum(s) == 1.0
    ensures Sum(EltContribs(s, idx, a)) == 0.0
  {
    var t := Sum(s);
    var total := Sum(EltContribs(s, idx, a));
    EltContribsTotal(s, idx, a);
    assert total == a * (1.0 - t);
    assert a * (1.0 - t) == 0.0;
  }

  lemma {:induction false} UpdateTotal(s: seq<real>, idx: nat, a: real)
    requires idx < |s|
    ensures Sum(Scale(-a, s)[idx := a * (1.0 - s[idx])]) == a * (1.0 - Sum(s))
  {
    var c := Scale(-a, s);
    var v := a * (1.0 - s[idx]);
    SumUpdate(c, idx, v);
    SumScale(-a, s);
    assert Sum(c[idx := v]) == Sum(c) - c[idx] + v;
    assert Sum(c) == -a * Sum(s);
    assert c[idx] == -a * s[idx];
    UpdateArithmetic(Sum(s), s[idx], a);
  }

  lemma {:induction false} UpdateArithmetic(total: real, x: real, a: real)
    ensures -a * total - -a * x + a * (1.0 - x) == a * (1.0 - total)
  {
  }

  /** log_softmax_elt_vari: output idx of a log_softmax over size inputs. */
  class LogSoftmaxEltVari {
    const id: nat
    const value: real
    const alpha: array<nat>
    const softmax: array<real>
    const size: nat
    const idx: nat

    ghost predicate OnTape(t: Tape)
      reads this, alpha, t
    {
      t.Valid() && id < t.Size() && alpha.Length == size && softmax.Length == size
      && softmax != t.adj && AllBelow(alpha[..], id)
    }

    constructor(id: nat, value: real, alpha: array<nat>, softmax: array<real>, size: nat, idx: nat)
      ensures this.id == id && this.value == value && this.alpha == alpha
      ensures this.softmax == softmax && this.size == size && this.idx == idx
    {
      this.id := id;
      this.value := value;
      this.alpha := alpha;
      this.softmax := softmax;
      this.size := size;
      this.idx := idx;
    }

    /** chain(): adj (1 - s_idx) onto input idx, - adj s_m onto every other
        input m, and nothing anywhere else. */
    method Chain(t: Tape)
      requires OnTape(t)
      modifies t.adj
      ensures t.adj[..] == Scatter(old(t.adj[..]), alpha[..], EltContribs(softmax[..], idx, old(t.adj[id])))
    {
      AllBelowWeaken(alpha[..], id, t.adj.Length);
      var a := t.adj[id];
      ghost var parents := alpha[..];
      ghost var contribs := EltContribs(softmax[..], idx, a);
      for m := 0 to size
        invariant t.adj[..] == Scatter(old(t.adj[..]), parents[..m], contribs[..m])
      {
        ScatterStep(old(t.adj[..]), parents, contribs, m);
        assert parents[m] == alpha[m];
        assert contribs[m] == if m == idx then a * (1.0 - softmax[m]) else -(a * softmax[m]);
        if m == idx {
          t.adj[alpha[m]] := t.adj[alpha[m]] + a * (1.0 - softmax[m]);
        } else {
          t.adj[alpha[m]] := t.adj[alpha[m]] - a * softmax[m];
        }
      }
      assert parents[..size] == parents && contribs[..size] == contribs;
    }
  }

  // ---------------------------------------------------------------------
  // The reverse-pass callback of the newer log_softmax

  /** What the callback adds to input m: res_adj_m - (sum of res_adj) s_m,
      where s_m = exp(res_val_m). */
  function CallbackContribs(resAdj: seq<real>, s: seq<real>): (r: seq<real>)
    requires |resAdj| == |s|
    ensures |r| == |s|
  {
    seq(|s|, m requires 0 <= m < |s| => resAdj[m] - Sum(resAdj) * s[m])
  }

  /** For a simplex the callback moves the inputs' adjoints by nothing in
      total. */
  lemma {:induction false} CallbackContribsTotal(resAdj: seq<real>, s: seq<real>)
    requires |resAdj| == |s| && Sum(s) == 1.0
    ensures Sum(CallbackContribs(resAdj, s)) == 0.0
  {
    var total := Sum(resAdj);
    var c := Scale(-total, s);
    var r := CallbackContribs(resAdj, s);
    forall m | 0 <= m < |s| ensures r[m] == Add(resAdj, c)[m] {
      assert r[m] == resAdj[m] - total * s[m];
      assert c[m] == -total * s[m];
    }
    assert r == Add(resAdj, c);
    SumAdd(resAdj, c);
    SumScale(-total, s);
    assert -total * Sum(s) == -total;
  }

  /** The state the callback captures: the input varis, the output varis
      and the exp of the output values. */
  datatype ReversePass = ReversePass(alpha: seq<nat>, res: seq<nat>, expValues: seq<real>)

  /** log_softmax of a var vector: check_nonzero_size, then the outputs and
      the callback that will propagate their adjoints. */
  function LogSoftmaxPass(alpha: seq<nat>, res: seq<nat>, expValues: seq<real>): (r: Result<ReversePass>)
    ensures r.Ok? <==> |alpha| > 0
    ensures r.Err? ==> r.error == ZeroSize && r.error.Kind() == InvalidArgument
    ensures r.Ok? ==> r.value.alpha == alpha && r.value.res == res && r.value.expValues == expValues
  {
    var _ :- CheckNonzeroSize(|alpha|);
    Ok(ReversePass(alpha, res, expValues))
  }

  /** The callback body: read every output adjoint, then add
      res_adj - (sum of res_adj) exp(res_val) to the input adjoints. */
  method RunCallback(t: Tape, pass: ReversePass)
    requires t.Valid() && |pass.alpha| == |pass.res| == |pass.expValues|
    requires AllBelow(pass.alpha, t.Size()) && AllBelow(pass.res, t.Size())
    modifies t.adj
    ensures t.adj[..] == Scatter(old(t.adj[..]), pass.alpha,
      CallbackContribs(Gather(old(t.adj[..]), pass.res), pass.expValues))
  {
    var resAdj := Gather(t.adj[..], pass.res);
    var contribs := CallbackContribs(resAdj, pass.expValues);
    for m := 0 to |pass.alpha|
      invariant t.adj[..] == Scatter(old(t.adj[..]), pass.alpha[..m], contribs[..m])
    {
      ScatterStep(old(t.adj[..]), pass.alpha, contribs, m);
      t.adj[pass.alpha[m]] := t.adj[pass.alpha[m]] + contribs[m];
    }
    assert pass.alpha[..|pass.alpha|] == pass.alpha;
    assert contribs[..|pass.alpha|] == contribs;
  }

  // ---------------------------------------------------------------------
  // Chaining every output of the older form

  /** The increments of the outputs' chain() calls, output k with adjoint
      a[k]. */
  function EltGrads(s: seq<real>, a: seq<real>): nat -> seq<real>
  {
    (k: nat) => if k < |a| then EltContribs(s, k, a[k]) else []
  }

  /** After the chain() calls of outputs 0 .. count-1, input m has received
      a_m (if m < count) less s_m times the sum of those outputs' adjoints. */
  lemma {:induction false} EltGradsAccumulated(s: seq<real>, a: seq<real>, count: nat, m: nat)
    requires |a| == |s| && count <= |a| && m < |s|
    ensures Accumulated(count, EltGrads(s, a), m) == (if m < count then a[m] else 0.0) - s[m] * Sum(a[..count])
  {
    if count > 0 {
      var c := count - 1;
      EltGradsAccumulated(s, a, c, m);
      assert a[..count][..c] == a[..c];
      assert Sum(a[..count]) == Sum(a[..c]) + a[c];
      assert Component(EltGrads(s, a)(c), m) == EltContribs(s, c, a[c])[m];
    }
  }

  /** The adjoints of the outputs, before any of them has run. */
  function OutputIds(outputs: seq<LogSoftmaxEltVari>): (r: seq<nat>)
    ensures |r| == |outputs| && forall k :: 0 <= k < |outputs| ==> r[k] == outputs[k].id
  {
    seq(|outputs|, k requires 0 <= k < |outputs| => outputs[k].id)
  }

  /** order is a permutation of 0 .. n-1. */
  predicate IsPermutation(order: seq<nat>, n: nat)
  {
    |order| == n && Distinct(order) && AllBelow(order, n) && forall k :: 0 <= k < n ==> k in order
  }

  /** The outputs of one log_softmax call: output k has idx k, and all share
      the same input varis and softmax values. */
  ghost predicate Siblings(t: Tape, outputs: seq<LogSoftmaxEltVari>, alpha: array<nat>, softmax: array<real>)
    reads t, alpha, set k | 0 <= k < |outputs| :: outputs[k]
  {
    forall k :: 0 <= k < |outputs| ==>
      outputs[k].alpha == alpha && outputs[k].softmax == softmax && outputs[k].size == |outputs|
      && outputs[k].idx == k && outputs[k].OnTape(t)
  }

  /** The adjoints after the outputs in done have run: position m of the
      inputs has been sent its share from each of them, a vari named at
      several positions receiving every one of those shares, and nothing
      else has moved. */
  ghost predicate Progress(adj0: seq<real>, adj: seq<real>, alpha: seq<nat>, g: nat -> seq<real>, done: set<nat>)
  {
    AllBelow(alpha, |adj0|) && adj == Scatter(adj0, alpha, MaskedSums(|alpha|, done, g))
  }

  /** Running one more output, one not yet run, keeps the account. */
  lemma {:induction false} ProgressStep(adj0: seq<real>, before: seq<real>, alpha: seq<nat>, s: seq<real>, a: seq<real>,
                     done: set<nat>, k: nat)
    requires |s| == |a| == |alpha| && k < |alpha| && k !in done
    requires Progress(adj0, before, alpha, EltGrads(s, a), done)
    ensures AllBelow(alpha, |before|)
    ensures Progress(adj0, Scatter(before, alpha, EltContribs(s, k, a[k])), alpha, EltGrads(s, a), done + {k})
  {
    var n := |alpha|;
    var g := EltGrads(s, a);
    var c := EltContribs(s, k, a[k]);
    var x := MaskedSums(n, done, g);
    ScatterAdd(adj0, alpha, x, c);
    forall m | 0 <= m < n ensures MaskedSums(n, done + {k}, g)[m] == Add(x, c)[m] {
      MaskedSumInsert(n, done, k, g, m);
      assert Component(g(k), m) == c[m];
    }
    assert MaskedSums(n, done + {k}, g) == Add(x, c);
  }

  /** Once every output has run, the adjoints are those the callback
      produces. */
  lemma {:induction false} ProgressDone(adj0: seq<real>, adj: seq<real>, alpha: seq<nat>, s: seq<real>, a: seq<real>, done: set<nat>)
    requires |s| == |a| == |alpha|
    requires forall k :: 0 <= k < |alpha| ==> k in done
    requires Progress(adj0, adj, alpha, EltGrads(s, a), done)
    ensures adj == Scatter(adj0, alpha, CallbackContribs(a, s))
  {
    var sums := MaskedSums(|alpha|, done, EltGrads(s, a));
    forall m | 0 <= m < |alpha| ensures sums[m] == CallbackContribs(a, s)[m] {
      ProgressFullInput(s, a, done, m);
      CallbackEntry(s, a, m);
      var x, y := s[m], Sum(a);
      assert x * y == y * x;
    }
    assert sums == CallbackContribs(a, s);
  }

  /** With every output run, in whatever order, position m has been sent
      a_m - s_m (sum of a). */
  lemma {:induction false} ProgressFullInput(s: seq<real>, a: seq<real>, done: set<nat>, m: nat)
    requires |s| == |a| && m < |a|
    requires forall k :: 0 <= k < |a| ==> k in done
    ensures MaskedSum(|a|, done, EltGrads(s, a), m) == a[m] - s[m] * Sum(a)
  {
    MaskedSumFull(|a|, done, EltGrads(s, a), m);
    EltGradsAllRun(s, a, m);
  }

  /** All outputs run: input m has received a_m - s_m (sum of a). */
  lemma {:induction false} EltGradsAllRun(s: seq<real>, a: seq<real>, m: nat)
    requires |a| == |s| && m < |s|
    ensures Accumulated(|a|, EltGrads(s, a), m) == a[m] - s[m] * Sum(a)
  {
    EltGradsAccumulated(s, a, |a|, m);
    assert a[..|a|] == a;
  }

  /** The callback adds a_m - s_m (sum of a) to input m. */
  lemma {:induction false} CallbackAt(adj0: seq<real>, alpha: seq<nat>, s: seq<real>, a: seq<real>, m: nat)
    requires |s| == |a| == |alpha| && Distinct(alpha) && AllBelow(alpha, |adj0|) && m < |alpha|
    ensures Scatter(adj0, alpha, CallbackContribs(a, s))[alpha[m]] == adj0[alpha[m]] + (a[m] - Sum(a) * s[m])
  {
    ScatterDistinct(adj0, alpha, CallbackContribs(a, s), m);
    CallbackEntry(s, a, m);
  }

  lemma {:induction false} CallbackEntry(s: seq<real>, a: seq<real>, m: nat)
    requires |s| == |a| && m < |a|
    ensures CallbackContribs(a, s)[m] == a[m] - Sum(a) * s[m]
  {
    var r := CallbackContribs(a, s);
    assert r[m] == a[m] - Sum(a) * s[m];
  }

  /** Chaining every output, in any order, adds exactly what the callback
      of the newer form adds: a_m - s_m (sum of a) to the vari at position
      m, where a holds the outputs' adjoints; a vari at several positions
      receives the sum of their shares. */
  method ChainAll(t: Tape, outputs: seq<LogSoftmaxEltVari>, alpha: array<nat>, softmax: array<real>, order: seq<nat>)
    requires Siblings(t, outputs, alpha, softmax) && |outputs| > 0
    requires alpha.Length == softmax.Length == |outputs| && t.Valid()
    requires AllBelow(alpha[..], t.Size()) && AllBelow(OutputIds(outputs), t.Size())
    requires IsPermutation(order, |outputs|)
    modifies t.adj
    ensures t.adj[..] == Scatter(old(t.adj[..]), alpha[..],
      CallbackContribs(Gather(old(t.adj[..]), OutputIds(outputs)), softmax[..]))
  {
    var n := |outputs|;
    forall k | 0 <= k < n ensures outputs[k].id !in alpha[..] {
      assert outputs[k].OnTape(t);
    }
    ghost var adj0 := t.adj[..];
    ghost var a := Gather(adj0, OutputIds(outputs));
    ghost var s := softmax[..];
    ghost var g := EltGrads(s, a);
    ghost var done: set<nat> := {};
    forall m | 0 <= m < n ensures MaskedSums(n, done, g)[m] == 0.0 {
      MaskedSumEmpty(n, g, m);
    }
    ScatterZero(adj0, alpha[..], MaskedSums(n, done, g));
    for j := 0 to n
      invariant forall i :: i in done <==> i in order[..j]
      invariant Progress(adj0, t.adj[..], alpha[..], g, done)
    {
      var k := order[j];
      var out := outputs[k];
      assert out.OnTape(t);
      ghost var before := t.adj[..];
      ScatterUntouched(adj0, alpha[..], MaskedSums(n, done, g), out.id);
      assert before[out.id] == a[k];
      out.Chain(t);
      assert k !in done;
      ProgressStep(adj0, before, alpha[..], s, a, done, k);
      done := done + {k};
      PrefixGrows(order, j);
    }
    assert order[..n] == order;
    ProgressDone(adj0, t.adj[..], alpha[..], s, a, done);
  }

  /** One more step of a run order adds its index to those run. */
  lemma {:induction false} PrefixGrows(order: seq<nat>, j: nat)
    requires j < |order|
    ensures forall i :: i in order[..j + 1] <==> i in order[..j] || i == order[j]
  {
    assert order[..j + 1] == order[..j] + [order[j]];
  }

  /** A parent named at every position gains the sum of all
      contributions. */
  lemma {:induction false} GainedByOnlyParent(parents: seq<nat>, contribs: seq<real>, u: nat)
    requires |parents| == |contribs| && forall k :: 0 <= k < |parents| ==> parents[k] == u
    ensures Gained(parents, contribs, u) == Sum(contribs)
    decreases |parents|
  {
    if |parents| > 0 {
      var n := |parents| - 1;
      GainedByOnlyParent(parents[..n], contribs[..n], u);
    }
  }

  /** log_softmax of one vari repeated, such as log_softmax([x, x]), is
      constant in x: whatever the outputs' adjoints, the callback leaves
      x's adjoint where it was. */
  lemma {:induction false} RepeatedInputGainsNothing(adj0: seq<real>, alpha: seq<nat>, s: seq<real>, a: seq<real>, u: nat)
    requires |s| == |a| == |alpha| && Sum(s) == 1.0 && u < |adj0|
    requires forall k :: 0 <= k < |alpha| ==> alpha[k] == u
    ensures Scatter(adj0, alpha, CallbackContribs(a, s))[u] == adj0[u]
  {
    ScatterAt(adj0, alpha, CallbackContribs(a, s), u);
    GainedByOnlyParent(alpha, CallbackContribs(a, s), u);
    CallbackContribsTotal(a, s);
  }

  // ---------------------------------------------------------------------
  // Building the outputs of the older form

  /** log_softmax of a var vector: check_nonzero_size, copy the input varis,
      normalise the exps, and build output k at stack position firstId + k
      with idx k, sharing the two arrays. exps holds exp(alpha - max alpha)
      and logValues the output values. */
  method LogSoftmaxOutputs(t: Tape, firstId: nat, alpha: seq<nat>, exps: seq<real>, logValues: seq<real>)
    returns (r: Result<seq<LogSoftmaxEltVari>>)
    requires |exps| == |alpha| == |logValues| && forall k :: 0 <= k < |exps| ==> exps[k] > 0.0
    ensures r.Ok? <==> |alpha| > 0
    ensures r.Err? ==> r.error == ZeroSize
    ensures r.Ok? ==> |r.value| == |alpha| && Sum(exps) > 0.0
    ensures r.Ok? ==> forall k :: 0 <= k < |alpha| ==>
      fresh(r.value[k]) && r.value[k].id == firstId + k && r.value[k].idx == k
      && r.value[k].value == logValues[k] && r.value[k].size == |alpha|
      && r.value[k].alpha == r.value[0].alpha && r.value[k].softmax == r.value[0].softmax
    ensures r.Ok? ==> (fresh(r.value[0].alpha) && fresh(r.value[0].softmax)
      && r.value[0].alpha[..] == alpha && r.value[0].softmax[..] == Normalise(exps))
  {
    var check := CheckNonzeroSize(|alpha|);
    if check.Err? {
      return Err(check.error);
    }
    var n := |alpha|;
    PositiveSum(exps);
    var varis := new nat[n](k requires 0 <= k < n => alpha[k]);
    var total := Sum(exps);
    var softmax := new real[n](k requires 0 <= k < n => exps[k] / total);
    assert varis[..] == alpha;
    assert softmax[..] == Normalise(exps);
    var outputs: seq<LogSoftmaxEltVari> := [];
    for k := 0 to n
      invariant |outputs| == k
      invariant varis[..] == alpha && softmax[..] == Normalise(exps)
      invariant forall k' :: 0 <= k' < k ==>
        fresh(outputs[k']) && outputs[k'].id == firstId + k' && outputs[k'].idx == k'
        && outputs[k'].value == logValues[k'] && outputs[k'].size == n
        && outputs[k'].alpha == varis && outputs[k'].softmax == softmax
    {
      var node := new LogSoftmaxEltVari(firstId + k, logValues[k], varis, softmax, n, k);
      outputs := outputs + [node];
    }
    return Ok(outputs);
  }

  /** The outputs built above satisfy everything ChainAll asks of them,
      once the inputs sit below firstId. */
  lemma {:induction false} OutputsAreSiblings(t: Tape, firstId: nat, alpha: seq<nat>, outputs: seq<LogSoftmaxEltVari>)
    requires t.Valid() && |outputs| > 0 && firstId + |outputs| <= t.Size() && AllBelow(alpha, firstId)
    requires outputs[0].softmax != t.adj && outputs[0].alpha[..] == alpha && |alpha| == |outputs|
    requires outputs[0].softmax.Length == |alpha|
    requires forall k :: 0 <= k < |outputs| ==>
      outputs[k].id == firstId + k && outputs[k].idx == k && outputs[k].size == |alpha|
      && outputs[k].alpha == outputs[0].alpha && outputs[k].softmax == outputs[0].softmax
    ensures Siblings(t, outputs, outputs[0].alpha, outputs[0].softmax)
  {
    forall k | 0 <= k < |outputs| ensures outputs[k].OnTape(t) {
      AllBelowWeaken(alpha, firstId, firstId + k);
    }
  }

  /** The std::vector-of-vectors overload: an empty outer container throws,
      and every element gets its own log_softmax, its outputs numbered on
      from those of the element before. */
  method LogSoftmaxEach(t: Tape, firstId: nat, alphas: seq<seq<nat>>, exps: seq<seq<real>>, logValues: seq<seq<real>>)
    returns (r: Result<seq<seq<LogSoftmaxEltVari>>>)
    requires |exps| == |alphas| == |logValues|
    requires forall i :: 0 <= i < |alphas| ==> |exps[i]| == |alphas[i]| == |logValues[i]|
    requires forall i, k :: 0 <= i < |exps| && 0 <= k < |exps[i]| ==> exps[i][k] > 0.0
    ensures r.Ok? <==> |alphas| > 0 && forall i :: 0 <= i < |alphas| ==> |alphas[i]| > 0
    ensures r.Err? ==> r.error == ZeroSize
    ensures r.Ok? ==> |r.value| == |alphas| && forall i :: 0 <= i < |alphas| ==>
      |r.value[i]| == |alphas[i]| && r.value[i][0].alpha[..] == alphas[i]
      && Sum(exps[i]) > 0.0 && r.value[i][0].softmax[..] == Normalise(exps[i])
      && forall k :: 0 <= k < |alphas[i]| ==>
        r.value[i][k].idx == k && r.value[i][k].value == logValues[i][k]
        && r.value[i][k].alpha == r.value[i][0].alpha && r.value[i][k].softmax == r.value[i][0].softmax
  {
    var check := CheckNonzeroSize(|alphas|);
    if check.Err? {
      return Err(check.error);
    }
    var result: seq<seq<LogSoftmaxEltVari>> := [];
    var next: nat := firstId;
    for i := 0 to |alphas|
      invariant |result| == i
      invariant forall i' :: 0 <= i' < i ==> |alphas[i']| > 0
      invariant forall i' :: 0 <= i' < i ==>
        |result[i']| == |alphas[i']| && result[i'][0].alpha[..] == alphas[i']
        && Sum(exps[i']) > 0.0 && result[i'][0].softmax[..] == Normalise(exps[i'])
        && forall k :: 0 <= k < |alphas[i']| ==>
          result[i'][k].idx == k && result[i'][k].value == logValues[i'][k]
          && result[i'][k].alpha == result[i'][0].alpha && result[i'][k].softmax == result[i'][0].softmax
    {
      var one := LogSoftmaxOutputs(t, next, alphas[i], exps[i], logValues[i]);
      if one.Err? {
        return Err(one.error);
      }
      result := result + [one.value];
      next := next + |alphas[i]|;
    }
    return Ok(result);
  }
}
