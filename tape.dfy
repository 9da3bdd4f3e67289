/** The reverse-mode tape, reduced to what the chain() rules touch: every
    vari has a value val_ and an adjoint adj_, here two arrays indexed by
    the vari's position on the stack. Arena allocation, the stack itself and
    grad() are not modelled. */
module Tapes {
  import opened Sums

  /** The val_ and adj_ fields of every vari on the stack. */
  class Tape {
    const val: array<real>
    const adj: array<real>

    ghost predicate Valid()
      reads this
    {
      val.Length == adj.Length && val != adj
    }

    /** A stack holding the given values with every adjoint zero, as after
        set_zero_all_adjoints(). */
    constructor(values: seq<real>)
      ensures Valid() && val[..] == values
      ensures forall v :: 0 <= v < adj.Length ==> adj[v] == 0.0
      ensures fresh(val) && fresh(adj)
    {
      val := new real[|values|](v requires 0 <= v < |values| => values[v]);
      adj := new real[|values|](v => 0.0);
    }

    function Size(): nat
      reads this
    {
      val.Length
    }
  }

  /** Every entry names a vari below n. */
  predicate AllBelow(ids: seq<nat>, n: nat)
  {
    forall k :: 0 <= k < |ids| ==> ids[k] < n
  }

  lemma {:induction false} AllBelowAppend(a: seq<nat>, b: seq<nat>, n: nat)
    ensures AllBelow(a + b, n) <==> AllBelow(a, n) && AllBelow(b, n)
  {
    if AllBelow(a + b, n) {
      forall k | 0 <= k < |a| ensures a[k] < n {
        assert a[k] == (a + b)[k];
      }
      forall k | 0 <= k < |b| ensures b[k] < n {
        assert b[k] == (a + b)[|a| + k];
      }
    }
    if AllBelow(a, n) && AllBelow(b, n) {
      forall k | 0 <= k < |a + b| ensures (a + b)[k] < n {
        if k >= |a| {
          assert (a + b)[k] == b[k - |a|];
        }
      }
    }
  }

  /** Below a smaller bound is below a larger one. */
  lemma {:induction false} AllBelowWeaken(ids: seq<nat>, m: nat, n: nat)
    requires AllBelow(ids, m) && m <= n
    ensures AllBelow(ids, n)
  {
  }

  /** The values of the named varis, in order. */
  function Gather(val: seq<real>, ids: seq<nat>): (r: seq<real>)
    requires AllBelow(ids, |val|)
    ensures |r| == |ids| && forall k :: 0 <= k < |ids| ==> r[k] == val[ids[k]]
  {
    seq(|ids|, k requires 0 <= k < |ids| => val[ids[k]])
  }

  /** What an operation returns: a constant that needs no node on the tape,
      or a freshly built node. */
  datatype Output<N> = Constant(value: real) | Built(node: N)

  /** No vari is named twice. */
  predicate Distinct(ids: seq<nat>)
  {
    forall a, b :: 0 <= a < |ids| && 0 <= b < |ids| && a != b ==> ids[a] != ids[b]
  }

  /** The adjoints after adding contribs[k] to the adjoint of parents[k],
      for k = 0, 1, ... in turn; a parent named twice receives both. */
  function Scatter(adj: seq<real>, parents: seq<nat>, contribs: seq<real>): (r: seq<real>)
    requires |parents| == |contribs| && AllBelow(parents, |adj|)
    ensures |r| == |adj|
    decreases |parents|
  {
    if |parents| == 0 then adj
    else
      var n := |parents| - 1;
      var before := Scatter(adj, parents[..n], contribs[..n]);
      before[parents[n] := before[parents[n]] + contribs[n]]
  }

  /** A vari that is not a parent keeps its adjoint. */
  lemma {:induction false} ScatterUntouched(adj: seq<real>, parents: seq<nat>, contribs: seq<real>, v: nat)
    requires |parents| == |contribs| && AllBelow(parents, |adj|)
    requires v < |adj| && forall k :: 0 <= k < |parents| ==> parents[k] != v
    ensures Scatter(adj, parents, contribs)[v] == adj[v]
    decreases |parents|
  {
    if |parents| > 0 {
      var n := |parents| - 1;
      ScatterUntouched(adj, parents[..n], contribs[..n], v);
    }
  }

  /** With distinct parents, parent k receives exactly contribs[k]. */
  lemma {:induction false} ScatterDistinct(adj: seq<real>, parents: seq<nat>, contribs: seq<real>, k: nat)
    requires |parents| == |contribs| && AllBelow(parents, |adj|) && Distinct(parents)
    requires k < |parents|
    ensures Scatter(adj, parents, contribs)[parents[k]] == adj[parents[k]] + contribs[k]
    decreases |parents|
  {
    var n := |parents| - 1;
    if k < n {
      ScatterDistinct(adj, parents[..n], contribs[..n], k);
    } else {
      ScatterUntouched(adj, parents[..n], contribs[..n], parents[n]);
    }
  }

  /** The adjoints grow in total by exactly the sum of the contributions. */
  lemma {:induction false} ScatterTotal(adj: seq<real>, parents: seq<nat>, contribs: seq<real>)
    requires |parents| == |contribs| && AllBelow(parents, |adj|)
    ensures Sum(Scatter(adj, parents, contribs)) == Sum(adj) + Sum(contribs)
    decreases |parents|
  {
    if |parents| > 0 {
      var n := |parents| - 1;
      var before := Scatter(adj, parents[..n], contribs[..n]);
      ScatterTotal(adj, parents[..n], contribs[..n]);
      SumUpdate(before, parents[n], before[parents[n]] + contribs[n]);
    }
  }

  /** One more step of a Scatter loop. */
  lemma {:induction false} ScatterStep(adj: seq<real>, parents: seq<nat>, contribs: seq<real>, k: nat)
    requires |parents| == |contribs| && AllBelow(parents, |adj|) && k < |parents|
    ensures Scatter(adj, parents[..k + 1], contribs[..k + 1]) ==
      Scatter(adj, parents[..k], contribs[..k])[parents[k] :=
        Scatter(adj, parents[..k], contribs[..k])[parents[k]] + contribs[k]]
  {
    var p := parents[..k + 1];
    var c := contribs[..k + 1];
    assert p[..k] == parents[..k];
    assert c[..k] == contribs[..k];
    ScatterUnfold(adj, p, c);
  }

  lemma {:induction false} ScatterUnfold(adj: seq<real>, p: seq<nat>, c: seq<real>)
    requires |p| == |c| > 0 && AllBelow(p, |adj|)
    ensures Scatter(adj, p, c) == Scatter(adj, p[..|p| - 1], c[..|p| - 1])[p[|p| - 1] :=
      Scatter(adj, p[..|p| - 1], c[..|p| - 1])[p[|p| - 1]] + c[|p| - 1]]
  {
  }

  /** What a vari u receives in all: the contributions of every position
      that names it as a parent. */
  function Gained(parents: seq<nat>, contribs: seq<real>, u: nat): real
    requires |parents| == |contribs|
    decreases |parents|
  {
    if |parents| == 0 then 0.0
    else
      var n := |parents| - 1;
      Gained(parents[..n], contribs[..n], u) + (if parents[n] == u then contribs[n] else 0.0)
  }

  /** Every vari's adjoint grows by what it gains, a parent named twice
      included. */
  lemma {:induction false} ScatterAt(adj: seq<real>, parents: seq<nat>, contribs: seq<real>, u: nat)
    requires |parents| == |contribs| && AllBelow(parents, |adj|) && u < |adj|
    ensures Scatter(adj, parents, contribs)[u] == adj[u] + Gained(parents, contribs, u)
    decreases |parents|
  {
    if |parents| > 0 {
      var n := |parents| - 1;
      ScatterAt(adj, parents[..n], contribs[..n], u);
    }
  }

  /** Gains add up position by position. */
  lemma {:induction false} GainedAdd(parents: seq<nat>, x: seq<real>, c: seq<real>, u: nat)
    requires |parents| == |x| == |c|
    ensures Gained(parents, Add(x, c), u) == Gained(parents, x, u) + Gained(parents, c, u)
    decreases |parents|
  {
    if |parents| > 0 {
      var n := |parents| - 1;
      assert Add(x, c)[..n] == Add(x[..n], c[..n]);
      GainedAdd(parents[..n], x[..n], c[..n], u);
    }
  }

  /** Scattering x and then c over the same parents scatters x + c, whether
      or not a parent is named twice. */
  lemma {:induction false} ScatterAdd(adj: seq<real>, parents: seq<nat>, x: seq<real>, c: seq<real>)
    requires |parents| == |x| == |c| && AllBelow(parents, |adj|)
    ensures Scatter(Scatter(adj, parents, x), parents, c) == Scatter(adj, parents, Add(x, c))
  {
    var once := Scatter(adj, parents, x);
    forall u | 0 <= u < |adj|
      ensures Scatter(once, parents, c)[u] == Scatter(adj, parents, Add(x, c))[u]
    {
      ScatterAt(adj, parents, x, u);
      ScatterAt(once, parents, c, u);
      ScatterAt(adj, parents, Add(x, c), u);
      GainedAdd(parents, x, c, u);
    }
  }

  /** Zero contributions change nothing. */
  lemma {:induction false} ScatterZero(adj: seq<real>, parents: seq<nat>, contribs: seq<real>)
    requires |parents| == |contribs| && AllBelow(parents, |adj|)
    requires forall k :: 0 <= k < |contribs| ==> contribs[k] == 0.0
    ensures Scatter(adj, parents, contribs) == adj
    decreases |parents|
  {
    if |parents| > 0 {
      var n := |parents| - 1;
      ScatterZero(adj, parents[..n], contribs[..n]);
    }
  }

  /** A node whose partial derivatives were computed ahead of time, as
      precomputed_gradients_vari: it holds size parents and size partials,
      starting at position offset of two arrays that several nodes may
      share. */
  datatype PrecomputedNode = PrecomputedNode(
    value: real, size: nat, varis: array<nat>, partials: array<real>, offset: nat)
  {
    ghost predicate Valid()
      reads varis, partials
    {
      offset + size <= varis.Length && offset + size <= partials.Length
    }

    /** The parents this node's chain() updates. */
    ghost function Parents(): seq<nat>
      reads varis
      requires offset + size <= varis.Length
    {
      varis[offset..offset + size]
    }

    /** The partial derivatives paired with them. */
    ghost function Partials(): seq<real>
      reads partials
      requires offset + size <= partials.Length
    {
      partials[offset..offset + size]
    }
  }

  /** The chain() rule of a precomputed-gradient node sitting at position id:
      parent k's adjoint grows by adj_ times partial k. */
  method PropagatePrecomputed(t: Tape, node: PrecomputedNode, id: nat)
    requires t.Valid() && node.Valid() && id < t.adj.Length
    requires node.partials != t.adj
    requires AllBelow(node.Parents(), t.adj.Length)
    requires id !in node.Parents()
    modifies t.adj
    ensures t.adj[..] == Scatter(old(t.adj[..]), node.Parents(), Scale(old(t.adj[id]), node.Partials()))
  {
    var a := t.adj[id];
    ghost var parents := node.Parents();
    ghost var contribs := Scale(a, node.Partials());
    for k := 0 to node.size
      invariant t.adj[..] == Scatter(old(t.adj[..]), parents[..k], contribs[..k])
    {
      ScatterStep(old(t.adj[..]), parents, contribs, k);
      var p := node.varis[node.offset + k];
      assert p == parents[k];
      assert contribs[k] == a * node.partials[node.offset + k];
      t.adj[p] := t.adj[p] + a * node.partials[node.offset + k];
    }
    assert parents[..node.size] == parents;
    assert contribs[..node.size] == contribs;
  }
}
