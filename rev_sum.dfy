/** Reverse-mode sum: one sum_v_vari whose chain() passes its adjoint on to
    every summand unchanged. */
module RevSum {
  import opened Sums
  import opened Tapes

  /** sum_v_vari: the node at stack position id, holding its value and a
      copy of its parents' positions. */
  class SumVari {
    const id: nat
    const value: real
    const v: array<nat>
    const length: nat

    /** The node sits on the tape after all of its parents. */
    ghost predicate OnTape(t: Tape)
      reads this, v, t
    {
      t.Valid() && id < t.Size() && v.Length == length && AllBelow(v[..], id)
    }

    /** The constructor copies the parent pointers, in order, into an array
        of length size() and takes the sum of their values. */
    constructor(t: Tape, id: nat, parents: seq<nat>)
      requires t.Valid() && AllBelow(parents, t.Size())
      ensures this.id == id && length == |parents| && v[..] == parents && fresh(v)
      ensures value == Sum(Gather(t.val[..], parents))
    {
      this.id := id;
      length := |parents|;
      v := new nat[|parents|](k requires 0 <= k < |parents| => parents[k]);
      value := Sum(Gather(t.val[..], parents));
    }

    /** chain(): every parent's adjoint grows by this node's adjoint. */
    method Chain(t: Tape)
      requires OnTape(t)
      modifies t.adj
      ensures t.adj[..] == Scatter(old(t.adj[..]), v[..], Fill(length, old(t.adj[id])))
    {
      AllBelowWeaken(v[..], id, t.adj.Length);
      var a := t.adj[id];
      ghost var parents := v[..];
      ghost var contribs := Fill(length, a);
      for k := 0 to length
        invariant t.adj[..] == Scatter(old(t.adj[..]), parents[..k], contribs[..k])
      {
        ScatterStep(old(t.adj[..]), parents, contribs, k);
        t.adj[v[k]] := t.adj[v[k]] + a;
      }
      assert parents[..length] == parents && contribs[..length] == contribs;
    }
  }

  /** sum of a container of vars: an empty one gives the constant 0 and no
      node; otherwise one sum_v_vari over all the coefficients. */
  method SumVar(t: Tape, id: nat, parents: seq<nat>) returns (r: Output<SumVari>)
    requires t.Valid() && AllBelow(parents, t.Size())
    ensures r.Constant? <==> |parents| == 0
    ensures r.Constant? ==> r.value == 0.0
    ensures r.Built? ==> (fresh(r.node) && fresh(r.node.v) && r.node.id == id
      && r.node.v[..] == parents && r.node.length == |parents|
      && r.node.value == Sum(Gather(t.val[..], parents)))
  {
    if |parents| == 0 {
      return Constant(0.0);
    }
    var node := new SumVari(t, id, parents);
    return Built(node);
  }

  /** What one chain() of a sum node does to the adjoints: a vari that is
      not a summand keeps its adjoint ... */
  lemma {:induction false} SumChainOthers(adj: seq<real>, parents: seq<nat>, a: real, u: nat)
    requires AllBelow(parents, |adj|) && u < |adj| && u !in parents
    ensures Scatter(adj, parents, Fill(|parents|, a))[u] == adj[u]
  {
    ScatterUntouched(adj, parents, Fill(|parents|, a), u);
  }

  /** ... the adjoints grow in total by the number of summands times a ... */
  lemma {:induction false} SumChainTotal(adj: seq<real>, parents: seq<nat>, a: real, length: nat)
    requires AllBelow(parents, |adj|) && length == |parents|
    ensures Sum(Scatter(adj, parents, Fill(length, a))) == Sum(adj) + length as real * a
  {
    ScatterTotal(adj, parents, Fill(length, a));
    SumFill(length, a);
  }

  /** ... and a summand named once grows by exactly a. */
  lemma {:induction false} SumChainParent(adj: seq<real>, parents: seq<nat>, a: real, k: nat)
    requires AllBelow(parents, |adj|) && Distinct(parents) && k < |parents|
    ensures Scatter(adj, parents, Fill(|parents|, a))[parents[k]] == adj[parents[k]] + a
  {
    ScatterDistinct(adj, parents, Fill(|parents|, a), k);
  }

  /** The rate chain() uses is the true one: moving one summand by h moves
      the sum by exactly h, so every partial derivative is 1. */
  lemma {:induction false} SumSensitivity(x: seq<real>, k: nat, h: real)
    requires k < |x|
    ensures Sum(x[k := x[k] + h]) == Sum(x) + 1.0 * h
  {
    SumUpdate(x, k, x[k] + h);
  }
}
