/** Reverse-mode dot_self: one dot_self_vari whose value is the squared
    norm of its parents' values and whose chain() adds adj * 2 * val_k to
    parent k. */
module RevDotSelf {
  import opened Sums
  import opened Tapes
  import opened Wrappers
  import opened Checks

  class DotSelfVari {
    const id: nat
    const value: real
    const v: array<nat>
    const size: nat

    ghost predicate OnTape(t: Tape)
      reads this, v, t
    {
      t.Valid() && id < t.Size() && v.Length == size && AllBelow(v[..], id)
    }

    /** Both constructors store exactly size() parent pointers, in order,
        and take the squared norm of their values (var_dot_self). */
    constructor(t: Tape, id: nat, parents: seq<nat>)
      requires t.Valid() && AllBelow(parents, t.Size())
      ensures this.id == id && size == |parents| && v[..] == parents && fresh(v)
      ensures value == SquaredNorm(Gather(t.val[..], parents))
    {
      this.id := id;
      size := |parents|;
      v := new nat[|parents|](k requires 0 <= k < |parents| => parents[k]);
      value := SquaredNorm(Gather(t.val[..], parents));
    }

    /** chain(): parent k's adjoint grows by adj * 2 * val_k; nothing else
        changes. */
    method Chain(t: Tape)
      requires OnTape(t)
      modifies t.adj
      ensures t.adj[..] == Scatter(old(t.adj[..]), v[..], Scale(old(t.adj[id]) * 2.0, Gather(t.val[..], v[..])))
    {
      AllBelowWeaken(v[..], id, t.adj.Length);
      var a := t.adj[id];
      ghost var parents := v[..];
      ghost var contribs := Scale(a * 2.0, Gather(t.val[..], parents));
      for k := 0 to size
        invariant t.adj[..] == Scatter(old(t.adj[..]), parents[..k], contribs[..k])
      {
        ScatterStep(old(t.adj[..]), parents, contribs, k);
        assert parents[k] == v[k] && contribs[k] == a * 2.0 * t.val[v[k]];
        t.adj[v[k]] := t.adj[v[k]] + a * 2.0 * t.val[v[k]];
      }
      assert parents[..size] == parents && contribs[..size] == contribs;
    }
  }

  /** dot_self of a var container: check_vector first, so a matrix that is
      not a vector throws before any node is built. */
  method DotSelf(t: Tape, id: nat, rowsAtCompileTime: Extent, colsAtCompileTime: Extent,
                 rows: nat, cols: nat, parents: seq<nat>) returns (r: Result<DotSelfVari>)
    requires t.Valid() && AllBelow(parents, t.Size())
    ensures r.Ok? <==> CheckVector(rowsAtCompileTime, colsAtCompileTime, rows, cols).Ok?
    ensures r.Err? ==> r.error == NotAVector(rows, cols)
    ensures r.Ok? ==> (fresh(r.value) && fresh(r.value.v) && r.value.id == id && r.value.v[..] == parents
      && r.value.value == SquaredNorm(Gather(t.val[..], parents)))
  {
    var check := CheckVector(rowsAtCompileTime, colsAtCompileTime, rows, cols);
    if check.Err? {
      return Err(check.error);
    }
    var node := new DotSelfVari(t, id, parents);
    return Ok(node);
  }

  /** The rate chain() uses is the true one: moving x_k by h moves the
      squared norm by 2 x_k h plus the second-order h^2, so the partial
      derivative in x_k is 2 x_k. */
  lemma {:induction false} DotSelfSensitivity(x: seq<real>, k: nat, h: real)
    requires k < |x|
    ensures SquaredNorm(x[k := x[k] + h]) == SquaredNorm(x) + 2.0 * x[k] * h + h * h
  {
    var y := x[k := x[k] + h];
    assert Mul(y, y) == Mul(x, x)[k := (x[k] + h) * (x[k] + h)] by {
      forall i | 0 <= i < |x| ensures Mul(y, y)[i] == Mul(x, x)[k := (x[k] + h) * (x[k] + h)][i] {
        if i != k { assert y[i] == x[i]; }
      }
    }
    SumUpdate(Mul(x, x), k, (x[k] + h) * (x[k] + h));
    assert (x[k] + h) * (x[k] + h) - x[k] * x[k] == 2.0 * x[k] * h + h * h;
  }

  /** The node's value is never negative. */
  lemma {:induction false} DotSelfValueNonNegative(t: Tape, node: DotSelfVari)
    requires t.Valid() && AllBelow(node.v[..], t.Size())
    requires node.value == SquaredNorm(Gather(t.val[..], node.v[..]))
    ensures node.value >= 0.0
  {
    SquaredNormNonNegative(Gather(t.val[..], node.v[..]));
  }
}
