/** The forward-mode parallel_map: a plain sequential loop over the
    result's indices (the grain sizes are accepted and not used). The index
    function stands for index_fun(i, app_fun, x...) with the functor and
    arguments bound. */
module FwdParallelMap {
  import opened Duals
  import opened Matrices

  /** The indices 0, 1, ..., n - 1 in increasing order. */
  function Indices(n: nat): (r: seq<nat>)
    ensures |r| == n && forall i :: 0 <= i < n ==> r[i] == i
  {
    seq(n, i requires 0 <= i => i)
  }

  /** The cells of an R x C grid in column-major order: column 0 from top to
      bottom, then column 1, and so on. */
  function ColumnMajor(R: nat, C: nat): (r: seq<(nat, nat)>)
    ensures |r| == R * C
  {
    if C == 0 then [] else ColumnMajor(R, C - 1) + seq(R, i requires 0 <= i => (i, C - 1))
  }

  /** Position i + R*j of the column-major order is cell (i, j). */
  lemma {:induction false} ColumnMajorAt(R: nat, C: nat, i: nat, j: nat)
    requires i < R && j < C
    ensures i + R * j < R * C && ColumnMajor(R, C)[i + R * j] == (i, j)
    decreases C
  {
    LinearIndexBound(i, j, R, C);
    if j < C - 1 {
      ColumnMajorAt(R, C - 1, i, j);
    } else {
      assert R * j == R * (C - 1);
    }
  }

  /** Every listed cell lies in the grid. */
  lemma {:induction false} ColumnMajorInGrid(R: nat, C: nat)
    ensures forall p :: 0 <= p < R * C ==> ColumnMajor(R, C)[p].0 < R && ColumnMajor(R, C)[p].1 < C
    decreases C
  {
    if C > 0 {
      ColumnMajorInGrid(R, C - 1);
      var front := ColumnMajor(R, C - 1);
      var last := seq(R, i requires 0 <= i => (i, C - 1));
      assert ColumnMajor(R, C) == front + last;
      forall p | 0 <= p < R * C ensures ColumnMajor(R, C)[p].0 < R && ColumnMajor(R, C)[p].1 < C {
        if p >= |front| {
          assert ColumnMajor(R, C)[p] == last[p - |front|];
        }
      }
    }
  }

  /** The column-major order lists every cell exactly once. */
  lemma {:induction false} ColumnMajorOnce(R: nat, C: nat)
    ensures forall a, b :: 0 <= a < b < R * C ==> ColumnMajor(R, C)[a] != ColumnMajor(R, C)[b]
    ensures forall i, j :: 0 <= i < R && 0 <= j < C ==> (i, j) in ColumnMajor(R, C)
    decreases C
  {
    var order := ColumnMajor(R, C);
    if C > 0 {
      ColumnMajorOnce(R, C - 1);
      ColumnMajorInGrid(R, C - 1);
      var front := ColumnMajor(R, C - 1);
      var last := seq(R, i requires 0 <= i => (i, C - 1));
      assert order == front + last;
      forall a, b | 0 <= a < b < R * C ensures order[a] != order[b] {
        if b >= |front| && a >= |front| {
          assert order[a] == last[a - |front|] && order[b] == last[b - |front|];
        } else if b >= |front| {
          assert order[a] == front[a] && front[a].1 < C - 1;
          assert order[b] == last[b - |front|];
        } else {
          assert order[a] == front[a] && order[b] == front[b];
        }
      }
    }
    forall i, j | 0 <= i < R && 0 <= j < C ensures (i, j) in order {
      ColumnMajorAt(R, C, i, j);
    }
  }

  /** The 1-D loop: result(i) = index_fun(i, ...) for i = 0 .. size - 1.
      The ghost order records the index of every write. */
  method ParallelMap(result: array<Dual>, f: nat -> Dual) returns (ghost order: seq<nat>)
    modifies result
    ensures forall i :: 0 <= i < result.Length ==> result[i] == f(i)
    ensures order == Indices(result.Length)
  {
    order := [];
    for i := 0 to result.Length
      invariant forall l :: 0 <= l < i ==> result[l] == f(l)
      invariant order == Indices(i)
    {
      result[i] := f(i);
      order := order + [i];
    }
  }

  /** The 2-D loop, columns outer and rows inner:
      result(i, j) = index_fun(i, j, ...). The ghost order records the cell
      of every write. */
  method ParallelMapGrid(result: array2<Dual>, f: (nat, nat) -> Dual) returns (ghost order: seq<(nat, nat)>)
    modifies result
    ensures forall i, j :: 0 <= i < result.Length0 && 0 <= j < result.Length1 ==> result[i, j] == f(i, j)
    ensures order == ColumnMajor(result.Length0, result.Length1)
  {
    var R, C := result.Length0, result.Length1;
    order := [];
    for j := 0 to C
      invariant forall i', j' :: 0 <= i' < R && 0 <= j' < j ==> result[i', j'] == f(i', j')
      invariant order == ColumnMajor(R, j)
    {
      for i := 0 to R
        invariant forall i', j' :: 0 <= i' < R && 0 <= j' < j ==> result[i', j'] == f(i', j')
        invariant forall i' :: 0 <= i' < i ==> result[i', j] == f(i', j)
        invariant order == ColumnMajor(R, j) + seq(i, k requires 0 <= k => (k, j))
      {
        result[i, j] := f(i, j);
        order := order + [(i, j)];
      }
    }
  }
}
