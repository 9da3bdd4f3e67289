/** Reverse-mode map_variadic: like the 1-D parallel_map, but with one set of
    deep copies for every index, one nested stack, and one partials array
    shared by all outputs. */
module RevMapVariadic {
  import opened Partitions
  import opened Tapes
  import opened SaveAdjoints
  import opened RevParallelMap
  import opened Accumulation

  /** Entry k of the chains of the nodes on a nested stack, each with
      adjoint 1: the sum of their partials for copy k. */
  function StackSum(stack: seq<nat>, grads: nat -> seq<real>, k: nat): real
  {
    if stack == [] then 0.0 else Component(grads(stack[0]), k) + StackSum(stack[1..], grads, k)
  }

  /** Entry k of the copies' adjoints once the indices of order have run, in
      that order, on the one nested stack: each grad() chains every node on
      the stack, the earlier indices' nodes included. */
  function Retained(order: seq<nat>, grads: nat -> seq<real>, k: nat): real
  {
    if order == [] then 0.0 else Retained(order[..|order| - 1], grads, k) + StackSum(order, grads, k)
  }

  /** The first n entries of those adjoints. */
  function RetainedGrads(order: seq<nat>, grads: nat -> seq<real>, n: nat): (r: seq<real>)
    ensures |r| == n && forall k :: 0 <= k < n ==> r[k] == Retained(order, grads, k)
  {
    seq(n, k requires 0 <= k < n => Retained(order, grads, k))
  }

  /** The same adjoints counted per index: the index run t-th out of m is
      chained m - t times, once by its own grad() and once by every later
      one. */
  function Weighted(order: seq<nat>, grads: nat -> seq<real>, k: nat): real
  {
    if order == [] then 0.0 else (|order| as real) * Component(grads(order[0]), k) + Weighted(order[1..], grads, k)
  }

  lemma {:induction false} WeightedSnoc(order: seq<nat>, i: nat, grads: nat -> seq<real>, k: nat)
    ensures Weighted(order + [i], grads, k) == Weighted(order, grads, k) + StackSum(order + [i], grads, k)
  {
    if order == [] {
      assert ([] + [i])[1..] == [];
    } else {
      var rest := order[1..];
      assert (order + [i])[0] == order[0];
      assert (order + [i])[1..] == rest + [i];
      WeightedSnoc(rest, i, grads, k);
    }
  }

  /** Each index's partials reach the copies once for every grad() from its
      own on. */
  lemma {:induction false} RetainedIsWeighted(order: seq<nat>, grads: nat -> seq<real>, k: nat)
    ensures Retained(order, grads, k) == Weighted(order, grads, k)
  {
    if order != [] {
      var front := order[..|order| - 1];
      RetainedIsWeighted(front, grads, k);
      assert front + [order[|order| - 1]] == order;
      WeightedSnoc(front, order[|order| - 1], grads, k);
    }
  }

  /** The indices begin .. end-1 in increasing order. */
  function Indices(begin: nat, end: nat): (r: seq<nat>)
    ensures |r| == if begin <= end then end - begin else 0
    ensures forall t :: 0 <= t < |r| ==> r[t] == begin + t
    decreases end
  {
    if end <= begin then [] else Indices(begin, end - 1) + [end - 1]
  }

  /** The order in which a sequential parallel_for over ranges runs the
      indices: range after range, each range in increasing order. */
  function RunOrder(ranges: seq<Range>): seq<nat>
  {
    if ranges == [] then [] else RunOrder(ranges[..|ranges| - 1]) + Indices(ranges[|ranges| - 1].begin, ranges[|ranges| - 1].end)
  }

  lemma {:induction false} RunOrderBelow(ranges: seq<Range>, n: nat)
    requires forall k :: 0 <= k < |ranges| ==> ranges[k].end <= n
    ensures forall t :: 0 <= t < |RunOrder(ranges)| ==> RunOrder(ranges)[t] < n
  {
    if ranges != [] {
      RunOrderBelow(ranges[..|ranges| - 1], n);
    }
  }

  /** chain() of one node on the nested stack whose adjoint is 1: every
      copy k gains the node's partial g[k]. */
  method Propagate(nested: array<real>, g: seq<real>)
    requires |g| == nested.Length
    modifies nested
    ensures forall k :: 0 <= k < nested.Length ==> nested[k] == old(nested[k]) + g[k]
  {
    for k := 0 to nested.Length
      invariant forall k' :: 0 <= k' < k ==> nested[k'] == old(nested[k']) + g[k']
      invariant forall k' :: k <= k' < nested.Length ==> nested[k'] == old(nested[k'])
    {
      nested[k] := nested[k] + g[k];
    }
  }

  /** sub_v.grad() in the shared nested session: the new output's adjoint is
      set to 1, then every node on the nested stack is chained, newest first.
      Nothing resets the adjoints of the nodes earlier indices left there,
      so each of them sends its partials to the copies once more. */
  method Grad(nested: array<real>, stack: seq<nat>, app: nat -> NestedResult)
    requires forall t :: 0 <= t < |stack| ==> |app(stack[t]).grads| == nested.Length
    modifies nested
    ensures forall k :: 0 <= k < nested.Length ==> nested[k] == old(nested[k]) + StackSum(stack, GradsAt(app), k)
  {
    var t := |stack|;
    while t > 0
      invariant 0 <= t <= |stack|
      invariant forall k :: 0 <= k < nested.Length ==> nested[k] == old(nested[k]) + StackSum(stack[t..], GradsAt(app), k)
    {
      t := t - 1;
      Propagate(nested, app(stack[t]).grads);
      assert stack[t..][1..] == stack[t + 1..];
    }
  }

  /** recursive_applier::operator(): for every index of the range, run the
      function on the shared copies, which leaves its node on the nested
      stack, call grad() and store the value. */
  method ApplyRange(values: array<real>, nested: array<real>, S: nat, r: Range,
                    app: nat -> NestedResult, stack: seq<nat>)
    returns (stack': seq<nat>)
    requires values != nested && values.Length == S && r.begin <= r.end <= S
    requires forall i :: 0 <= i < S ==> |app(i).grads| == nested.Length
    requires forall t :: 0 <= t < |stack| ==> stack[t] < S
    requires forall k :: 0 <= k < nested.Length ==> nested[k] == Retained(stack, GradsAt(app), k)
    modifies values, nested
    ensures stack' == stack + Indices(r.begin, r.end)
    ensures forall i :: r.begin <= i < r.end ==> values[i] == app(i).value
    ensures forall i :: 0 <= i < S && !r.Contains(i) ==> values[i] == old(values[i])
    ensures forall k :: 0 <= k < nested.Length ==> nested[k] == Retained(stack', GradsAt(app), k)
  {
    stack' := stack;
    for i := r.begin to r.end
      invariant stack' == stack + Indices(r.begin, i)
      invariant forall i' :: r.begin <= i' < i ==> values[i'] == app(i').value
      invariant forall i' :: 0 <= i' < S && !(r.begin <= i' < i) ==> values[i'] == old(values[i'])
      invariant forall k :: 0 <= k < nested.Length ==> nested[k] == Retained(stack', GradsAt(app), k)
    {
      ghost var before := stack';
      stack' := stack' + [i];
      IndicesGrow(stack, before, r.begin, i, S);
      RetainedSnoc(before, i, GradsAt(app));
      Grad(nested, stack', app);
      values[i] := app(i).value;
    }
  }

  /** Running index i next extends the run order by i, which stays below S. */
  lemma {:induction false} IndicesGrow(stack: seq<nat>, before: seq<nat>, b: nat, i: nat, S: nat)
    requires before == stack + Indices(b, i) && b <= i < S
    requires forall t :: 0 <= t < |stack| ==> stack[t] < S
    ensures before + [i] == stack + Indices(b, i + 1)
    ensures forall t :: 0 <= t < |before + [i]| ==> (before + [i])[t] < S
  {
    assert Indices(b, i + 1) == Indices(b, i) + [i];
  }

  /** One more grad() adds the chains of the whole stack. */
  lemma {:induction false} RetainedSnoc(order: seq<nat>, i: nat, grads: nat -> seq<real>)
    ensures forall k :: Retained(order + [i], grads, k) == Retained(order, grads, k) + StackSum(order + [i], grads, k)
  {
    assert (order + [i])[..|order + [i]| - 1] == order;
  }

  /** tbb::parallel_for over a partition of [0, S) with the worker above,
      the ranges run one after another in the partition's order. */
  method ApplyAll(values: array<real>, nested: array<real>, S: nat, ranges: seq<Range>, app: nat -> NestedResult)
    requires values != nested && values.Length == S
    requires IsPartition(ranges, S)
    requires forall i :: 0 <= i < S ==> |app(i).grads| == nested.Length
    requires forall k :: 0 <= k < nested.Length ==> nested[k] == 0.0
    modifies values, nested
    ensures values[..] == ValuesOf(S, app)
    ensures nested[..] == RetainedGrads(RunOrder(ranges), GradsAt(app), nested.Length)
  {
    var stack: seq<nat> := [];
    for t := 0 to |ranges|
      invariant stack == RunOrder(ranges[..t])
      invariant forall i :: 0 <= i < S && Covers(ranges[..t], i) ==> values[i] == app(i).value
      invariant forall k :: 0 <= k < nested.Length ==> nested[k] == Retained(stack, GradsAt(app), k)
    {
      var r := ranges[t];
      RunOrderBelow(ranges[..t], S);
      stack := ApplyRange(values, nested, S, r, app, stack);
      assert ranges[..t + 1][..t] == ranges[..t];
      forall i | 0 <= i < S && Covers(ranges[..t + 1], i) ensures values[i] == app(i).value {
        CoversExtend(ranges, t, i);
      }
    }
    assert ranges[..|ranges|] == ranges;
  }

  /** map_variadic_impl::operator() for var results. The vars of all the
      arguments are counted and saved once; the single nested session runs
      every index on the same deep copies; the copies' adjoints are saved
      once, after the loop, so they hold every index's partials as often as
      grad() was called from that index's run on; and every output is a node
      over all the vars with that one partials array. */
  method MapVariadic(result: array<PrecomputedNode>, ranges: seq<Range>, args: seq<Arg>, app: nat -> NestedResult)
    returns (varis: array<nat>, values: array<real>, partials: array<real>)
    requires IsPartition(ranges, result.Length)
    requires forall i :: 0 <= i < result.Length ==> |app(i).grads| == |LeavesOf(args)|
    modifies result
    ensures fresh(varis) && fresh(values) && fresh(partials)
    ensures varis[..] == LeavesOf(args)
    ensures values[..] == ValuesOf(result.Length, app)
    ensures partials[..] == RetainedGrads(RunOrder(ranges), GradsAt(app), |LeavesOf(args)|)
    ensures forall i :: 0 <= i < result.Length ==>
      result[i] == PrecomputedNode(app(i).value, |LeavesOf(args)|, varis, partials, 0)
  {
    var S := result.Length;
    var n := |LeavesOf(args)|;
    varis := new nat[n];
    partials := new real[n];
    values := new real[S];
    SaveVaris(varis, 0, args);
    var copies := DeepCopyAll(args, 0);
    DeepCopyAllLeaves(args, 0);
    var nested := new real[n](k => 0.0);
    ApplyAll(values, nested, S, ranges, app);
    var _ := SaveAdjoints.SaveAdjoints(partials, 0, nested, copies);
    assert partials[..] == nested[..] by {
      forall k | 0 <= k < n ensures partials[k] == nested[k] {
        assert LeavesOf(copies)[k] == k;
      }
    }
    PackShared(result, values, varis, partials, n);
  }

  /** The packing loop: every output gets the same parents and partials. */
  method PackShared(result: array<PrecomputedNode>, values: array<real>, varis: array<nat>, partials: array<real>, n: nat)
    requires values.Length == result.Length
    modifies result
    ensures forall i :: 0 <= i < result.Length ==> result[i] == PrecomputedNode(values[i], n, varis, partials, 0)
  {
    for i := 0 to result.Length
      invariant forall i' :: 0 <= i' < i ==> result[i'] == PrecomputedNode(values[i'], n, varis, partials, 0)
    {
      result[i] := PrecomputedNode(values[i], n, varis, partials, 0);
    }
  }

  /** f_i = 2 x_i at two outputs: each run leaves one node whose partials
      are 2 for its own var and 0 for the other. */
  function Doubles(): nat -> NestedResult
  {
    i => if i == 0 then NestedResult(0.0, [2.0, 0.0]) else NestedResult(0.0, [0.0, 2.0])
  }

  /** Run in the order 0, 1, the second grad() chains output 0's node again,
      so the one partials array that both outputs get is (4, 2): output 0
      sends adjoint to x_1, on which it does not depend, and twice its own
      gradient to x_0. */
  lemma {:induction false} SharedPartialsAsWritten()
    ensures IsPartition([Range(0, 1), Range(1, 2)], 2)
    ensures RetainedGrads(RunOrder([Range(0, 1), Range(1, 2)]), GradsAt(Doubles()), 2) == [4.0, 2.0]
    ensures Doubles()(0).grads == [2.0, 0.0]
  {
    SinglesPartition(Range(0, 1), Range(1, 2));
    RunOrderOfTwo(Range(0, 1), Range(1, 2));
    DoublesOfTwo(0, 1);
  }

  /** The same two outputs when the scheduler runs the range of index 1
      first: the partials become (2, 4), so they depend on which range ran
      first. */
  lemma {:induction false} ScheduleDependsAsWritten()
    ensures IsPartition([Range(1, 2), Range(0, 1)], 2)
    ensures RetainedGrads(RunOrder([Range(1, 2), Range(0, 1)]), GradsAt(Doubles()), 2) == [2.0, 4.0]
  {
    SinglesPartition(Range(1, 2), Range(0, 1));
    RunOrderOfTwo(Range(1, 2), Range(0, 1));
    DoublesOfTwo(1, 0);
  }

  /** For f_i = 2 x_i, the index run first gets 4 and the other 2. */
  lemma {:induction false} DoublesOfTwo(a: nat, b: nat)
    requires (a == 0 && b == 1) || (a == 1 && b == 0)
    ensures RetainedGrads([a, b], GradsAt(Doubles()), 2) == if a == 0 then [4.0, 2.0] else [2.0, 4.0]
  {
    var g := GradsAt(Doubles());
    assert g(0) == [2.0, 0.0] && g(1) == [0.0, 2.0];
    TwoOfTwo(a, b, g);
  }

  /** Both entries of the adjoints after running a then b. */
  lemma {:induction false} TwoOfTwo(a: nat, b: nat, g: nat -> seq<real>)
    ensures RetainedGrads([a, b], g, 2)
      == [2.0 * Component(g(a), 0) + Component(g(b), 0), 2.0 * Component(g(a), 1) + Component(g(b), 1)]
  {
    RetainedOfTwo(a, b, g, 0);
    RetainedOfTwo(a, b, g, 1);
  }

  /** The two single-index ranges of [0, 2), in either order, partition it. */
  lemma {:induction false} SinglesPartition(first: Range, second: Range)
    requires first.end == first.begin + 1 && second.end == second.begin + 1
    requires (first.begin == 0 && second.begin == 1) || (first.begin == 1 && second.begin == 0)
    ensures IsPartition([first, second], 2)
  {
    var ranges := [first, second];
    assert Covers(ranges, first.begin) by { assert ranges[0].Contains(first.begin); }
    assert Covers(ranges, second.begin) by { assert ranges[1].Contains(second.begin); }
  }

  /** Two single-index ranges run their indices in the ranges' order. */
  lemma {:induction false} RunOrderOfTwo(first: Range, second: Range)
    requires first.end == first.begin + 1 && second.end == second.begin + 1
    ensures RunOrder([first, second]) == [first.begin, second.begin]
  {
    var ranges := [first, second];
    assert ranges[..1] == [first];
    assert [first][..0] == [];
    assert RunOrder([first]) == [first.begin] by {
      assert RunOrder([first]) == RunOrder([]) + Indices(first.begin, first.end);
    }
  }

  /** Running a then b: a's partials reach the copies twice, b's once. */
  lemma {:induction false} RetainedOfTwo(a: nat, b: nat, g: nat -> seq<real>, k: nat)
    ensures Retained([a, b], g, k) == 2.0 * Component(g(a), k) + Component(g(b), k)
  {
    RetainedIsWeighted([a, b], g, k);
    assert [a, b][1..] == [b];
    assert [b][1..] == [];
    assert Weighted([b], g, k) == 1.0 * Component(g(b), k) + Weighted([], g, k);
  }
}
