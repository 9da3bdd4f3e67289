/** Sums of per-step increments, taken over any subset of the steps: a
    loop that runs the steps in an arbitrary order reaches, once every
    step has run, the same totals as the loop that runs them in index
    order. */
module Accumulation {

  /** Entry k of an increment, or 0 past its end. */
  function Component(g: seq<real>, k: nat): real
  {
    if k < |g| then g[k] else 0.0
  }

  /** Entry k of the total after steps 0 .. count-1 have each added their
      own increment grads(i). */
  function Accumulated(count: nat, grads: nat -> seq<real>, k: nat): real
  {
    if count == 0 then 0.0 else Accumulated(count - 1, grads, k) + Component(grads(count - 1), k)
  }

  /** The same sum restricted to the indices in done. */
  function MaskedSum(count: nat, done: set<nat>, grads: nat -> seq<real>, k: nat): real
  {
    if count == 0 then 0.0
    else MaskedSum(count - 1, done, grads, k) + (if count - 1 in done then Component(grads(count - 1), k) else 0.0)
  }

  /** Entries 0 .. n-1 of the sum over done. */
  function MaskedSums(n: nat, done: set<nat>, grads: nat -> seq<real>): (r: seq<real>)
    ensures |r| == n && forall k :: 0 <= k < n ==> r[k] == MaskedSum(n, done, grads, k)
  {
    seq(n, k requires 0 <= k < n => MaskedSum(n, done, grads, k))
  }

  lemma {:induction false} MaskedSumEmpty(count: nat, grads: nat -> seq<real>, k: nat)
    ensures MaskedSum(count, {}, grads, k) == 0.0
  {
    if count > 0 {
      MaskedSumEmpty(count - 1, grads, k);
    }
  }

  lemma {:induction false} MaskedSumBeyond(count: nat, done: set<nat>, i: nat, grads: nat -> seq<real>, k: nat)
    requires count <= i
    ensures MaskedSum(count, done + {i}, grads, k) == MaskedSum(count, done, grads, k)
  {
    if count > 0 {
      MaskedSumBeyond(count - 1, done, i, grads, k);
    }
  }

  /** Running one more index adds exactly its increment, whatever was run
      before. */
  lemma {:induction false} MaskedSumInsert(count: nat, done: set<nat>, i: nat, grads: nat -> seq<real>, k: nat)
    requires i < count && i !in done
    ensures MaskedSum(count, done + {i}, grads, k) == MaskedSum(count, done, grads, k) + Component(grads(i), k)
  {
    if i == count - 1 {
      MaskedSumBeyond(count - 1, done, i, grads, k);
    } else {
      MaskedSumInsert(count - 1, done, i, grads, k);
    }
  }

  /** Once every index has run, the order they ran in no longer shows. */
  lemma {:induction false} MaskedSumFull(count: nat, done: set<nat>, grads: nat -> seq<real>, k: nat)
    requires forall i :: 0 <= i < count ==> i in done
    ensures MaskedSum(count, done, grads, k) == Accumulated(count, grads, k)
  {
    if count > 0 {
      MaskedSumFull(count - 1, done, grads, k);
    }
  }
}
