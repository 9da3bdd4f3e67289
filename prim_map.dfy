/** map: ApplyFunction()(i, args...) written at every index of the result.
    The function object stands here as an index function with the
    arguments bound; the message stream is never used. */
module PrimMap {
  import opened Partitions
  import opened PrimParallelMap

  /** The loop over a blocked_range of the result's indices is the same as
      the 1-D loop form of parallel_map: whatever ranges the grain size
      yields, every index holds the functor's value, written once. */
  method Map(result: array<real>, ranges: seq<Range>, apply: nat -> real) returns (ghost writes: seq<nat>)
    requires IsPartition(ranges, result.Length)
    modifies result
    ensures result[..] == Tabulate(result.Length, apply)
    ensures |writes| == result.Length && forall i :: 0 <= i < result.Length ==> writes[i] == 1
  {
    writes := ParallelMap(result, ranges, apply);
  }
}
