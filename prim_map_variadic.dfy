/** The arithmetic map_variadic. A worker holds the result, the message
    stream (stored, never read) and the arguments, and on each range writes
    ReduceFunction()(i, args...) at the range's indices. */
module PrimMapVariadic {
  import opened Partitions
  import opened PrimParallelMap

  /** map_variadic_impl: the worker's loop over the ranges of
      [0, result.size()), then the worker's result is returned. */
  method MapVariadicImpl(result: array<real>, ranges: seq<Range>, reduce: nat -> real) returns (r: array<real>)
    requires IsPartition(ranges, result.Length)
    modifies result
    ensures r == result && result[..] == Tabulate(result.Length, reduce)
  {
    var _ := ParallelMap(result, ranges, reduce);
    r := result;
  }

  /** map_variadic. The output type is deduced from the argument, and only
      an lvalue compiles: the worker then holds a reference to the caller's
      vector, which is filled in place, and the vector the impl returns is
      that same one, discarded. */
  method MapVariadic(result: array<real>, ranges: seq<Range>, reduce: nat -> real)
    requires IsPartition(ranges, result.Length)
    modifies result
    ensures result[..] == Tabulate(result.Length, reduce)
  {
    var _ := MapVariadicImpl(result, ranges, reduce);
  }
}
