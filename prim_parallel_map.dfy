/** The arithmetic parallel_map: an index function, standing for
    index_fun(i, app_fun, x...) with the user's functor and arguments bound,
    is evaluated at every index of the result and written into it. The
    tbb::parallel_for is a sequential loop over the pieces of an arbitrary
    partition, so what is proved holds whatever ranges the scheduler picks;
    the grain sizes only choose that partition. */
module PrimParallelMap {
  import opened Partitions
  import opened Matrices

  /** The serial answer: the index function at every index. */
  function Tabulate(n: nat, f: nat -> real): (r: seq<real>)
    ensures |r| == n && forall i :: 0 <= i < n ==> r[i] == f(i)
  {
    seq(n, i requires 0 <= i => f(i))
  }

  /** How many ranges of the list hold index i. */
  function Hits(ranges: seq<Range>, i: nat): nat
  {
    if |ranges| == 0 then 0
    else Hits(ranges[..|ranges| - 1], i) + (if ranges[|ranges| - 1].Contains(i) then 1 else 0)
  }

  /** Along a partition, the first t ranges hold an index once if they
      cover it and not at all otherwise. */
  lemma {:induction false} HitsPrefix(ranges: seq<Range>, n: nat, t: nat, i: nat)
    requires IsPartition(ranges, n) && t <= |ranges|
    ensures Hits(ranges[..t], i) == if Covers(ranges[..t], i) then 1 else 0
    decreases t
  {
    if t > 0 {
      HitsPrefix(ranges, n, t - 1, i);
      assert ranges[..t][..t - 1] == ranges[..t - 1];
      CoversExtend(ranges, t - 1, i);
      if ranges[t - 1].Contains(i) {
        NotCoveredBefore(ranges, n, t - 1, i);
      }
    } else {
      assert !Covers(ranges[..0], i);
    }
  }

  /** In a partition of [0, n) every index below n lies in exactly one
      range and no other index lies in any. */
  lemma {:induction false} HitsOnce(ranges: seq<Range>, n: nat, i: nat)
    requires IsPartition(ranges, n)
    ensures Hits(ranges, i) == if i < n then 1 else 0
  {
    HitsPrefix(ranges, n, |ranges|, i);
    assert ranges[..|ranges|] == ranges;
  }

  /** The body of the 1-D loop form: result(i) = index_fun(i, ...) for the
      indices of the range, in increasing order. The ghost hits count the
      writes to each index. */
  method WriteRange(result: array<real>, r: Range, f: nat -> real) returns (ghost hits: seq<nat>)
    requires r.begin <= r.end <= result.Length
    modifies result
    ensures forall i :: 0 <= i < result.Length ==>
      result[i] == if r.Contains(i) then f(i) else old(result[i])
    ensures |hits| == result.Length
    ensures forall i :: 0 <= i < result.Length ==> hits[i] == if r.Contains(i) then 1 else 0
  {
    hits := seq(result.Length, i => 0);
    for i := r.begin to r.end
      invariant forall l :: 0 <= l < result.Length ==>
        result[l] == if r.begin <= l < i then f(l) else old(result[l])
      invariant |hits| == result.Length
      invariant forall l :: 0 <= l < result.Length ==> hits[l] == if r.begin <= l < i then 1 else 0
    {
      result[i] := f(i);
      hits := hits[i := hits[i] + 1];
    }
  }

  /** The 1-D loop form. Whatever the partition, every index ends up holding
      the index function's value, written exactly once. */
  method ParallelMap(result: array<real>, ranges: seq<Range>, f: nat -> real) returns (ghost writes: seq<nat>)
    requires IsPartition(ranges, result.Length)
    modifies result
    ensures result[..] == Tabulate(result.Length, f)
    ensures |writes| == result.Length && forall i :: 0 <= i < result.Length ==> writes[i] == 1
  {
    var n := result.Length;
    writes := seq(n, i => 0);
    for t := 0 to |ranges|
      invariant forall i :: 0 <= i < n && Covers(ranges[..t], i) ==> result[i] == f(i)
      invariant |writes| == n && forall i :: 0 <= i < n ==> writes[i] == Hits(ranges[..t], i)
    {
      ghost var hits := WriteRange(result, ranges[t], f);
      writes := seq(n, i requires 0 <= i < n => writes[i] + hits[i]);
      forall i | 0 <= i < n && Covers(ranges[..t + 1], i) ensures result[i] == f(i) {
        CoversExtend(ranges, t, i);
      }
      assert ranges[..t + 1][..t] == ranges[..t];
    }
    assert ranges[..|ranges|] == ranges;
    forall i | 0 <= i < n ensures writes[i] == 1 {
      HitsOnce(ranges, n, i);
    }
  }

  /** The body of the 2-D loop form: columns outer, rows inner,
      result(i, j) = index_fun(i, j, ...). */
  method WriteBlock(result: array2<real>, b: Block, f: (nat, nat) -> real)
    requires b.rows.begin <= b.rows.end <= result.Length0
    requires b.cols.begin <= b.cols.end <= result.Length1
    modifies result
    ensures forall i, j :: 0 <= i < result.Length0 && 0 <= j < result.Length1 ==>
      result[i, j] == if b.Contains(i, j) then f(i, j) else old(result[i, j])
  {
    for j := b.cols.begin to b.cols.end
      invariant forall i', j' :: 0 <= i' < result.Length0 && 0 <= j' < result.Length1 ==>
        result[i', j'] == if b.rows.Contains(i') && b.cols.begin <= j' < j then f(i', j') else old(result[i', j'])
    {
      for i := b.rows.begin to b.rows.end
        invariant forall i', j' :: 0 <= i' < result.Length0 && 0 <= j' < result.Length1 ==>
          result[i', j'] ==
            if b.rows.Contains(i') && (b.cols.begin <= j' < j || (j' == j && i' < i)) then f(i', j')
            else old(result[i', j'])
      {
        result[i, j] := f(i, j);
      }
    }
  }

  /** The 2-D loop form: every cell holds the index function's value,
      whatever blocks the scheduler picks. */
  method ParallelMapGrid(result: array2<real>, blocks: seq<Block>, f: (nat, nat) -> real)
    requires IsGridPartition(blocks, result.Length0, result.Length1)
    modifies result
    ensures forall i, j :: 0 <= i < result.Length0 && 0 <= j < result.Length1 ==> result[i, j] == f(i, j)
  {
    for t := 0 to |blocks|
      invariant forall i, j ::
        0 <= i < result.Length0 && 0 <= j < result.Length1 && CoversCell(blocks[..t], i, j) ==>
          result[i, j] == f(i, j)
    {
      WriteBlock(result, blocks[t], f);
      forall i, j | 0 <= i < result.Length0 && 0 <= j < result.Length1 && CoversCell(blocks[..t + 1], i, j)
        ensures result[i, j] == f(i, j)
      {
        CoversCellExtend(blocks, t, i, j);
      }
    }
    assert blocks[..|blocks|] == blocks;
  }

  /** Each range's segment function returns as many values as the range
      holds (the size Eigen's segment assignment demands). */
  ghost predicate SegmentsFit(ranges: seq<Range>, g: (nat, nat) -> seq<real>)
  {
    forall t :: 0 <= t < |ranges| ==> |g(ranges[t].begin, ranges[t].Size())| == ranges[t].Size()
  }

  /** The value index i receives from the segment of the range that holds
      it. */
  ghost function SegmentValue(ranges: seq<Range>, g: (nat, nat) -> seq<real>, i: nat): real
    requires Covers(ranges, i) && SegmentsFit(ranges, g)
  {
    var t :| 0 <= t < |ranges| && ranges[t].Contains(i);
    g(ranges[t].begin, ranges[t].Size())[i - ranges[t].begin]
  }

  /** In a partition the range holding i is unique, so SegmentValue is the
      value written by that range. */
  lemma {:induction false} SegmentValueAt(ranges: seq<Range>, n: nat, g: (nat, nat) -> seq<real>, t: nat, i: nat)
    requires IsPartition(ranges, n) && SegmentsFit(ranges, g)
    requires t < |ranges| && ranges[t].Contains(i)
    ensures Covers(ranges, i)
    ensures SegmentValue(ranges, g, i) == g(ranges[t].begin, ranges[t].Size())[i - ranges[t].begin]
  {
    assert forall t' :: 0 <= t' < |ranges| && ranges[t'].Contains(i) ==> t' == t;
  }

  /** The ranged 1-D body: result.segment(begin, size) = index_fun(begin, size, ...). */
  method WriteSegment(result: array<real>, r: Range, segment: seq<real>)
    requires r.begin <= r.end <= result.Length && |segment| == r.Size()
    modifies result
    ensures forall i :: 0 <= i < result.Length ==>
      result[i] == if r.Contains(i) then segment[i - r.begin] else old(result[i])
  {
    forall i | r.begin <= i < r.end {
      result[i] := segment[i - r.begin];
    }
  }

  /** The ranged 1-D form: every index holds the value the segment of its
      own range gives it. */
  method ParallelMapRanged(result: array<real>, ranges: seq<Range>, g: (nat, nat) -> seq<real>)
    requires IsPartition(ranges, result.Length) && SegmentsFit(ranges, g)
    modifies result
    ensures forall i :: 0 <= i < result.Length ==> Covers(ranges, i) && result[i] == SegmentValue(ranges, g, i)
  {
    var n := result.Length;
    for t := 0 to |ranges|
      invariant forall i :: 0 <= i < n && Covers(ranges[..t], i) ==> result[i] == SegmentValue(ranges, g, i)
    {
      var r := ranges[t];
      WriteSegment(result, r, g(r.begin, r.Size()));
      forall i | 0 <= i < n && Covers(ranges[..t + 1], i) ensures result[i] == SegmentValue(ranges, g, i) {
        CoversExtend(ranges, t, i);
        if r.Contains(i) {
          SegmentValueAt(ranges, n, g, t, i);
        }
      }
    }
    assert ranges[..|ranges|] == ranges;
  }

  /** A segment function that returns, for every segment, the index
      function at the segment's indices. */
  ghost predicate SegmentsAgree(g: (nat, nat) -> seq<real>, f: nat -> real)
  {
    forall begin: nat, size: nat :: |g(begin, size)| == size &&
      forall k :: 0 <= k < size ==> g(begin, size)[k] == f(begin + k)
  }

  /** With a segment function that agrees with the index function, the
      ranged form gives the loop form's result whatever the partition. */
  lemma {:induction false} RangedAgreesWithLoop(ranges: seq<Range>, n: nat, g: (nat, nat) -> seq<real>, f: nat -> real, i: nat)
    requires IsPartition(ranges, n) && SegmentsAgree(g, f) && i < n
    ensures SegmentsFit(ranges, g) && Covers(ranges, i)
    ensures SegmentValue(ranges, g, i) == f(i)
  {
    assert Covers(ranges, i);
    var t :| 0 <= t < |ranges| && ranges[t].Contains(i);
    SegmentValueAt(ranges, n, g, t, i);
    assert g(ranges[t].begin, ranges[t].Size())[i - ranges[t].begin] == f(ranges[t].begin + (i - ranges[t].begin));
  }

  /** Each block's function returns a matrix of the block's shape. */
  ghost predicate BlocksFit(blocks: seq<Block>, g: (nat, nat, nat, nat) -> Matrix<real>)
  {
    forall t :: 0 <= t < |blocks| ==>
      var b := blocks[t];
      var m := g(b.rows.begin, b.cols.begin, b.rows.Size(), b.cols.Size());
      m.Valid() && m.rows == b.rows.Size() && m.cols == b.cols.Size()
  }

  /** The value cell (i, j) receives from the block that holds it. */
  ghost function BlockValue(blocks: seq<Block>, g: (nat, nat, nat, nat) -> Matrix<real>, i: nat, j: nat): real
    requires CoversCell(blocks, i, j) && BlocksFit(blocks, g)
  {
    var t :| 0 <= t < |blocks| && blocks[t].Contains(i, j);
    var b := blocks[t];
    g(b.rows.begin, b.cols.begin, b.rows.Size(), b.cols.Size()).At(i - b.rows.begin, j - b.cols.begin)
  }

  lemma {:induction false} BlockValueAt(blocks: seq<Block>, R: nat, C: nat, g: (nat, nat, nat, nat) -> Matrix<real>, t: nat, i: nat, j: nat)
    requires IsGridPartition(blocks, R, C) && BlocksFit(blocks, g)
    requires t < |blocks| && blocks[t].Contains(i, j)
    ensures CoversCell(blocks, i, j)
    ensures BlockValue(blocks, g, i, j) ==
      g(blocks[t].rows.begin, blocks[t].cols.begin, blocks[t].rows.Size(), blocks[t].cols.Size())
        .At(i - blocks[t].rows.begin, j - blocks[t].cols.begin)
  {
    assert forall t' :: 0 <= t' < |blocks| && blocks[t'].Contains(i, j) ==> t' == t;
  }

  /** The ranged 2-D body: result.block(r0, c0, rs, cs) = index_fun(r0, c0, rs, cs, ...). */
  method WriteBlockRanged(result: array2<real>, b: Block, m: Matrix<real>)
    requires b.rows.begin <= b.rows.end <= result.Length0
    requires b.cols.begin <= b.cols.end <= result.Length1
    requires m.Valid() && m.rows == b.rows.Size() && m.cols == b.cols.Size()
    modifies result
    ensures forall i, j :: 0 <= i < result.Length0 && 0 <= j < result.Length1 ==>
      result[i, j] == if b.Contains(i, j) then m.At(i - b.rows.begin, j - b.cols.begin) else old(result[i, j])
  {
    forall i, j | b.rows.begin <= i < b.rows.end && b.cols.begin <= j < b.cols.end {
      result[i, j] := m.At(i - b.rows.begin, j - b.cols.begin);
    }
  }

  /** The ranged 2-D form: every cell holds the value the block that holds
      it gives it. Both grain sizes are ignored: the blocks are whatever the
      default partitioner makes. */
  method ParallelMapGridRanged(result: array2<real>, blocks: seq<Block>, g: (nat, nat, nat, nat) -> Matrix<real>)
    requires IsGridPartition(blocks, result.Length0, result.Length1) && BlocksFit(blocks, g)
    modifies result
    ensures forall i, j :: 0 <= i < result.Length0 && 0 <= j < result.Length1 ==>
      CoversCell(blocks, i, j) && result[i, j] == BlockValue(blocks, g, i, j)
  {
    var R, C := result.Length0, result.Length1;
    for t := 0 to |blocks|
      invariant forall i, j :: 0 <= i < R && 0 <= j < C && CoversCell(blocks[..t], i, j) ==>
        result[i, j] == BlockValue(blocks, g, i, j)
    {
      var b := blocks[t];
      WriteBlockRanged(result, b, g(b.rows.begin, b.cols.begin, b.rows.Size(), b.cols.Size()));
      forall i, j | 0 <= i < R && 0 <= j < C && CoversCell(blocks[..t + 1], i, j)
        ensures result[i, j] == BlockValue(blocks, g, i, j)
      {
        CoversCellExtend(blocks, t, i, j);
        if b.Contains(i, j) {
          BlockValueAt(blocks, R, C, g, t, i, j);
        }
      }
    }
    assert blocks[..|blocks|] == blocks;
  }

  /** A block function whose every block holds the index function at the
      block's cells. */
  ghost predicate BlocksAgree(g: (nat, nat, nat, nat) -> Matrix<real>, f: (nat, nat) -> real)
  {
    forall r0: nat, c0: nat, rs: nat, cs: nat ::
      var m := g(r0, c0, rs, cs);
      m.Valid() && m.rows == rs && m.cols == cs &&
      forall i, j :: 0 <= i < rs && 0 <= j < cs ==> m.At(i, j) == f(r0 + i, c0 + j)
  }

  /** With an agreeing block function the ranged 2-D form gives the loop
      form's result whatever the blocks. */
  lemma {:induction false} RangedGridAgreesWithLoop(blocks: seq<Block>, R: nat, C: nat, g: (nat, nat, nat, nat) -> Matrix<real>,
                                 f: (nat, nat) -> real, i: nat, j: nat)
    requires IsGridPartition(blocks, R, C) && BlocksAgree(g, f) && i < R && j < C
    ensures BlocksFit(blocks, g) && CoversCell(blocks, i, j)
    ensures BlockValue(blocks, g, i, j) == f(i, j)
  {
    assert CoversCell(blocks, i, j);
    var t :| 0 <= t < |blocks| && blocks[t].Contains(i, j);
    BlockValueAt(blocks, R, C, g, t, i, j);
    var b := blocks[t];
    var m := g(b.rows.begin, b.cols.begin, b.rows.Size(), b.cols.Size());
    assert m.At(i - b.rows.begin, j - b.cols.begin) == f(b.rows.begin + (i - b.rows.begin), b.cols.begin + (j - b.cols.begin));
  }

  /** parallel_map without the Ranged flag: the 1-D loop form. */
  method ParallelMapDefault(result: array<real>, ranges: seq<Range>, f: nat -> real)
    requires IsPartition(ranges, result.Length)
    modifies result
    ensures result[..] == Tabulate(result.Length, f)
  {
    var _ := ParallelMap(result, ranges, f);
  }

  /** parallel_map without the Ranged flag, with two grain sizes: the 2-D
      loop form. */
  method ParallelMapGridDefault(result: array2<real>, blocks: seq<Block>, f: (nat, nat) -> real)
    requires IsGridPartition(blocks, result.Length0, result.Length1)
    modifies result
    ensures forall i, j :: 0 <= i < result.Length0 && 0 <= j < result.Length1 ==> result[i, j] == f(i, j)
  {
    ParallelMapGrid(result, blocks, f);
  }
}
