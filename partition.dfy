/** The index ranges a TBB parallel_for hands to its body. Threads are not
    modelled: a parallel_for becomes a sequential loop over the pieces of an
    arbitrary partition of the index space, in an arbitrary order, so every
    property proved over all partitions holds whatever the scheduler does. */
module Partitions {

  /** TBB's blocked_range: the half-open interval [begin, end). */
  datatype Range = Range(begin: nat, end: nat)
  {
    predicate Contains(i: nat) { begin <= i < end }

    function Size(): nat { if begin <= end then end - begin else 0 }
  }

  /** No index lies in both ranges. */
  predicate Disjoint(a: Range, b: Range)
  {
    a.end <= b.begin || b.end <= a.begin || a.end <= a.begin || b.end <= b.begin
  }

  /** Some range of the list holds index i. */
  ghost predicate Covers(ranges: seq<Range>, i: nat)
  {
    exists k :: 0 <= k < |ranges| && ranges[k].Contains(i)
  }

  /** The ranges lie inside [0, n), do not overlap and together hold every
      index of [0, n). */
  ghost predicate IsPartition(ranges: seq<Range>, n: nat)
  {
    (forall k :: 0 <= k < |ranges| ==> ranges[k].begin <= ranges[k].end <= n) &&
    (forall a, b :: 0 <= a < |ranges| && 0 <= b < |ranges| && a != b ==> Disjoint(ranges[a], ranges[b])) &&
    (forall i :: 0 <= i < n ==> Covers(ranges, i))
  }

  lemma {:induction false} CoversExtend(ranges: seq<Range>, t: nat, i: nat)
    requires t < |ranges|
    ensures Covers(ranges[..t + 1], i) <==> Covers(ranges[..t], i) || ranges[t].Contains(i)
  {
    if Covers(ranges[..t + 1], i) {
      var k :| 0 <= k < t + 1 && ranges[..t + 1][k].Contains(i);
      if k < t {
        assert ranges[..t][k].Contains(i);
      }
    }
    if Covers(ranges[..t], i) {
      var k :| 0 <= k < t && ranges[..t][k].Contains(i);
      assert ranges[..t + 1][k].Contains(i);
    }
    if ranges[t].Contains(i) {
      assert ranges[..t + 1][t].Contains(i);
    }
  }

  /** An index of range t is not held by any earlier range of a partition. */
  lemma {:induction false} NotCoveredBefore(ranges: seq<Range>, n: nat, t: nat, i: nat)
    requires IsPartition(ranges, n) && t < |ranges| && ranges[t].Contains(i)
    ensures !Covers(ranges[..t], i)
  {
    forall k | 0 <= k < t ensures !ranges[..t][k].Contains(i) {
      assert Disjoint(ranges[k], ranges[t]);
    }
  }

  /** Ranges laid end to end from begin to end, in order. */
  ghost predicate Contiguous(ranges: seq<Range>, begin: nat, end: nat)
  {
    |ranges| > 0 && ranges[0].begin == begin && ranges[|ranges| - 1].end == end &&
    (forall k :: 0 <= k < |ranges| ==> ranges[k].begin <= ranges[k].end) &&
    (forall k :: 0 <= k < |ranges| - 1 ==> ranges[k].end == ranges[k + 1].begin)
  }

  lemma {:induction false} ContiguousOrdered(ranges: seq<Range>, begin: nat, end: nat, a: nat, b: nat)
    requires Contiguous(ranges, begin, end) && a < b < |ranges|
    ensures ranges[a].end <= ranges[b].begin
    decreases b - a
  {
    if a + 1 < b {
      ContiguousOrdered(ranges, begin, end, a + 1, b);
    }
  }

  lemma {:induction false} ContiguousBounds(ranges: seq<Range>, begin: nat, end: nat, k: nat)
    requires Contiguous(ranges, begin, end) && k < |ranges|
    ensures begin <= ranges[k].begin && ranges[k].end <= end
  {
    if k > 0 {
      ContiguousOrdered(ranges, begin, end, 0, k);
    }
    if k < |ranges| - 1 {
      ContiguousOrdered(ranges, begin, end, k, |ranges| - 1);
    }
  }

  lemma {:induction false} ContiguousCovers(ranges: seq<Range>, begin: nat, end: nat, i: nat)
    requires Contiguous(ranges, begin, end) && begin <= i < end
    ensures Covers(ranges, i)
    decreases |ranges|
  {
    var n := |ranges| - 1;
    if ranges[n].Contains(i) {
    } else if n == 0 {
    } else {
      var front := ranges[..n];
      assert Contiguous(front, begin, ranges[n].begin);
      ContiguousCovers(front, begin, ranges[n].begin, i);
      var k :| 0 <= k < n && front[k].Contains(i);
      assert ranges[k].Contains(i);
    }
  }

  /** Ranges laid end to end over [0, n) form a partition of it. */
  lemma {:induction false} ContiguousIsPartition(ranges: seq<Range>, n: nat)
    requires Contiguous(ranges, 0, n)
    ensures IsPartition(ranges, n)
  {
    forall k | 0 <= k < |ranges| ensures ranges[k].begin <= ranges[k].end <= n {
      ContiguousBounds(ranges, 0, n, k);
    }
    forall a, b | 0 <= a < |ranges| && 0 <= b < |ranges| && a != b
      ensures Disjoint(ranges[a], ranges[b])
    {
      if a < b {
        ContiguousOrdered(ranges, 0, n, a, b);
      } else {
        ContiguousOrdered(ranges, 0, n, b, a);
      }
    }
    forall i | 0 <= i < n ensures Covers(ranges, i) {
      ContiguousCovers(ranges, 0, n, i);
    }
  }

  /** How TBB's auto partitioner divides a blocked_range with a grain size:
      a range is halved at begin + size/2 while its size exceeds the grain. */
  function Split(r: Range, grain: nat): (pieces: seq<Range>)
    requires r.begin <= r.end && grain >= 1
    ensures Contiguous(pieces, r.begin, r.end)
    ensures forall k :: 0 <= k < |pieces| ==> pieces[k].Size() <= grain
    decreases r.end - r.begin
  {
    if r.end - r.begin <= grain then [r]
    else
      var mid := r.begin + (r.end - r.begin) / 2;
      var left := Split(Range(r.begin, mid), grain);
      var right := Split(Range(mid, r.end), grain);
      ConcatContiguous(left, right, r.begin, mid, r.end);
      ConcatWithinGrain(left, right, grain);
      left + right
  }

  lemma {:induction false} ConcatWithinGrain(left: seq<Range>, right: seq<Range>, grain: nat)
    requires forall k :: 0 <= k < |left| ==> left[k].Size() <= grain
    requires forall k :: 0 <= k < |right| ==> right[k].Size() <= grain
    ensures forall k :: 0 <= k < |left + right| ==> (left + right)[k].Size() <= grain
  {
    forall k | 0 <= k < |left + right| ensures (left + right)[k].Size() <= grain {
      if k >= |left| {
        assert (left + right)[k] == right[k - |left|];
      }
    }
  }

  lemma {:induction false} ConcatContiguous(left: seq<Range>, right: seq<Range>, begin: nat, mid: nat, end: nat)
    requires Contiguous(left, begin, mid) && Contiguous(right, mid, end)
    ensures Contiguous(left + right, begin, end)
  {
    var all := left + right;
    forall k | 0 <= k < |all| - 1 ensures all[k].end == all[k + 1].begin {
      if k < |left| - 1 {
      } else if k == |left| - 1 {
      } else {
        assert all[k] == right[k - |left|];
      }
    }
  }

  /** Every grain size gives a partition of [0, n). */
  lemma {:induction false} SplitIsPartition(n: nat, grain: nat)
    requires grain >= 1
    ensures IsPartition(Split(Range(0, n), grain), n)
  {
    ContiguousIsPartition(Split(Range(0, n), grain), n);
  }

  /** TBB's blocked_range2d: a rectangle of rows x columns. */
  datatype Block = Block(rows: Range, cols: Range)
  {
    predicate Contains(i: nat, j: nat) { rows.Contains(i) && cols.Contains(j) }
  }

  /** No cell lies in both blocks. */
  predicate BlocksDisjoint(a: Block, b: Block)
  {
    Disjoint(a.rows, b.rows) || Disjoint(a.cols, b.cols)
  }

  ghost predicate CoversCell(blocks: seq<Block>, i: nat, j: nat)
  {
    exists k :: 0 <= k < |blocks| && blocks[k].Contains(i, j)
  }

  /** The blocks lie inside the R x C grid, do not overlap and together hold
      every cell. */
  ghost predicate IsGridPartition(blocks: seq<Block>, R: nat, C: nat)
  {
    (forall k :: 0 <= k < |blocks| ==>
      blocks[k].rows.begin <= blocks[k].rows.end <= R && blocks[k].cols.begin <= blocks[k].cols.end <= C) &&
    (forall a, b :: 0 <= a < |blocks| && 0 <= b < |blocks| && a != b ==> BlocksDisjoint(blocks[a], blocks[b])) &&
    (forall i, j :: 0 <= i < R && 0 <= j < C ==> CoversCell(blocks, i, j))
  }

  lemma {:induction false} CoversCellExtend(blocks: seq<Block>, t: nat, i: nat, j: nat)
    requires t < |blocks|
    ensures CoversCell(blocks[..t + 1], i, j) <==> CoversCell(blocks[..t], i, j) || blocks[t].Contains(i, j)
  {
    if CoversCell(blocks[..t + 1], i, j) {
      var k :| 0 <= k < t + 1 && blocks[..t + 1][k].Contains(i, j);
      if k < t {
        assert blocks[..t][k].Contains(i, j);
      }
    }
    if CoversCell(blocks[..t], i, j) {
      var k :| 0 <= k < t && blocks[..t][k].Contains(i, j);
      assert blocks[..t + 1][k].Contains(i, j);
    }
    if blocks[t].Contains(i, j) {
      assert blocks[..t + 1][t].Contains(i, j);
    }
  }

  lemma {:induction false} CellNotCoveredBefore(blocks: seq<Block>, R: nat, C: nat, t: nat, i: nat, j: nat)
    requires IsGridPartition(blocks, R, C) && t < |blocks| && blocks[t].Contains(i, j)
    ensures !CoversCell(blocks[..t], i, j)
  {
    forall k | 0 <= k < t ensures !blocks[..t][k].Contains(i, j) {
      assert BlocksDisjoint(blocks[k], blocks[t]);
    }
  }
}
