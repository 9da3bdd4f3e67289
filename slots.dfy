/** Fixed-width slots in a flat arena array: slot i of width n occupies
    [i*n, (i+1)*n), the layout an Eigen Map with inner stride n gives. */
module Slots {

  /** Where slot i of width n starts: n entries past where slot i-1
      starts (OffsetIsProduct: i*n). */
  function Offset(i: nat, n: nat): nat
  {
    if i == 0 then 0 else Offset(i - 1, n) + n
  }

  lemma {:induction false} OffsetIsProduct(i: nat, n: nat)
    ensures Offset(i, n) == i * n
  {
    if i > 0 {
      OffsetIsProduct(i - 1, n);
    }
  }

  lemma {:induction false} OffsetMonotone(i: nat, j: nat, n: nat)
    requires i <= j
    ensures Offset(i, n) <= Offset(j, n)
  {
    if i < j {
      OffsetMonotone(i, j - 1, n);
    }
  }

  /** Slot i of width n lies inside a. */
  predicate HasSlot<T>(a: seq<T>, i: nat, n: nat)
  {
    Offset(i + 1, n) <= |a|
  }

  /** Slot i of width n. */
  function Slot<T>(a: seq<T>, i: nat, n: nat): (s: seq<T>)
    requires HasSlot(a, i, n)
    ensures |s| == n
  {
    a[Offset(i, n)..Offset(i + 1, n)]
  }

  /** f(0) + f(1) + ... + f(count-1), laid end to end. */
  function Concat<T>(count: nat, f: nat -> seq<T>): seq<T>
  {
    if count == 0 then [] else Concat(count - 1, f) + f(count - 1)
  }

  /** Slot i of the first S slots lies inside an array of S slots. */
  lemma {:induction false} SlotInBounds(i: nat, S: nat, n: nat)
    requires i < S
    ensures Offset(i + 1, n) <= Offset(S, n)
  {
    OffsetMonotone(i + 1, S, n);
  }

  /** Slots of distinct indices do not overlap: an earlier slot ends where
      or before a later one starts. */
  lemma {:induction false} SlotsOrdered(i: nat, j: nat, n: nat)
    requires i < j
    ensures Offset(i + 1, n) <= Offset(j, n)
  {
    OffsetMonotone(i + 1, j, n);
  }

  lemma {:induction false} MultiplyMonotone(a: nat, b: nat, n: nat)
    requires a <= b
    ensures a * n <= b * n
  {
    assert b * n == a * n + (b - a) * n;
  }

  /** Entry k of an array of S slots lies at position r of some slot i. */
  lemma {:induction false} SlotOf(k: nat, S: nat, n: nat) returns (i: nat, r: nat)
    requires k < Offset(S, n)
    ensures i < S && r < n && k == Offset(i, n) + r
  {
    if k < Offset(S - 1, n) {
      i, r := SlotOf(k, S - 1, n);
    } else {
      i, r := S - 1, k - Offset(S - 1, n);
    }
  }

  /** Concatenating count sequences of length n fills count slots, with
      sequence i in slot i. */
  lemma {:induction false} ConcatSlots<T>(count: nat, n: nat, f: nat -> seq<T>)
    requires forall i :: 0 <= i < count ==> |f(i)| == n
    ensures |Concat(count, f)| == Offset(count, n)
    ensures forall i: nat :: i < count ==> HasSlot(Concat(count, f), i, n) && Slot(Concat(count, f), i, n) == f(i)
  {
    ConcatLength(count, n, f);
    forall i: nat | i < count
      ensures HasSlot(Concat(count, f), i, n) && Slot(Concat(count, f), i, n) == f(i)
    {
      ConcatSlot(count, n, f, i);
    }
  }

  lemma {:induction false} ConcatLength<T>(count: nat, n: nat, f: nat -> seq<T>)
    requires forall i :: 0 <= i < count ==> |f(i)| == n
    ensures |Concat(count, f)| == Offset(count, n)
  {
    if count > 0 {
      ConcatLength(count - 1, n, f);
    }
  }

  /** Sequence i sits in slot i of the concatenation. */
  lemma {:induction false} ConcatSlot<T>(count: nat, n: nat, f: nat -> seq<T>, i: nat)
    requires forall k :: 0 <= k < count ==> |f(k)| == n
    requires i < count
    ensures HasSlot(Concat(count, f), i, n) && Slot(Concat(count, f), i, n) == f(i)
  {
    var m := count - 1;
    var front := Concat(m, f);
    var all := Concat(count, f);
    assert all == front + f(m);
    ConcatLength(m, n, f);
    ConcatLength(count, n, f);
    SlotInBounds(i, count, n);
    if i < m {
      ConcatSlot(m, n, f, i);
      SlotInBounds(i, m, n);
      SliceOfConcat(front, f(m), Offset(i, n), Offset(i + 1, n));
    } else {
      assert Offset(i, n) == |front|;
      assert all[|front|..|all|] == f(m);
    }
  }

  /** A slice inside the first part of a concatenation. */
  lemma {:induction false} SliceOfConcat<T>(a: seq<T>, b: seq<T>, lo: nat, hi: nat)
    requires lo <= hi <= |a|
    ensures (a + b)[lo..hi] == a[lo..hi]
  {
  }

  /** An array of S slots is fixed by its slots. */
  lemma {:induction false} SlotsDetermine<T>(a: seq<T>, b: seq<T>, S: nat, n: nat)
    requires |a| == Offset(S, n) && |b| == |a|
    requires forall i: nat :: i < S ==> HasSlot(a, i, n) && Slot(a, i, n) == Slot(b, i, n)
    ensures a == b
  {
    forall k | 0 <= k < |a| ensures a[k] == b[k] {
      var i, r := SlotOf(k, S, n);
      assert Slot(a, i, n)[r] == Slot(b, i, n)[r];
    }
  }

  /** An array of S slots whose slot i is f(i) for every i is the
      concatenation of the f(i). */
  lemma {:induction false} ConcatFromSlots<T>(a: seq<T>, S: nat, n: nat, f: nat -> seq<T>)
    requires |a| == Offset(S, n)
    requires forall i :: 0 <= i < S ==> |f(i)| == n
    requires forall i :: 0 <= i < S ==> HasSlot(a, i, n) && Slot(a, i, n) == f(i)
    ensures a == Concat(S, f)
  {
    ConcatSlots(S, n, f);
    SlotsDetermine(a, Concat(S, f), S, n);
  }

  /** Writing inside slot i leaves every other slot as it was. */
  lemma {:induction false} OtherSlotsKept<T>(a: seq<T>, b: seq<T>, S: nat, n: nat, i: nat)
    requires |a| == Offset(S, n) && |b| == Offset(S, n) && i < S
    requires Offset(i + 1, n) <= Offset(S, n)
    requires b[..Offset(i, n)] == a[..Offset(i, n)] && b[Offset(i + 1, n)..] == a[Offset(i + 1, n)..]
    ensures forall j: nat :: j < S && j != i ==> HasSlot(a, j, n) && Slot(b, j, n) == Slot(a, j, n)
  {
    forall j: nat | j < S && j != i ensures HasSlot(a, j, n) && Slot(b, j, n) == Slot(a, j, n) {
      SlotInBounds(j, S, n);
      if j < i {
        SlotsOrdered(j, i, n);
      } else {
        SlotsOrdered(i, j, n);
      }
      SliceKept(a, b, Offset(j, n), Offset(j + 1, n), Offset(i, n), Offset(i + 1, n));
    }
  }

  /** A slice that misses [lo, hi) is kept when only [lo, hi) changes. */
  lemma {:induction false} SliceKept<T>(a: seq<T>, b: seq<T>, x: nat, y: nat, lo: nat, hi: nat)
    requires |a| == |b| && x <= y <= |a| && lo <= hi <= |a|
    requires y <= lo || hi <= x
    requires b[..lo] == a[..lo] && b[hi..] == a[hi..]
    ensures b[x..y] == a[x..y]
  {
    forall k | x <= k < y ensures b[k] == a[k] {
      if k < lo {
        assert b[..lo][k] == a[..lo][k];
      } else {
        assert b[hi..][k - hi] == a[hi..][k - hi];
      }
    }
  }
}
