/** Reverse-mode parallel_map: runs a user function once per output index,
    each run on its own nested reverse-mode stack, and packs every result
    into a precomputed-gradient node on the main stack. The nested runs
    themselves (deep copies, app_fun, grad()) are given as their results. */
module RevParallelMap {
  import opened Partitions
  import opened Tapes
  import opened SaveAdjoints
  import opened Slots
  import opened Matrices

  /** What the nested run at one index yields: out.val() and, after
      out.grad(), the adjoints of that index's deep copies in save_adjoints
      order. */
  datatype NestedResult = NestedResult(value: real, grads: seq<real>)

  /** Every index hands app_fun exactly n vars, and its nested run yields one
      adjoint per var. The count is taken at index 0 only; that the other
      indices agree is assumed by the code, never checked. */
  ghost predicate SameCount(S: nat, argsAt: nat -> seq<Arg>, app: nat -> NestedResult, n: nat)
  {
    forall i :: 0 <= i < S ==> |LeavesOf(argsAt(i))| == n && |app(i).grads| == n
  }

  /** The parents index i contributes: the vars of its arguments. */
  function LeavesAt(argsAt: nat -> seq<Arg>): nat -> seq<nat>
  {
    i => LeavesOf(argsAt(i))
  }

  /** The partials index i contributes: its nested adjoints. */
  function GradsAt(app: nat -> NestedResult): nat -> seq<real>
  {
    (i: nat) => app(i).grads
  }

  /** The values of the first S indices. */
  function ValuesOf(S: nat, app: nat -> NestedResult): (r: seq<real>)
    ensures |r| == S && forall i :: 0 <= i < S ==> r[i] == app(i).value
  {
    seq(S, i requires 0 <= i < S => app(i).value)
  }

  /** Slot s of the arena arrays holds the parents, value and partials of the
      run whose arguments were args and whose nested result was res. */
  ghost predicate Filled(varis: seq<nat>, values: seq<real>, partials: seq<real>,
                         s: nat, n: nat, args: seq<Arg>, res: NestedResult)
  {
    HasSlot(varis, s, n) && HasSlot(partials, s, n) && s < |values| &&
    Slot(varis, s, n) == LeavesOf(args) && values[s] == res.value && Slot(partials, s, n) == res.grads
  }

  /** Slot s of the arena arrays is as it was. */
  ghost predicate Kept(varis: seq<nat>, values: seq<real>, partials: seq<real>,
                       varis0: seq<nat>, values0: seq<real>, partials0: seq<real>, s: nat, n: nat)
  {
    HasSlot(varis, s, n) && |varis| == |varis0| && HasSlot(partials, s, n) && |partials| == |partials0| &&
    s < |values| == |values0| &&
    Slot(varis, s, n) == Slot(varis0, s, n) && values[s] == values0[s] &&
    Slot(partials, s, n) == Slot(partials0, s, n)
  }

  lemma {:induction false} FilledKept(varis: seq<nat>, values: seq<real>, partials: seq<real>,
                   varis0: seq<nat>, values0: seq<real>, partials0: seq<real>,
                   s: nat, n: nat, args: seq<Arg>, res: NestedResult)
    requires Filled(varis0, values0, partials0, s, n, args, res)
    requires Kept(varis, values, partials, varis0, values0, partials0, s, n)
    ensures Filled(varis, values, partials, s, n, args, res)
  {
  }

  lemma {:induction false} KeptTransitive(varis: seq<nat>, values: seq<real>, partials: seq<real>,
                       varis1: seq<nat>, values1: seq<real>, partials1: seq<real>,
                       varis0: seq<nat>, values0: seq<real>, partials0: seq<real>, s: nat, n: nat)
    requires Kept(varis1, values1, partials1, varis0, values0, partials0, s, n)
    requires Kept(varis, values, partials, varis1, values1, partials1, s, n)
    ensures Kept(varis, values, partials, varis0, values0, partials0, s, n)
  {
  }

  /** save_varis: the vari of every var of args, in save_adjoints order, at
      dest, dest+1, ... */
  method SaveVaris(buf: array<nat>, dest: nat, args: seq<Arg>)
    requires dest + |LeavesOf(args)| <= buf.Length
    modifies buf
    ensures buf[..dest] == old(buf[..dest])
    ensures buf[dest + |LeavesOf(args)|..] == old(buf[dest + |LeavesOf(args)|..])
    ensures buf[dest..dest + |LeavesOf(args)|] == LeavesOf(args)
  {
    var leaves := LeavesOf(args);
    for k := 0 to |leaves|
      invariant buf[..dest] == old(buf[..dest])
      invariant buf[dest + |leaves|..] == old(buf[dest + |leaves|..])
      invariant forall m :: 0 <= m < k ==> buf[dest + m] == leaves[m]
    {
      buf[dest + k] := leaves[k];
    }
  }

  /** One iteration of the parallel loop: save the index's varis into its
      slot, run the nested pass on deep copies, store the value, and save the
      copies' adjoints into the same slot. Nothing outside slot s changes. */
  method EvaluateIndex(varis: array<nat>, values: array<real>, partials: array<real>,
                       S: nat, n: nat, s: nat, args: seq<Arg>, res: NestedResult)
    requires values != partials
    requires s < S && varis.Length == Offset(S, n) && partials.Length == Offset(S, n) && values.Length >= S
    requires |LeavesOf(args)| == n && |res.grads| == n
    modifies varis, values, partials
    ensures Filled(varis[..], values[..], partials[..], s, n, args, res)
    ensures forall l :: 0 <= l < S && l != s ==>
      Kept(varis[..], values[..], partials[..], old(varis[..]), old(values[..]), old(partials[..]), l, n)
  {
    SlotInBounds(s, S, n);
    assert Offset(s + 1, n) == Offset(s, n) + n;
    ghost var varis0, values0, partials0 := varis[..], values[..], partials[..];
    SaveVaris(varis, Offset(s, n), args);
    var copies := DeepCopyAll(args, 0);
    DeepCopyAllLeaves(args, 0);
    var nested := new real[n](k requires 0 <= k < n => res.grads[k]);
    values[s] := res.value;
    var _ := SaveAdjoints.SaveAdjoints(partials, Offset(s, n), nested, copies);
    assert partials[Offset(s, n)..Offset(s + 1, n)] == res.grads by {
      forall k | 0 <= k < n ensures partials[Offset(s, n) + k] == res.grads[k] {
        assert LeavesOf(copies)[k] == k;
      }
    }
    SlotWritten(varis0, values0, partials0, varis[..], values[..], partials[..], S, n, s, args, res);
  }

  /** Writing slot s of the arena arrays, and nothing outside it, fills
      slot s and keeps every other slot. */
  lemma {:induction false} SlotWritten(varis0: seq<nat>, values0: seq<real>, partials0: seq<real>,
                                       varis: seq<nat>, values: seq<real>, partials: seq<real>,
                                       S: nat, n: nat, s: nat, args: seq<Arg>, res: NestedResult)
    requires s < S && |varis0| == |varis| == Offset(S, n) && |partials0| == |partials| == Offset(S, n)
    requires |values0| >= S && values == values0[s := res.value]
    requires Offset(s + 1, n) <= Offset(S, n)
    requires varis[..Offset(s, n)] == varis0[..Offset(s, n)] && varis[Offset(s + 1, n)..] == varis0[Offset(s + 1, n)..]
    requires partials[..Offset(s, n)] == partials0[..Offset(s, n)] && partials[Offset(s + 1, n)..] == partials0[Offset(s + 1, n)..]
    requires varis[Offset(s, n)..Offset(s + 1, n)] == LeavesOf(args)
    requires partials[Offset(s, n)..Offset(s + 1, n)] == res.grads
    ensures Filled(varis, values, partials, s, n, args, res)
    ensures forall l :: 0 <= l < S && l != s ==> Kept(varis, values, partials, varis0, values0, partials0, l, n)
  {
    OtherSlotsKept(varis0, varis, S, n, s);
    OtherSlotsKept(partials0, partials, S, n, s);
    forall l | 0 <= l < S && l != s ensures Kept(varis, values, partials, varis0, values0, partials0, l, n) {
      SlotInBounds(l, S, n);
    }
  }

  /** The body handed to tbb::parallel_for: every index of the range, in
      increasing order. */
  method EvaluateRange(varis: array<nat>, values: array<real>, partials: array<real>,
                       S: nat, n: nat, r: Range, argsAt: nat -> seq<Arg>, app: nat -> NestedResult)
    requires values != partials
    requires r.begin <= r.end <= S
    requires varis.Length == Offset(S, n) && partials.Length == Offset(S, n) && values.Length == S
    requires SameCount(S, argsAt, app, n)
    modifies varis, values, partials
    ensures forall i :: r.begin <= i < r.end ==>
      Filled(varis[..], values[..], partials[..], i, n, argsAt(i), app(i))
    ensures forall l :: 0 <= l < S && !r.Contains(l) ==>
      Kept(varis[..], values[..], partials[..], old(varis[..]), old(values[..]), old(partials[..]), l, n)
  {
    SlotsKept(varis[..], values[..], partials[..], S, n);
    for i := r.begin to r.end
      invariant forall i' :: r.begin <= i' < i ==>
        Filled(varis[..], values[..], partials[..], i', n, argsAt(i'), app(i'))
      invariant forall l :: 0 <= l < S && !(r.begin <= l < i) ==>
        Kept(varis[..], values[..], partials[..], old(varis[..]), old(values[..]), old(partials[..]), l, n)
    {
      ghost var varis1, values1, partials1 := varis[..], values[..], partials[..];
      EvaluateIndex(varis, values, partials, S, n, i, argsAt(i), app(i));
      forall i' | r.begin <= i' < i + 1
        ensures Filled(varis[..], values[..], partials[..], i', n, argsAt(i'), app(i'))
      {
        if i' < i {
          FilledKept(varis[..], values[..], partials[..], varis1, values1, partials1, i', n, argsAt(i'), app(i'));
        }
      }
      forall l | 0 <= l < S && !(r.begin <= l < i + 1)
        ensures Kept(varis[..], values[..], partials[..], old(varis[..]), old(values[..]), old(partials[..]), l, n)
      {
        KeptTransitive(varis[..], values[..], partials[..], varis1, values1, partials1,
                       old(varis[..]), old(values[..]), old(partials[..]), l, n);
      }
    }
  }

  /** The 1-D parallel_map over the vector result. The arena arrays hold S*n
      parents and partials and S values, and slot i of each belongs to index
      i alone. Whatever partition TBB chooses, they end up as the slot-wise
      concatenation of the per-index results, and output i is a node with
      index i's value, n parents and the partials of slot i. */
  method ParallelMap(result: array<PrecomputedNode>, ranges: seq<Range>,
                     argsAt: nat -> seq<Arg>, app: nat -> NestedResult)
    returns (varis: array<nat>, values: array<real>, partials: array<real>)
    requires IsPartition(ranges, result.Length)
    requires SameCount(result.Length, argsAt, app, |LeavesOf(argsAt(0))|)
    modifies result
    ensures fresh(varis) && fresh(values) && fresh(partials)
    ensures varis[..] == Concat(result.Length, LeavesAt(argsAt))
    ensures values[..] == ValuesOf(result.Length, app)
    ensures partials[..] == Concat(result.Length, GradsAt(app))
    ensures forall i :: 0 <= i < result.Length ==>
      result[i] == PrecomputedNode(app(i).value, |LeavesOf(argsAt(0))|, varis, partials, i * |LeavesOf(argsAt(0))|)
  {
    var S := result.Length;
    var n := |LeavesOf(argsAt(0))|;
    varis := new nat[S * n];
    values := new real[S];
    partials := new real[S * n];
    OffsetIsProduct(S, n);
    ParallelFor(varis, values, partials, S, n, ranges, argsAt, app);
    PackedArrays(varis[..], values[..], partials[..], S, n, argsAt, app);
    Pack(result, values, varis, partials, n);
    forall i | 0 <= i < S ensures Offset(i, n) == i * n {
      OffsetIsProduct(i, n);
    }
  }

  /** Output i's node reads n partials from offset i*n of the packed
      array (the slot of index i), and those are exactly the adjoints of index i's own nested run. */
  lemma {:induction false} NodePartials(partials: seq<real>, S: nat, n: nat, app: nat -> NestedResult, i: nat)
    requires forall l :: 0 <= l < S ==> |app(l).grads| == n
    requires partials == Concat(S, GradsAt(app)) && i < S
    ensures HasSlot(partials, i, n) && Slot(partials, i, n) == app(i).grads
  {
    var g := GradsAt(app);
    forall l | 0 <= l < S ensures |g(l)| == n {
    }
    ConcatSlots(S, n, g);
    assert g(i) == app(i).grads;
  }

  /** The packing loop: output i becomes a node with value values[i] and the
      n parents and partials of slot i. */
  method Pack(result: array<PrecomputedNode>, values: array<real>, varis: array<nat>, partials: array<real>, n: nat)
    requires values.Length == result.Length
    modifies result
    ensures forall i :: 0 <= i < result.Length ==>
      result[i] == PrecomputedNode(values[i], n, varis, partials, Offset(i, n))
  {
    for i := 0 to result.Length
      invariant forall i' :: 0 <= i' < i ==> result[i'] == PrecomputedNode(values[i'], n, varis, partials, Offset(i', n))
    {
      result[i] := PrecomputedNode(values[i], n, varis, partials, Offset(i, n));
    }
  }

  /** tbb::parallel_for over a partition of [0, S): the range bodies run one
      after another, in the order given. Every index ends up filled. */
  method ParallelFor(varis: array<nat>, values: array<real>, partials: array<real>, S: nat, n: nat,
                     ranges: seq<Range>, argsAt: nat -> seq<Arg>, app: nat -> NestedResult)
    requires values != partials
    requires IsPartition(ranges, S)
    requires varis.Length == Offset(S, n) && partials.Length == Offset(S, n) && values.Length == S
    requires SameCount(S, argsAt, app, n)
    modifies varis, values, partials
    ensures forall i :: 0 <= i < S ==> Filled(varis[..], values[..], partials[..], i, n, argsAt(i), app(i))
  {
    for t := 0 to |ranges|
      invariant forall i :: 0 <= i < S && Covers(ranges[..t], i) ==>
        Filled(varis[..], values[..], partials[..], i, n, argsAt(i), app(i))
    {
      var r := ranges[t];
      ghost var varis1, values1, partials1 := varis[..], values[..], partials[..];
      EvaluateRange(varis, values, partials, S, n, r, argsAt, app);
      forall i | 0 <= i < S && Covers(ranges[..t + 1], i)
        ensures Filled(varis[..], values[..], partials[..], i, n, argsAt(i), app(i))
      {
        CoversExtend(ranges, t, i);
        if !r.Contains(i) {
          FilledKept(varis[..], values[..], partials[..], varis1, values1, partials1, i, n, argsAt(i), app(i));
        }
      }
    }
    assert ranges[..|ranges|] == ranges;
  }

  /** Once every slot is filled, the arena arrays are the concatenation of
      the per-index results. */
  lemma {:induction false} PackedArrays(varis: seq<nat>, values: seq<real>, partials: seq<real>, S: nat, n: nat,
                     argsAt: nat -> seq<Arg>, app: nat -> NestedResult)
    requires |varis| == Offset(S, n) && |partials| == Offset(S, n) && |values| == S
    requires SameCount(S, argsAt, app, n)
    requires forall i :: 0 <= i < S ==> Filled(varis, values, partials, i, n, argsAt(i), app(i))
    ensures varis == Concat(S, LeavesAt(argsAt))
    ensures values == ValuesOf(S, app)
    ensures partials == Concat(S, GradsAt(app))
  {
    var f := LeavesAt(argsAt);
    var g := GradsAt(app);
    forall i | 0 <= i < S ensures |f(i)| == n && HasSlot(varis, i, n) && Slot(varis, i, n) == f(i) {
      assert Filled(varis, values, partials, i, n, argsAt(i), app(i));
    }
    forall i | 0 <= i < S ensures |g(i)| == n && HasSlot(partials, i, n) && Slot(partials, i, n) == g(i) {
      assert Filled(varis, values, partials, i, n, argsAt(i), app(i));
    }
    ConcatFromSlots(varis, S, n, f);
    ConcatFromSlots(partials, S, n, g);
    forall i | 0 <= i < S ensures values[i] == ValuesOf(S, app)[i] {
      assert Filled(varis, values, partials, i, n, argsAt(i), app(i));
    }
  }

  /** The 2-D slot of cell (i, j), at nvars*i + nvars*R*j, is the 1-D slot of
      the cell's column-major linear index i + R*j, and it lies inside the
      S*nvars arena arrays. */
  lemma {:induction false} GridSlot(i: nat, j: nat, R: nat, C: nat, n: nat)
    requires i < R && j < C
    ensures GridOffset(i, j, R, n) == Offset(LinearIndex(i, j, R), n)
    ensures LinearIndex(i, j, R) < R * C && Offset(LinearIndex(i, j, R) + 1, n) <= Offset(R * C, n)
  {
    LinearIndexBound(i, j, R, C);
    SlotInBounds(LinearIndex(i, j, R), R * C, n);
    OffsetIsProduct(LinearIndex(i, j, R), n);
    StridedOffset(i, j, R, n);
  }

  /** The strides nvars and nvars*R put cell (i, j) nvars times its linear
      index into the buffer. */
  lemma {:induction false} StridedOffset(i: nat, j: nat, R: nat, n: nat)
    ensures GridOffset(i, j, R, n) == LinearIndex(i, j, R) * n
  {
    assert n * R * j == (R * j) * n;
  }

  /** Distinct cells have disjoint 2-D slots: one ends before the other
      starts. */
  lemma {:induction false} GridSlotsDisjoint(i1: nat, j1: nat, i2: nat, j2: nat, R: nat, C: nat, n: nat)
    requires i1 < R && j1 < C && i2 < R && j2 < C && (i1 != i2 || j1 != j2)
    ensures Offset(LinearIndex(i1, j1, R) + 1, n) <= Offset(LinearIndex(i2, j2, R), n) ||
            Offset(LinearIndex(i2, j2, R) + 1, n) <= Offset(LinearIndex(i1, j1, R), n)
  {
    var l1, l2 := LinearIndex(i1, j1, R), LinearIndex(i2, j2, R);
    if l1 == l2 {
      LinearIndexInjective(i1, j1, i2, j2, R);
    }
    if l1 < l2 {
      SlotsOrdered(l1, l2, n);
    } else {
      SlotsOrdered(l2, l1, n);
    }
  }

  /** Where the strided Eigen maps put cell (i, j): inner stride nvars,
      outer stride nvars*R. */
  function GridOffset(i: nat, j: nat, R: nat, n: nat): nat
  {
    n * i + n * R * j
  }

  /** The length the code gives the 2-D values buffer: S*nvars doubles. */
  function ValuesLengthAsWritten(R: nat, C: nat, n: nat): nat
  {
    R * C * n
  }

  /** values(i, j) writes entry i + R*j of the buffer; with no vars every
      cell of a non-empty R x C result is written outside it. */
  lemma {:induction false} ValuesOverrunAsWritten(i: nat, j: nat, R: nat, C: nat)
    requires i < R && j < C
    ensures ValuesLengthAsWritten(R, C, 0) <= LinearIndex(i, j, R)
  {
  }

  /** The as-written buffer holds every cell exactly when the result is
      empty or there is at least one var. */
  lemma {:induction false} ValuesFitAsWritten(R: nat, C: nat, n: nat)
    requires R * C > 0
    ensures R * C <= ValuesLengthAsWritten(R, C, n) <==> n >= 1
  {
    if n >= 1 {
      MultiplyMonotone(1, n, R * C);
    }
  }

  /** The length the model gives the 2-D values buffer: one double per cell,
      as the 1-D version allocates. */
  function ValuesLength(R: nat, C: nat): nat
  {
    R * C
  }

  /** Every cell's value lands inside the buffer. */
  lemma {:induction false} ValuesFit(i: nat, j: nat, R: nat, C: nat)
    requires i < R && j < C
    ensures i + R * j < ValuesLength(R, C)
  {
    LinearIndexBound(i, j, R, C);
  }

  /** A function of a cell, viewed as a function of its column-major linear
      index. */
  function Linear<T>(f: (nat, nat) -> T, R: nat): nat -> T
  {
    (l: nat) => if R == 0 then f(0, 0) else f(l % R, l / R)
  }

  /** Cell (i, j) of an R x C grid is linear index i + R*j. */
  lemma {:induction false} LinearCell(l: nat, R: nat, C: nat)
    requires l < R * C
    ensures R > 0 && l % R < R && l / R < C && l == LinearIndex(l % R, l / R, R)
  {
    assert R > 0;
    var j := l / R;
    if j >= C {
      MultiplyMonotone(C, j, R);
    }
  }

  /** Every index's slot is as it was before anything was written. */
  lemma {:induction false} SlotsKept(varis: seq<nat>, values: seq<real>, partials: seq<real>, S: nat, n: nat)
    requires |varis| == Offset(S, n) && |partials| == Offset(S, n) && |values| >= S
    ensures forall l :: 0 <= l < S ==> Kept(varis, values, partials, varis, values, partials, l, n)
  {
    forall l | 0 <= l < S ensures Kept(varis, values, partials, varis, values, partials, l, n) {
      SlotInBounds(l, S, n);
    }
  }

  /** Every cell's slot is as it was before anything was written. */
  lemma {:induction false} AllKept(varis: seq<nat>, values: seq<real>, partials: seq<real>, R: nat, C: nat, n: nat)
    requires |varis| == Offset(R * C, n) && |partials| == Offset(R * C, n) && |values| == R * C
    ensures forall i, j :: 0 <= i < R && 0 <= j < C ==>
      Kept(varis, values, partials, varis, values, partials, LinearIndex(i, j, R), n)
  {
    forall i, j | 0 <= i < R && 0 <= j < C
      ensures Kept(varis, values, partials, varis, values, partials, LinearIndex(i, j, R), n)
    {
      GridSlot(i, j, R, C, n);
    }
  }

  /** Distinct cells have distinct linear indices. */
  lemma {:induction false} CellInjective(i1: nat, j1: nat, i2: nat, j2: nat, R: nat, C: nat)
    requires i1 < R && i2 < R && (i1 != i2 || j1 != j2)
    ensures LinearIndex(i1, j1, R) != LinearIndex(i2, j2, R)
  {
    if LinearIndex(i1, j1, R) == LinearIndex(i2, j2, R) {
      LinearIndexInjective(i1, j1, i2, j2, R);
    }
  }

  /** One block of the 2-D range: columns outer, rows inner. */
  method EvaluateBlock(varis: array<nat>, values: array<real>, partials: array<real>,
                       R: nat, C: nat, n: nat, b: Block,
                       argsAt: (nat, nat) -> seq<Arg>, app: (nat, nat) -> NestedResult)
    requires values != partials
    requires b.rows.begin <= b.rows.end <= R && b.cols.begin <= b.cols.end <= C
    requires varis.Length == Offset(R * C, n) && partials.Length == Offset(R * C, n) && values.Length == ValuesLength(R, C)
    requires forall i, j :: 0 <= i < R && 0 <= j < C ==> |LeavesOf(argsAt(i, j))| == n && |app(i, j).grads| == n
    modifies varis, values, partials
    ensures forall i, j :: 0 <= i < R && 0 <= j < C && b.Contains(i, j) ==>
      Filled(varis[..], values[..], partials[..], LinearIndex(i, j, R), n, argsAt(i, j), app(i, j))
    ensures forall i, j :: 0 <= i < R && 0 <= j < C && !b.Contains(i, j) ==>
      Kept(varis[..], values[..], partials[..], old(varis[..]), old(values[..]), old(partials[..]), LinearIndex(i, j, R), n)
  {
    AllKept(varis[..], values[..], partials[..], R, C, n);
    for j := b.cols.begin to b.cols.end
      invariant forall i', j' :: 0 <= i' < R && 0 <= j' < C && b.rows.Contains(i') && b.cols.begin <= j' < j ==>
        Filled(varis[..], values[..], partials[..], LinearIndex(i', j', R), n, argsAt(i', j'), app(i', j'))
      invariant forall i', j' :: 0 <= i' < R && 0 <= j' < C && !(b.rows.Contains(i') && b.cols.begin <= j' < j) ==>
        Kept(varis[..], values[..], partials[..], old(varis[..]), old(values[..]), old(partials[..]), LinearIndex(i', j', R), n)
    {
      for i := b.rows.begin to b.rows.end
        invariant forall i', j' ::
          0 <= i' < R && 0 <= j' < C && b.rows.Contains(i') && (b.cols.begin <= j' < j || (j' == j && i' < i)) ==>
            Filled(varis[..], values[..], partials[..], LinearIndex(i', j', R), n, argsAt(i', j'), app(i', j'))
        invariant forall i', j' ::
          0 <= i' < R && 0 <= j' < C && !(b.rows.Contains(i') && (b.cols.begin <= j' < j || (j' == j && i' < i))) ==>
            Kept(varis[..], values[..], partials[..], old(varis[..]), old(values[..]), old(partials[..]), LinearIndex(i', j', R), n)
      {
        ghost var varis1, values1, partials1 := varis[..], values[..], partials[..];
        ValuesFit(i, j, R, C);
        EvaluateIndex(varis, values, partials, R * C, n, LinearIndex(i, j, R), argsAt(i, j), app(i, j));
        forall i', j' | 0 <= i' < R && 0 <= j' < C &&
          b.rows.Contains(i') && (b.cols.begin <= j' < j || (j' == j && i' < i + 1))
          ensures Filled(varis[..], values[..], partials[..], LinearIndex(i', j', R), n, argsAt(i', j'), app(i', j'))
        {
          if i' != i || j' != j {
            CellInjective(i', j', i, j, R, C);
            LinearIndexBound(i', j', R, C);
            FilledKept(varis[..], values[..], partials[..], varis1, values1, partials1,
                       LinearIndex(i', j', R), n, argsAt(i', j'), app(i', j'));
          }
        }
        forall i', j' | 0 <= i' < R && 0 <= j' < C &&
          !(b.rows.Contains(i') && (b.cols.begin <= j' < j || (j' == j && i' < i + 1)))
          ensures Kept(varis[..], values[..], partials[..], old(varis[..]), old(values[..]), old(partials[..]), LinearIndex(i', j', R), n)
        {
          CellInjective(i', j', i, j, R, C);
          LinearIndexBound(i', j', R, C);
          KeptTransitive(varis[..], values[..], partials[..], varis1, values1, partials1,
                         old(varis[..]), old(values[..]), old(partials[..]), LinearIndex(i', j', R), n);
        }
      }
    }
  }

  /** Every cell has n vars and n gradients. */
  ghost predicate SameCountGrid(R: nat, C: nat, argsAt: (nat, nat) -> seq<Arg>, app: (nat, nat) -> NestedResult, n: nat)
  {
    forall i, j :: 0 <= i < R && 0 <= j < C ==> |LeavesOf(argsAt(i, j))| == n && |app(i, j).grads| == n
  }

  /** tbb::parallel_for over a blocked_range2d: the block bodies run one
      after another, in the order given. Every cell ends up filled. */
  method ParallelForGrid(varis: array<nat>, values: array<real>, partials: array<real>, R: nat, C: nat, n: nat,
                         blocks: seq<Block>, argsAt: (nat, nat) -> seq<Arg>, app: (nat, nat) -> NestedResult)
    requires values != partials
    requires IsGridPartition(blocks, R, C)
    requires varis.Length == Offset(R * C, n) && partials.Length == Offset(R * C, n) && values.Length == ValuesLength(R, C)
    requires SameCountGrid(R, C, argsAt, app, n)
    modifies varis, values, partials
    ensures forall i, j :: 0 <= i < R && 0 <= j < C ==>
      Filled(varis[..], values[..], partials[..], LinearIndex(i, j, R), n, argsAt(i, j), app(i, j))
  {
    for t := 0 to |blocks|
      invariant forall i, j :: 0 <= i < R && 0 <= j < C && CoversCell(blocks[..t], i, j) ==>
        Filled(varis[..], values[..], partials[..], LinearIndex(i, j, R), n, argsAt(i, j), app(i, j))
    {
      var b := blocks[t];
      ghost var varis1, values1, partials1 := varis[..], values[..], partials[..];
      EvaluateBlock(varis, values, partials, R, C, n, b, argsAt, app);
      forall i, j | 0 <= i < R && 0 <= j < C && CoversCell(blocks[..t + 1], i, j)
        ensures Filled(varis[..], values[..], partials[..], LinearIndex(i, j, R), n, argsAt(i, j), app(i, j))
      {
        CoversCellExtend(blocks, t, i, j);
        if !b.Contains(i, j) {
          FilledKept(varis[..], values[..], partials[..], varis1, values1, partials1,
                     LinearIndex(i, j, R), n, argsAt(i, j), app(i, j));
        }
      }
    }
    assert blocks[..|blocks|] == blocks;
  }

  /** The two-index parallel_map. Whatever blocks TBB chooses, the arena
      arrays are the column-major concatenation of the per-cell results, and
      output (i, j) is a node with the cell's value, n parents and the
      partials found at the strided offset of cell (i, j). */
  method ParallelMapGrid(result: array2<PrecomputedNode>, blocks: seq<Block>,
                         argsAt: (nat, nat) -> seq<Arg>, app: (nat, nat) -> NestedResult)
    returns (varis: array<nat>, values: array<real>, partials: array<real>)
    requires IsGridPartition(blocks, result.Length0, result.Length1)
    requires SameCountGrid(result.Length0, result.Length1, argsAt, app, |LeavesOf(argsAt(0, 0))|)
    modifies result
    ensures fresh(varis) && fresh(values) && fresh(partials)
    ensures varis[..] == Concat(result.Length0 * result.Length1, LeavesAt(Linear(argsAt, result.Length0)))
    ensures values[..] == ValuesOf(result.Length0 * result.Length1, Linear(app, result.Length0))
    ensures partials[..] == Concat(result.Length0 * result.Length1, GradsAt(Linear(app, result.Length0)))
    ensures forall i, j :: 0 <= i < result.Length0 && 0 <= j < result.Length1 ==>
      result[i, j] == PrecomputedNode(app(i, j).value, |LeavesOf(argsAt(0, 0))|, varis, partials,
                                      GridOffset(i, j, result.Length0, |LeavesOf(argsAt(0, 0))|))
  {
    var R, C := result.Length0, result.Length1;
    var n := |LeavesOf(argsAt(0, 0))|;
    varis := new nat[R * C * n];
    values := new real[ValuesLength(R, C)];
    partials := new real[R * C * n];
    OffsetIsProduct(R * C, n);
    ParallelForGrid(varis, values, partials, R, C, n, blocks, argsAt, app);
    Packed(varis[..], values[..], partials[..], R, C, n, argsAt, app);
    PackGrid(result, values, varis, partials, n);
    CellValues(values[..], R, C, n, app, varis[..], partials[..], argsAt);
  }

  /** Filled cells, read through their linear index, give the packed
      arrays. */
  lemma {:induction false} Packed(varis: seq<nat>, values: seq<real>, partials: seq<real>, R: nat, C: nat, n: nat,
               argsAt: (nat, nat) -> seq<Arg>, app: (nat, nat) -> NestedResult)
    requires |varis| == Offset(R * C, n) && |partials| == Offset(R * C, n) && |values| == ValuesLength(R, C)
    requires SameCountGrid(R, C, argsAt, app, n)
    requires forall i, j :: 0 <= i < R && 0 <= j < C ==>
      Filled(varis, values, partials, LinearIndex(i, j, R), n, argsAt(i, j), app(i, j))
    ensures varis == Concat(R * C, LeavesAt(Linear(argsAt, R)))
    ensures values == ValuesOf(R * C, Linear(app, R))
    ensures partials == Concat(R * C, GradsAt(Linear(app, R)))
  {
    var args1, app1 := Linear(argsAt, R), Linear(app, R);
    forall l | 0 <= l < R * C
      ensures |LeavesOf(args1(l))| == n && |app1(l).grads| == n
      ensures Filled(varis, values, partials, l, n, args1(l), app1(l))
    {
      PackedCell(varis, values, partials, R, C, n, argsAt, app, l);
    }
    PackedArrays(varis, values, partials, R * C, n, args1, app1);
  }

  /** Linear index l holds the cell (l % R, l / R), filled with that cell's
      result. */
  lemma {:induction false} PackedCell(varis: seq<nat>, values: seq<real>, partials: seq<real>, R: nat, C: nat, n: nat,
                                      argsAt: (nat, nat) -> seq<Arg>, app: (nat, nat) -> NestedResult, l: nat)
    requires SameCountGrid(R, C, argsAt, app, n)
    requires forall i, j :: 0 <= i < R && 0 <= j < C ==>
      Filled(varis, values, partials, LinearIndex(i, j, R), n, argsAt(i, j), app(i, j))
    requires l < R * C
    ensures |LeavesOf(Linear(argsAt, R)(l))| == n && |Linear(app, R)(l).grads| == n
    ensures Filled(varis, values, partials, l, n, Linear(argsAt, R)(l), Linear(app, R)(l))
  {
    LinearCell(l, R, C);
    var i, j := l % R, l / R;
    assert Linear(argsAt, R)(l) == argsAt(i, j) && Linear(app, R)(l) == app(i, j);
    assert Filled(varis, values, partials, LinearIndex(i, j, R), n, argsAt(i, j), app(i, j));
  }

  /** Each cell's packed node carries the cell's own value. */
  lemma {:induction false} CellValues(values: seq<real>, R: nat, C: nat, n: nat, app: (nat, nat) -> NestedResult,
                   varis: seq<nat>, partials: seq<real>, argsAt: (nat, nat) -> seq<Arg>)
    requires forall i, j :: 0 <= i < R && 0 <= j < C ==>
      Filled(varis, values, partials, LinearIndex(i, j, R), n, argsAt(i, j), app(i, j))
    ensures forall i, j :: 0 <= i < R && 0 <= j < C ==>
      LinearIndex(i, j, R) < |values| && values[LinearIndex(i, j, R)] == app(i, j).value &&
      GridOffset(i, j, R, n) == Offset(LinearIndex(i, j, R), n)
  {
    forall i, j | 0 <= i < R && 0 <= j < C
      ensures LinearIndex(i, j, R) < |values| && values[LinearIndex(i, j, R)] == app(i, j).value
      ensures GridOffset(i, j, R, n) == Offset(LinearIndex(i, j, R), n)
    {
      assert Filled(varis, values, partials, LinearIndex(i, j, R), n, argsAt(i, j), app(i, j));
      GridSlot(i, j, R, C, n);
    }
  }

  /** Every cell's linear index lies inside an R x C matrix. */
  lemma {:induction false} CellsInBounds(R: nat, C: nat)
    ensures forall i, j :: 0 <= i < R && 0 <= j < C ==> LinearIndex(i, j, R) < R * C
  {
    forall i, j | 0 <= i < R && 0 <= j < C ensures LinearIndex(i, j, R) < R * C {
      LinearIndexBound(i, j, R, C);
    }
  }

  /** The packing loop, columns outer: output (i, j) becomes a node with
      the cell's value and the n parents and partials at the strided offset
      of cell (i, j). */
  method PackGrid(result: array2<PrecomputedNode>, values: array<real>, varis: array<nat>, partials: array<real>, n: nat)
    requires values.Length == ValuesLength(result.Length0, result.Length1)
    modifies result
    ensures forall i, j :: 0 <= i < result.Length0 && 0 <= j < result.Length1 ==>
      LinearIndex(i, j, result.Length0) < values.Length &&
      result[i, j] == PrecomputedNode(values[LinearIndex(i, j, result.Length0)], n, varis, partials,
                                      GridOffset(i, j, result.Length0, n))
  {
    var R := result.Length0;
    CellsInBounds(R, result.Length1);
    for j := 0 to result.Length1
      invariant forall i', j' :: 0 <= i' < R && 0 <= j' < j ==>
        result[i', j'] == PrecomputedNode(values[LinearIndex(i', j', R)], n, varis, partials, GridOffset(i', j', R, n))
    {
      for i := 0 to R
        invariant forall i', j' :: 0 <= i' < R && (0 <= j' < j || (j' == j && i' < i)) ==>
          result[i', j'] == PrecomputedNode(values[LinearIndex(i', j', R)], n, varis, partials, GridOffset(i', j', R, n))
      {
        result[i, j] := PrecomputedNode(values[LinearIndex(i, j, R)], n, varis, partials, GridOffset(i, j, R, n));
      }
    }
  }
}
