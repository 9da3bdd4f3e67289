/** save_adjoints: copy the adjoints of every var found in a list of
    arguments into a caller's buffer, through a cursor that advances past
    each var written. */
module SaveAdjoints {
  import opened Tapes

  /** One argument of a user function, reduced to the vars it holds. A var
      is named by its position on the tape (the vari it points to). */
  datatype Arg =
    | Var(vi: nat)                      // a single var
    | VarVector(vis: seq<nat>)          // std::vector<var>
    | Containers(items: seq<Arg>)       // std::vector of containers of vars
    | EigenVars(rows: nat, cols: nat, linear: seq<nat>)
                                        // an Eigen matrix of vars, in Eigen's
                                        // linear (column-major) order
    | Arithmetic                        // double, int or a container of them

  /** The vars of one argument, in the order save_adjoints visits them. */
  function Leaves(a: Arg): seq<nat>
    decreases a
  {
    match a
    case Var(v) => [v]
    case VarVector(vs) => vs
    case Containers(items) => LeavesOf(items)
    case EigenVars(_, _, vs) => vs
    case Arithmetic => []
  }

  /** The vars of an argument list: the first argument's, then the rest's. */
  function LeavesOf(args: seq<Arg>): seq<nat>
    decreases args
  {
    if |args| == 0 then [] else Leaves(args[0]) + LeavesOf(args[1..])
  }

  lemma {:induction false} LeavesOfAppend(a: seq<Arg>, b: seq<Arg>)
    ensures LeavesOf(a + b) == LeavesOf(a) + LeavesOf(b)
    decreases |a|
  {
    if |a| == 0 {
      assert a + b == b;
    } else {
      assert (a + b)[0] == a[0];
      assert (a + b)[1..] == a[1..] + b;
      LeavesOfAppend(a[1..], b);
    }
  }

  lemma {:induction false} LeavesOfSingle(a: Arg)
    ensures LeavesOf([a]) == Leaves(a)
  {
    assert [a][1..] == [];
  }

  lemma {:induction false} SizeOfSingle(a: Arg)
    ensures SizeOf([a]) == Size(a)
  {
    assert [a][1..] == [];
  }

  /** A measure that shrinks on every recursive call of SaveAdjoints. */
  function Size(a: Arg): nat
    decreases a
  {
    match a
    case Containers(items) => 1 + SizeOf(items)
    case _ => 1
  }

  function SizeOf(args: seq<Arg>): nat
    decreases args
  {
    if |args| == 0 then 0 else Size(args[0]) + SizeOf(args[1..])
  }

  lemma {:induction false} SizeOfElement(args: seq<Arg>, i: nat)
    requires i < |args|
    ensures Size(args[i]) <= SizeOf(args)
    decreases |args|
  {
    if i > 0 {
      SizeOfElement(args[1..], i - 1);
    }
  }

  /** start, start+1, ..., start+count-1. */
  function Iota(start: nat, count: nat): (r: seq<nat>)
    ensures |r| == count && forall k :: 0 <= k < count ==> r[k] == start + k
  {
    seq(count, k requires 0 <= k < count => start + k)
  }

  /** deep_copy_vars: the same arguments with every var replaced by a fresh
      var on the nested stack. The copies are numbered next, next+1, ... in
      the order save_adjoints visits them, so that copy k's adjoint is entry
      k of the nested adjoints. */
  function DeepCopy(a: Arg, next: nat): Arg
    decreases a
  {
    match a
    case Var(_) => Var(next)
    case VarVector(vs) => VarVector(Iota(next, |vs|))
    case Containers(items) => Containers(DeepCopyAll(items, next))
    case EigenVars(rows, cols, vs) => EigenVars(rows, cols, Iota(next, |vs|))
    case Arithmetic => Arithmetic
  }

  function DeepCopyAll(args: seq<Arg>, next: nat): seq<Arg>
    decreases args
  {
    if |args| == 0 then [] else [DeepCopy(args[0], next)] + DeepCopyAll(args[1..], next + |Leaves(args[0])|)
  }

  /** The copies of an argument list are the vars next, next+1, ... in order. */
  lemma {:induction false} DeepCopyLeaves(a: Arg, next: nat)
    ensures Leaves(DeepCopy(a, next)) == Iota(next, |Leaves(a)|)
    decreases a
  {
    match a
    case Containers(items) => DeepCopyAllLeaves(items, next);
    case _ =>
  }

  lemma {:induction false} DeepCopyAllLeaves(args: seq<Arg>, next: nat)
    ensures LeavesOf(DeepCopyAll(args, next)) == Iota(next, |LeavesOf(args)|)
    decreases args
  {
    if |args| > 0 {
      var copies := DeepCopyAll(args, next);
      var n0 := |Leaves(args[0])|;
      DeepCopyLeaves(args[0], next);
      DeepCopyAllLeaves(args[1..], next + n0);
      assert copies[0] == DeepCopy(args[0], next);
      assert copies[1..] == DeepCopyAll(args[1..], next + n0);
      assert Iota(next, n0) + Iota(next + n0, |LeavesOf(args[1..])|) == Iota(next, |LeavesOf(args)|);
    }
  }

  /** b[dest + k] holds the adjoint of the k-th var of leaves. */
  ghost predicate Saved(b: seq<real>, dest: nat, adj: seq<real>, leaves: seq<nat>)
  {
    dest + |leaves| <= |b| && AllBelow(leaves, |adj|) &&
    forall k :: 0 <= k < |leaves| ==> b[dest + k] == adj[leaves[k]]
  }

  /** Two saves laid end to end form the save of both lists. */
  lemma {:induction false} SavedConcat(b: seq<real>, dest: nat, adj: seq<real>, first: seq<nat>, second: seq<nat>)
    requires Saved(b, dest, adj, first) && Saved(b, dest + |first|, adj, second)
    ensures Saved(b, dest, adj, first + second)
  {
    AllBelowAppend(first, second, |adj|);
    forall k | 0 <= k < |first + second| ensures b[dest + k] == adj[(first + second)[k]] {
      if k >= |first| {
        assert (first + second)[k] == second[k - |first|];
      }
    }
  }

  /** A save survives writes that keep its part of the buffer. */
  lemma {:induction false} SavedFrame(b: seq<real>, b': seq<real>, dest: nat, adj: seq<real>, leaves: seq<nat>)
    requires Saved(b, dest, adj, leaves)
    requires |b'| == |b| && b'[..dest + |leaves|] == b[..dest + |leaves|]
    ensures Saved(b', dest, adj, leaves)
  {
    forall k | 0 <= k < |leaves| ensures b'[dest + k] == adj[leaves[k]] {
      assert b'[..dest + |leaves|][dest + k] == b[..dest + |leaves|][dest + k];
    }
  }

  /** Writes the adjoint of every var of args, in order, at dest, dest+1, ...
      and returns the position just past the last one written, which is dest
      plus the number of vars. Only [dest, end) of the buffer changes; the
      adjoints are only read. */
  method SaveAdjoints(buf: array<real>, dest: nat, adj: array<real>, args: seq<Arg>)
    returns (end: nat)
    requires buf != adj
    requires dest + |LeavesOf(args)| <= buf.Length
    requires AllBelow(LeavesOf(args), adj.Length)
    modifies buf
    ensures end == dest + |LeavesOf(args)|
    ensures buf[..dest] == old(buf[..dest]) && buf[end..] == old(buf[end..])
    ensures Saved(buf[..], dest, adj[..], LeavesOf(args))
    decreases SizeOf(args), 2
  {
    if |args| == 0 {
      return dest;
    }
    var rest := args[1..];
    assert LeavesOf(args) == Leaves(args[0]) + LeavesOf(rest);
    assert SizeOf(args) == Size(args[0]) + SizeOf(rest);
    AllBelowAppend(Leaves(args[0]), LeavesOf(rest), adj.Length);
    var mid := SaveFirst(buf, dest, adj, args[0]);
    ghost var afterHead := buf[..];
    end := SaveAdjoints(buf, mid, adj, rest);
    SavedFrame(afterHead, buf[..], dest, adj[..], Leaves(args[0]));
    SavedConcat(buf[..], dest, adj[..], Leaves(args[0]), LeavesOf(rest));
  }

  /** The overload chosen by the kind of the first argument. */
  method SaveFirst(buf: array<real>, dest: nat, adj: array<real>, a: Arg) returns (end: nat)
    requires buf != adj
    requires dest + |Leaves(a)| <= buf.Length
    requires AllBelow(Leaves(a), adj.Length)
    modifies buf
    ensures end == dest + |Leaves(a)|
    ensures buf[..dest] == old(buf[..dest]) && buf[end..] == old(buf[end..])
    ensures Saved(buf[..], dest, adj[..], Leaves(a))
    decreases Size(a), 1
  {
    match a {
      case Var(v) =>
        assert Leaves(a)[0] == v;
        end := SaveVar(buf, dest, adj, v);
      case VarVector(vs) =>
        end := SaveVarVector(buf, dest, adj, vs);
      case EigenVars(rows, cols, vs) =>
        end := SaveEigen(buf, dest, adj, rows, cols, vs);
      case Containers(items) =>
        end := SaveContainers(buf, dest, adj, items);
      case Arithmetic =>
        end := dest;
    }
  }

  /** A single var: its adjoint goes to dest and the cursor moves by one. */
  method SaveVar(buf: array<real>, dest: nat, adj: array<real>, v: nat) returns (end: nat)
    requires buf != adj && dest < buf.Length && v < adj.Length
    modifies buf
    ensures end == dest + 1
    ensures buf[..dest] == old(buf[..dest]) && buf[end..] == old(buf[end..])
    ensures Saved(buf[..], dest, adj[..], [v])
  {
    buf[dest] := adj[v];
    end := dest + 1;
  }

  /** A std::vector of vars: x.size() adjoints in index order, and the
      cursor moves by x.size(). */
  method SaveVarVector(buf: array<real>, dest: nat, adj: array<real>, vs: seq<nat>) returns (end: nat)
    requires buf != adj && dest + |vs| <= buf.Length && AllBelow(vs, adj.Length)
    modifies buf
    ensures end == dest + |vs|
    ensures buf[..dest] == old(buf[..dest]) && buf[end..] == old(buf[end..])
    ensures Saved(buf[..], dest, adj[..], vs)
  {
    for i := 0 to |vs|
      invariant buf[..dest] == old(buf[..dest])
      invariant buf[dest + |vs|..] == old(buf[dest + |vs|..])
      invariant forall k :: 0 <= k < i ==> buf[dest + k] == adj[vs[k]]
    {
      buf[dest + i] := adj[vs[i]];
    }
    end := dest + |vs|;
  }

  /** An Eigen matrix of vars: x.size() adjoints in linear x(i) order, and
      the cursor moves by x.size(). */
  method SaveEigen(buf: array<real>, dest: nat, adj: array<real>, rows: nat, cols: nat, vs: seq<nat>)
    returns (end: nat)
    requires buf != adj && dest + |vs| <= buf.Length && AllBelow(vs, adj.Length)
    modifies buf
    ensures end == dest + |vs|
    ensures buf[..dest] == old(buf[..dest]) && buf[end..] == old(buf[end..])
    ensures Saved(buf[..], dest, adj[..], vs)
  {
    for i := 0 to |vs|
      invariant buf[..dest] == old(buf[..dest])
      invariant buf[dest + |vs|..] == old(buf[dest + |vs|..])
      invariant forall k :: 0 <= k < i ==> buf[dest + k] == adj[vs[k]]
    {
      buf[dest + i] := adj[vs[i]];
    }
    end := dest + |vs|;
  }

  /** A std::vector of containers: each element is saved in turn, the
      cursor threading from one element to the next. */
  method SaveContainers(buf: array<real>, dest: nat, adj: array<real>, items: seq<Arg>) returns (end: nat)
    requires buf != adj && dest + |LeavesOf(items)| <= buf.Length
    requires AllBelow(LeavesOf(items), adj.Length)
    modifies buf
    ensures end == dest + |LeavesOf(items)|
    ensures buf[..dest] == old(buf[..dest]) && buf[end..] == old(buf[end..])
    ensures Saved(buf[..], dest, adj[..], LeavesOf(items))
    decreases 1 + SizeOf(items), 0
  {
    ghost var L := LeavesOf(items);
    end := dest;
    for i := 0 to |items|
      invariant end == dest + |LeavesOf(items[..i])|
      invariant L == LeavesOf(items[..i]) + LeavesOf(items[i..])
      invariant buf[..dest] == old(buf[..dest])
      invariant buf[dest + |L|..] == old(buf[dest + |L|..])
      invariant Saved(buf[..], dest, adj[..], LeavesOf(items[..i]))
    {
      ContainersStep(items, i, adj.Length);
      SizeOfElement(items, i);
      ghost var before := buf[..];
      ghost var start := end;
      end := SaveFirst(buf, end, adj, items[i]);
      PrefixKept(before, buf[..], dest, start);
      SuffixKept(before, buf[..], end, dest + |L|);
      SavedFrame(before, buf[..], dest, adj[..], LeavesOf(items[..i]));
      SavedConcat(buf[..], dest, adj[..], LeavesOf(items[..i]), Leaves(items[i]));
    }
    assert items[..|items|] == items;
  }

  /** The facts one step of the containers loop needs about the vars. */
  lemma {:induction false} ContainersStep(items: seq<Arg>, i: nat, n: nat)
    requires i < |items| && AllBelow(LeavesOf(items), n)
    requires LeavesOf(items) == LeavesOf(items[..i]) + LeavesOf(items[i..])
    ensures LeavesOf([items[i]]) == Leaves(items[i])
    ensures LeavesOf(items[..i + 1]) == LeavesOf(items[..i]) + Leaves(items[i])
    ensures LeavesOf(items[i..]) == Leaves(items[i]) + LeavesOf(items[i + 1..])
    ensures LeavesOf(items) == LeavesOf(items[..i + 1]) + LeavesOf(items[i + 1..])
    ensures AllBelow(Leaves(items[i]), n)
  {
    LeavesOfSingle(items[i]);
    LeavesOfSuffix(items, i);
    LeavesOfPrefix(items, i);
    ConcatAssociative(LeavesOf(items[..i]), Leaves(items[i]), LeavesOf(items[i + 1..]));
    AllBelowAppend(LeavesOf(items[..i]), LeavesOf(items[i..]), n);
    AllBelowAppend(Leaves(items[i]), LeavesOf(items[i + 1..]), n);
  }

  /** Two buffers that agree below y agree below any x <= y. */
  lemma {:induction false} PrefixKept(a: seq<real>, b: seq<real>, x: nat, y: nat)
    requires x <= y <= |a| == |b| && b[..y] == a[..y]
    ensures b[..x] == a[..x]
  {
    assert forall k :: 0 <= k < x ==> b[k] == b[..y][k];
  }

  /** Two buffers that agree from x on agree from any y >= x on. */
  lemma {:induction false} SuffixKept(a: seq<real>, b: seq<real>, x: nat, y: nat)
    requires x <= y <= |a| == |b| && b[x..] == a[x..]
    ensures b[y..] == a[y..]
  {
    assert forall k :: y <= k < |a| ==> b[k] == b[x..][k - x];
  }

  lemma {:induction false} ConcatAssociative(a: seq<nat>, b: seq<nat>, c: seq<nat>)
    ensures (a + b) + c == a + (b + c)
  {
  }

  lemma {:induction false} LeavesOfSuffix(items: seq<Arg>, i: nat)
    requires i < |items|
    ensures LeavesOf(items[i..]) == Leaves(items[i]) + LeavesOf(items[i + 1..])
  {
    assert items[i..][1..] == items[i + 1..];
  }

  lemma {:induction false} LeavesOfPrefix(items: seq<Arg>, i: nat)
    requires i < |items|
    ensures LeavesOf(items[..i + 1]) == LeavesOf(items[..i]) + Leaves(items[i])
  {
    assert items[..i + 1] == items[..i] + [items[i]];
    LeavesOfAppend(items[..i], [items[i]]);
    LeavesOfSingle(items[i]);
  }
}
