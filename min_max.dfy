/** prim min and max: the least / greatest coefficient of a container.
    Integral containers reject the empty input; floating-point containers
    return an infinity for it. */
module MinMax {
  import opened Wrappers
  import opened Checks

  /** A double that may be one of the two infinities. */
  datatype Extended = NegInf | Finite(r: real) | PosInf
  {
    predicate Le(other: Extended)
    {
      match (this, other)
      case (NegInf, _) => true
      case (_, PosInf) => true
      case (Finite(a), Finite(b)) => a <= b
      case _ => false
    }
  }

  function ExtMin(a: Extended, b: Extended): (r: Extended)
    ensures r == a || r == b
    ensures r.Le(a) && r.Le(b)
  {
    if a.Le(b) then a else b
  }

  function ExtMax(a: Extended, b: Extended): (r: Extended)
    ensures r == a || r == b
    ensures a.Le(r) && b.Le(r)
  {
    if a.Le(b) then b else a
  }

  // ---------------------------------------------------------------------
  // minCoeff / maxCoeff on a non-empty container

  /** le is a total order: any two elements compare, two elements that
      compare both ways are equal, and comparisons chain. */
  ghost predicate TotalOrder<T(!new)>(le: (T, T) -> bool)
  {
    (forall x, y :: le(x, y) || le(y, x))
    && (forall x, y :: le(x, y) && le(y, x) ==> x == y)
    && (forall x, y, z :: le(x, y) && le(y, z) ==> le(x, z))
  }

  /** minCoeff: an element below or equal to every element. */
  function Least<T(!new)>(s: seq<T>, le: (T, T) -> bool): (r: T)
    requires |s| > 0 && TotalOrder(le)
    ensures r in s
    ensures forall k :: 0 <= k < |s| ==> le(r, s[k])
  {
    if |s| == 1 then s[0]
    else
      var m := Least(s[..|s| - 1], le);
      assert forall k :: 0 <= k < |s| - 1 ==> s[..|s| - 1][k] == s[k];
      if le(m, s[|s| - 1]) then m else s[|s| - 1]
  }

  /** maxCoeff: an element above or equal to every element. */
  function Greatest<T(!new)>(s: seq<T>, le: (T, T) -> bool): (r: T)
    requires |s| > 0 && TotalOrder(le)
    ensures r in s
    ensures forall k :: 0 <= k < |s| ==> le(s[k], r)
  {
    if |s| == 1 then s[0]
    else
      var m := Greatest(s[..|s| - 1], le);
      assert forall k :: 0 <= k < |s| - 1 ==> s[..|s| - 1][k] == s[k];
      if le(s[|s| - 1], m) then m else s[|s| - 1]
  }

  /** The order of int. */
  predicate IntLe(x: int, y: int)
  {
    x <= y
  }

  /** The order of double, infinities and NaN aside. */
  predicate RealLe(x: real, y: real)
  {
    x <= y
  }

  lemma IntLeTotal()
    ensures TotalOrder(IntLe)
  {
  }

  lemma RealLeTotal()
    ensures TotalOrder(RealLe)
  {
  }

  /** An element that bounds all the others from below is the least one. */
  lemma {:induction false} LeastUnique(s: seq<real>, x: real)
    requires x in s && forall k :: 0 <= k < |s| ==> x <= s[k]
    ensures TotalOrder(RealLe) && Least(s, RealLe) == x
  {
    RealLeTotal();
    var i :| 0 <= i < |s| && s[i] == x;
    var j :| 0 <= j < |s| && s[j] == Least(s, RealLe);
    assert x <= s[j] && Least(s, RealLe) <= s[i];
  }

  lemma {:induction false} GreatestUnique(s: seq<real>, x: real)
    requires x in s && forall k :: 0 <= k < |s| ==> s[k] <= x
    ensures TotalOrder(RealLe) && Greatest(s, RealLe) == x
  {
    RealLeTotal();
    var i :| 0 <= i < |s| && s[i] == x;
    var j :| 0 <= j < |s| && s[j] == Greatest(s, RealLe);
    assert s[j] <= x && s[i] <= Greatest(s, RealLe);
  }

  // ---------------------------------------------------------------------
  // The integral overloads

  /** min of an integer container: check_nonzero_size, then minCoeff. */
  function MinInt(s: seq<int>): (r: Result<int>)
    ensures r.Ok? <==> |s| > 0
    ensures r.Err? ==> r.error == ZeroSize && r.error.Kind() == InvalidArgument
    ensures r.Ok? ==> r.value in s && forall k :: 0 <= k < |s| ==> r.value <= s[k]
  {
    var _ :- CheckNonzeroSize(|s|);
    IntLeTotal();
    Ok(Least(s, IntLe))
  }

  /** max of an integer container: check_nonzero_size, then maxCoeff. */
  function MaxInt(s: seq<int>): (r: Result<int>)
    ensures r.Ok? <==> |s| > 0
    ensures r.Err? ==> r.error == ZeroSize && r.error.Kind() == InvalidArgument
    ensures r.Ok? ==> r.value in s && forall k :: 0 <= k < |s| ==> s[k] <= r.value
  {
    var _ :- CheckNonzeroSize(|s|);
    IntLeTotal();
    Ok(Greatest(s, IntLe))
  }

  // ---------------------------------------------------------------------
  // The floating-point overloads

  /** max of a floating-point container: -infinity when empty, which is the
      identity of max, so max distributes over concatenation. */
  function MaxReal(s: seq<real>): (r: Extended)
    ensures |s| == 0 <==> r == NegInf
    ensures |s| > 0 ==> r.Finite? && r.r in s && forall k :: 0 <= k < |s| ==> s[k] <= r.r
  {
    if |s| == 0 then NegInf else RealLeTotal(); Finite(Greatest(s, RealLe))
  }

  /** min of a floating-point container as written: the empty case returns
      -infinity, although the documentation promises infinity. */
  function MinRealAsWritten(s: seq<real>): (r: Extended)
    ensures |s| == 0 <==> r == NegInf
    ensures |s| > 0 ==> r.Finite? && r.r in s && forall k :: 0 <= k < |s| ==> r.r <= s[k]
  {
    if |s| == 0 then NegInf else RealLeTotal(); Finite(Least(s, RealLe))
  }

  /** min of a floating-point container with the documented empty case:
      +infinity, the identity of min. */
  function MinReal(s: seq<real>): (r: Extended)
    ensures |s| == 0 <==> r == PosInf
    ensures |s| > 0 ==> r.Finite? && r.r in s && forall k :: 0 <= k < |s| ==> r.r <= s[k]
  {
    if |s| == 0 then PosInf else RealLeTotal(); Finite(Least(s, RealLe))
  }

  /** The corrected min of a concatenation is the min of the two mins, for
      every split, empty parts included. */
  lemma {:induction false} MinAppend(a: seq<real>, b: seq<real>)
    ensures MinReal(a + b) == ExtMin(MinReal(a), MinReal(b))
  {
    if |a| == 0 {
      assert a + b == b;
    } else if |b| == 0 {
      assert a + b == a;
    } else {
      RealLeTotal();
      var x := if Least(a, RealLe) <= Least(b, RealLe) then Least(a, RealLe) else Least(b, RealLe);
      forall k | 0 <= k < |a + b| ensures x <= (a + b)[k] {
        if k < |a| { assert (a + b)[k] == a[k]; } else { assert (a + b)[k] == b[k - |a|]; }
      }
      assert x in a + b;
      LeastUnique(a + b, x);
    }
  }

  /** max of a concatenation is the max of the two maxima, for every split. */
  lemma {:induction false} MaxAppend(a: seq<real>, b: seq<real>)
    ensures MaxReal(a + b) == ExtMax(MaxReal(a), MaxReal(b))
  {
    if |a| == 0 {
      assert a + b == b;
    } else if |b| == 0 {
      assert a + b == a;
    } else {
      RealLeTotal();
      var x := if Greatest(a, RealLe) >= Greatest(b, RealLe) then Greatest(a, RealLe) else Greatest(b, RealLe);
      forall k | 0 <= k < |a + b| ensures (a + b)[k] <= x {
        if k < |a| { assert (a + b)[k] == a[k]; } else { assert (a + b)[k] == b[k - |a|]; }
      }
      assert x in a + b;
      GreatestUnique(a + b, x);
    }
  }

  /** As written, min of the empty part spoils the split: min([] + [1]) is 1
      but the min of min([]) = -infinity and min([1]) = 1 is -infinity. */
  lemma {:induction false} MinAppendFailsAsWritten()
    ensures MinRealAsWritten([] + [1.0]) != ExtMin(MinRealAsWritten([]), MinRealAsWritten([1.0]))
  {
    assert [] + [1.0] == [1.0];
  }
}
