/** Finite sums and products of reals, taken front to back the way the
    library's loops and Eigen reductions accumulate them. */
module Sums {

  /** s[0] + ... + s[|s|-1]; the empty sum is 0. */
  function Sum(s: seq<real>): real
  {
    if |s| == 0 then 0.0 else Sum(s[..|s| - 1]) + s[|s| - 1]
  }

  /** s[0] * ... * s[|s|-1]; the empty product is 1. */
  function Prod(s: seq<real>): real
  {
    if |s| == 0 then 1.0 else Prod(s[..|s| - 1]) * s[|s| - 1]
  }

  /** Pointwise product of two sequences of the same length. */
  function Mul(a: seq<real>, b: seq<real>): (r: seq<real>)
    requires |a| == |b|
    ensures |r| == |a| && forall k :: 0 <= k < |a| ==> r[k] == a[k] * b[k]
  {
    seq(|a|, k requires 0 <= k < |a| => a[k] * b[k])
  }

  /** Pointwise sum of two sequences of the same length. */
  function Add(a: seq<real>, b: seq<real>): (r: seq<real>)
    requires |a| == |b|
    ensures |r| == |a| && forall k :: 0 <= k < |a| ==> r[k] == a[k] + b[k]
  {
    seq(|a|, k requires 0 <= k < |a| => a[k] + b[k])
  }

  /** Every entry multiplied by c. */
  function Scale(c: real, a: seq<real>): (r: seq<real>)
    ensures |r| == |a| && forall k :: 0 <= k < |a| ==> r[k] == c * a[k]
  {
    seq(|a|, k requires 0 <= k < |a| => c * a[k])
  }

  /** n copies of c. */
  function Fill(n: nat, c: real): (r: seq<real>)
    ensures |r| == n && forall k :: 0 <= k < n ==> r[k] == c
  {
    seq(n, k => c)
  }

  lemma {:induction false} SumFill(n: nat, c: real)
    ensures Sum(Fill(n, c)) == n as real * c
  {
    SumConstant(Fill(n, c), c);
  }

  /** The dot product a . b. */
  function Dot(a: seq<real>, b: seq<real>): real
    requires |a| == |b|
  {
    Sum(Mul(a, b))
  }

  /** The squared Euclidean norm, Eigen's squaredNorm(). */
  function SquaredNorm(a: seq<real>): real
  {
    Dot(a, a)
  }

  lemma {:induction false} SumAppend(a: seq<real>, b: seq<real>)
    ensures Sum(a + b) == Sum(a) + Sum(b)
    decreases |b|
  {
    if |b| == 0 {
      assert a + b == a;
    } else {
      var n := |b| - 1;
      assert (a + b)[..|a + b| - 1] == a + b[..n];
      SumAppend(a, b[..n]);
    }
  }

  lemma {:induction false} SumSingleton(x: real)
    ensures Sum([x]) == x
  {
    assert [x][..0] == [];
  }

  /** Removing entry k from a sum leaves the rest. */
  lemma {:induction false} SumRemove(s: seq<real>, k: nat)
    requires k < |s|
    ensures Sum(s) == s[k] + Sum(s[..k] + s[k + 1..])
  {
    assert s == s[..k] + [s[k]] + s[k + 1..];
    SumAppend(s[..k] + [s[k]], s[k + 1..]);
    SumAppend(s[..k], [s[k]]);
    SumSingleton(s[k]);
    SumAppend(s[..k], s[k + 1..]);
  }

  /** Overwriting entry k changes the sum by the difference. */
  lemma {:induction false} SumUpdate(s: seq<real>, k: nat, v: real)
    requires k < |s|
    ensures Sum(s[k := v]) == Sum(s) - s[k] + v
  {
    SumRemove(s, k);
    SumRemove(s[k := v], k);
    assert s[k := v][..k] + s[k := v][k + 1..] == s[..k] + s[k + 1..];
  }

  /** A sum depends only on the multiset of its entries. */
  lemma {:induction false} SumPermutation(a: seq<real>, b: seq<real>)
    requires multiset(a) == multiset(b)
    ensures Sum(a) == Sum(b)
    decreases |a|
  {
    if |a| == 0 {
      assert |b| == |multiset(b)| == 0;
    } else {
      var n := |a| - 1;
      var x := a[n];
      assert x in multiset(b);
      var k :| 0 <= k < |b| && b[k] == x;
      var rest := b[..k] + b[k + 1..];
      PermutationWithout(a, b, n, k);
      SumPermutation(a[..n], rest);
      SumRemove(b, k);
    }
  }

  /** Taking the same value out of two permutations of each other leaves
      permutations of each other. */
  lemma {:induction false} PermutationWithout<T>(a: seq<T>, b: seq<T>, n: nat, k: nat)
    requires multiset(a) == multiset(b) && n == |a| - 1 && k < |b| && b[k] == a[n]
    ensures multiset(a[..n]) == multiset(b[..k] + b[k + 1..])
  {
    var x := a[n];
    calc {
      multiset(a[..n]);
    == { assert a == a[..n] + [x]; }
      multiset(a) - multiset{x};
      multiset(b) - multiset{x};
    == { MultisetWithout(b, k); }
      multiset(b[..k] + b[k + 1..]);
    }
  }

  /** Taking entry k out of s takes it out of the multiset of s. */
  lemma {:induction false} MultisetWithout<T>(s: seq<T>, k: nat)
    requires k < |s|
    ensures multiset(s) == multiset(s[..k] + s[k + 1..]) + multiset{s[k]}
  {
    assert s == s[..k] + [s[k]] + s[k + 1..];
  }

  lemma {:induction false} SumAdd(a: seq<real>, b: seq<real>)
    requires |a| == |b|
    ensures Sum(Add(a, b)) == Sum(a) + Sum(b)
    decreases |a|
  {
    if |a| > 0 {
      var n := |a| - 1;
      assert Add(a, b)[..n] == Add(a[..n], b[..n]);
      SumAdd(a[..n], b[..n]);
    }
  }

  lemma {:induction false} SumScale(c: real, a: seq<real>)
    ensures Sum(Scale(c, a)) == c * Sum(a)
    decreases |a|
  {
    if |a| > 0 {
      var n := |a| - 1;
      forall k | 0 <= k < n ensures Scale(c, a)[..n][k] == Scale(c, a[..n])[k] {
      }
      assert Scale(c, a)[..n] == Scale(c, a[..n]);
      SumScale(c, a[..n]);
    }
  }

  /** A sum of n copies of c. */
  lemma {:induction false} SumConstant(s: seq<real>, c: real)
    requires forall k :: 0 <= k < |s| ==> s[k] == c
    ensures Sum(s) == |s| as real * c
    decreases |s|
  {
    if |s| > 0 {
      SumConstant(s[..|s| - 1], c);
    }
  }

  /** A sum of non-negative terms is non-negative, and it is zero only when
      every term is. */
  lemma {:induction false} SumNonNegative(s: seq<real>)
    requires forall k :: 0 <= k < |s| ==> s[k] >= 0.0
    ensures Sum(s) >= 0.0
    ensures Sum(s) == 0.0 <==> forall k :: 0 <= k < |s| ==> s[k] == 0.0
    decreases |s|
  {
    if |s| > 0 {
      var n := |s| - 1;
      SumNonNegative(s[..n]);
      assert (forall k :: 0 <= k < |s| ==> s[k] == 0.0) <==>
        (forall k :: 0 <= k < n ==> s[..n][k] == 0.0) && s[n] == 0.0;
    }
  }

  /** The squared norm is never negative. */
  lemma {:induction false} SquaredNormNonNegative(a: seq<real>)
    ensures SquaredNorm(a) >= 0.0
  {
    var m := Mul(a, a);
    forall k | 0 <= k < |a| ensures m[k] >= 0.0 {
      SquareNonNegative(a[k]);
    }
    SumNonNegative(m);
  }

  lemma {:induction false} SquareNonNegative(x: real)
    ensures x * x >= 0.0
  {
    if x < 0.0 {
      assert x * x == (-x) * (-x);
      PositiveProduct(-x, -x);
    } else if x > 0.0 {
      PositiveProduct(x, x);
    }
  }

  lemma {:induction false} PositiveProduct(x: real, y: real)
    requires x > 0.0 && y > 0.0
    ensures x * y > 0.0
  {
  }

  /** A product over a sequence that ends with its last entry. */
  lemma {:induction false} ProdSingleton(x: real)
    ensures Prod([x]) == x
  {
    assert [x][..0] == [];
  }

  /** The dot product is linear in each operand. */
  lemma {:induction false} DotAddLeft(a: seq<real>, b: seq<real>, c: seq<real>)
    requires |a| == |b| == |c|
    ensures Dot(Add(a, b), c) == Dot(a, c) + Dot(b, c)
  {
    forall k | 0 <= k < |a| ensures Mul(Add(a, b), c)[k] == Add(Mul(a, c), Mul(b, c))[k] {
      assert (a[k] + b[k]) * c[k] == a[k] * c[k] + b[k] * c[k];
    }
    assert Mul(Add(a, b), c) == Add(Mul(a, c), Mul(b, c));
    SumAdd(Mul(a, c), Mul(b, c));
  }

  lemma {:induction false} DotAddRight(a: seq<real>, b: seq<real>, c: seq<real>)
    requires |a| == |b| == |c|
    ensures Dot(c, Add(a, b)) == Dot(c, a) + Dot(c, b)
  {
    forall k | 0 <= k < |a| ensures Mul(c, Add(a, b))[k] == Add(Mul(c, a), Mul(c, b))[k] {
      assert c[k] * (a[k] + b[k]) == c[k] * a[k] + c[k] * b[k];
    }
    assert Mul(c, Add(a, b)) == Add(Mul(c, a), Mul(c, b));
    SumAdd(Mul(c, a), Mul(c, b));
  }

  lemma {:induction false} DotScaleLeft(h: real, a: seq<real>, c: seq<real>)
    requires |a| == |c|
    ensures Dot(Scale(h, a), c) == h * Dot(a, c)
  {
    var l := Mul(Scale(h, a), c);
    var r := Scale(h, Mul(a, c));
    forall k | 0 <= k < |a| ensures l[k] == r[k] {
      var x, y := a[k], c[k];
      assert l[k] == (h * x) * y && r[k] == h * (x * y);
      ScaleFactorLeft(h, x, y);
    }
    assert l == r;
    SumScale(h, Mul(a, c));
  }

  lemma {:induction false} DotScaleRight(h: real, a: seq<real>, c: seq<real>)
    requires |a| == |c|
    ensures Dot(c, Scale(h, a)) == h * Dot(c, a)
  {
    var l := Mul(c, Scale(h, a));
    var r := Scale(h, Mul(c, a));
    forall k | 0 <= k < |a| ensures l[k] == r[k] {
      var x, y := c[k], a[k];
      assert l[k] == x * (h * y) && r[k] == h * (x * y);
      ScaleFactorRight(h, x, y);
    }
    assert l == r;
    SumScale(h, Mul(c, a));
  }

  lemma {:induction false} ScaleFactorLeft(h: real, x: real, y: real)
    ensures (h * x) * y == h * (x * y)
  {
  }

  lemma {:induction false} ScaleFactorRight(h: real, x: real, y: real)
    ensures x * (h * y) == h * (x * y)
  {
  }

  /** A dot product with a zero vector vanishes. */
  lemma {:induction false} DotZero(a: seq<real>, z: seq<real>)
    requires |a| == |z| && forall k :: 0 <= k < |z| ==> z[k] == 0.0
    ensures Dot(a, z) == 0.0 && Dot(z, a) == 0.0
  {
    SumConstant(Mul(a, z), 0.0);
    SumConstant(Mul(z, a), 0.0);
  }
}
