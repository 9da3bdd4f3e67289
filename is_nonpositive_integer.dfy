/** is_nonpositive_integer: whether a double (or an int promoted to one)
    is an integer that is not positive. */
module NonpositiveInteger {

  /** A double: a finite value, an infinity, or NaN. */
  datatype Double = Finite(r: real) | PosInf | NegInf | NaN

  /** The largest 32-bit int, std::numeric_limits<int>::max(). */
  const IntMax: int := 0x7fff_ffff

  /** An int argument, promoted to double. */
  function FromInt(n: int): Double
  {
    Finite(n as real)
  }

  /** The comparison x <= 0.0 with IEEE semantics: NaN compares false,
      -infinity compares true. */
  predicate AtMostZero(x: Double)
  {
    match x
    case Finite(r) => r <= 0.0
    case NegInf => true
    case _ => false
  }

  /** is_integer: a finite value equal to its own floor. The infinities and
      NaN are not integers. */
  predicate IsInteger(x: Double)
  {
    x.Finite? && x.r.Floor as real == x.r
  }

  /** is_nonpositive_integer(x) is x <= 0.0 && is_integer(x). */
  predicate IsNonpositiveInteger(x: Double)
  {
    AtMostZero(x) && IsInteger(x)
  }

  /** Exactly the doubles that hold an int n <= 0 pass. */
  lemma {:induction false} NonpositiveIntegerIff(x: Double)
    ensures IsNonpositiveInteger(x) <==> exists n: int :: n <= 0 && x == FromInt(n)
  {
    if IsNonpositiveInteger(x) {
      var n := x.r.Floor;
      assert n <= 0 && x == FromInt(n);
    }
  }

  /** The values the library's unit test checks; std::numeric_limits<int>
      ::quiet_NaN() is 0, so int_nan is the int 0. */
  lemma {:induction false} KnownValues()
    ensures IsNonpositiveInteger(FromInt(-10))
    ensures IsNonpositiveInteger(FromInt(0))
    ensures !IsNonpositiveInteger(FromInt(1))
    ensures !IsNonpositiveInteger(Finite(2.5))
    ensures !IsNonpositiveInteger(Finite(-5.5))
    ensures IsNonpositiveInteger(FromInt(-IntMax))
    ensures !IsNonpositiveInteger(FromInt(IntMax))
    ensures !IsNonpositiveInteger(PosInf)
    ensures !IsNonpositiveInteger(NaN)
  {
    assert (2.5).Floor == 2;
    assert (-5.5).Floor == -6;
  }
}
