/** eigen_seq_view: a read-only view of an argument as a sequence of Eigen
    objects. A lone vector-like argument is a sequence of one; a std::vector
    of matrices or of std::vector<double> is viewed element by element. */
module EigenSeqView {
  import opened Matrices

  datatype View =
    | Single(m: Matrix<real>)               // the generic view
    | OfMatrices(ms: seq<Matrix<real>>)     // std::vector<Eigen::Matrix<double, R, C>>
    | OfVectors(vs: seq<seq<real>>)         // std::vector<std::vector<double>>
  {
    /** size(). */
    function Size(): nat
    {
      match this
      case Single(_) => 1
      case OfMatrices(ms) => |ms|
      case OfVectors(vs) => |vs|
    }

    /** operator[]: the generic view ignores its index; the two
        specialisations return element i, a std::vector<double> as a
        column vector. */
    function At(i: int): (r: Matrix<real>)
      requires Single? || 0 <= i < Size()
      ensures Single? ==> r == m
      ensures OfMatrices? ==> r == ms[i]
      ensures OfVectors? ==> (r.Valid() && r.rows == |vs[i]| && r.cols == 1
        && forall k :: 0 <= k < |vs[i]| ==> r.At(k, 0) == vs[i][k])
    {
      match this
      case Single(m) => m
      case OfMatrices(ms) => ms[i]
      case OfVectors(vs) => ColVector(vs[i])
    }
  }

  /** Every index below size() names an element, and the generic view gives
      the same object whatever the index. */
  lemma {:induction false} GenericIgnoresIndex(v: View, i: int, j: int)
    requires v.Single?
    ensures v.Size() == 1
    ensures v.At(i) == v.At(j) == v.At(0)
  {
  }

  /** A std::vector<double> viewed through eigen_seq_view and flattened back
      gives the original elements. */
  lemma {:induction false} VectorViewRoundTrip(v: View, i: nat)
    requires v.OfVectors? && i < v.Size()
    ensures Flatten(v.At(i).columns) == v.vs[i]
  {
    var m := v.At(i);
    FlattenIndex(m);
    assert forall k :: 0 <= k < |v.vs[i]| ==> Flatten(m.columns)[LinearIndex(k, 0, m.rows)] == v.vs[i][k];
  }
}
