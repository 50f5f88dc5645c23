/** IEEE floating-point values as the source sees them: a finite number, or
    one of the three non-finite values that NumPy can hold in an array. */
module Numbers {

  datatype Float = Finite(v: real) | NaN | PosInf | NegInf

  /** Sum of a sequence of reals, added from the left. */
  function Sum(s: seq<real>): real
  {
    if s == [] then 0.0 else s[0] + Sum(s[1..])
  }

  /** Summing distributes over concatenation. */
  lemma {:induction false} SumConcat(a: seq<real>, b: seq<real>)
    ensures Sum(a + b) == Sum(a) + Sum(b)
  {
    if a == [] {
      assert a + b == b;
    } else {
      assert (a + b)[1..] == a[1..] + b;
      SumConcat(a[1..], b);
    }
  }

  /** A sum of non-negative terms is non-negative. */
  lemma {:induction false} SumNonNegative(s: seq<real>)
    requires forall i :: 0 <= i < |s| ==> s[i] >= 0.0
    ensures Sum(s) >= 0.0
  {
    if s != [] {
      SumNonNegative(s[1..]);
    }
  }

  /** Dividing by a non-zero number and multiplying back cancels. */
  lemma DivMulCancel(a: real, d: real)
    requires d != 0.0
    ensures d * (a / d) == a && (a / d) * d == a
  {
  }

  /** A non-zero number divided by itself is one. */
  lemma UnitQuotient(m: real)
    requires m != 0.0
    ensures m / m == 1.0
  {
  }
}
