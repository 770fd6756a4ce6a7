/**
  A structured value: the collection of named tensors that the line search moves
  through. Every collection in one solve has the same fixed key set and shapes, so
  the model flattens it, key by key in key order, into one sequence of reals;
  element-wise mapping and zipping then act position by position.
*/
module Structured {

  type Values = seq<real>

  /** Element-wise `v * c` (an fmap with a scaling lambda). */
  function Scale(v: Values, c: real): (r: Values)
    ensures |r| == |v|
    ensures forall i :: 0 <= i < |v| ==> r[i] == v[i] * c
  {
    seq(|v|, i requires 0 <= i < |v| => v[i] * c)
  }

  /** Element-wise `u + v`; zipping needs operands of the same structure. */
  function Add(u: Values, v: Values): (r: Values)
    requires |u| == |v|
    ensures |r| == |u|
    ensures forall i :: 0 <= i < |u| ==> r[i] == u[i] + v[i]
  {
    seq(|u|, i requires 0 <= i < |u| => u[i] + v[i])
  }

  /** Element-wise negation. */
  function Neg(v: Values): (r: Values)
    ensures |r| == |v|
    ensures forall i :: 0 <= i < |v| ==> r[i] == -v[i]
  {
    seq(|v|, i requires 0 <= i < |v| => -v[i])
  }

  /** The all-zero value of a given size. */
  function Zeros(n: nat): (r: Values)
    ensures |r| == n
    ensures forall i :: 0 <= i < n ==> r[i] == 0.0
  {
    seq(n, i => 0.0)
  }

  /** Applying a delta and then its negation leaves no net offset. */
  lemma AddNegCancels(v: Values)
    ensures Add(v, Neg(v)) == Zeros(|v|)
  {
  }

  /** Scaling by a and then by b is scaling by their product c. */
  lemma ScaleScale(v: Values, a: real, b: real, c: real)
    requires c == a * b
    ensures Scale(Scale(v, a), b) == Scale(v, c)
  {
    forall i | 0 <= i < |v|
      ensures Scale(Scale(v, a), b)[i] == Scale(v, c)[i]
    {
      assert (v[i] * a) * b == v[i] * (a * b);
    }
  }

  /** Adding multiples a and b of one value is its multiple by their sum c. */
  lemma AddScales(v: Values, a: real, b: real, c: real)
    requires c == a + b
    ensures Add(Scale(v, a), Scale(v, b)) == Scale(v, c)
  {
    forall i | 0 <= i < |v|
      ensures Add(Scale(v, a), Scale(v, b))[i] == Scale(v, c)[i]
    {
      assert v[i] * a + v[i] * b == v[i] * (a + b);
    }
  }

  /** Scaling by equal coefficients gives equal values. */
  lemma ScaleEq(v: Values, a: real, b: real)
    requires a == b
    ensures Scale(v, a) == Scale(v, b)
  {
  }
}
