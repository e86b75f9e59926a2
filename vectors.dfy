/**
 * Element-wise arithmetic on real vectors, the subset of array arithmetic the
 * transcriptions use (`+`, `-`, scalar `*`, `np.dot`, `np.sum`).
 */
module Vectors {
  import opened Codec

  /** `np.pi`, written out to the digits of its double-precision value. */
  const Pi: real := 3.141592653589793

  /** Element-wise sum of two vectors of the same dimension. */
  function Add(a: seq<real>, b: seq<real>): (r: seq<real>)
    requires |a| == |b|
    ensures |r| == |a|
  {
    seq(|a|, i requires 0 <= i < |a| => a[i] + b[i])
  }

  /** Element-wise difference of two vectors of the same dimension. */
  function Sub(a: seq<real>, b: seq<real>): (r: seq<real>)
    requires |a| == |b|
    ensures |r| == |a|
  {
    seq(|a|, i requires 0 <= i < |a| => a[i] - b[i])
  }

  /** A vector multiplied by a scalar. */
  function Scale(k: real, a: seq<real>): (r: seq<real>)
    ensures |r| == |a|
  {
    seq(|a|, i requires 0 <= i < |a| => k * a[i])
  }

  /** The zero vector of dimension `n`. */
  function Zeros(n: nat): (r: seq<real>)
    ensures |r| == n
    ensures forall i :: 0 <= i < n ==> r[i] == 0.0
  {
    seq(n, _ => 0.0)
  }

  /** Every entry of `v` is zero: what an equality-constraint vector must reach. */
  predicate IsZero(v: seq<real>)
  {
    forall i :: 0 <= i < |v| ==> v[i] == 0.0
  }

  /** Sum of all entries (`np.sum`). */
  function Sum(s: seq<real>): real
  {
    if s == [] then 0.0 else s[0] + Sum(s[1..])
  }

  /** Inner product (`np.dot` of two 1-D arrays). */
  function Dot(a: seq<real>, b: seq<real>): real
    requires |a| == |b|
  {
    if a == [] then 0.0 else a[0] * b[0] + Dot(a[1..], b[1..])
  }

  /** A sum of non-negative terms is non-negative, and it is zero only when every term is. */
  lemma {:induction false} SumNonNegative(s: seq<real>)
    requires forall i :: 0 <= i < |s| ==> s[i] >= 0.0
    ensures Sum(s) >= 0.0
    ensures Sum(s) == 0.0 <==> IsZero(s)
  {
    if s != [] {
      SumNonNegative(s[1..]);
      if !IsZero(s) && s[0] == 0.0 {
        var i :| 0 <= i < |s| && s[i] != 0.0;
        assert s[1..][i - 1] == s[i];
      }
      if IsZero(s) {
        assert IsZero(s[1..]) by {
          forall i | 0 <= i < |s[1..]| ensures s[1..][i] == 0.0 { assert s[1..][i] == s[i + 1]; }
        }
      }
    }
  }

  /** The squared norm `x . x` is non-negative. */
  lemma {:induction false} DotSelfNonNegative(a: seq<real>)
    ensures Dot(a, a) >= 0.0
  {
    if a != [] {
      DotSelfNonNegative(a[1..]);
      SquareNonNegative(a[0]);
    }
  }

  /** A square is non-negative. */
  lemma SquareNonNegative(x: real)
    ensures x * x >= 0.0
  {
  }

  /** A vector is zero exactly when it equals the zero vector of its dimension. */
  lemma ZeroIsZeros(v: seq<real>)
    ensures IsZero(v) <==> v == Zeros(|v|)
  {
    if IsZero(v) { assert v == Zeros(|v|); }
  }

  /** `a - b` is zero exactly when `a == b`. */
  lemma SubZeroIff(a: seq<real>, b: seq<real>)
    requires |a| == |b|
    ensures IsZero(Sub(a, b)) <==> a == b
  {
    if IsZero(Sub(a, b)) {
      forall i | 0 <= i < |a| ensures a[i] == b[i] { assert Sub(a, b)[i] == 0.0; }
    }
  }

  /** A joined vector is zero exactly when both parts are. */
  lemma ZeroAppend(a: seq<real>, b: seq<real>)
    ensures IsZero(a + b) <==> IsZero(a) && IsZero(b)
  {
    if IsZero(a + b) {
      forall i | 0 <= i < |b| ensures b[i] == 0.0 { assert (a + b)[|a| + i] == b[i]; }
      forall i | 0 <= i < |a| ensures a[i] == 0.0 { assert (a + b)[i] == a[i]; }
    }
  }

  /** A row-major concatenation of rows is zero exactly when every row is. */
  lemma {:induction false} ConcatZero(rows: seq<seq<real>>)
    ensures IsZero(Concat(rows)) <==> forall k :: 0 <= k < |rows| ==> IsZero(rows[k])
  {
    if rows != [] {
      ConcatZero(rows[1..]);
      ZeroAppend(rows[0], Concat(rows[1..]));
      if forall k :: 0 <= k < |rows[1..]| ==> IsZero(rows[1..][k]) {
        forall k | 1 <= k < |rows| ensures IsZero(rows[k]) { assert rows[k] == rows[1..][k - 1]; }
      }
    }
  }
}
