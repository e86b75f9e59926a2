/**
 * Box bounds on decision variables, as the rows of the `bounds` table handed
 * to the NLP solver: one `(lower, upper)` pair per variable, each end a real
 * number or an infinity.
 */
module Bounds {
  import opened Codec

  /** A real number extended with the two infinities (`-onp.inf`, `onp.inf`). */
  datatype Ext = NegInf | Fin(r: real) | PosInf

  /** Order on extended reals. */
  predicate Le(a: Ext, b: Ext)
  {
    a.NegInf? || b.PosInf? || (a.Fin? && b.Fin? && a.r <= b.r)
  }

  /** One row of a bounds table: lower and upper limit of one variable. */
  datatype Bound = Bound(lo: Ext, hi: Ext)

  /** The value `x` lies within the row's limits. */
  predicate Admits(b: Bound, x: real)
  {
    Le(b.lo, Fin(x)) && Le(Fin(x), b.hi)
  }

  /** The lower limit does not exceed the upper one. */
  predicate Ordered(b: Bound)
  {
    Le(b.lo, b.hi)
  }

  /** A zero-width row: the variable is fixed to one value. */
  predicate Pinned(b: Bound)
  {
    b.lo.Fin? && b.lo == b.hi
  }

  /** The row `[v, v]`. */
  function Pin(v: real): (b: Bound)
    ensures Pinned(b) && Ordered(b)
    ensures forall x :: Admits(b, x) <==> x == v
  {
    Bound(Fin(v), Fin(v))
  }

  /** The row `[lo, hi]` with finite ends. */
  function Between(lo: real, hi: real): (b: Bound)
    ensures Ordered(b) <==> lo <= hi
    ensures forall x :: Admits(b, x) <==> lo <= x <= hi
  {
    Bound(Fin(lo), Fin(hi))
  }

  /** The row `(-inf, inf)`: no restriction. */
  const Unbounded: Bound := Bound(NegInf, PosInf)

  /** The unbounded row admits every value and pins nothing. */
  lemma UnboundedAdmitsAll(x: real)
    ensures Admits(Unbounded, x)
    ensures Ordered(Unbounded) && !Pinned(Unbounded)
  {
  }

  /** `Le` is transitive. */
  lemma LeTrans(a: Ext, b: Ext, c: Ext)
    requires Le(a, b) && Le(b, c)
    ensures Le(a, c)
  {
  }

  /**
   * Some value satisfies a row exactly when the row is ordered and neither
   * end is the infinity on the wrong side.
   */
  lemma SatisfiableIffOrdered(b: Bound)
    ensures (exists x :: Admits(b, x)) <==> Ordered(b) && b.lo != PosInf && b.hi != NegInf
  {
    if Ordered(b) && b.lo != PosInf && b.hi != NegInf {
      var x := if b.lo.Fin? then b.lo.r else if b.hi.Fin? then b.hi.r else 0.0;
      assert Admits(b, x);
    } else {
      forall x | Admits(b, x) ensures false { LeTrans(b.lo, Fin(x), b.hi); }
    }
  }

  /** A table row of even width read as consecutive `(lower, upper)` pairs. */
  function RowPairs(row: seq<Ext>): (pairs: seq<Bound>)
    requires |row| % 2 == 0
    ensures |pairs| == |row| / 2
    ensures forall j :: 0 <= j < |pairs| ==> pairs[j] == Bound(row[2 * j], row[2 * j + 1])
  {
    seq(|row| / 2, j requires 0 <= j < |row| / 2 => Bound(row[2 * j], row[2 * j + 1]))
  }

  /**
   * `np.reshape(table, (-1, 2))`: the table read row-major as one list of
   * `(lower, upper)` pairs.
   */
  function Reshape(rows: seq<seq<Ext>>, w: nat): (pairs: seq<Bound>)
    requires forall i :: 0 <= i < |rows| ==> |rows[i]| == 2 * w
  {
    Concat(seq(|rows|, i requires 0 <= i < |rows| => RowPairs(rows[i])))
  }

  /** Pair `j` of row `k` lands at position `w * k + j` of the reshaped table. */
  lemma ReshapeAt(rows: seq<seq<Ext>>, w: nat, k: nat, j: nat)
    requires forall i :: 0 <= i < |rows| ==> |rows[i]| == 2 * w
    requires k < |rows| && j < w
    ensures |Reshape(rows, w)| == w * |rows|
    ensures w * k + j < |Reshape(rows, w)|
    ensures Reshape(rows, w)[w * k + j] == Bound(rows[k][2 * j], rows[k][2 * j + 1])
  {
    var pairs := seq(|rows|, i requires 0 <= i < |rows| => RowPairs(rows[i]));
    assert Uniform(pairs, w);
    ConcatIndex(pairs, w, k, j);
  }

  /** The reshaped table has `w` pairs per row. */
  lemma ReshapeLength(rows: seq<seq<Ext>>, w: nat)
    requires forall i :: 0 <= i < |rows| ==> |rows[i]| == 2 * w
    ensures |Reshape(rows, w)| == w * |rows|
  {
    var pairs := seq(|rows|, i requires 0 <= i < |rows| => RowPairs(rows[i]));
    assert Uniform(pairs, w);
    ConcatLength(pairs, w);
  }

  /** A decision vector satisfies a table when each entry lies within its row. */
  predicate AdmitsAll(table: seq<Bound>, v: seq<real>)
    requires |table| == |v|
  {
    forall i :: 0 <= i < |v| ==> Admits(table[i], v[i])
  }

  /** Two tables stacked admit two vectors joined exactly when each admits its own. */
  lemma AdmitsAllAppend(t1: seq<Bound>, t2: seq<Bound>, v1: seq<real>, v2: seq<real>)
    requires |t1| == |v1| && |t2| == |v2|
    ensures AdmitsAll(t1 + t2, v1 + v2) <==> AdmitsAll(t1, v1) && AdmitsAll(t2, v2)
  {
    if AdmitsAll(t1 + t2, v1 + v2) {
      forall i | 0 <= i < |v1| ensures Admits(t1[i], v1[i]) {
        assert (t1 + t2)[i] == t1[i] && (v1 + v2)[i] == v1[i];
      }
      forall i | 0 <= i < |v2| ensures Admits(t2[i], v2[i]) {
        assert (t1 + t2)[|t1| + i] == t2[i] && (v1 + v2)[|v1| + i] == v2[i];
      }
    }
  }

  /** Row-major tables of width `w` admit row-major vectors exactly when each row admits its row. */
  lemma {:induction false} AdmitsAllConcat(ts: seq<seq<Bound>>, vs: seq<seq<real>>, w: nat)
    requires |ts| == |vs| && Uniform(ts, w) && Uniform(vs, w)
    ensures |Concat(ts)| == |Concat(vs)|
    ensures AdmitsAll(Concat(ts), Concat(vs)) <==> forall k :: 0 <= k < |ts| ==> AdmitsAll(ts[k], vs[k])
  {
    ConcatLength(ts, w);
    ConcatLength(vs, w);
    if ts != [] {
      UniformTail(ts, w);
      UniformTail(vs, w);
      AdmitsAllConcat(ts[1..], vs[1..], w);
      ConcatLength(ts[1..], w);
      ConcatLength(vs[1..], w);
      AdmitsAllAppend(ts[0], Concat(ts[1..]), vs[0], Concat(vs[1..]));
      if forall k :: 0 <= k < |ts[1..]| ==> AdmitsAll(ts[1..][k], vs[1..][k]) {
        forall k | 1 <= k < |ts| ensures AdmitsAll(ts[k], vs[k]) {
          assert ts[k] == ts[1..][k - 1] && vs[k] == vs[1..][k - 1];
        }
      }
    }
  }
}
