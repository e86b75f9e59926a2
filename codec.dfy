/**
 * Flattening a list of equal-width rows into one flat vector and cutting it
 * back: the row-major layout that `np.ravel` and `ravel_pytree` produce and
 * that the matching `unravel` undoes.
 */
module Codec {

  /** Row-major concatenation of rows. */
  function Concat<T>(rows: seq<seq<T>>): seq<T>
  {
    if rows == [] then [] else rows[0] + Concat(rows[1..])
  }

  /** Every row has width `w`. */
  predicate Uniform<T>(rows: seq<seq<T>>, w: nat)
  {
    forall i :: 0 <= i < |rows| ==> |rows[i]| == w
  }

  /** Cuts `n` consecutive rows of width `w` out of a flat vector. */
  function Chunk<T>(v: seq<T>, w: nat, n: nat): (rows: seq<seq<T>>)
    requires |v| == w * n
    ensures |rows| == n && Uniform(rows, w)
  {
    if n == 0 then [] else [v[..w]] + Chunk(v[w..], w, n - 1)
  }

  /** Concatenating rows of width `w` gives `w` entries per row. */
  lemma {:induction false} ConcatLength<T>(rows: seq<seq<T>>, w: nat)
    requires Uniform(rows, w)
    ensures |Concat(rows)| == w * |rows|
  {
    if rows != [] {
      UniformTail(rows, w);
      ConcatLength(rows[1..], w);
    }
  }

  lemma UniformTail<T>(rows: seq<seq<T>>, w: nat)
    requires rows != [] && Uniform(rows, w)
    ensures Uniform(rows[1..], w)
  {
    forall i | 0 <= i < |rows[1..]| ensures |rows[1..][i]| == w { assert rows[1..][i] == rows[i + 1]; }
  }

  /** Entry `w * k + j` of the concatenation is row `k`, column `j`. */
  lemma {:induction false} ConcatIndex<T>(rows: seq<seq<T>>, w: nat, k: nat, j: nat)
    requires Uniform(rows, w) && k < |rows| && j < w
    ensures |Concat(rows)| == w * |rows|
    ensures w * k + j < |Concat(rows)| && Concat(rows)[w * k + j] == rows[k][j]
  {
    ConcatLength(rows, w);
    UniformTail(rows, w);
    if k > 0 {
      ConcatIndex(rows[1..], w, k - 1, j);
      assert w * k + j == w + (w * (k - 1) + j);
      assert rows[1..][k - 1] == rows[k];
    }
  }

  /** All entries of a concatenation of rows of width `w`, addressed row-major. */
  lemma ConcatAt<T>(rows: seq<seq<T>>, w: nat)
    requires Uniform(rows, w)
    ensures |Concat(rows)| == w * |rows|
    ensures forall k, j :: 0 <= k < |rows| && 0 <= j < w && w * k + j < |Concat(rows)| ==> Concat(rows)[w * k + j] == rows[k][j]
  {
    ConcatLength(rows, w);
    forall k, j | 0 <= k < |rows| && 0 <= j < w && w * k + j < |Concat(rows)|
      ensures Concat(rows)[w * k + j] == rows[k][j]
    {
      ConcatIndex(rows, w, k, j);
    }
  }

  /** Unravelling a concatenation gives the rows back. */
  lemma {:induction false} ChunkConcat<T>(rows: seq<seq<T>>, w: nat)
    requires Uniform(rows, w)
    ensures |Concat(rows)| == w * |rows|
    ensures Chunk(Concat(rows), w, |rows|) == rows
  {
    ConcatLength(rows, w);
    if rows != [] {
      var rest := rows[1..];
      UniformTail(rows, w);
      ChunkConcat(rest, w);
      assert Concat(rows)[..w] == rows[0];
      assert Concat(rows)[w..] == Concat(rest);
    }
  }

  /** Ravelling the rows cut out of a flat vector gives the vector back. */
  lemma {:induction false} ConcatChunk<T>(v: seq<T>, w: nat, n: nat)
    requires |v| == w * n
    ensures Concat(Chunk(v, w, n)) == v
  {
    if n > 0 {
      ConcatChunk(v[w..], w, n - 1);
      assert v == v[..w] + v[w..];
    }
  }
}
