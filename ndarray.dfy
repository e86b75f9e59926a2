/**
 * The in-place assignments on two-dimensional numpy arrays that the bounds
 * tables are built with: a whole column, a whole row, every row at once
 * (broadcasting one row), and the row-major snapshot of the contents.
 */
module NdArray {

  /** The contents of `a`, row by row. */
  function Rows<T>(a: array2<T>): (rows: seq<seq<T>>)
    reads a
    ensures |rows| == a.Length0
    ensures forall i :: 0 <= i < |rows| ==> |rows[i]| == a.Length1
    ensures forall i, j :: 0 <= i < a.Length0 && 0 <= j < a.Length1 ==> rows[i][j] == a[i, j]
  {
    seq(a.Length0, i requires 0 <= i < a.Length0 reads a => seq(a.Length1, j requires 0 <= j < a.Length1 reads a => a[i, j]))
  }

  /** `a[:, c] = v`: every entry of column `c` becomes `v`, nothing else changes. */
  method SetColumn<T>(a: array2<T>, c: nat, v: T)
    requires c < a.Length1
    modifies a
    ensures forall i, j :: 0 <= i < a.Length0 && 0 <= j < a.Length1 ==>
      a[i, j] == (if j == c then v else old(a[i, j]))
  {
    var i := 0;
    while i < a.Length0
      invariant 0 <= i <= a.Length0
      invariant forall i', j :: 0 <= i' < a.Length0 && 0 <= j < a.Length1 ==>
        a[i', j] == (if j == c && i' < i then v else old(a[i', j]))
    {
      a[i, c] := v;
      i := i + 1;
    }
  }

  /** `a[r, :] = v`: every entry of row `r` becomes `v`, nothing else changes. */
  method SetRow<T>(a: array2<T>, r: nat, v: T)
    requires r < a.Length0
    modifies a
    ensures forall i, j :: 0 <= i < a.Length0 && 0 <= j < a.Length1 ==>
      a[i, j] == (if i == r then v else old(a[i, j]))
  {
    var j := 0;
    while j < a.Length1
      invariant 0 <= j <= a.Length1
      invariant forall i, j' :: 0 <= i < a.Length0 && 0 <= j' < a.Length1 ==>
        a[i, j'] == (if i == r && j' < j then v else old(a[i, j']))
    {
      a[r, j] := v;
      j := j + 1;
    }
  }

  /** `a[:] = row`: `row` is broadcast over every row of `a`. */
  method Broadcast<T>(a: array2<T>, row: seq<T>)
    requires |row| == a.Length1
    modifies a
    ensures forall i, j :: 0 <= i < a.Length0 && 0 <= j < a.Length1 ==> a[i, j] == row[j]
  {
    var i := 0;
    while i < a.Length0
      invariant 0 <= i <= a.Length0
      invariant forall i', j :: 0 <= i' < i && 0 <= j < a.Length1 ==> a[i', j] == row[j]
    {
      var j := 0;
      while j < a.Length1
        invariant 0 <= j <= a.Length1
        invariant forall i', j' :: 0 <= i' < i && 0 <= j' < a.Length1 ==> a[i', j'] == row[j']
        invariant forall j' :: 0 <= j' < j ==> a[i, j'] == row[j']
      {
        a[i, j] := row[j];
        j := j + 1;
      }
      i := i + 1;
    }
  }
}
