/**
 * The bounds table `make_hs_nlp` hands to the solver, assembled in place on
 * numpy arrays exactly as the transcription does, and the straight-line
 * initial guess it is started from.
 */
module HsBounds {
  import opened Vectors
  import opened Codec
  import opened Bounds
  import NdArray
  import opened HermiteSimpson

  /** Swing-up distance of the cart. */
  const Dist: real := 0.8
  /** Largest control magnitude. */
  const UMax: real := 100.0

  /** The state the last node must reach: cart at `dist`, pole upright, at rest. */
  const Target: seq<real> := [Dist, Pi, 0.0, 0.0]

  /** The column-wise state row: `[-2 dist, 2 dist, -2 pi, 2 pi, -inf, inf, -inf, inf]`. */
  const RawStateRow: seq<Ext> := [Fin(-2.0 * Dist), Fin(2.0 * Dist), Fin(-2.0 * Pi), Fin(2.0 * Pi), NegInf, PosInf, NegInf, PosInf]

  /** The row of a pinned node: lower and upper limit `x[d]` for every dimension `d`. */
  function PinnedRow(x: seq<real>): (row: seq<Ext>)
    requires |x| == Dim
    ensures |row| == 8
    ensures forall d :: 0 <= d < Dim ==> row[2 * d] == Fin(x[d]) && row[2 * d + 1] == Fin(x[d])
  {
    [Fin(x[0]), Fin(x[0]), Fin(x[1]), Fin(x[1]), Fin(x[2]), Fin(x[2]), Fin(x[3]), Fin(x[3])]
  }

  /** Row `k` of the finished state table. */
  function StateRow(n: nat, k: nat): (row: seq<Ext>)
    ensures |row| == 8
  {
    if k == 0 then PinnedRow(Zeros(Dim)) else if k == n then PinnedRow(Target) else RawStateRow
  }

  /** `state_bounds[:, c] = v` for the eight columns, in the order written. */
  method FillStateColumns(sb: array2<Ext>)
    requires sb.Length1 == 8
    modifies sb
    ensures forall k, j :: 0 <= k < sb.Length0 && 0 <= j < 8 ==> sb[k, j] == RawStateRow[j]
  {
    NdArray.SetColumn(sb, 0, Fin(-2.0 * Dist));
    NdArray.SetColumn(sb, 1, Fin(2.0 * Dist));
    NdArray.SetColumn(sb, 2, Fin(-2.0 * Pi));
    NdArray.SetColumn(sb, 3, Fin(2.0 * Pi));
    NdArray.SetColumn(sb, 4, NegInf);
    NdArray.SetColumn(sb, 5, PosInf);
    NdArray.SetColumn(sb, 6, NegInf);
    NdArray.SetColumn(sb, 7, PosInf);
  }

  /**
   * `state_bounds`: the columns filled, then the first row set to 0, the last
   * row set to 0, and its first four entries to `dist, dist, pi, pi`.
   */
  method StateBounds(n: nat) returns (sb: array2<Ext>)
    requires n > 0
    ensures fresh(sb) && sb.Length0 == n + 1 && sb.Length1 == 8
    ensures forall k, j :: 0 <= k <= n && 0 <= j < 8 ==> sb[k, j] == StateRow(n, k)[j]
  {
    sb := new Ext[n + 1, 8]((i, j) => NegInf);
    FillStateColumns(sb);
    NdArray.SetRow(sb, 0, Fin(0.0));
    NdArray.SetRow(sb, n, Fin(0.0));
    sb[n, 0] := Fin(Dist);
    sb[n, 1] := Fin(Dist);
    sb[n, 2] := Fin(Pi);
    sb[n, 3] := Fin(Pi);
    forall k, j | 0 <= k <= n && 0 <= j < 8 ensures sb[k, j] == StateRow(n, k)[j] {
      StateRowAt(n, k, j);
    }
  }

  /** Entry `j` of state row `k`. */
  lemma StateRowAt(n: nat, k: nat, j: nat)
    requires j < 8
    ensures StateRow(n, k)[j] ==
      if k == 0 then Fin(0.0)
      else if k == n then (if j < 2 then Fin(Dist) else if j < 4 then Fin(Pi) else Fin(0.0))
      else RawStateRow[j]
  {
    assert Zeros(Dim) == [0.0, 0.0, 0.0, 0.0];
  }

  /** `mid_state_bounds`: `n x 8` zeros, then every row set to the raw state row. */
  method MidStateBounds(n: nat) returns (mb: array2<Ext>)
    ensures fresh(mb) && mb.Length0 == n && mb.Length1 == 8
    ensures forall k, j :: 0 <= k < n && 0 <= j < 8 ==> mb[k, j] == RawStateRow[j]
  {
    mb := new Ext[n, 8]((i, j) => Fin(0.0));
    NdArray.Broadcast(mb, RawStateRow);
  }

  /** `control_bounds` and `mid_control_bounds`: `rows x 2`, every row `[-umax, umax]`. */
  method ControlBounds(rows: nat) returns (cb: array2<Ext>)
    ensures fresh(cb) && cb.Length0 == rows && cb.Length1 == 2
    ensures forall k, j :: 0 <= k < rows && 0 <= j < 2 ==> cb[k, j] == [Fin(-UMax), Fin(UMax)][j]
  {
    cb := new Ext[rows, 2]((i, j) => NegInf);
    NdArray.Broadcast(cb, [Fin(-UMax), Fin(UMax)]);
  }

  /** The bounds of an unpinned state: `[±2 dist]`, `[±2 pi]`, and two free dimensions. */
  const RawBounds: seq<Bound> := [Between(-2.0 * Dist, 2.0 * Dist), Between(-2.0 * Pi, 2.0 * Pi), Unbounded, Unbounded]

  /** The bounds pinning a state to `x`. */
  function PinnedBounds(x: seq<real>): (bs: seq<Bound>)
    requires |x| == Dim
    ensures |bs| == Dim
    ensures forall d :: 0 <= d < Dim ==> bs[d] == Pin(x[d])
    ensures forall d, y :: 0 <= d < Dim ==> (Admits(bs[d], y) <==> y == x[d])
  {
    seq(Dim, d requires 0 <= d < Dim => Pin(x[d]))
  }

  /** The bounds of node `k`: pinned to zero at the start, to the target at the end, raw between. */
  function NodeBounds(n: nat, k: nat): (bs: seq<Bound>)
    ensures |bs| == Dim
  {
    if k == 0 then PinnedBounds(Zeros(Dim)) else if k == n then PinnedBounds(Target) else RawBounds
  }

  /** The bound of every control and midpoint control. */
  const ControlBound: Bound := Between(-UMax, UMax)

  /**
   * The bounds table, one row per entry of the decision vector and in its
   * order: the node bounds, the midpoint-state bounds, then one control row
   * per control and per midpoint control.
   */
  function BoundsTable(n: nat): (table: seq<Bound>)
    ensures |table| == Size(n)
  {
    var nodes := seq(n + 1, k requires 0 <= k <= n => NodeBounds(n, k));
    var mids := seq(n, _ => RawBounds);
    ConcatLength(nodes, Dim);
    ConcatLength(mids, Dim);
    Concat(nodes) + Concat(mids) + seq(n + 1, _ => ControlBound) + seq(n, _ => ControlBound)
  }

  /** Every row of the table has its lower limit at or below its upper limit, and only nodes 0 and `n` are pinned. */
  lemma BoundsOrdered(n: nat)
    requires n > 0
    ensures forall i :: 0 <= i < Size(n) ==> Ordered(BoundsTable(n)[i])
    ensures forall i :: 0 <= i < Size(n) && Pinned(BoundsTable(n)[i]) ==> i < 4 || 4 * n <= i < 4 * n + 4
  {
    var nodes := seq(n + 1, k requires 0 <= k <= n => NodeBounds(n, k));
    var mids := seq(n, _ => RawBounds);
    var table := BoundsTable(n);
    var a, b := Concat(nodes), Concat(mids);
    ConcatLength(nodes, Dim);
    ConcatLength(mids, Dim);
    assert table == a + b + seq(n + 1, _ => ControlBound) + seq(n, _ => ControlBound);
    assert forall d :: 0 <= d < Dim ==> Ordered(RawBounds[d]) && !Pinned(RawBounds[d]);
    forall i | 0 <= i < Size(n) ensures Ordered(table[i]) && (Pinned(table[i]) ==> i < 4 || 4 * n <= i < 4 * n + 4) {
      if i < 4 * (n + 1) {
        RowOf(nodes, i);
      } else if i < 8 * n + 4 {
        RowOf(mids, i - 4 * (n + 1));
        assert table[i] == b[i - 4 * (n + 1)];
      }
    }
  }

  /** Entry `i` of a concatenation of 4-wide rows lies in some row `k`, at `4k + d`. */
  lemma RowOf<T>(rows: seq<seq<T>>, i: nat)
    requires Uniform(rows, Dim) && i < 4 * |rows|
    ensures exists k, d :: 0 <= k < |rows| && 0 <= d < Dim && i == 4 * k + d && |Concat(rows)| == 4 * |rows| && Concat(rows)[i] == rows[k][d]
  {
    var k, d := i / 4, i % 4;
    ConcatIndex(rows, Dim, k, d);
  }

  /** The states of the box: `|position| <= 2 dist` and `|angle| <= 2 pi`. */
  predicate InBox(x: seq<real>)
    requires |x| == Dim
  {
    -2.0 * Dist <= x[0] <= 2.0 * Dist && -2.0 * Pi <= x[1] <= 2.0 * Pi
  }

  /** The control limits. */
  predicate ControlOk(u: real)
  {
    -UMax <= u <= UMax
  }

  /**
   * Node `k`'s bounds admit its state exactly when node 0 is zero, node `n`
   * is the target, and any other node is in the box.
   */
  lemma NodeAdmits(n: nat, k: nat, x: seq<real>)
    requires |x| == Dim
    ensures AdmitsAll(NodeBounds(n, k), x) <==>
      if k == 0 then x == Zeros(Dim) else if k == n then x == Target else InBox(x)
  {
    if k == 0 || k == n {
      var y := if k == 0 then Zeros(Dim) else Target;
      if AdmitsAll(NodeBounds(n, k), x) {
        assert forall d :: 0 <= d < Dim ==> Admits(Pin(y[d]), x[d]);
        assert x == y;
      }
    } else {
      assert Admits(RawBounds[2], x[2]) && Admits(RawBounds[3], x[3]);
    }
  }

  /** A table of identical rows admits a vector exactly when each entry is admitted by that row. */
  lemma AdmitsAllConstant(b: Bound, v: seq<real>)
    ensures AdmitsAll(seq(|v|, _ => b), v) <==> forall k :: 0 <= k < |v| ==> Admits(b, v[k])
  {
  }

  /**
   * A ravelled decision vector satisfies the table exactly when node 0 is
   * zero, node `n` is the target, every other node and every midpoint state
   * is in the box, and every control and midpoint control is within `umax`.
   */
  lemma BoundsTableAdmits(v: Variables, n: nat)
    requires n > 0 && Shaped(v, n)
    ensures AdmitsAll(BoundsTable(n), Flatten(v, n)) <==>
      v.states[0] == Zeros(Dim) && v.states[n] == Target &&
      (forall k :: 0 < k < n ==> InBox(v.states[k])) &&
      (forall k :: 0 <= k < n ==> InBox(v.midStates[k])) &&
      (forall k :: 0 <= k <= n ==> ControlOk(v.controls[k])) &&
      (forall k :: 0 <= k < n ==> ControlOk(v.midControls[k]))
  {
    var nodes := seq(n + 1, k requires 0 <= k <= n => NodeBounds(n, k));
    var mids := seq(n, _ => RawBounds);
    ConcatLength(nodes, Dim);
    ConcatLength(mids, Dim);
    ConcatLength(v.states, Dim);
    ConcatLength(v.midStates, Dim);
    var cs, ms := seq(n + 1, _ => ControlBound), seq(n, _ => ControlBound);
    assert BoundsTable(n) == Concat(nodes) + Concat(mids) + cs + ms;
    assert Flatten(v, n) == Concat(v.states) + Concat(v.midStates) + v.controls + v.midControls;
    AdmitsAllAppend(Concat(nodes) + Concat(mids) + cs, ms, Concat(v.states) + Concat(v.midStates) + v.controls, v.midControls);
    AdmitsAllAppend(Concat(nodes) + Concat(mids), cs, Concat(v.states) + Concat(v.midStates), v.controls);
    AdmitsAllAppend(Concat(nodes), Concat(mids), Concat(v.states), Concat(v.midStates));
    AdmitsAllConcat(nodes, v.states, Dim);
    AdmitsAllConcat(mids, v.midStates, Dim);
    AdmitsAllConstant(ControlBound, v.controls);
    AdmitsAllConstant(ControlBound, v.midControls);
    forall k | 0 <= k <= n ensures AdmitsAll(nodes[k], v.states[k]) <==>
      if k == 0 then v.states[k] == Zeros(Dim) else if k == n then v.states[k] == Target else InBox(v.states[k])
    {
      NodeAdmits(n, k, v.states[k]);
    }
    forall k | 0 <= k < n ensures AdmitsAll(mids[k], v.midStates[k]) <==> InBox(v.midStates[k]) {
      NodeAdmits(n, 1, v.midStates[k]);
      NodeAdmits(n, n + 1, v.midStates[k]);
    }
  }

  /** Row by row, the reshaped node-state array is the table's node part. */
  lemma NodePairs(n: nat, k: nat)
    ensures RowPairs(StateRow(n, k)) == NodeBounds(n, k)
  {
    assert Zeros(Dim) == [0.0, 0.0, 0.0, 0.0];
  }

  /** Row by row, the reshaped midpoint-state array is the table's midpoint part. */
  lemma RawPairs()
    ensures RowPairs(RawStateRow) == RawBounds
  {
  }

  /**
   * The bounds assembly: the four arrays built in place, the two state
   * tables reshaped into pairs, and all four stacked.
   */
  method AllBounds(n: nat) returns (table: seq<Bound>)
    requires n > 0
    ensures table == BoundsTable(n)
  {
    var sb := StateBounds(n);
    var mb := MidStateBounds(n);
    var cb := ControlBounds(n + 1);
    var mcb := ControlBounds(n);
    var stateRows, midRows := NdArray.Rows(sb), NdArray.Rows(mb);
    var controlRows, midControlRows := NdArray.Rows(cb), NdArray.Rows(mcb);
    table := Reshape(stateRows, 4) + Reshape(midRows, 4) + Reshape(controlRows, 1) + Reshape(midControlRows, 1);

    StatePart(n, stateRows);
    MidPart(n, midRows);
    ControlPart(controlRows);
    ControlPart(midControlRows);
  }

  /** The reshaped node-state array is the node part of the table. */
  lemma StatePart(n: nat, rows: seq<seq<Ext>>)
    requires |rows| == n + 1
    requires forall k :: 0 <= k <= n ==> |rows[k]| == 8
    requires forall k, j :: 0 <= k <= n && 0 <= j < 8 ==> rows[k][j] == StateRow(n, k)[j]
    ensures forall k :: 0 <= k < |rows| ==> |rows[k]| == 2 * 4
    ensures Reshape(rows, 4) == Concat(seq(n + 1, k requires 0 <= k <= n => NodeBounds(n, k)))
  {
    forall k | 0 <= k <= n ensures |rows[k]| == 8 && RowPairs(rows[k]) == NodeBounds(n, k) {
      assert rows[k] == StateRow(n, k);
      NodePairs(n, k);
    }
    assert seq(|rows|, i requires 0 <= i < |rows| => RowPairs(rows[i])) == seq(n + 1, k requires 0 <= k <= n => NodeBounds(n, k));
  }

  /** The reshaped midpoint-state array is the midpoint part of the table. */
  lemma MidPart(n: nat, rows: seq<seq<Ext>>)
    requires |rows| == n
    requires forall k :: 0 <= k < n ==> |rows[k]| == 8
    requires forall k, j :: 0 <= k < n && 0 <= j < 8 ==> rows[k][j] == RawStateRow[j]
    ensures forall k :: 0 <= k < |rows| ==> |rows[k]| == 2 * 4
    ensures Reshape(rows, 4) == Concat(seq(n, _ => RawBounds))
  {
    forall k | 0 <= k < n ensures |rows[k]| == 8 && RowPairs(rows[k]) == RawBounds {
      assert rows[k] == RawStateRow;
      RawPairs();
    }
    assert seq(|rows|, i requires 0 <= i < |rows| => RowPairs(rows[i])) == seq(n, _ => RawBounds);
  }

  /** A reshaped control array is one control row per control. */
  lemma ControlPart(rows: seq<seq<Ext>>)
    requires forall k :: 0 <= k < |rows| ==> |rows[k]| == 2
    requires forall k, j :: 0 <= k < |rows| && 0 <= j < 2 ==> rows[k][j] == [Fin(-UMax), Fin(UMax)][j]
    ensures forall k :: 0 <= k < |rows| ==> |rows[k]| == 2 * 1
    ensures Reshape(rows, 1) == seq(|rows|, _ => ControlBound)
  {
    var pairs := seq(|rows|, i requires 0 <= i < |rows| => RowPairs(rows[i]));
    forall k | 0 <= k < |rows| ensures |rows[k]| == 2 && pairs[k] == [ControlBound] {
      assert rows[k] == [Fin(-UMax), Fin(UMax)];
    }
    ConcatAt(pairs, 1);
    assert Concat(pairs) == seq(|rows|, _ => ControlBound) by {
      forall k | 0 <= k < |rows| ensures Concat(pairs)[k] == ControlBound {
        assert pairs[k][0] == ControlBound;
        assert Concat(pairs)[1 * k + 0] == pairs[k][0];
      }
    }
  }

  /**
   * The initial guess: node `k` at the fraction `k/n` of the way from the zero
   * state to the target, each midpoint state the average of its two nodes,
   * and every control zero.
   */
  function InitialGuess(n: nat): (v: Variables)
    requires n > 0
    ensures Shaped(v, n)
  {
    var states := seq(n + 1, k requires 0 <= k <= n => Scale((k as real) / (n as real), Target));
    Variables(
      states,
      seq(n, k requires 0 <= k < n => seq(Dim, d requires 0 <= d < Dim => (states[k][d] + states[k + 1][d]) / 2.0)),
      Zeros(n + 1),
      Zeros(n))
  }

  /**
   * The initial guess is linear: consecutive nodes are one `n`-th of the
   * target apart, and each midpoint state lies half-way between its two
   * nodes.
   */
  lemma InitialGuessLinear(n: nat)
    requires n > 0
    ensures var v := InitialGuess(n);
      (forall k :: 0 <= k < n ==> Sub(v.states[k + 1], v.states[k]) == Scale(1.0 / (n as real), Target)) &&
      (forall k :: 0 <= k < n ==> Sub(v.midStates[k], v.states[k]) == Sub(v.states[k + 1], v.midStates[k]))
  {
    var v := InitialGuess(n);
    forall k | 0 <= k < n ensures Sub(v.states[k + 1], v.states[k]) == Scale(1.0 / (n as real), Target) {
      forall d | 0 <= d < Dim ensures v.states[k + 1][d] - v.states[k][d] == 1.0 / (n as real) * Target[d] {
        FractionStep(k as real, n as real, Target[d]);
      }
    }
  }

  /** Moving from fraction `k/m` to `(k + 1)/m` of `c` adds `c/m`. */
  lemma FractionStep(k: real, m: real, c: real)
    requires m > 0.0
    ensures (k + 1.0) / m * c - k / m * c == 1.0 / m * c
  {
    assert (k + 1.0) / m == k / m + 1.0 / m;
  }

  /** A positive number divided by itself is one. */
  lemma DivSelf(r: real)
    requires r > 0.0
    ensures r / r == 1.0
  {
  }

  /** `k/n` lies in `[0, 1]`. */
  lemma FractionInUnit(k: nat, n: nat)
    requires k <= n && n > 0
    ensures 0.0 <= (k as real) / (n as real) <= 1.0
  {
  }

  /**
   * The initial guess satisfies the bounds table and has objective zero,
   * the least value the objective takes.
   */
  lemma InitialGuessFeasible(horizon: real, n: nat)
    requires n > 0
    ensures AdmitsAll(BoundsTable(n), Flatten(InitialGuess(n), n))
    ensures Objective(horizon, n, Flatten(InitialGuess(n), n)) == 0.0
  {
    var v := InitialGuess(n);
    InitialGuessInBox(n);
    BoundsTableAdmits(v, n);
    ObjectiveZero(horizon, n, v);
  }

  /**
   * The initial guess starts at zero, ends at the target, and keeps every
   * node and midpoint state in the box.
   */
  lemma InitialGuessInBox(n: nat)
    requires n > 0
    ensures var v := InitialGuess(n);
      v.states[0] == Zeros(Dim) && v.states[n] == Target &&
      (forall k :: 0 <= k <= n ==> InBox(v.states[k])) &&
      (forall k :: 0 <= k < n ==> InBox(v.midStates[k]))
  {
    var v := InitialGuess(n);
    forall k | 0 <= k <= n ensures InBox(v.states[k]) && 0.0 <= v.states[k][0] <= Dist && 0.0 <= v.states[k][1] <= Pi {
      FractionInUnit(k, n);
    }
    assert v.states[0] == Zeros(Dim);
    DivSelf(n as real);
    assert v.states[n] == Target;
  }
}
