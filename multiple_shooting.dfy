/**
 * Multiple shooting for the Van der Pol problem: the decision vector holds a
 * start state for every control interval followed by the controls, each
 * interval is integrated by one Runge-Kutta step from its own start, and the
 * equality constraints stitch every step's end to the next interval's start
 * (the last one to the required end state).
 */
module MultipleShooting {
  import opened Vectors
  import opened Codec
  import opened Bounds
  import NdArray
  import Scan
  import Shooting
  import opened VdpIntegrator
  import SingleShooting

  /** Number of entries of the decision vector: two per segment start, one per control. */
  const Size: nat := 3 * Intervals

  /** Segment starts (one 2-vector per interval) and controls (one per interval) of the right shapes. */
  predicate Shaped(starts: seq<seq<real>>, us: seq<real>)
  {
    |starts| == Intervals && Uniform(starts, 2) && |us| == Intervals
  }

  /** `ravel_pytree((starting_xs, us))`: the starts row-major, then the controls. */
  function Flatten(starts: seq<seq<real>>, us: seq<real>): (flat: seq<real>)
    requires Shaped(starts, us)
    ensures |flat| == Size
    ensures forall k, j :: 0 <= k < Intervals && 0 <= j < 2 ==> flat[2 * k + j] == starts[k][j]
    ensures forall k :: 0 <= k < Intervals ==> flat[2 * Intervals + k] == us[k]
  {
    ConcatAt(starts, 2);
    Concat(starts) + us
  }

  /** `unravel`: cuts a decision vector back into segment starts and controls. */
  function Unravel(flat: seq<real>): (parts: (seq<seq<real>>, seq<real>))
    requires |flat| == Size
    ensures Shaped(parts.0, parts.1)
  {
    (Chunk(flat[..2 * Intervals], 2, Intervals), flat[2 * Intervals..])
  }

  /** Unravelling a flattened pair gives the pair back. */
  lemma UnravelFlatten(starts: seq<seq<real>>, us: seq<real>)
    requires Shaped(starts, us)
    ensures Unravel(Flatten(starts, us)) == (starts, us)
  {
    var flat := Flatten(starts, us);
    ChunkConcat(starts, 2);
    assert flat[..2 * Intervals] == Concat(starts);
    assert flat[2 * Intervals..] == us;
  }

  /** Flattening an unravelled vector gives the vector back. */
  lemma FlattenUnravel(flat: seq<real>)
    requires |flat| == Size
    ensures Flatten(Unravel(flat).0, Unravel(flat).1) == flat
  {
    ConcatChunk(flat[..2 * Intervals], 2, Intervals);
    assert flat == flat[..2 * Intervals] + flat[2 * Intervals..];
  }

  /**
   * `objective`: the single-shooting objective of the controls; the segment
   * starts play no part, and it never falls below the start-state cost.
   */
  function Objective(flat: seq<real>): (j: real)
    requires |flat| == Size
    ensures j == SingleShooting.Objective(Unravel(flat).1)
    ensures j >= Dot(X0, X0)
  {
    SingleShooting.Objective(Unravel(flat).1)
  }

  /** Two decision vectors with the same controls have the same objective, whatever their segment starts. */
  lemma ObjectiveIgnoresStarts(starts1: seq<seq<real>>, starts2: seq<seq<real>>, us: seq<real>)
    requires Shaped(starts1, us) && Shaped(starts2, us)
    ensures Objective(Flatten(starts1, us)) == Objective(Flatten(starts2, us))
  {
    UnravelFlatten(starts1, us);
    UnravelFlatten(starts2, us);
  }

  /** The per-segment defects of a decision vector, one 2-vector per segment. */
  function Defects(flat: seq<real>): (ds: seq<seq<real>>)
    requires |flat| == Size
    ensures |ds| == Intervals && Uniform(ds, 2)
  {
    Rk4Closed();
    Shooting.Defects(Rk4Step, 2, Unravel(flat).0, Unravel(flat).1, XF)
  }

  /**
   * Segment `k`'s defect is one Runge-Kutta step from its start under its
   * control, minus the next segment's start (minus `XF` for the last segment).
   */
  lemma DefectAt(starts: seq<seq<real>>, us: seq<real>, k: nat)
    requires Shaped(starts, us) && k < Intervals
    ensures Defects(Flatten(starts, us))[k] ==
      Sub(Rk4Step(starts[k], us[k]), if k < Intervals - 1 then starts[k + 1] else XF)
  {
    UnravelFlatten(starts, us);
    Rk4Closed();
  }

  /**
   * `equality_constraints`: the defects flattened row-major, so that entry
   * `2k + j` is component `j` of segment `k`'s defect; the vector is zero
   * exactly when every defect is.
   */
  function EqualityConstraints(flat: seq<real>): (r: seq<real>)
    requires |flat| == Size
    ensures |r| == 2 * Intervals
    ensures forall k, j :: 0 <= k < Intervals && 0 <= j < 2 ==> r[2 * k + j] == Defects(flat)[k][j]
  {
    var ds := Defects(flat);
    ConcatAt(ds, 2);
    Concat(ds)
  }

  /** The equality constraints are all zero exactly when every segment's defect is zero. */
  lemma EqualityConstraintsZero(flat: seq<real>)
    requires |flat| == Size
    ensures IsZero(EqualityConstraints(flat)) <==> forall k :: 0 <= k < Intervals ==> IsZero(Defects(flat)[k])
  {
    ConcatZero(Defects(flat));
  }

  /**
   * Stitching: with the first segment starting at `X0` (the pinned bound),
   * every defect is zero exactly when forward integration of the controls
   * passes through every later segment start and ends at `XF`.
   */
  lemma Stitching(starts: seq<seq<real>>, us: seq<real>)
    requires Shaped(starts, us) && starts[0] == X0
    ensures IsZero(EqualityConstraints(Flatten(starts, us))) <==>
      (forall k :: 0 <= k < Intervals - 1 ==> Trajectory(us)[k] == starts[k + 1]) && FinalState(us) == XF
  {
    UnravelFlatten(starts, us);
    Rk4Closed();
    Shooting.Stitching(Rk4Step, 2, X0, starts, us, XF);
    EqualityConstraintsZero(Flatten(starts, us));
    assert Defects(Flatten(starts, us)) == Shooting.Defects(Rk4Step, 2, starts, us, XF);
  }

  /**
   * The bounds table the solver receives: for segment 0 both coordinates are
   * pinned to `X0`, every other segment start is unbounded, and every control
   * lies in `[-0.75, 1.0]`.
   */
  function BoundsTable(): (table: seq<Bound>)
    ensures |table| == Size
  {
    seq(Size, i requires 0 <= i < Size =>
      if i < 2 then Pin(X0[i])
      else if i < 2 * Intervals then Unbounded
      else Between(ControlLo, ControlHi))
  }

  /** Entry `i` of a flattened pair against row `i` of the table. */
  lemma AdmitsAt(starts: seq<seq<real>>, us: seq<real>, i: nat)
    requires Shaped(starts, us) && i < Size
    ensures Admits(BoundsTable()[i], Flatten(starts, us)[i]) <==>
      if i < 2 then starts[0][i] == X0[i]
      else if i < 2 * Intervals then true
      else ControlLo <= us[i - 2 * Intervals] <= ControlHi
  {
    var flat := Flatten(starts, us);
    if i < 2 {
      assert BoundsTable()[i] == Pin(X0[i]);
      assert flat[2 * 0 + i] == starts[0][i];
    } else if i < 2 * Intervals {
      UnboundedAdmitsAll(flat[i]);
    } else {
      assert BoundsTable()[i] == Between(ControlLo, ControlHi);
      assert flat[2 * Intervals + (i - 2 * Intervals)] == us[i - 2 * Intervals];
    }
  }

  /**
   * A decision vector satisfies the table exactly when its first segment
   * starts at `X0` and every control lies in `[-0.75, 1.0]`; the other starts
   * are free.
   */
  lemma BoundsTableAdmits(starts: seq<seq<real>>, us: seq<real>)
    requires Shaped(starts, us)
    ensures AdmitsAll(BoundsTable(), Flatten(starts, us)) <==>
      starts[0] == X0 && forall k :: 0 <= k < Intervals ==> ControlLo <= us[k] <= ControlHi
  {
    var flat := Flatten(starts, us);
    var table := BoundsTable();
    if AdmitsAll(table, flat) {
      AdmitsAt(starts, us, 0);
      AdmitsAt(starts, us, 1);
      assert starts[0] == X0;
      forall k | 0 <= k < Intervals ensures ControlLo <= us[k] <= ControlHi {
        AdmitsAt(starts, us, 2 * Intervals + k);
      }
    }
    if starts[0] == X0 && forall k :: 0 <= k < Intervals ==> ControlLo <= us[k] <= ControlHi {
      forall i | 0 <= i < Size ensures Admits(table[i], flat[i]) {
        AdmitsAt(starts, us, i);
      }
    }
  }

  /** Row `k` of the state table: `[x0[0], x0[0], x0[1], x0[1]]` for the first segment, infinite otherwise. */
  function StateRow(k: nat): (row: seq<Ext>)
    ensures |row| == 4
  {
    if k == 0 then [Fin(X0[0]), Fin(X0[0]), Fin(X0[1]), Fin(X0[1])] else [NegInf, PosInf, NegInf, PosInf]
  }

  /**
   * `state_bounds`: an `N x 4` array whose columns 0 and 2 are set to minus
   * infinity and columns 1 and 3 to plus infinity, after which the first
   * row's four entries are set to `x0[0], x0[0], x0[1], x0[1]`.
   */
  method StateBounds() returns (sb: array2<Ext>)
    ensures fresh(sb) && sb.Length0 == Intervals && sb.Length1 == 4
    ensures forall k, j :: 0 <= k < Intervals && 0 <= j < 4 ==> sb[k, j] == StateRow(k)[j]
  {
    sb := new Ext[Intervals, 4]((i, j) => NegInf);
    NdArray.SetColumn(sb, 0, NegInf);
    NdArray.SetColumn(sb, 2, NegInf);
    NdArray.SetColumn(sb, 1, PosInf);
    NdArray.SetColumn(sb, 3, PosInf);
    sb[0, 0] := Fin(X0[0]);
    sb[0, 1] := Fin(X0[0]);
    sb[0, 2] := Fin(X0[1]);
    sb[0, 3] := Fin(X0[1]);
  }

  /** The state rows reshaped into pairs give the first `2N` rows of the table. */
  lemma StatePairsAt(rows: seq<seq<Ext>>, i: nat)
    requires |rows| == Intervals && forall k :: 0 <= k < |rows| ==> |rows[k]| == 4 && rows[k] == StateRow(k)
    requires i < 2 * Intervals
    ensures i < |Reshape(rows, 2)| && Reshape(rows, 2)[i] == BoundsTable()[i]
  {
    ReshapeAt(rows, 2, i / 2, i % 2);
  }

  /** The reshaped state rows are the first `2N` rows of the table. */
  lemma StatePairs(rows: seq<seq<Ext>>)
    requires |rows| == Intervals && forall k :: 0 <= k < |rows| ==> |rows[k]| == 4 && rows[k] == StateRow(k)
    ensures Reshape(rows, 2) == BoundsTable()[..2 * Intervals]
  {
    ReshapeLength(rows, 2);
    forall i | 0 <= i < 2 * Intervals ensures Reshape(rows, 2)[i] == BoundsTable()[i] {
      StatePairsAt(rows, i);
    }
  }

  /** The table is the state rows followed by the single-shooting control table. */
  lemma BoundsTableSplit()
    ensures BoundsTable() == BoundsTable()[..2 * Intervals] + SingleShooting.ControlTable()
  {
    var table := BoundsTable();
    var controls := SingleShooting.ControlTable();
    forall k | 0 <= k < Intervals ensures table[2 * Intervals + k] == controls[k] {
    }
  }

  /**
   * The bounds assembly: the state table reshaped into pairs, stacked on the
   * `N x 2` control table broadcast from `[-0.75, 1.0]` and reshaped likewise.
   */
  method AllBounds() returns (table: seq<Bound>)
    ensures table == BoundsTable()
  {
    var controlPairs := SingleShooting.ControlBounds();
    var sb := StateBounds();
    var stateRows := NdArray.Rows(sb);
    assert forall k :: 0 <= k < |stateRows| ==> |stateRows[k]| == 4 && stateRows[k] == StateRow(k);
    table := Reshape(stateRows, 2) + controlPairs;
    StatePairs(stateRows);
    BoundsTableSplit();
  }

  /**
   * The initial guess: `X0` as the first segment start, the given (random)
   * states for the others; whatever they are, the first segment's pinned
   * bounds are met.
   */
  function InitialStarts(middle: seq<seq<real>>): (starts: seq<seq<real>>)
    requires |middle| == Intervals - 1 && Uniform(middle, 2)
    ensures |starts| == Intervals && Uniform(starts, 2)
    ensures starts[0] == X0 && starts[1..] == middle
  {
    [X0] + middle
  }

  /**
   * Whatever the random middle states are, the initial starts meet every
   * state bound, so the initial guess is within bounds exactly when each
   * initial control lies in `[-0.75, 1.0]`.
   */
  lemma InitialGuessBounds(middle: seq<seq<real>>, us: seq<real>)
    requires |middle| == Intervals - 1 && Uniform(middle, 2) && |us| == Intervals
    ensures Shaped(InitialStarts(middle), us)
    ensures AdmitsAll(BoundsTable(), Flatten(InitialStarts(middle), us)) <==>
      forall k :: 0 <= k < Intervals ==> ControlLo <= us[k] <= ControlHi
  {
    BoundsTableAdmits(InitialStarts(middle), us);
  }
}
