/**
 * Single shooting for the Van der Pol problem: the decision vector is the
 * control sequence alone, the state trajectory is recovered by integrating
 * forward from the start state, and the only equality constraint asks the
 * integration to end at the required end state.
 */
module SingleShooting {
  import opened Vectors
  import opened Bounds
  import NdArray
  import Systems
  import opened VdpIntegrator

  /** `vector_c(xs, us)`: the running cost at each reached state and its control. */
  function Costs(xs: seq<seq<real>>, us: seq<real>): (cs: seq<real>)
    requires |xs| == |us|
    ensures |cs| == |us|
    ensures forall k :: 0 <= k < |cs| ==> cs[k] == Systems.VanDerPolCost(xs[k], us[k]) && cs[k] >= 0.0
  {
    seq(|us|, k requires 0 <= k < |us| => Systems.VanDerPolCost(xs[k], us[k]))
  }

  /**
   * `objective(us)`: the running costs summed along the integrated trajectory,
   * plus the cost `x0 . x0` of the start state; never below that start cost.
   */
  function Objective(us: seq<real>): (j: real)
    ensures j >= Dot(X0, X0) && Dot(X0, X0) == 1.0
    ensures j == Sum(Costs(Trajectory(us), us)) + Dot(X0, X0)
  {
    var cs := Costs(Trajectory(us), us);
    SumNonNegative(cs);
    Sum(cs) + Dot(X0, X0)
  }

  /** `equality_constraints(us)`: how far the integrated end state misses `XF`. */
  function EqualityConstraints(us: seq<real>): (r: seq<real>)
    ensures |r| == 2
    ensures forall i :: 0 <= i < 2 ==> r[i] == FinalState(us)[i] - XF[i]
    ensures IsZero(r) <==> FinalState(us) == XF
  {
    SubZeroIff(FinalState(us), XF);
    Sub(FinalState(us), XF)
  }

  /** The bounds table the solver receives: `[-0.75, 1.0]` for each of the controls. */
  function ControlTable(): (table: seq<Bound>)
    ensures |table| == Intervals
  {
    seq(Intervals, _ => Between(ControlLo, ControlHi))
  }

  /** A control sequence satisfies the table exactly when every control lies in `[-0.75, 1.0]`. */
  lemma ControlTableAdmits(us: seq<real>)
    requires |us| == Intervals
    ensures AdmitsAll(ControlTable(), us) <==> forall k :: 0 <= k < |us| ==> ControlLo <= us[k] <= ControlHi
    ensures forall k :: 0 <= k < Intervals ==> Ordered(ControlTable()[k]) && !Pinned(ControlTable()[k])
  {
  }

  /** `control_bounds`: an uninitialised `N x 2` array whose rows are all set to `[-0.75, 1.0]`. */
  method ControlBounds() returns (table: seq<Bound>)
    ensures table == ControlTable()
  {
    var a := new Ext[Intervals, 2]((i, j) => NegInf);
    NdArray.Broadcast(a, [Fin(ControlLo), Fin(ControlHi)]);
    var rows := NdArray.Rows(a);
    table := Reshape(rows, 1);
    ReshapeLength(rows, 1);
    forall k | 0 <= k < Intervals ensures table[k] == ControlTable()[k] {
      ReshapeAt(rows, 1, k, 0);
    }
  }
}
