/**
 * The continuity constraints of multiple shooting for any integration step:
 * each segment is advanced one step from its own start, and the result is
 * compared with the next segment's start (the last one with the required end
 * state).
 */
module Shooting {
  import opened Vectors
  import opened Codec
  import opened Scan

  /** Where each segment should end: the next segment's start, and `xf` for the last. */
  function Targets(starts: seq<seq<real>>, xf: seq<real>): (ends: seq<seq<real>>)
    requires |starts| > 0
    ensures |ends| == |starts|
    ensures forall k :: 0 <= k < |starts| - 1 ==> ends[k] == starts[k + 1]
    ensures ends[|starts| - 1] == xf
  {
    starts[1..] + [xf]
  }

  /** Per-segment defects: one step from each start minus where that segment should end. */
  function Defects(step: (seq<real>, real) --> seq<real>, n: nat, starts: seq<seq<real>>, us: seq<real>, xf: seq<real>): (ds: seq<seq<real>>)
    requires Closed(step, n) && |starts| == |us| > 0 && Uniform(starts, n) && |xf| == n
    ensures |ds| == |us| && Uniform(ds, n)
    ensures forall k :: 0 <= k < |us| ==>
      ds[k] == Sub(Apply(step, n, starts[k], us[k]), Targets(starts, xf)[k])
    ensures forall k :: 0 <= k < |us| ==>
      (IsZero(ds[k]) <==> Apply(step, n, starts[k], us[k]) == Targets(starts, xf)[k])
  {
    var ends := Targets(starts, xf);
    var ds := seq(|us|, k requires 0 <= k < |us| => Sub(Apply(step, n, starts[k], us[k]), ends[k]));
    forall k | 0 <= k < |us| ensures IsZero(ds[k]) <==> Apply(step, n, starts[k], us[k]) == ends[k] {
      SubZeroIff(Apply(step, n, starts[k], us[k]), ends[k]);
    }
    ds
  }

  /**
   * Stitching: when the first segment starts at `x0`, every defect is zero
   * exactly when the scan from `x0` passes through every later segment start
   * and ends at `xf`.
   */
  lemma Stitching(step: (seq<real>, real) --> seq<real>, n: nat, x0: seq<real>, starts: seq<seq<real>>, us: seq<real>, xf: seq<real>)
    requires Closed(step, n) && |starts| == |us| > 0 && Uniform(starts, n) && |xf| == n
    requires starts[0] == x0
    ensures (forall k :: 0 <= k < |us| ==> IsZero(Defects(step, n, starts, us, xf)[k])) <==>
      Trajectory(step, n, x0, us) == Targets(starts, xf)
    ensures Trajectory(step, n, x0, us) == Targets(starts, xf) <==>
      (forall k :: 0 <= k < |us| - 1 ==> Trajectory(step, n, x0, us)[k] == starts[k + 1]) &&
      FinalState(step, n, x0, us) == xf
  {
    var ends := Targets(starts, xf);
    var xs := Trajectory(step, n, x0, us);
    if forall k :: 0 <= k < |us| ==> IsZero(Defects(step, n, starts, us, xf)[k]) {
      LandingIsTrajectory(step, n, x0, starts, us, xf);
    }
    if xs == ends {
      TrajectoryLands(step, n, x0, starts, us, xf);
    }
    FinalStateIsLast(step, n, x0, us);
    if (forall k :: 0 <= k < |us| - 1 ==> xs[k] == starts[k + 1]) && FinalState(step, n, x0, us) == xf {
      assert xs == ends;
    }
  }

  /** If every segment lands on its target, the targets are the scan from `x0`. */
  lemma LandingIsTrajectory(step: (seq<real>, real) --> seq<real>, n: nat, x0: seq<real>, starts: seq<seq<real>>, us: seq<real>, xf: seq<real>)
    requires Closed(step, n) && |starts| == |us| > 0 && Uniform(starts, n) && |xf| == n
    requires starts[0] == x0
    requires forall k :: 0 <= k < |us| ==> IsZero(Defects(step, n, starts, us, xf)[k])
    ensures Trajectory(step, n, x0, us) == Targets(starts, xf)
  {
    var ends := Targets(starts, xf);
    var ds := Defects(step, n, starts, us, xf);
    forall k | 0 < k < |us| ensures ends[k] == Apply(step, n, ends[k - 1], us[k]) {
      assert IsZero(ds[k]);
      assert ends[k - 1] == starts[k];
    }
    assert IsZero(ds[0]);
    TrajectoryUnique(step, n, x0, us, ends);
  }

  /** If the scan from `x0` visits the targets, every segment lands on its target. */
  lemma TrajectoryLands(step: (seq<real>, real) --> seq<real>, n: nat, x0: seq<real>, starts: seq<seq<real>>, us: seq<real>, xf: seq<real>)
    requires Closed(step, n) && |starts| == |us| > 0 && Uniform(starts, n) && |xf| == n
    requires starts[0] == x0
    requires Trajectory(step, n, x0, us) == Targets(starts, xf)
    ensures forall k :: 0 <= k < |us| ==> IsZero(Defects(step, n, starts, us, xf)[k])
  {
    var ends := Targets(starts, xf);
    var ds := Defects(step, n, starts, us, xf);
    TrajectorySteps(step, n, x0, us);
    forall k | 0 <= k < |us| ensures Apply(step, n, starts[k], us[k]) == ends[k] {
      if k > 0 {
        assert starts[k] == ends[k - 1];
      }
    }
  }
}
