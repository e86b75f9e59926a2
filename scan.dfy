/**
 * `lax.scan` with a step that returns its new carry as its output: a left
 * fold over a control sequence that threads a state vector of fixed
 * dimension and collects every state it reaches.
 */
module Scan {

  /** `step` accepts every state of dimension `n` and returns one of the same dimension. */
  ghost predicate Closed(step: (seq<real>, real) --> seq<real>, n: nat)
  {
    forall x, u :: |x| == n ==> step.requires(x, u) && |step(x, u)| == n
  }

  /** One application of `step` to a state of dimension `n`. */
  function Apply(step: (seq<real>, real) --> seq<real>, n: nat, x: seq<real>, u: real): (y: seq<real>)
    requires Closed(step, n) && |x| == n
    ensures |y| == n && y == step(x, u)
  {
    step(x, u)
  }

  /** The states after each control (the stacked outputs of the scan from `x`). */
  function Trajectory(step: (seq<real>, real) --> seq<real>, n: nat, x: seq<real>, us: seq<real>): (xs: seq<seq<real>>)
    requires Closed(step, n) && |x| == n
    ensures |xs| == |us|
    ensures forall k :: 0 <= k < |xs| ==> |xs[k]| == n
    decreases |us|
  {
    if us == [] then [] else
      var next := Apply(step, n, x, us[0]);
      [next] + Trajectory(step, n, next, us[1..])
  }

  /** The carry once the scan from `x` has consumed every control. */
  function FinalState(step: (seq<real>, real) --> seq<real>, n: nat, x: seq<real>, us: seq<real>): (last: seq<real>)
    requires Closed(step, n) && |x| == n
    ensures |last| == n
    decreases |us|
  {
    if us == [] then x else FinalState(step, n, Apply(step, n, x, us[0]), us[1..])
  }

  /**
   * The trajectory is the left fold of `step`: its first state is one step
   * from `x`, and each later state is one step from its predecessor.
   */
  lemma {:induction false} TrajectorySteps(step: (seq<real>, real) --> seq<real>, n: nat, x: seq<real>, us: seq<real>)
    requires Closed(step, n) && |x| == n
    ensures |us| > 0 ==> Trajectory(step, n, x, us)[0] == Apply(step, n, x, us[0])
    ensures forall k :: 0 < k < |us| ==>
      Trajectory(step, n, x, us)[k] == Apply(step, n, Trajectory(step, n, x, us)[k - 1], us[k])
    decreases |us|
  {
    if us != [] {
      var next := Apply(step, n, x, us[0]);
      var xs := Trajectory(step, n, x, us);
      var rest := Trajectory(step, n, next, us[1..]);
      TrajectorySteps(step, n, next, us[1..]);
      forall k | 0 < k < |us| ensures xs[k] == Apply(step, n, xs[k - 1], us[k]) {
        assert xs[k] == rest[k - 1];
        assert us[1..][k - 1] == us[k];
        if k > 1 {
          assert xs[k - 1] == rest[k - 2];
        }
      }
    }
  }

  /** The returned carry is the last collected state, or `x` itself when there is no control. */
  lemma {:induction false} FinalStateIsLast(step: (seq<real>, real) --> seq<real>, n: nat, x: seq<real>, us: seq<real>)
    requires Closed(step, n) && |x| == n
    ensures us == [] ==> FinalState(step, n, x, us) == x
    ensures us != [] ==> FinalState(step, n, x, us) == Trajectory(step, n, x, us)[|us| - 1]
    decreases |us|
  {
    if us != [] {
      FinalStateIsLast(step, n, Apply(step, n, x, us[0]), us[1..]);
    }
  }

  /**
   * The fold is the only sequence that starts one step from `x` and steps
   * each state to the next.
   */
  lemma {:induction false} TrajectoryUnique(step: (seq<real>, real) --> seq<real>, n: nat, x: seq<real>, us: seq<real>, ys: seq<seq<real>>)
    requires Closed(step, n) && |x| == n && |ys| == |us|
    requires forall k :: 0 <= k < |ys| ==> |ys[k]| == n
    requires |us| > 0 ==> ys[0] == Apply(step, n, x, us[0])
    requires forall k :: 0 < k < |us| ==> ys[k] == Apply(step, n, ys[k - 1], us[k])
    ensures ys == Trajectory(step, n, x, us)
    decreases |us|
  {
    if us != [] {
      var next := Apply(step, n, x, us[0]);
      var ys', us' := ys[1..], us[1..];
      forall k | 0 < k < |us'| ensures ys'[k] == Apply(step, n, ys'[k - 1], us'[k]) {
        assert ys'[k] == ys[k + 1] && ys'[k - 1] == ys[k] && us'[k] == us[k + 1];
      }
      TrajectoryUnique(step, n, next, us', ys');
      assert ys == [ys[0]] + ys';
    }
  }

  /** One more control appends one more step to the trajectory and moves the carry by one step. */
  lemma {:induction false} TrajectorySnoc(step: (seq<real>, real) --> seq<real>, n: nat, x: seq<real>, us: seq<real>, u: real)
    requires Closed(step, n) && |x| == n
    ensures Trajectory(step, n, x, us + [u]) == Trajectory(step, n, x, us) + [Apply(step, n, FinalState(step, n, x, us), u)]
    ensures FinalState(step, n, x, us + [u]) == Apply(step, n, FinalState(step, n, x, us), u)
    decreases |us|
  {
    if us != [] {
      assert (us + [u])[1..] == us[1..] + [u];
      TrajectorySnoc(step, n, Apply(step, n, x, us[0]), us[1..], u);
    } else {
      assert (us + [u])[1..] == [];
    }
  }

  /** A state that `step` leaves unchanged under `u` stays put for any run of `u`. */
  lemma {:induction false} FixedPointStays(step: (seq<real>, real) --> seq<real>, n: nat, x: seq<real>, u: real, us: seq<real>)
    requires Closed(step, n) && |x| == n && Apply(step, n, x, u) == x
    requires forall k :: 0 <= k < |us| ==> us[k] == u
    ensures forall k :: 0 <= k < |us| ==> Trajectory(step, n, x, us)[k] == x
    ensures FinalState(step, n, x, us) == x
    decreases |us|
  {
    if us != [] {
      FixedPointStays(step, n, x, u, us[1..]);
      var xs := Trajectory(step, n, x, us);
      forall k | 0 < k < |us| ensures xs[k] == x {
        assert xs[k] == Trajectory(step, n, x, us[1..])[k - 1];
      }
    }
  }

  /**
   * The scan itself: threads the carry through the controls in order,
   * appending each new state to the collected outputs.
   */
  method Run(step: (seq<real>, real) --> seq<real>, n: nat, x: seq<real>, us: seq<real>) returns (last: seq<real>, xs: seq<seq<real>>)
    requires Closed(step, n) && |x| == n
    ensures last == FinalState(step, n, x, us)
    ensures xs == Trajectory(step, n, x, us)
  {
    last := x;
    xs := [];
    var i := 0;
    while i < |us|
      invariant 0 <= i <= |us|
      invariant last == FinalState(step, n, x, us[..i])
      invariant xs == Trajectory(step, n, x, us[..i])
    {
      TrajectorySnoc(step, n, x, us[..i], us[i]);
      assert us[..i + 1] == us[..i] + [us[i]];
      last := Apply(step, n, last, us[i]);
      xs := xs + [last];
      i := i + 1;
    }
    assert us[..i] == us;
  }
}
