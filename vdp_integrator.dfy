/**
 * The Van der Pol problem shared by the single- and multiple-shooting
 * transcriptions: its constants, the classical fourth-order Runge-Kutta step
 * with the control held constant over the step, and the forward integration
 * (`lax.scan`) that threads the state through a control sequence.
 *
 * The dynamics `f` and running cost `c` the two scripts define are the
 * catalogue's `Systems.VanDerPolDynamics` and `Systems.VanDerPolCost`.
 */
module VdpIntegrator {
  import opened Vectors
  import Systems
  import Scan

  /** Time simulated. */
  const Horizon: real := 10.0
  /** Number of control intervals, one control value held over each. */
  const Intervals: nat := 20
  /** Duration of one interval: the horizon split into equal intervals. */
  const StepSize: real := Horizon / (Intervals as real)

  /** Start state. */
  const X0: seq<real> := [0.0, 1.0]
  /** Required end state. */
  const XF: seq<real> := [0.0, 0.0]

  /** Lower and upper limit of every control value. */
  const ControlLo: real := -0.75
  const ControlHi: real := 1.0

  /**
   * One classical Runge-Kutta step of length `StepSize` from `x` under the
   * constant control `u`: stages at `x`, `x + h k1 / 2`, `x + h k2 / 2` and
   * `x + h k3`, combined with weights 1, 2, 2, 1 over 6.
   */
  function Rk4Step(x: seq<real>, u: real): (next: seq<real>)
    requires |x| == 2
    ensures |next| == 2
  {
    var h := StepSize;
    var k1 := Systems.VanDerPolDynamics(x, u);
    var k2 := Systems.VanDerPolDynamics(Add(x, Scale(h / 2.0, k1)), u);
    var k3 := Systems.VanDerPolDynamics(Add(x, Scale(h / 2.0, k2)), u);
    var k4 := Systems.VanDerPolDynamics(Add(x, Scale(h, k3)), u);
    Add(x, Scale(h / 6.0, Add(Add(Add(k1, Scale(2.0, k2)), Scale(2.0, k3)), k4)))
  }

  /** A state at which the vector field vanishes is left unchanged by a step. */
  lemma Rk4FixesEquilibrium(x: seq<real>, u: real)
    requires |x| == 2 && Systems.VanDerPolDynamics(x, u) == [0.0, 0.0]
    ensures Rk4Step(x, u) == x
  {
    var h := StepSize;
    var z := [0.0, 0.0];
    assert Add(x, Scale(h / 2.0, z)) == x;
    assert Add(x, Scale(h, z)) == x;
    assert Add(x, Scale(h / 6.0, Add(Add(Add(z, Scale(2.0, z)), Scale(2.0, z)), z))) == x;
  }

  /** `Rk4Step` maps every 2-dimensional state to a 2-dimensional state. */
  lemma Rk4Closed()
    ensures Scan.Closed(Rk4Step, 2)
  {
  }

  /** `all_next_xs`: the states after each control, scanning from `X0`. */
  function Trajectory(us: seq<real>): (xs: seq<seq<real>>)
    ensures |xs| == |us|
    ensures forall k :: 0 <= k < |us| ==> |xs[k]| == 2
  {
    Rk4Closed();
    Scan.Trajectory(Rk4Step, 2, X0, us)
  }

  /**
   * The trajectory is the left fold of the Runge-Kutta step from `X0`: its
   * first state is one step from `X0` and each later state one step from its
   * predecessor.
   */
  lemma TrajectoryIsFold(us: seq<real>)
    ensures |us| > 0 ==> Trajectory(us)[0] == Rk4Step(X0, us[0])
    ensures forall k :: 0 < k < |us| ==> Trajectory(us)[k] == Rk4Step(Trajectory(us)[k - 1], us[k])
  {
    Rk4Closed();
    Scan.TrajectorySteps(Rk4Step, 2, X0, us);
  }

  /** `last_state`: the carry after the scan from `X0`, the last trajectory state (or `X0` itself). */
  function FinalState(us: seq<real>): (last: seq<real>)
    ensures |last| == 2
    ensures us == [] ==> last == X0
    ensures us != [] ==> last == Trajectory(us)[|us| - 1]
  {
    Rk4Closed();
    Scan.FinalStateIsLast(Rk4Step, 2, X0, us);
    Scan.FinalState(Rk4Step, 2, X0, us)
  }

  /**
   * Held at its equilibrium control `u`, an oscillator started at `[0, u]`
   * never leaves it: the Runge-Kutta step maps the equilibrium to itself.
   */
  lemma EquilibriumIsFixed(u: real, us: seq<real>)
    requires forall k :: 0 <= k < |us| ==> us[k] == u
    ensures Rk4Step([0.0, u], u) == [0.0, u]
    ensures forall k :: 0 <= k < |us| ==> Scan.Trajectory(Rk4Step, 2, [0.0, u], us)[k] == [0.0, u]
  {
    Rk4Closed();
    Systems.VanDerPolEquilibrium([0.0, u], u);
    Rk4FixesEquilibrium([0.0, u], u);
    Scan.FixedPointStays(Rk4Step, 2, [0.0, u], u, us);
  }

  /**
   * `integrate_fwd`: scans the controls from `X0`, carrying the state and
   * collecting every state reached.
   */
  method IntegrateFwd(us: seq<real>) returns (last: seq<real>, xs: seq<seq<real>>)
    ensures last == FinalState(us)
    ensures xs == Trajectory(us)
  {
    Rk4Closed();
    last, xs := Scan.Run(Rk4Step, 2, X0, us);
  }
}
