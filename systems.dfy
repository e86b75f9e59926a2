/**
 * The catalogue of finite-horizon control systems (`source/systems.py`):
 * the common record with its construction-time checks, the closed dispatch
 * from a dynamics tag to a system, and the three built-in systems with their
 * constants, bounds tables, polynomial dynamics and running costs.
 */
module Systems {
  import opened Wrappers
  import opened Vectors

  /** An entry of a catalogue bounds table: a number, or NaN for "does not apply". */
  datatype Entry = Num(value: real) | NaN

  /**
   * `FiniteHorizonControlSystem`: start state, end state (`None` for a free
   * final state), duration, and a bounds table with one row per state
   * dimension followed by one row for the control.
   */
  datatype ControlSystem = ControlSystem(x0: seq<real>, xT: Option<seq<real>>, T: real, bounds: seq<seq<Entry>>)

  /** The assertion of `__post_init__` that fails. */
  datatype Violation = FinalStateShape | BoundsShape | NonPositiveHorizon

  /** The end state, when present, has the start state's shape. */
  predicate ShapesAgree(s: ControlSystem)
  {
    s.xT.None? || |s.xT.value| == |s.x0|
  }

  /** The bounds table is `(n_x + 1) x 2`. */
  predicate BoundsShapeOk(s: ControlSystem)
  {
    |s.bounds| == |s.x0| + 1 && forall i :: 0 <= i < |s.bounds| ==> |s.bounds[i]| == 2
  }

  /** The three construction-time checks. */
  predicate Valid(s: ControlSystem)
  {
    ShapesAgree(s) && BoundsShapeOk(s) && s.T > 0.0
  }

  /**
   * Construction: the record is built, then its checks run in order; the
   * first failing one aborts construction.
   */
  function Construct(x0: seq<real>, xT: Option<seq<real>>, T: real, bounds: seq<seq<Entry>>): (r: Result<ControlSystem, Violation>)
    ensures r.Success? <==> Valid(ControlSystem(x0, xT, T, bounds))
    ensures r.Success? ==> r.value == ControlSystem(x0, xT, T, bounds)
    ensures r == Failure(FinalStateShape) <==> xT.Some? && |xT.value| != |x0|
    ensures r == Failure(BoundsShape) <==>
      ShapesAgree(ControlSystem(x0, xT, T, bounds)) && !BoundsShapeOk(ControlSystem(x0, xT, T, bounds))
  {
    var s := ControlSystem(x0, xT, T, bounds);
    if xT.Some? && |xT.value| != |x0| then Failure(FinalStateShape)
    else if !(|bounds| == |x0| + 1 && forall i :: 0 <= i < |bounds| ==> |bounds[i]| == 2) then Failure(BoundsShape)
    else if !(T > 0.0) then Failure(NonPositiveHorizon)
    else Success(s)
  }

  /** The built-in systems. */
  datatype Kind = CartPole | VanDerPol | SEIR

  /** A dynamics tag: one of the built-in kinds, or any other value. */
  datatype DynamicsType = Known(kind: Kind) | Unknown(name: string)

  /** An instance of one of the built-in subclasses. */
  datatype System = System(kind: Kind, base: ControlSystem)

  /** Why `get_system` fails. */
  datatype SystemError = AssertionError(violation: Violation) | KeyError

  /** Physical parameters of the cart-pole (masses, pole length, gravity, actuator and rail limits, swing-up distance). */
  datatype CartPoleParams = CartPoleParams(m1: real, m2: real, l: real, g: real, uMax: real, dMax: real, d: real)

  const CartPoleConstants: CartPoleParams := CartPoleParams(1.0, 0.3, 0.5, 9.81, 20.0, 2.0, 1.0)

  /** Rates and initial compartments of the SEIR epidemic, and the weights of its cost. */
  datatype SeirParams = SeirParams(
    b: real, d: real, c: real, e: real, g: real, a: real,
    S0: real, E0: real, I0: real, R0: real, N0: real,
    A: real, M: real)

  const SeirConstants: SeirParams := SeirParams(
    0.525, 0.5, 0.0001, 0.5, 0.1, 0.2,
    1000.0, 100.0, 50.0, 15.0, 1000.0 + 100.0 + 50.0 + 15.0,
    0.1, 1000.0)

  /** A bounds row `[lo, hi]`. */
  function Row(lo: real, hi: real): seq<Entry>
  {
    [Num(lo), Num(hi)]
  }

  /** The "does not apply" row. */
  const NaNRow: seq<Entry> := [NaN, NaN]

  /**
   * The arguments each built-in subclass passes to the common constructor;
   * they pass its checks, and every bounds row is "does not apply" or an
   * ordered pair.
   */
  function Arguments(kind: Kind): (s: ControlSystem)
    ensures Valid(s)
    ensures forall i :: 0 <= i < |s.bounds| ==> SensibleRow(s.bounds[i])
  {
    match kind
    case CartPole =>
      var p := CartPoleConstants;
      ControlSystem(Zeros(4), Some([p.d, Pi, 0.0, 0.0]), 2.0,
        [Row(-p.dMax, p.dMax), Row(-2.0 * Pi, 2.0 * Pi), NaNRow, NaNRow, Row(-p.uMax, p.uMax)])
    case VanDerPol =>
      ControlSystem([0.0, 1.0], Some(Zeros(2)), 10.0, [NaNRow, NaNRow, Row(-0.75, 1.0)])
    case SEIR =>
      var p := SeirConstants;
      ControlSystem([p.S0, p.E0, p.I0, p.N0], None, 20.0, [NaNRow, NaNRow, NaNRow, NaNRow, Row(0.0, 1.0)])
  }

  /** Instantiating a built-in subclass. */
  function Make(kind: Kind): (r: Result<System, Violation>)
    ensures r.Success? ==> r.value.kind == kind && Valid(r.value.base)
  {
    var a := Arguments(kind);
    match Construct(a.x0, a.xT, a.T, a.bounds)
    case Success(s) => Success(System(kind, s))
    case Failure(v) => Failure(v)
  }

  /** A bounds row is either "does not apply" or an ordered pair of numbers. */
  predicate SensibleRow(row: seq<Entry>)
  {
    row == NaNRow || (|row| == 2 && row[0].Num? && row[1].Num? && row[0].value <= row[1].value)
  }

  /**
   * Every built-in system passes its own construction checks, with a bounds
   * table of 5, 3 and 5 rows for state dimensions 4, 2 and 4, and every row
   * of each table is sensible.
   */
  lemma BuiltinsValid(kind: Kind)
    ensures Make(kind).Success?
    ensures |Make(kind).value.base.x0| == (if kind == VanDerPol then 2 else 4)
    ensures |Make(kind).value.base.bounds| == (if kind == VanDerPol then 3 else 5)
    ensures forall i :: 0 <= i < |Make(kind).value.base.bounds| ==> SensibleRow(Make(kind).value.base.bounds[i])
  {
    var a := Arguments(kind);
    assert Valid(a);
  }

  /**
   * The constants of the three built-ins: start and end states, horizon and
   * the bounds rows (the last row bounds the control).
   */
  lemma BuiltinConstants()
    ensures var s := Arguments(CartPole); var p := CartPoleConstants;
      s.x0 == [0.0, 0.0, 0.0, 0.0] && s.xT == Some([p.d, Pi, 0.0, 0.0]) && s.T == 2.0 &&
      s.bounds == [Row(-p.dMax, p.dMax), Row(-2.0 * Pi, 2.0 * Pi), NaNRow, NaNRow, Row(-p.uMax, p.uMax)]
    ensures var s := Arguments(VanDerPol);
      s.x0 == [0.0, 1.0] && s.xT == Some([0.0, 0.0]) && s.T == 10.0 &&
      s.bounds == [NaNRow, NaNRow, Row(-0.75, 1.0)]
    ensures var s := Arguments(SEIR); var p := SeirConstants;
      s.x0 == [p.S0, p.E0, p.I0, p.S0 + p.E0 + p.I0 + p.R0] && s.x0[3] == 1165.0 &&
      s.xT.None? && s.T == 20.0 && s.bounds[4] == Row(0.0, 1.0) &&
      forall i :: 0 <= i < 4 ==> s.bounds[i] == NaNRow
  {
    assert Zeros(4) == [0.0, 0.0, 0.0, 0.0];
    assert Zeros(2) == [0.0, 0.0];
  }

  /** `get_system`: a closed dispatch on the tag; any other tag is a `KeyError`. */
  function GetSystem(t: DynamicsType): (r: Result<System, SystemError>)
    ensures r.Success? <==> t.Known?
    ensures r.Success? ==> r.value.kind == t.kind && Valid(r.value.base) && r.value.base == Arguments(t.kind)
    ensures t.Unknown? ==> r == Failure(KeyError)
  {
    match t
    case Unknown(_) => Failure(KeyError)
    case Known(kind) =>
      BuiltinsValid(kind);
      match Make(kind)
      case Success(s) => Success(s)
      case Failure(v) => Failure(AssertionError(v))
  }

  /** Van der Pol dynamics `[(1 - x1^2) x0 - x1 + u, x0]`. */
  function VanDerPolDynamics(x: seq<real>, u: real): (dx: seq<real>)
    requires |x| == 2
    ensures |dx| == 2 && dx[1] == x[0]
  {
    [(1.0 - x[1] * x[1]) * x[0] - x[1] + u, x[0]]
  }

  /**
   * Under a constant control `u` the Van der Pol oscillator is at rest exactly
   * at the state `[0, u]`.
   */
  lemma VanDerPolEquilibrium(x: seq<real>, u: real)
    requires |x| == 2
    ensures VanDerPolDynamics(x, u) == [0.0, 0.0] <==> x == [0.0, u]
  {
    var dx := VanDerPolDynamics(x, u);
    if x[0] == 0.0 {
      assert (1.0 - x[1] * x[1]) * x[0] == 0.0;
    }
  }

  /** Van der Pol running cost `x . x + u^2`, never negative. */
  function VanDerPolCost(x: seq<real>, u: real): (c: real)
    ensures c >= 0.0
  {
    DotSelfNonNegative(x);
    SquareNonNegative(u);
    Dot(x, x) + u * u
  }

  /** Cart-pole running cost `u^2`, never negative. */
  function CartPoleCost(x: seq<real>, u: real): (c: real)
    ensures c >= 0.0
  {
    SquareNonNegative(u);
    u * u
  }

  /** SEIR rates: susceptible, exposed, infected and total population. */
  function SeirDynamics(y: seq<real>, u: real): (dy: seq<real>)
    requires |y| == 4
    ensures |dy| == 4
  {
    var p := SeirConstants;
    var S, E, I, N := y[0], y[1], y[2], y[3];
    [p.b * N - p.d * S - p.c * S * I - u * S,
     p.c * S * I - (p.e + p.d) * E,
     p.e * E - (p.g + p.a + p.d) * I,
     (p.b - p.d) * N - p.a * I]
  }

  /**
   * The recovered compartment the model leaves implicit, `R = N - S - E - I`,
   * changes at rate `g I + u S - d R`: recoveries plus vaccinations minus deaths.
   */
  lemma SeirRecoveredRate(y: seq<real>, u: real)
    requires |y| == 4
    ensures var dy := SeirDynamics(y, u); var p := SeirConstants;
      dy[3] - dy[0] - dy[1] - dy[2] == p.g * y[2] + u * y[0] - p.d * (y[3] - y[0] - y[1] - y[2])
  {
  }

  /** SEIR running cost `A I + u^2`; it is never negative while the infected count is not. */
  function SeirCost(y: seq<real>, u: real): (c: real)
    requires |y| >= 3
    ensures y[2] >= 0.0 ==> c >= 0.0
  {
    SquareNonNegative(u);
    SeirConstants.A * y[2] + u * u
  }
}
