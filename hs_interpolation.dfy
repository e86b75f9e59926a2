/**
 * The trajectories recovered from a Hermite-Simpson solution: a time is
 * bracketed between two nodes with floor and ceiling, and the control is
 * read off the quadratic through the two node controls and the midpoint
 * control, the state off the cubic whose slope matches the dynamics at the
 * two nodes and the midpoint.
 */
module HsInterpolation {
  import opened Wrappers
  import opened Vectors
  import opened Codec
  import opened Scan
  import opened HermiteSimpson

  /** `int(np.ceil(r))`. */
  function Ceil(r: real): (c: int)
    ensures c == r.Floor || c == r.Floor + 1
    ensures c == r.Floor <==> r == r.Floor as real
  {
    -((-r).Floor)
  }

  /**
   * Indexing an array within `-len <= i < len`: a non-negative index counts
   * from the front, a negative one from the back. An index outside that
   * range gives `None`; the arrays there clamp such an index instead, and
   * nothing is claimed about that case.
   */
  function PyIndex<T>(s: seq<T>, i: int): (r: Option<T>)
    ensures r.Some? <==> -|s| <= i < |s|
    ensures 0 <= i < |s| ==> r == Some(s[i])
    ensures -|s| <= i < 0 ==> r == Some(s[|s| + i])
  {
    if 0 <= i < |s| then Some(s[i]) else if -|s| <= i < 0 then Some(s[|s| + i]) else None
  }

  /** `tau`: how far `t` lies past node `k`, which starts at `k dt`. */
  function Offset(t: real, dt: real, k: int): (tau: real)
    ensures tau + dt * (k as real) == t
  {
    t - dt * (k as real)
  }

  /** `t / dt` times `dt` is `t`. */
  lemma DivMul(t: real, dt: real)
    requires dt != 0.0
    ensures dt * (t / dt) == t
  {
  }

  /** A time `r dt` divided by `dt` is `r`. */
  lemma MulDiv(r: real, dt: real)
    requires dt != 0.0
    ensures (r * dt) / dt == r
  {
  }

  /** Multiplying by a positive number keeps a strict order. */
  lemma MulLess(dt: real, a: real, b: real)
    requires dt > 0.0 && a < b
    ensures dt * a < dt * b
  {
  }

  /** Equal reals have equal floors and ceilings. */
  lemma FloorOf(x: real, r: real)
    requires x == r
    ensures x.Floor == r.Floor && Ceil(x) == Ceil(r)
  {
  }

  /** A time past `a dt` is a positive offset from it. */
  lemma AfterStart(t: real, dt: real, a: real, r: real)
    requires dt > 0.0 && dt * r == t && a < r
    ensures 0.0 < t - dt * a
  {
    MulLess(dt, a, r);
  }

  /** A time before `(a + 1) dt` is less than `dt` past `a dt`. */
  lemma BeforeEnd(t: real, dt: real, a: real, r: real)
    requires dt > 0.0 && dt * r == t && r < a + 1.0
    ensures t - dt * a < dt
  {
    MulLess(dt, r, a + 1.0);
  }

  /**
   * Bracketing: either `t` is a node time (`kstart == kend` and
   * `t == kstart dt`), or `kend == kstart + 1` and `t` lies strictly inside
   * the interval, `0 < tau < dt`.
   */
  lemma Bracket(t: real, dt: real)
    requires dt > 0.0
    ensures var ks, ke := (t / dt).Floor, Ceil(t / dt);
      (ks == ke && t == dt * (ks as real)) || (ke == ks + 1 && 0.0 < Offset(t, dt, ks) < dt)
  {
    var ks := (t / dt).Floor;
    DivMul(t, dt);
    if ks != Ceil(t / dt) {
      AfterStart(t, dt, ks as real, t / dt);
      BeforeEnd(t, dt, ks as real, t / dt);
    }
  }

  /** The node time `k dt` brackets to `kstart == kend == k`. */
  lemma AtNode(k: int, dt: real)
    requires dt != 0.0
    ensures ((k as real) * dt / dt).Floor == k && Ceil((k as real) * dt / dt) == k
  {
    MulDiv(k as real, dt);
    FloorOf((k as real) * dt / dt, k as real);
  }

  /** The time `(k + 1/2) dt` brackets to `k, k + 1`, half an interval past node `k`. */
  lemma AtMid(k: int, dt: real)
    requires dt != 0.0
    ensures ((k as real + 0.5) * dt / dt).Floor == k && Ceil((k as real + 0.5) * dt / dt) == k + 1
    ensures Offset((k as real + 0.5) * dt, dt, k) == dt / 2.0
  {
    MulDiv(k as real + 0.5, dt);
    FloorOf((k as real + 0.5) * dt / dt, k as real + 0.5);
    assert (k as real + 0.5).Floor == k;
  }

  /** A time in `[0, n dt]` brackets between nodes `0..n`, and strictly inside an interval only below `n`. */
  lemma NodeRange(n: nat, dt: real, t: real)
    requires dt > 0.0 && 0.0 <= t <= (n as real) * dt
    ensures var k := (t / dt).Floor;
      0 <= k <= n && (k != Ceil(t / dt) ==> k < n)
  {
    DivMul(t, dt);
    if t / dt > n as real {
      MulLess(dt, n as real, t / dt);
    }
  }

  /**
   * Equation 4.10: the quadratic that takes the node control `u0` at 0, the
   * midpoint control `um` at `dt/2` and the next node control `u1` at `dt`.
   */
  function ControlPoly(dt: real, tau: real, u0: real, um: real, u1: real): (p: real)
    requires dt != 0.0
    ensures tau == 0.0 ==> p == u0
    ensures tau == dt / 2.0 ==> p == um
    ensures tau == dt ==> p == u1
  {
    2.0 / (dt * dt) * (tau - dt / 2.0) * (tau - dt) * u0
    - 4.0 / (dt * dt) * tau * (tau - dt) * um
    + 2.0 / (dt * dt) * tau * (tau - dt / 2.0) * u1
  }

  /**
   * `hs_control_interpolation(controls, mid_controls, dt)(t)`: the node
   * control at a node time, otherwise the quadratic of the bracketing
   * interval; `None` where an index falls outside the arrays.
   */
  function ControlAt(controls: seq<real>, midControls: seq<real>, dt: real, t: real): (u: Option<real>)
    requires dt != 0.0
    ensures (t / dt).Floor == Ceil(t / dt) ==> u == PyIndex(controls, (t / dt).Floor)
  {
    var ks, ke := (t / dt).Floor, Ceil(t / dt);
    if ks == ke then PyIndex(controls, ks)
    else
      match (PyIndex(controls, ks), PyIndex(midControls, ks), PyIndex(controls, ke))
      case (Some(u0), Some(um), Some(u1)) => Some(ControlPoly(dt, Offset(t, dt, ks), u0, um, u1))
      case _ => None
  }

  /** At node time `k dt` the interpolated control is `controls[k]`. */
  lemma ControlAtNode(controls: seq<real>, midControls: seq<real>, dt: real, k: nat)
    requires dt > 0.0 && k < |controls|
    ensures ControlAt(controls, midControls, dt, (k as real) * dt) == Some(controls[k])
  {
    AtNode(k, dt);
  }

  /** Half-way through interval `k` the interpolated control is `mid_controls[k]`. */
  lemma ControlAtMidpoint(controls: seq<real>, midControls: seq<real>, dt: real, k: nat)
    requires dt > 0.0 && k < |midControls| && k + 1 < |controls|
    ensures ControlAt(controls, midControls, dt, (k as real + 0.5) * dt) == Some(midControls[k])
  {
    var t := (k as real + 0.5) * dt;
    AtMid(k, dt);
    assert (t / dt).Floor == k && Ceil(t / dt) == k + 1;
    assert PyIndex(controls, k) == Some(controls[k]);
    assert PyIndex(midControls, k) == Some(midControls[k]);
    assert PyIndex(controls, k + 1) == Some(controls[k + 1]);
    assert ControlAt(controls, midControls, dt, t) == Some(ControlPoly(dt, Offset(t, dt, k), controls[k], midControls[k], controls[k + 1]));
  }

  /**
   * Between two nodes of the horizon `[0, n dt]` every index is in range: the
   * interpolated control is always defined, and inside interval `k` it is
   * that interval's quadratic.
   */
  lemma ControlAtDefined(controls: seq<real>, midControls: seq<real>, n: nat, dt: real, t: real)
    requires |controls| == n + 1 && |midControls| == n
    requires dt > 0.0 && 0.0 <= t <= (n as real) * dt
    ensures ControlAt(controls, midControls, dt, t).Some?
    ensures var k := (t / dt).Floor;
      0 <= k <= n &&
      (k != Ceil(t / dt) ==>
         k < n && ControlAt(controls, midControls, dt, t) ==
           Some(ControlPoly(dt, Offset(t, dt, k), controls[k], midControls[k], controls[k + 1])))
  {
    var k := (t / dt).Floor;
    NodeRange(n, dt, t);
    assert PyIndex(controls, k) == Some(controls[k]);
    if k != Ceil(t / dt) {
      assert PyIndex(midControls, k) == Some(midControls[k]);
      assert PyIndex(controls, k + 1) == Some(controls[k + 1]);
    }
  }

  /** Dividing `y dt` by `dt` gives `y` back. */
  lemma DivBy(x: real, y: real, dt: real)
    requires dt != 0.0 && x == y * dt
    ensures x / dt == y
  {
  }

  /** `c dt^2 / dt == c dt`. */
  lemma CancelSquare(c: real, dt: real)
    requires dt != 0.0
    ensures c * (dt * dt) / dt == c * dt
  {
    assert c * (dt * dt) == (c * dt) * dt;
    DivBy(c * (dt * dt), c * dt, dt);
  }

  /** `c dt^3 / dt / dt == c dt`. */
  lemma CancelCube(c: real, dt: real)
    requires dt != 0.0
    ensures c * (dt * dt * dt) / dt / dt == c * dt
  {
    assert c * (dt * dt * dt) == (c * dt * dt) * dt;
    DivBy(c * (dt * dt * dt), c * dt * dt, dt);
    assert c * dt * dt == (c * dt) * dt;
    DivBy(c * dt * dt, c * dt, dt);
  }

  /** The quadratic term of equation 4.13 with coefficient `c`. */
  function ThirdTerm(dt: real, tau: real, c: real): real
    requires dt != 0.0
  {
    c * (tau * tau) / dt
  }

  /** The cubic term of equation 4.13 with coefficient `c`; `/ dt^2` is written as two divisions. */
  function FourthTerm(dt: real, tau: real, c: real): real
    requires dt != 0.0
  {
    c * (tau * tau * tau) / dt / dt
  }

  /**
   * Equation 4.13, one dimension: the cubic with value `x` and slopes `fk`,
   * `fm`, `f1` at 0, `dt/2`, `dt`. It starts at `x`, reaches Simpson's step
   * `x + dt/6 (fk + 4 fm + f1)` at `dt`, and takes the value
   * `x + dt (5 fk + 8 fm - f1) / 24` half-way.
   */
  function Cubic(dt: real, tau: real, x: real, fk: real, fm: real, f1: real): (c: real)
    requires dt != 0.0
    ensures tau == 0.0 ==> c == x
    ensures tau == dt ==> c == x + dt / 6.0 * (fk + 4.0 * fm + f1)
    ensures tau == dt / 2.0 ==> c == x + dt * (5.0 * fk + 8.0 * fm - f1) / 24.0
  {
    TermsAtEnd(dt, 1.0 / 2.0 * (-3.0 * fk + 4.0 * fm - f1));
    TermsAtEnd(dt, 1.0 / 3.0 * (2.0 * fk - 4.0 * fm + 2.0 * f1));
    ThirdTermAtMid(dt, 1.0 / 2.0 * (-3.0 * fk + 4.0 * fm - f1));
    FourthTermAtMid(dt, 1.0 / 3.0 * (2.0 * fk - 4.0 * fm + 2.0 * f1));
    x + fk * tau
    + ThirdTerm(dt, tau, 1.0 / 2.0 * (-3.0 * fk + 4.0 * fm - f1))
    + FourthTerm(dt, tau, 1.0 / 3.0 * (2.0 * fk - 4.0 * fm + 2.0 * f1))
  }

  /** At `tau = dt` both higher terms reduce to their coefficient times `dt`. */
  lemma TermsAtEnd(dt: real, c: real)
    requires dt != 0.0
    ensures ThirdTerm(dt, dt, c) == c * dt
    ensures FourthTerm(dt, dt, c) == c * dt
  {
    CancelSquare(c, dt);
    CancelCube(c, dt);
  }

  /** At `tau = dt/2` the quadratic term is a quarter of its coefficient times `dt`. */
  lemma ThirdTermAtMid(dt: real, c: real)
    requires dt != 0.0
    ensures ThirdTerm(dt, dt / 2.0, c) == c / 4.0 * dt
  {
    var h := dt / 2.0;
    assert c * (h * h) == c / 4.0 * (dt * dt);
    CancelSquare(c / 4.0, dt);
  }

  /** At `tau = dt/2` the cubic term is an eighth of its coefficient times `dt`. */
  lemma FourthTermAtMid(dt: real, c: real)
    requires dt != 0.0
    ensures FourthTerm(dt, dt / 2.0, c) == c / 8.0 * dt
  {
    var h := dt / 2.0;
    var x := c * (h * h * h);
    assert x == (c / 8.0 * dt * dt) * dt;
    DivBy(x, c / 8.0 * dt * dt, dt);
    assert c / 8.0 * dt * dt == (c / 8.0 * dt) * dt;
    DivBy(c / 8.0 * dt * dt, c / 8.0 * dt, dt);
  }

  /** The state cubic of an interval, evaluated `tau` after its first node; it starts at that node. */
  function StateCubic(f: (seq<real>, real) --> seq<real>, dt: real, iv: Interval, tau: real): (x: seq<real>)
    requires Closed(f, Dim) && WellFormed(iv) && dt != 0.0
    ensures |x| == Dim
    ensures tau == 0.0 ==> x == iv.x
  {
    var fk, fm, f1 := Apply(f, Dim, iv.x, iv.u), Apply(f, Dim, iv.xm, iv.um), Apply(f, Dim, iv.x1, iv.u1);
    seq(Dim, i requires 0 <= i < Dim => Cubic(dt, tau, iv.x[i], fk[i], fm[i], f1[i]))
  }

  /**
   * At the end of the interval the state cubic reaches Simpson's step, which
   * is the next node exactly when the interval's defect is zero.
   */
  lemma StateCubicEnd(f: (seq<real>, real) --> seq<real>, dt: real, iv: Interval)
    requires Closed(f, Dim) && WellFormed(iv) && dt != 0.0
    ensures StateCubic(f, dt, iv, dt) == SimpsonStep(f, dt, iv)
    ensures StateCubic(f, dt, iv, dt) == iv.x1 <==> IsZero(Defect(f, dt, iv))
  {
    var fk, fm, f1 := Apply(f, Dim, iv.x, iv.u), Apply(f, Dim, iv.xm, iv.um), Apply(f, Dim, iv.x1, iv.u1);
    forall i | 0 <= i < Dim ensures StateCubic(f, dt, iv, dt)[i] == SimpsonStep(f, dt, iv)[i] {
      assert StateCubic(f, dt, iv, dt)[i] == Cubic(dt, dt, iv.x[i], fk[i], fm[i], f1[i]);
    }
  }

  /**
   * When both the defect and the midpoint residual of an interval are zero,
   * the state cubic passes through the midpoint state half-way.
   */
  lemma StateCubicMid(f: (seq<real>, real) --> seq<real>, dt: real, iv: Interval)
    requires Closed(f, Dim) && WellFormed(iv) && dt != 0.0
    requires IsZero(Defect(f, dt, iv)) && IsZero(Interpolation(f, dt, iv))
    ensures StateCubic(f, dt, iv, dt / 2.0) == iv.xm
  {
    var fk, fm, f1 := Apply(f, Dim, iv.x, iv.u), Apply(f, Dim, iv.xm, iv.um), Apply(f, Dim, iv.x1, iv.u1);
    var step, mid := SimpsonStep(f, dt, iv), Midpoint(f, dt, iv);
    forall i | 0 <= i < Dim ensures StateCubic(f, dt, iv, dt / 2.0)[i] == iv.xm[i] {
      assert iv.x1[i] == step[i] == iv.x[i] + dt / 6.0 * (fk[i] + 4.0 * fm[i] + f1[i]);
      assert iv.xm[i] == mid[i] == 1.0 / 2.0 * (iv.x[i] + iv.x1[i]) + dt / 8.0 * (fk[i] - f1[i]);
    }
  }

  /**
   * `hs_state_interpolation(states, mid_states, controls, mid_controls, dt)(t)`:
   * the node state at a node time, otherwise the state cubic of the
   * bracketing interval; `None` where an index falls outside the arrays.
   */
  function StateAt(f: (seq<real>, real) --> seq<real>, v: Variables, dt: real, t: real): (x: Option<seq<real>>)
    requires Closed(f, Dim) && Uniform(v.states, Dim) && Uniform(v.midStates, Dim) && dt != 0.0
    ensures (t / dt).Floor == Ceil(t / dt) ==> x == PyIndex(v.states, (t / dt).Floor)
  {
    var ks, ke := (t / dt).Floor, Ceil(t / dt);
    if ks == ke then PyIndex(v.states, ks)
    else
      match (PyIndex(v.states, ks), PyIndex(v.controls, ks), PyIndex(v.midStates, ks), PyIndex(v.midControls, ks),
             PyIndex(v.states, ke), PyIndex(v.controls, ke))
      case (Some(x0), Some(u0), Some(xm), Some(um), Some(x1), Some(u1)) =>
        Some(StateCubic(f, dt, Interval(x0, xm, x1, u0, um, u1), Offset(t, dt, ks)))
      case _ => None
  }

  /** At node time `k dt` the interpolated state is `states[k]`. */
  lemma StateAtNode(f: (seq<real>, real) --> seq<real>, v: Variables, n: nat, dt: real, k: nat)
    requires Closed(f, Dim) && Shaped(v, n) && dt > 0.0 && k <= n
    ensures StateAt(f, v, dt, (k as real) * dt) == Some(v.states[k])
  {
    AtNode(k, dt);
  }

  /**
   * Inside interval `k` of the horizon `[0, n dt]` the interpolated state is
   * always defined, and it is that interval's state cubic.
   */
  lemma StateAtInterval(f: (seq<real>, real) --> seq<real>, v: Variables, n: nat, dt: real, t: real)
    requires Closed(f, Dim) && Shaped(v, n) && dt > 0.0 && 0.0 <= t <= (n as real) * dt
    ensures StateAt(f, v, dt, t).Some?
    ensures var k := (t / dt).Floor;
      0 <= k <= n &&
      (k != Ceil(t / dt) ==>
         k < n && StateAt(f, v, dt, t) == Some(StateCubic(f, dt, IntervalOf(v, n, k), Offset(t, dt, k))))
  {
    var k := (t / dt).Floor;
    NodeRange(n, dt, t);
    assert PyIndex(v.states, k) == Some(v.states[k]);
    if k != Ceil(t / dt) {
      assert PyIndex(v.controls, k) == Some(v.controls[k]);
      assert PyIndex(v.midStates, k) == Some(v.midStates[k]);
      assert PyIndex(v.midControls, k) == Some(v.midControls[k]);
      assert PyIndex(v.states, k + 1) == Some(v.states[k + 1]);
      assert PyIndex(v.controls, k + 1) == Some(v.controls[k + 1]);
    }
  }

  /**
   * When interval `k`'s defect and midpoint residual are both zero, the
   * interpolated state half-way through it is `mid_states[k]`, and it reaches
   * `states[k + 1]` at the interval's end.
   */
  lemma StateAtMidpoint(f: (seq<real>, real) --> seq<real>, v: Variables, n: nat, dt: real, k: nat)
    requires Closed(f, Dim) && Shaped(v, n) && dt > 0.0 && k < n
    requires IsZero(Defect(f, dt, IntervalOf(v, n, k))) && IsZero(Interpolation(f, dt, IntervalOf(v, n, k)))
    ensures StateAt(f, v, dt, (k as real + 0.5) * dt) == Some(v.midStates[k])
    ensures StateCubic(f, dt, IntervalOf(v, n, k), dt) == v.states[k + 1]
  {
    var iv := IntervalOf(v, n, k);
    AtMid(k, dt);
    MulLess(dt, 0.0, k as real + 0.5);
    MulLess(dt, k as real + 0.5, n as real);
    StateAtInterval(f, v, n, dt, (k as real + 0.5) * dt);
    StateCubicMid(f, dt, iv);
    StateCubicEnd(f, dt, iv);
  }
}
