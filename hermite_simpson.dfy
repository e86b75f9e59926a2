/**
 * The Hermite-Simpson transcription of `make_hs_nlp`: the decision vector
 * (node states, midpoint states, node controls, midpoint controls, ravelled in
 * that order), the per-interval Simpson cost, defect and midpoint residual,
 * and the objective and the two constraint vectors built from them.
 *
 * The dynamics `f` are a parameter: any map from 4-dimensional states and a
 * control to 4-dimensional rates (the transcription is run with the
 * cart-pole, whose trigonometric dynamics are not part of this model).
 */
module HermiteSimpson {
  import opened Wrappers
  import opened Vectors
  import opened Codec
  import opened Scan

  /** Dimension of a state `[position, angle, velocity, angular velocity]`. */
  const Dim: nat := 4

  /**
   * `interval_duration = horizon / nintervals`; with no intervals the
   * division fails, and no transcription is built.
   */
  function IntervalDuration(horizon: real, n: nat): (dt: Option<real>)
    ensures dt.Some? <==> n > 0
    ensures dt.Some? ==> dt.value * (n as real) == horizon
    ensures dt.Some? && horizon >= 0.0 ==> dt.value >= 0.0
  {
    if n == 0 then None else Some(horizon / (n as real))
  }

  /** The four parts of the decision variables, as `ravel_pytree` receives them. */
  datatype Variables = Variables(states: seq<seq<real>>, midStates: seq<seq<real>>, controls: seq<real>, midControls: seq<real>)

  /** `n + 1` node states and `n` midpoint states of dimension 4, `n + 1` node controls and `n` midpoint controls. */
  predicate Shaped(v: Variables, n: nat)
  {
    |v.states| == n + 1 && Uniform(v.states, Dim) && |v.midStates| == n && Uniform(v.midStates, Dim) &&
    |v.controls| == n + 1 && |v.midControls| == n
  }

  /** Length of the decision vector: `4(n + 1) + 4n + (n + 1) + n`. */
  function Size(n: nat): nat
  {
    10 * n + 5
  }

  /** The ravelled decision vector: each part row-major, the parts in tuple order. */
  function Flatten(v: Variables, n: nat): (flat: seq<real>)
    requires Shaped(v, n)
    ensures |flat| == Size(n)
  {
    ConcatLength(v.states, Dim);
    ConcatLength(v.midStates, Dim);
    Concat(v.states) + Concat(v.midStates) + v.controls + v.midControls
  }

  /**
   * Where each variable sits in the decision vector: state `k` dimension `d`
   * at `4k + d`, midpoint state `k` dimension `d` at `4(n + 1) + 4k + d`,
   * control `k` at `8n + 4 + k` and midpoint control `k` at `9n + 5 + k`.
   */
  lemma FlattenAt(v: Variables, n: nat)
    requires Shaped(v, n)
    ensures forall k, d :: 0 <= k <= n && 0 <= d < Dim ==> Flatten(v, n)[4 * k + d] == v.states[k][d]
    ensures forall k, d :: 0 <= k < n && 0 <= d < Dim ==> Flatten(v, n)[4 * (n + 1) + 4 * k + d] == v.midStates[k][d]
    ensures forall k :: 0 <= k <= n ==> Flatten(v, n)[8 * n + 4 + k] == v.controls[k]
    ensures forall k :: 0 <= k < n ==> Flatten(v, n)[9 * n + 5 + k] == v.midControls[k]
  {
    var a, b := Concat(v.states), Concat(v.midStates);
    ConcatLength(v.states, Dim);
    ConcatLength(v.midStates, Dim);
    PartsAt(a, b, v.controls, v.midControls);
    forall k, d | 0 <= k <= n && 0 <= d < Dim ensures Flatten(v, n)[4 * k + d] == v.states[k][d] {
      ConcatIndex(v.states, Dim, k, d);
      assert Flatten(v, n)[4 * k + d] == a[4 * k + d];
    }
    forall k, d | 0 <= k < n && 0 <= d < Dim ensures Flatten(v, n)[4 * (n + 1) + 4 * k + d] == v.midStates[k][d] {
      ConcatIndex(v.midStates, Dim, k, d);
      assert Flatten(v, n)[|a| + (4 * k + d)] == b[4 * k + d];
    }
  }

  /** Where the entries of four concatenated parts sit. */
  lemma PartsAt<T>(a: seq<T>, b: seq<T>, c: seq<T>, e: seq<T>)
    ensures forall i :: 0 <= i < |a| ==> (a + b + c + e)[i] == a[i]
    ensures forall i :: 0 <= i < |b| ==> (a + b + c + e)[|a| + i] == b[i]
    ensures forall i :: 0 <= i < |c| ==> (a + b + c + e)[|a| + |b| + i] == c[i]
    ensures forall i :: 0 <= i < |e| ==> (a + b + c + e)[|a| + |b| + |c| + i] == e[i]
  {
  }

  /** `unravel`: cuts a decision vector back into its four parts. */
  function Unravel(flat: seq<real>, n: nat): (v: Variables)
    requires |flat| == Size(n)
    ensures Shaped(v, n)
  {
    Variables(
      Chunk(flat[..4 * (n + 1)], Dim, n + 1),
      Chunk(flat[4 * (n + 1)..8 * n + 4], Dim, n),
      flat[8 * n + 4..9 * n + 5],
      flat[9 * n + 5..])
  }

  /** Unravelling a ravelled tuple gives the tuple back. */
  lemma UnravelFlatten(v: Variables, n: nat)
    requires Shaped(v, n)
    ensures Unravel(Flatten(v, n), n) == v
  {
    var flat := Flatten(v, n);
    ChunkConcat(v.states, Dim);
    ChunkConcat(v.midStates, Dim);
    var a, b := Concat(v.states), Concat(v.midStates);
    assert flat == a + b + v.controls + v.midControls;
    assert flat[..4 * (n + 1)] == a;
    assert flat[4 * (n + 1)..8 * n + 4] == b;
    assert flat[8 * n + 4..9 * n + 5] == v.controls;
    assert flat[9 * n + 5..] == v.midControls;
  }

  /** Ravelling an unravelled vector gives the vector back. */
  lemma FlattenUnravel(flat: seq<real>, n: nat)
    requires |flat| == Size(n)
    ensures Flatten(Unravel(flat, n), n) == flat
  {
    ConcatChunk(flat[..4 * (n + 1)], Dim, n + 1);
    ConcatChunk(flat[4 * (n + 1)..8 * n + 4], Dim, n);
    assert flat == flat[..4 * (n + 1)] + flat[4 * (n + 1)..8 * n + 4] + flat[8 * n + 4..9 * n + 5] + flat[9 * n + 5..];
  }

  /**
   * The six arguments the batched functions receive for interval `k`: node
   * `k`, midpoint `k` and node `k + 1`, for the states and for the controls.
   */
  datatype Interval = Interval(x: seq<real>, xm: seq<real>, x1: seq<real>, u: real, um: real, u1: real)

  /** The three states of an interval have dimension 4. */
  predicate WellFormed(iv: Interval)
  {
    |iv.x| == Dim && |iv.xm| == Dim && |iv.x1| == Dim
  }

  /** Interval `k`: `states[:-1][k]`, `mid_states[k]`, `states[1:][k]` and likewise for the controls. */
  function IntervalOf(v: Variables, n: nat, k: nat): (iv: Interval)
    requires Shaped(v, n) && k < n
    ensures WellFormed(iv)
    ensures iv.x == v.states[k] && iv.xm == v.midStates[k] && iv.x1 == v.states[k + 1]
    ensures iv.u == v.controls[k] && iv.um == v.midControls[k] && iv.u1 == v.controls[k + 1]
  {
    Interval(v.states[k], v.midStates[k], v.states[k + 1], v.controls[k], v.midControls[k], v.controls[k + 1])
  }

  /**
   * Consecutive intervals share a node: interval `k` ends where interval
   * `k + 1` starts, and the nodes are exactly the interval starts followed by
   * the last interval's end.
   */
  lemma IntervalsChain(v: Variables, n: nat)
    requires Shaped(v, n) && n > 0
    ensures forall k :: 0 <= k < n - 1 ==>
      IntervalOf(v, n, k).x1 == IntervalOf(v, n, k + 1).x && IntervalOf(v, n, k).u1 == IntervalOf(v, n, k + 1).u
    ensures forall k :: 0 <= k < n ==> v.states[k] == IntervalOf(v, n, k).x && v.controls[k] == IntervalOf(v, n, k).u
    ensures v.states[n] == IntervalOf(v, n, n - 1).x1 && v.controls[n] == IntervalOf(v, n, n - 1).u1
  {
  }

  /** The running cost `u^2`; the state plays no part. */
  function Cost(u: real): (c: real)
    ensures c >= 0.0
  {
    SquareNonNegative(u);
    u * u
  }

  /** `hs_cost`: Simpson's rule for the running cost over one interval. */
  function IntervalCost(dt: real, iv: Interval): (c: real)
    ensures dt >= 0.0 ==> c >= 0.0
    ensures iv.u == 0.0 && iv.um == 0.0 && iv.u1 == 0.0 ==> c == 0.0
  {
    dt / 6.0 * (Cost(iv.u) + 4.0 * Cost(iv.um) + Cost(iv.u1))
  }

  /**
   * Where Simpson's rule carries the state over one interval:
   * `x + dt/6 (f(x, u) + 4 f(xm, um) + f(x1, u1))`.
   */
  function SimpsonStep(f: (seq<real>, real) --> seq<real>, dt: real, iv: Interval): (y: seq<real>)
    requires Closed(f, Dim) && WellFormed(iv)
    ensures |y| == Dim
  {
    var fk, fm, f1 := Apply(f, Dim, iv.x, iv.u), Apply(f, Dim, iv.xm, iv.um), Apply(f, Dim, iv.x1, iv.u1);
    seq(Dim, i requires 0 <= i < Dim => iv.x[i] + dt / 6.0 * (fk[i] + 4.0 * fm[i] + f1[i]))
  }

  /**
   * The Hermite interpolation of the midpoint state from the two node states
   * and rates: `(x + x1)/2 + dt/8 (f(x, u) - f(x1, u1))`.
   */
  function Midpoint(f: (seq<real>, real) --> seq<real>, dt: real, iv: Interval): (y: seq<real>)
    requires Closed(f, Dim) && WellFormed(iv)
    ensures |y| == Dim
  {
    var fk, f1 := Apply(f, Dim, iv.x, iv.u), Apply(f, Dim, iv.x1, iv.u1);
    seq(Dim, i requires 0 <= i < Dim => 1.0 / 2.0 * (iv.x[i] + iv.x1[i]) + dt / 8.0 * (fk[i] - f1[i]))
  }

  /**
   * `hs_defect`: the change of state over the interval minus Simpson's
   * estimate of it; zero exactly when the next node is the Simpson step.
   */
  function Defect(f: (seq<real>, real) --> seq<real>, dt: real, iv: Interval): (r: seq<real>)
    requires Closed(f, Dim) && WellFormed(iv)
    ensures |r| == Dim
    ensures IsZero(r) <==> iv.x1 == SimpsonStep(f, dt, iv)
  {
    var fk, fm, f1 := Apply(f, Dim, iv.x, iv.u), Apply(f, Dim, iv.xm, iv.um), Apply(f, Dim, iv.x1, iv.u1);
    var r := seq(Dim, i requires 0 <= i < Dim => (iv.x1[i] - iv.x[i]) - dt / 6.0 * (fk[i] + 4.0 * fm[i] + f1[i]));
    var step := SimpsonStep(f, dt, iv);
    assert IsZero(r) ==> iv.x1 == step by {
      if IsZero(r) {
        forall i | 0 <= i < Dim ensures iv.x1[i] == step[i] { assert r[i] == 0.0; }
      }
    }
    r
  }

  /**
   * `hs_interpolation`: the midpoint state minus its Hermite interpolation;
   * zero exactly when the midpoint state is that interpolation.
   */
  function Interpolation(f: (seq<real>, real) --> seq<real>, dt: real, iv: Interval): (r: seq<real>)
    requires Closed(f, Dim) && WellFormed(iv)
    ensures |r| == Dim
    ensures IsZero(r) <==> iv.xm == Midpoint(f, dt, iv)
  {
    var fk, f1 := Apply(f, Dim, iv.x, iv.u), Apply(f, Dim, iv.x1, iv.u1);
    var r := seq(Dim, i requires 0 <= i < Dim => iv.xm[i] - 1.0 / 2.0 * (iv.x[i] + iv.x1[i]) - dt / 8.0 * (fk[i] - f1[i]));
    var mid := Midpoint(f, dt, iv);
    assert IsZero(r) ==> iv.xm == mid by {
      if IsZero(r) {
        forall i | 0 <= i < Dim ensures iv.xm[i] == mid[i] { assert r[i] == 0.0; }
      }
    }
    r
  }

  /** The interval costs of a decision vector, one per interval. */
  function IntervalCosts(dt: real, v: Variables, n: nat): (cs: seq<real>)
    requires Shaped(v, n)
    ensures |cs| == n
    ensures forall k :: 0 <= k < n ==> cs[k] == IntervalCost(dt, IntervalOf(v, n, k))
  {
    seq(n, k requires 0 <= k < n => IntervalCost(dt, IntervalOf(v, n, k)))
  }

  /**
   * `objective`: the interval costs summed; never negative over a
   * non-negative horizon, and zero when every control is zero.
   */
  function Objective(horizon: real, n: nat, flat: seq<real>): (j: real)
    requires n > 0 && |flat| == Size(n)
    ensures j == Sum(IntervalCosts(horizon / (n as real), Unravel(flat, n), n))
    ensures horizon >= 0.0 ==> j >= 0.0
  {
    var cs := IntervalCosts(horizon / (n as real), Unravel(flat, n), n);
    assert horizon >= 0.0 ==> Sum(cs) >= 0.0 by {
      if horizon >= 0.0 {
        assert forall k :: 0 <= k < n ==> cs[k] >= 0.0;
        SumNonNegative(cs);
      }
    }
    Sum(cs)
  }

  /** With every node and midpoint control zero, the objective is zero: its least value. */
  lemma ObjectiveZero(horizon: real, n: nat, v: Variables)
    requires n > 0 && Shaped(v, n)
    requires forall k :: 0 <= k <= n ==> v.controls[k] == 0.0
    requires forall k :: 0 <= k < n ==> v.midControls[k] == 0.0
    ensures Objective(horizon, n, Flatten(v, n)) == 0.0
  {
    UnravelFlatten(v, n);
    var cs := IntervalCosts(horizon / (n as real), v, n);
    assert forall k :: 0 <= k < n ==> cs[k] == 0.0;
    assert IsZero(cs);
    SumZero(cs);
  }

  /** A zero vector sums to zero. */
  lemma {:induction false} SumZero(s: seq<real>)
    requires IsZero(s)
    ensures Sum(s) == 0.0
  {
    if s != [] {
      assert IsZero(s[1..]) by {
        forall i | 0 <= i < |s[1..]| ensures s[1..][i] == 0.0 { assert s[1..][i] == s[i + 1]; }
      }
      SumZero(s[1..]);
    }
  }

  /** The defects of a decision vector, one 4-vector per interval. */
  function Defects(f: (seq<real>, real) --> seq<real>, dt: real, v: Variables, n: nat): (ds: seq<seq<real>>)
    requires Closed(f, Dim) && Shaped(v, n)
    ensures |ds| == n && Uniform(ds, Dim)
    ensures forall k :: 0 <= k < n ==> ds[k] == Defect(f, dt, IntervalOf(v, n, k))
  {
    seq(n, k requires 0 <= k < n => Defect(f, dt, IntervalOf(v, n, k)))
  }

  /** The midpoint residuals of a decision vector, one 4-vector per interval. */
  function Interpolations(f: (seq<real>, real) --> seq<real>, dt: real, v: Variables, n: nat): (rs: seq<seq<real>>)
    requires Closed(f, Dim) && Shaped(v, n)
    ensures |rs| == n && Uniform(rs, Dim)
    ensures forall k :: 0 <= k < n ==> rs[k] == Interpolation(f, dt, IntervalOf(v, n, k))
  {
    seq(n, k requires 0 <= k < n => Interpolation(f, dt, IntervalOf(v, n, k)))
  }

  /**
   * `equality_constraints`: the defects ravelled row-major, entry `4k + d`
   * being dimension `d` of interval `k`'s defect.
   */
  function EqualityConstraints(f: (seq<real>, real) --> seq<real>, horizon: real, n: nat, flat: seq<real>): (r: seq<real>)
    requires Closed(f, Dim) && n > 0 && |flat| == Size(n)
    ensures |r| == 4 * n
    ensures var rows := Defects(f, horizon / (n as real), Unravel(flat, n), n);
      forall k, d :: 0 <= k < n && 0 <= d < Dim ==> r[4 * k + d] == rows[k][d]
  {
    var ds := Defects(f, horizon / (n as real), Unravel(flat, n), n);
    ConcatAt(ds, Dim);
    Concat(ds)
  }

  /**
   * The equality constraints vanish exactly when every node state is the
   * Simpson step from the interval before it.
   */
  lemma EqualityConstraintsZero(f: (seq<real>, real) --> seq<real>, horizon: real, n: nat, flat: seq<real>)
    requires Closed(f, Dim) && n > 0 && |flat| == Size(n)
    ensures var v := Unravel(flat, n);
      IsZero(EqualityConstraints(f, horizon, n, flat)) <==>
      forall k :: 0 <= k < n ==> v.states[k + 1] == SimpsonStep(f, horizon / (n as real), IntervalOf(v, n, k))
  {
    ConcatZero(Defects(f, horizon / (n as real), Unravel(flat, n), n));
  }

  /**
   * `interpolation_constraints`: the midpoint residuals ravelled row-major,
   * entry `4k + d` being dimension `d` of interval `k`'s residual.
   */
  function InterpolationConstraints(f: (seq<real>, real) --> seq<real>, horizon: real, n: nat, flat: seq<real>): (r: seq<real>)
    requires Closed(f, Dim) && n > 0 && |flat| == Size(n)
    ensures |r| == 4 * n
    ensures var rows := Interpolations(f, horizon / (n as real), Unravel(flat, n), n);
      forall k, d :: 0 <= k < n && 0 <= d < Dim ==> r[4 * k + d] == rows[k][d]
  {
    var rs := Interpolations(f, horizon / (n as real), Unravel(flat, n), n);
    ConcatAt(rs, Dim);
    Concat(rs)
  }

  /**
   * The interpolation constraints vanish exactly when every midpoint state is
   * the Hermite interpolation of its interval.
   */
  lemma InterpolationConstraintsZero(f: (seq<real>, real) --> seq<real>, horizon: real, n: nat, flat: seq<real>)
    requires Closed(f, Dim) && n > 0 && |flat| == Size(n)
    ensures var v := Unravel(flat, n);
      IsZero(InterpolationConstraints(f, horizon, n, flat)) <==>
      forall k :: 0 <= k < n ==> v.midStates[k] == Midpoint(f, horizon / (n as real), IntervalOf(v, n, k))
  {
    ConcatZero(Interpolations(f, horizon / (n as real), Unravel(flat, n), n));
  }
}
