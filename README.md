# Trajectory optimisation transcriptions of myriad, in Dafny

This project models the core of the myriad scripts. They turn a continuous
optimal-control problem (minimise a running cost subject to dynamics
`x' = f(x, u)`, fixed start and end states, and box bounds) into a finite
nonlinear program for an off-the-shelf solver. It models three
transcriptions and the catalogue of systems:

- **Hermite-Simpson direct collocation** for the cart-pole swing-up. The
  decision vector is the flattened tuple `(states, mid_states, controls,
  mid_controls)`. The model covers:
  - the Simpson-quadrature objective (equation 6.5 of Kelly's trajectory
    optimisation tutorial, SIAM Review 2017);
  - the collocation defects and the midpoint interpolation constraints;
  - the bounds table, with the first and the last node pinned;
  - the linear initial guess;
  - the quadratic control interpolant (equation 4.10) and the cubic state
    interpolant (equation 4.13).
- **Single shooting** for the Van der Pol oscillator:
  - the classical RK4 step with the control held constant;
  - the forward trajectory as a left fold (`lax.scan`);
  - the objective, the end-state constraint and the control bounds.
- **Multiple shooting** for the same oscillator:
  - the decision vector `(segment starts, controls)`;
  - the continuity defects that stitch each segment's end to the next
    segment's start;
  - a bounds table that pins only the first segment.
- **The system catalogue** (`source/systems.py`):
  - the construction checks of a finite-horizon control system;
  - the dispatch `get_system`;
  - the constants and bounds of CartPole, VanDerPol and SEIR;
  - the polynomial dynamics and costs.

Numbers are Dafny `real`. A bound entry is an extended real (`Ext`: finite,
`-inf` or `+inf`). The catalogue's bounds tables also hold the "not
applicable" NaN; an entry there is a `Systems.Entry`, which adds that case.
The cart-pole dynamics use sine and cosine, so they enter the collocation
model as a parameter `f` that maps a 4-vector state and a control to a
4-vector. Everything proved there holds
for every such `f`.

Modules:

| module | file | models |
|---|---|---|
| `Wrappers` | wrappers.dfy | `Option`, `Result` |
| `Vectors` | vectors.dfy | the numpy vector arithmetic used by the scripts |
| `Codec` | codec.dfy | row-major flattening (`ravel`) and its inverse |
| `Bounds` | bounds.dfy | `(lower, upper)` bound pairs, `reshape(-1, 2)`, `vstack` |
| `NdArray` | ndarray.dfy | in-place column, row and broadcast assignment into a 2-D array |
| `Systems` | systems.dfy | source/systems.py |
| `Scan` | scan.dfy | `lax.scan` over a step function |
| `Shooting` | shooting.dfy | the stitching argument of multiple shooting, for any step |
| `VdpIntegrator` | vdp_integrator.dfy | the Van der Pol RK4 integrator shared by both shooting scripts |
| `SingleShooting` | single_shooting.dfy | jax_+_scipy_van_der_pol_single_shooting.py |
| `MultipleShooting` | multiple_shooting.dfy | jax_+_scipy_van_der_pol_multiple_shooting.py |
| `HermiteSimpson` | hermite_simpson.dfy | `make_hs_nlp`: layout, objective, constraints |
| `HsBounds` | hs_bounds.dfy | `make_hs_nlp`: bounds assembly; the initial guess |
| `HsInterpolation` | hs_interpolation.dfy | `hs_control_interpolation`, `hs_state_interpolation` |

Three details of the code that the model keeps as written:

- `get_system` raises a bare `KeyError` for an unknown tag. There is no
  message naming the tag. `Systems.GetSystem` returns `Failure(KeyError)`.
- `make_hs_nlp` always pins the last node to `[dist, pi, 0, 0]`. The final
  state is not left free. `HsBounds.BoundsTable` does the same.
- The comment above `hs_control_interpolation` calls it linear. The code
  evaluates the quadratic of equation 4.10, and so does the model.

## Model

| member | source | states |
|---|---|---|
| `Systems.Construct` | source/systems.py:19-23 | construction succeeds iff the final state, when given, has the start state's shape, the bounds table has n+1 rows of 2, and T > 0; each failure names the first check that fails |
| `Systems.Make` | source/systems.py:46-185 | a built-in system that is constructed is of the requested kind and satisfies the construction checks |
| `Systems.BuiltinsValid` | source/systems.py:46-185 | every built-in system passes its construction checks, with state dimension 4, 2, 4 and 5, 3, 5 bounds rows, each row ordered or "not applicable" |
| `Systems.BuiltinConstants` | source/systems.py:46-185 | the start state, final state, horizon and bounds rows of CartPole, VanDerPol and SEIR, including N0 = S0 + E0 + I0 + R0 = 1165 and SEIR's free final state |
| `Systems.Arguments` | source/systems.py:46-185 | the arguments each built-in class passes to the constructor pass its checks, and every bounds row is "not applicable" or ordered |
| `Systems.GetSystem` | source/systems.py:35-43 | the dispatch succeeds exactly for the three known tags, returns the system of that kind, and fails with KeyError otherwise |
| `Systems.VanDerPolDynamics` | source/systems.py:129-133 | the Van der Pol rates form a 2-vector whose second rate is x0 |
| `Systems.VanDerPolEquilibrium` | source/systems.py:129-133 | the Van der Pol rates vanish exactly at the state [0, u] |
| `Systems.VanDerPolCost` | source/systems.py:135-136 | the cost x·x + u² is never negative |
| `Systems.CartPoleCost` | source/systems.py:81-83 | the cost u² is never negative |
| `Systems.SeirDynamics` | source/systems.py:187-196 | the four SEIR rates form a 4-vector |
| `Systems.SeirRecoveredRate` | source/systems.py:187-196 | the implied recovered count R = N - S - E - I changes at g·I + u·S - d·R |
| `Systems.SeirCost` | source/systems.py:198-199 | the cost A·I + u² is never negative while I is not |
| `Scan.TrajectorySteps` | jax_+_scipy_van_der_pol_single_shooting.py:57-62 | the first state is one step from x0, and each later state is one step from its predecessor under its own control |
| `Scan.Trajectory` | jax_+_scipy_van_der_pol_multiple_shooting.py:96-101 | one n-vector per control; the recurrence it satisfies is `Scan.TrajectorySteps`, and `Scan.TrajectoryUnique` shows nothing else satisfies it |
| `Scan.FinalState` | jax_+_scipy_van_der_pol_multiple_shooting.py:96-101 | the carry is an n-vector; `Scan.FinalStateIsLast` ties it to the trajectory |
| `Scan.FinalStateIsLast` | jax_+_scipy_van_der_pol_single_shooting.py:57-62 | the carried state is x0 for no controls, else the last trajectory state |
| `Scan.TrajectoryUnique` | jax_+_scipy_van_der_pol_multiple_shooting.py:96-101 | any sequence that satisfies the step recurrence from x0 is the trajectory |
| `Scan.TrajectorySnoc` | jax_+_scipy_van_der_pol_multiple_shooting.py:96-101 | one more control appends exactly one step from the previous final state |
| `Scan.FixedPointStays` | jax_+_scipy_van_der_pol_multiple_shooting.py:96-101 | a fixed point of the step under a constant control is the whole trajectory |
| `Scan.Run` | jax_+_scipy_van_der_pol_multiple_shooting.py:96-101 | the loop that carries the state returns the fold's final state and trajectory |
| `Shooting.Defects` | jax_+_scipy_van_der_pol_multiple_shooting.py:124-128 | defect k is the step from start k minus the target, and it is zero iff the segment lands on its target |
| `Shooting.Stitching` | jax_+_scipy_van_der_pol_multiple_shooting.py:124-128 | with the first start at x0, all defects vanish iff the fold from x0 passes through every later start and ends at xf |
| `Shooting.LandingIsTrajectory` | jax_+_scipy_van_der_pol_multiple_shooting.py:124-128 | zero defects make the targets the trajectory from x0 |
| `Shooting.TrajectoryLands` | jax_+_scipy_van_der_pol_multiple_shooting.py:124-128 | a trajectory through the targets makes every defect zero |
| `VdpIntegrator.Rk4FixesEquilibrium` | jax_+_scipy_van_der_pol_multiple_shooting.py:104-109 | a state where the dynamics vanish is left unchanged by the RK4 step |
| `VdpIntegrator.Rk4Step` | jax_+_scipy_van_der_pol_multiple_shooting.py:89-94 | the step maps a 2-vector to a 2-vector; `VdpIntegrator.Rk4FixesEquilibrium` ties it to the dynamics |
| `VdpIntegrator.Rk4Closed` | jax_+_scipy_van_der_pol_multiple_shooting.py:89-94 | the RK4 step maps 2-vectors to 2-vectors for every control |
| `VdpIntegrator.TrajectoryIsFold` | jax_+_scipy_van_der_pol_single_shooting.py:49-62 | the trajectory from x0 = [0, 1] starts with one RK4 step and continues by one RK4 step per control |
| `VdpIntegrator.Trajectory` | jax_+_scipy_van_der_pol_single_shooting.py:57-62 | one 2-vector per control; `VdpIntegrator.TrajectoryIsFold` shows it is the RK4 fold from x0 |
| `VdpIntegrator.FinalState` | jax_+_scipy_van_der_pol_single_shooting.py:57-62 | the final state is x0 for no controls, else the last trajectory state |
| `VdpIntegrator.EquilibriumIsFixed` | jax_+_scipy_van_der_pol_multiple_shooting.py:88-101 | from [0, u] under the constant control u, the trajectory stays at [0, u] |
| `VdpIntegrator.IntegrateFwd` | jax_+_scipy_van_der_pol_single_shooting.py:49-62 | the scan loop returns the final state and the trajectory of the fold |
| `SingleShooting.Costs` | jax_+_scipy_van_der_pol_single_shooting.py:42-45 | the mapped cost has one non-negative entry per control, each c(xs[k], us[k]) |
| `SingleShooting.Objective` | jax_+_scipy_van_der_pol_single_shooting.py:66-69 | the objective is the summed running cost along the trajectory plus x0·x0 = 1, so it is at least 1 |
| `SingleShooting.EqualityConstraints` | jax_+_scipy_van_der_pol_single_shooting.py:73-75 | the constraint is final state minus xf, of length 2, and it is zero iff the fold ends at xf |
| `SingleShooting.ControlTableAdmits` | jax_+_scipy_van_der_pol_single_shooting.py:26-27 | the N control bounds are ordered, unpinned, and admit a control vector iff every control lies in [-0.75, 1.0] |
| `SingleShooting.ControlTable` | jax_+_scipy_van_der_pol_single_shooting.py:26-27 | N control bounds; what they admit is `SingleShooting.ControlTableAdmits` |
| `SingleShooting.ControlBounds` | jax_+_scipy_van_der_pol_single_shooting.py:26-27 | filling the N×2 array row by row yields the control bounds table |
| `MultipleShooting.Flatten` | jax_+_scipy_van_der_pol_multiple_shooting.py:43 | the decision vector has 3N entries: start k's coordinate j at 2k+j, then the controls |
| `MultipleShooting.UnravelFlatten` | jax_+_scipy_van_der_pol_multiple_shooting.py:43 | unravelling a flattened pair gives the pair back |
| `MultipleShooting.FlattenUnravel` | jax_+_scipy_van_der_pol_multiple_shooting.py:43 | flattening an unravelled vector gives the vector back |
| `MultipleShooting.Unravel` | jax_+_scipy_van_der_pol_multiple_shooting.py:43 | the parts are N 2-vector starts and N controls; inverse of `Flatten` by the two round-trip lemmas |
| `MultipleShooting.Objective` | jax_+_scipy_van_der_pol_multiple_shooting.py:116-120 | the objective equals the single-shooting objective of the controls and is at least x0·x0 |
| `MultipleShooting.ObjectiveIgnoresStarts` | jax_+_scipy_van_der_pol_multiple_shooting.py:116-120 | the objective does not depend on the segment starts |
| `MultipleShooting.DefectAt` | jax_+_scipy_van_der_pol_multiple_shooting.py:124-128 | defect k is RK4(start k, u_k) minus start k+1, or minus xf for the last segment |
| `MultipleShooting.Defects` | jax_+_scipy_van_der_pol_multiple_shooting.py:124-128 | N 2-vector defects; `MultipleShooting.DefectAt` gives each one |
| `MultipleShooting.EqualityConstraints` | jax_+_scipy_van_der_pol_multiple_shooting.py:124-128 | the 2N constraints are the defects, row-major by segment |
| `MultipleShooting.EqualityConstraintsZero` | jax_+_scipy_van_der_pol_multiple_shooting.py:124-128 | the constraint vector is zero iff every segment's defect is zero |
| `MultipleShooting.Stitching` | jax_+_scipy_van_der_pol_multiple_shooting.py:124-128 | with the first start at x0, the constraints vanish iff the RK4 fold visits every later start and ends at xf |
| `MultipleShooting.AdmitsAt` | jax_+_scipy_van_der_pol_multiple_shooting.py:52-68 | the bound at each position of the decision vector is the one for that start coordinate or control |
| `MultipleShooting.BoundsTableAdmits` | jax_+_scipy_van_der_pol_multiple_shooting.py:52-68 | the 3N bounds admit a decision vector iff the first start is x0 and every control lies in [-0.75, 1.0] |
| `MultipleShooting.BoundsTable` | jax_+_scipy_van_der_pol_multiple_shooting.py:52-68 | 3N bounds, one per decision entry; what they admit is `MultipleShooting.BoundsTableAdmits` |
| `MultipleShooting.StateBounds` | jax_+_scipy_van_der_pol_multiple_shooting.py:57-64 | the in-place fill gives row 0 the pinned x0 entries and every other row ±inf |
| `MultipleShooting.StatePairs` | jax_+_scipy_van_der_pol_multiple_shooting.py:66 | reshaping the N×4 state array into pairs gives the first 2N rows of the bounds table |
| `MultipleShooting.BoundsTableSplit` | jax_+_scipy_van_der_pol_multiple_shooting.py:68 | the table is the state pairs followed by the control bounds |
| `MultipleShooting.AllBounds` | jax_+_scipy_van_der_pol_multiple_shooting.py:52-68 | assembling the arrays and stacking them yields the bounds table |
| `MultipleShooting.InitialGuessBounds` | jax_+_scipy_van_der_pol_multiple_shooting.py:38-43 | the initial starts (x0 then the middle states) meet every state bound, so the initial guess is within bounds iff every initial control lies in [-0.75, 1.0] |
| `HermiteSimpson.IntervalDuration` | hermite_simpson_direct_collocation.py:47 | a duration exists iff there is at least one interval, and N of them make up the horizon |
| `HermiteSimpson.Flatten` | hermite_simpson_direct_collocation.py:254-257 | the flattened tuple has 10N+5 entries; `HermiteSimpson.FlattenAt` places each part, and the round-trip lemmas make it the inverse of `Unravel` |
| `HermiteSimpson.Unravel` | hermite_simpson_direct_collocation.py:301 | the unravelled tuple has N+1 states, N mid states, N+1 controls and N mid controls, states of dimension 4; inverse of `Flatten` |
| `HermiteSimpson.FlattenAt` | hermite_simpson_direct_collocation.py:254-257 | where each state, mid state, control and mid control sits in the flattened vector |
| `HermiteSimpson.UnravelFlatten` | hermite_simpson_direct_collocation.py:254-257 | unravelling the flattened tuple gives it back |
| `HermiteSimpson.FlattenUnravel` | hermite_simpson_direct_collocation.py:254-257 | flattening an unravelled vector gives it back |
| `HermiteSimpson.IntervalsChain` | hermite_simpson_direct_collocation.py:88-91 | consecutive intervals share a node and its control, and the nodes are the interval starts followed by the last interval end |
| `HermiteSimpson.Cost` | hermite_simpson_direct_collocation.py:52-54 | the running cost u² is never negative |
| `HermiteSimpson.IntervalCost` | hermite_simpson_direct_collocation.py:77-81 | an interval's Simpson cost is non-negative for a non-negative duration and zero when its three controls are zero |
| `HermiteSimpson.Defect` | hermite_simpson_direct_collocation.py:62-68 | the defect is zero iff x_{k+1} = x_k + dt/6·(f_k + 4f_mid + f_{k+1}) |
| `HermiteSimpson.SimpsonStep` | hermite_simpson_direct_collocation.py:62-68 | a 4-vector; the next node equals it iff the defect is zero (`HermiteSimpson.Defect`), and it is where the state cubic ends (`HsInterpolation.StateCubicEnd`) |
| `HermiteSimpson.Interpolation` | hermite_simpson_direct_collocation.py:71-74 | the residual is zero iff mid = ½(x_k + x_{k+1}) + dt/8·(f_k - f_{k+1}) |
| `HermiteSimpson.Midpoint` | hermite_simpson_direct_collocation.py:71-74 | a 4-vector; the mid state equals it iff the residual is zero (`HermiteSimpson.Interpolation`) |
| `HermiteSimpson.Objective` | hermite_simpson_direct_collocation.py:88-91 | the objective sums the interval costs with dt = horizon/N, and it is non-negative for a non-negative horizon |
| `HermiteSimpson.ObjectiveZero` | hermite_simpson_direct_collocation.py:88-91 | with all controls zero, the objective is zero |
| `HermiteSimpson.EqualityConstraints` | hermite_simpson_direct_collocation.py:93-96 | the 4N constraints are the defects, row-major by interval then state dimension |
| `HermiteSimpson.EqualityConstraintsZero` | hermite_simpson_direct_collocation.py:93-96 | the constraints vanish iff every next node is the Simpson step of its interval |
| `HermiteSimpson.InterpolationConstraints` | hermite_simpson_direct_collocation.py:98-101 | the 4N constraints are the midpoint residuals, row-major by interval then dimension |
| `HermiteSimpson.InterpolationConstraintsZero` | hermite_simpson_direct_collocation.py:98-101 | the constraints vanish iff every mid state is the Hermite midpoint of its interval |
| `HsBounds.FillStateColumns` | hermite_simpson_direct_collocation.py:111-121 | the column assignments give every row the raw entries ±2·dist, ±2π, ±inf, ±inf |
| `HsBounds.StateBounds` | hermite_simpson_direct_collocation.py:107-128 | the (N+1)×8 state array pins row 0 to zero and row N to [dist, π, 0, 0]; the rows between keep the raw entries |
| `HsBounds.StateRowAt` | hermite_simpson_direct_collocation.py:111-128 | each entry of each state row: zero for node 0, the target for node N, raw otherwise |
| `HsBounds.StateRow` | hermite_simpson_direct_collocation.py:107-128 | a state row has 8 entries; `HsBounds.StateRowAt` gives each one |
| `HsBounds.NodeBounds` | hermite_simpson_direct_collocation.py:107-128 | a node has 4 bounds; `HsBounds.NodeAdmits` says what they admit and `HsBounds.NodePairs` that they are the reshaped state row |
| `HsBounds.MidStateBounds` | hermite_simpson_direct_collocation.py:131-132 | every mid-state row holds the raw entries |
| `HsBounds.ControlBounds` | hermite_simpson_direct_collocation.py:139-144 | every control and mid-control row is [-umax, umax] |
| `HsBounds.PinnedBounds` | hermite_simpson_direct_collocation.py:123-128 | each bound of a pinned node admits exactly the target value in its dimension |
| `HsBounds.BoundsTable` | hermite_simpson_direct_collocation.py:150-154 | the stacked table has one row per entry of the flattened decision vector |
| `HsBounds.BoundsOrdered` | hermite_simpson_direct_collocation.py:107-154 | every row has lower ≤ upper, and every pinned row belongs to node 0 or node N |
| `HsBounds.NodeAdmits` | hermite_simpson_direct_collocation.py:107-128 | node k's bounds admit a state iff it is zero (k = 0), the target (k = N), or in the box |
| `HsBounds.BoundsTableAdmits` | hermite_simpson_direct_collocation.py:107-154 | the table admits a decision vector iff node 0 is zero, node N is the target, every other node and mid state is in the box, and every control is within ±umax |
| `HsBounds.NodePairs` | hermite_simpson_direct_collocation.py:151 | reshaping a state row into pairs gives that node's bounds |
| `HsBounds.StatePart` | hermite_simpson_direct_collocation.py:151 | the reshaped state array is the concatenated node bounds |
| `HsBounds.MidPart` | hermite_simpson_direct_collocation.py:152 | the reshaped mid-state array repeats the raw bounds N times |
| `HsBounds.ControlPart` | hermite_simpson_direct_collocation.py:153-154 | each control array row becomes one [-umax, umax] bound |
| `HsBounds.AllBounds` | hermite_simpson_direct_collocation.py:105-154 | filling the four arrays in place and stacking their reshaped rows yields the bounds table |
| `HsBounds.InitialGuess` | hermite_simpson_direct_collocation.py:233-254 | the initial guess has the decision vector's shape |
| `HsBounds.InitialGuessLinear` | hermite_simpson_direct_collocation.py:235-251 | the initial guess is linear: consecutive nodes differ by target/N, and each mid state lies half-way between its two nodes |
| `HsBounds.InitialGuessFeasible` | hermite_simpson_direct_collocation.py:233-257 | the linear initial guess satisfies every bound, and its objective is zero |
| `HsBounds.InitialGuessInBox` | hermite_simpson_direct_collocation.py:235-251 | the guess starts at zero, ends at the target, and every node and mid state lies in the box |
| `HsInterpolation.Ceil` | hermite_simpson_direct_collocation.py:160 | the ceiling is the floor or one more, and equals the floor exactly at integers |
| `HsInterpolation.Bracket` | hermite_simpson_direct_collocation.py:160-168 | either floor = ceil and t is a node time, or ceil = floor + 1 and 0 < tau < dt |
| `HsInterpolation.NodeRange` | hermite_simpson_direct_collocation.py:197-201 | for t in [0, N·dt], the bracket index lies in [0, N], and below N inside an interval |
| `HsInterpolation.ControlPoly` | hermite_simpson_direct_collocation.py:170-186 | the quadratic of equation 4.10 takes the values u_k, u_mid, u_{k+1} at tau = 0, dt/2, dt |
| `HsInterpolation.ControlAtNode` | hermite_simpson_direct_collocation.py:160-164 | at t = k·dt the interpolant returns controls[k] |
| `HsInterpolation.ControlAtMidpoint` | hermite_simpson_direct_collocation.py:157-187 | at t = (k + ½)·dt the interpolant returns mid_controls[k] |
| `HsInterpolation.ControlAtDefined` | hermite_simpson_direct_collocation.py:157-187 | the interpolant is defined on [0, N·dt], and inside interval k it is the quadratic through that interval's controls |
| `HsInterpolation.Cubic` | hermite_simpson_direct_collocation.py:214-223 | the cubic of equation 4.13 starts at x_k, ends at x_k + dt/6·(f_k + 4f_mid + f_{k+1}), and at tau = dt/2 is x_k + dt·(5f_k + 8f_mid - f_{k+1})/24 |
| `HsInterpolation.StateCubic` | hermite_simpson_direct_collocation.py:204-223 | the state cubic of an interval is a 4-vector that starts at the interval's first node |
| `HsInterpolation.StateCubicEnd` | hermite_simpson_direct_collocation.py:204-223 | the state cubic ends at the Simpson step, so it hits the next node iff the interval's defect is zero |
| `HsInterpolation.StateCubicMid` | hermite_simpson_direct_collocation.py:204-223 | with zero defect and zero interpolation residual, the state cubic passes through the mid state |
| `HsInterpolation.StateAtNode` | hermite_simpson_direct_collocation.py:197-201 | at t = k·dt the interpolant returns states[k] |
| `HsInterpolation.StateAtInterval` | hermite_simpson_direct_collocation.py:190-224 | the interpolant is defined on [0, N·dt], and inside interval k it is that interval's cubic |
| `HsInterpolation.StateAtMidpoint` | hermite_simpson_direct_collocation.py:190-224 | for an interval satisfying both constraints, the interpolant hits mid_states[k] at its midpoint and its cubic reaches states[k+1] |
| `NdArray.SetColumn` | hermite_simpson_direct_collocation.py:111-121 | `a[:, c] = v` changes exactly column c |
| `NdArray.SetRow` | hermite_simpson_direct_collocation.py:123-124 | `a[r, :] = v` changes exactly row r |
| `NdArray.Broadcast` | hermite_simpson_direct_collocation.py:132 | `a[:] = row` makes every row equal to the given row |
| `Codec.ChunkConcat` | jax_+_scipy_van_der_pol_multiple_shooting.py:43 | splitting a row-major concatenation into rows gives the rows back |
| `Codec.ConcatChunk` | jax_+_scipy_van_der_pol_multiple_shooting.py:43 | concatenating the rows of a split vector gives the vector back |
| `Codec.ConcatAt` | hermite_simpson_direct_collocation.py:95 | the row-major concatenation of w-wide rows has w·rows entries, and row k's entry j is at w·k + j |
| `Bounds.Pin` | jax_+_scipy_van_der_pol_multiple_shooting.py:63-64 | a pinned bound is ordered and admits exactly its value |
| `Bounds.Between` | jax_+_scipy_van_der_pol_single_shooting.py:27 | a bound [lo, hi] is ordered iff lo ≤ hi, and admits exactly the values between |
| `Bounds.SatisfiableIffOrdered` | jax_+_scipy_van_der_pol_multiple_shooting.py:52-68 | a bound admits some value iff it is ordered, its lower end is not +inf and its upper end is not -inf |
| `Bounds.ReshapeAt` | jax_+_scipy_van_der_pol_multiple_shooting.py:66 | `reshape(-1, 2)` makes pair j of row k the entry w·k + j |
| `Bounds.AdmitsAllAppend` | hermite_simpson_direct_collocation.py:150-154 | a stacked table admits a stacked vector iff each part admits its part |
| `Bounds.AdmitsAllConcat` | hermite_simpson_direct_collocation.py:150-154 | a table of row-major blocks admits a vector of row-major blocks iff each block admits its block |
| `Vectors.SumNonNegative` | jax_+_scipy_van_der_pol_single_shooting.py:69 | a sum of non-negative terms is non-negative, and it is zero iff every term is zero |
| `Vectors.SubZeroIff` | jax_+_scipy_van_der_pol_single_shooting.py:75 | a difference of vectors is zero iff the vectors are equal |
| `Vectors.ConcatZero` | hermite_simpson_direct_collocation.py:95 | a raveled vector is zero iff each of its rows is zero |

## Left out

- The SLSQP solver calls, `jax.jit`, `jax.grad` and `jax.jacrev` are left out. The model states what the solver is given (objective, constraints, bounds, initial guess). It does not model how the solver searches.
- `jax.vmap` is modelled as an ordinary map over sequences.
- `ravel_pytree` is a library call. Its layout (row-major, in tuple order) is written out as `Flatten`/`Unravel` in each transcription.
- The random initial guesses of both shooting scripts are left out. `MultipleShooting.InitialStarts` takes the random middle states as a parameter, and `MultipleShooting.InitialGuessBounds` takes the random controls as one. The script draws the initial controls from [-0.76, 0.9] (jax_+_scipy_van_der_pol_multiple_shooting.py:41), which reaches below the lower control bound -0.75; `MultipleShooting.InitialGuessBounds` shows the guess is within bounds exactly when no control falls there.
- Plotting, printing, matplotlib, pandas, seaborn and every `plot_solution` are left out.
- The cart-pole dynamics (sine and cosine) in `make_cartpole` and `CartPole.dynamics` are left out. Real sine and cosine are not available over `real`, so the collocation model takes the dynamics as the parameter `f`. This also covers the `make_cartpole()` calls inside `make_hs_nlp` and `hs_state_interpolation`.
- IEEE floating point is not modelled. Rounding, overflow, and floor/ceil of a rounded `t/dt` are not captured. `±inf` appear only as bound entries (`Bounds.Ext`), and NaN only as the "not applicable" entry of the catalogue (`Systems.Entry`). π is the decimal 3.141592653589793.
- source/config.py is not part of this model. The system tag is the closed datatype `DynamicsType`, with an `Unknown` case for any other tag.
- `make_hs_nlp` with `nintervals = 0` divides by zero. The model records this as `HermiteSimpson.IntervalDuration` returning `None`. The members that use the interval duration or the pinned last node require N ≥ 1: `HermiteSimpson.Objective`, `EqualityConstraints`, `InterpolationConstraints` and their lemmas, `HsBounds.StateBounds`, `AllBounds`, `BoundsOrdered`, `BoundsTableAdmits` and the initial-guess members. The layout and per-row members (`HermiteSimpson.Flatten`, `FlattenAt`, `Unravel`, `HsBounds.StateRow`, `NodeBounds`, `BoundsTable`, `NodeAdmits`, `NodePairs`) are total in N, but mean nothing at N = 0. There `HsBounds.BoundsTable(0)` pins the single node to zero, whereas the array code would leave that row at the target, since row 0 and row -1 are the same row.
- Interpolation at times before 0 or after N·dt is not modelled. The source indexes JAX arrays with floor/ceil; a negative index within the length counts from the back, and an index beyond it is clamped. `ControlAt` and `StateAt` give `None` for an index outside `-len <= i < len` and nothing is proved there; the lemmas about them cover only `t` in `[0, N·dt]` with `dt > 0`.
- Vectors.Add: states only the length of the result. The entrywise meaning is in its body and is used through the lemmas that mention it.
- Vectors.Sub: states only the length of the result. Its meaning is given by `Vectors.SubZeroIff`.
- Vectors.Scale: states only the length of the result.
- Vectors.DotSelfNonNegative: states only that x·x ≥ 0, not that it is the squared norm.
- Systems.VanDerPolDynamics: states only the length and the second rate. The first rate is in its body, and `Systems.VanDerPolEquilibrium` characterises where both vanish.
- Systems.SeirDynamics: states only the length of the result. The rates themselves are in its body and in `Systems.SeirRecoveredRate`.
- Systems.VanDerPolCost: states only non-negativity. The formula is in its body.
- VdpIntegrator.Rk4Step: states only the length of the result. The four-stage formula is in its body, and `VdpIntegrator.Rk4FixesEquilibrium` relates it to the dynamics. The inner `rk4_step` of both scripts and `single_rk4_step` are the same formula, so they are one definition here.
- HermiteSimpson.SimpsonStep: states only the length. Its meaning is given through `HermiteSimpson.Defect` and `HsInterpolation.StateCubicEnd`.
- HermiteSimpson.Midpoint: states only the length. Its meaning is given through `HermiteSimpson.Interpolation`.
- Scan.Trajectory: states only the shape of the result. The recurrence is `Scan.TrajectorySteps`.
- Scan.FinalState: states only the length. Its value is given by `Scan.FinalStateIsLast`.
- VdpIntegrator.Trajectory: states only the shape. Its value is given by `VdpIntegrator.TrajectoryIsFold`.
- SingleShooting.ControlTable: states only the length. Its meaning is `SingleShooting.ControlTableAdmits`.
- MultipleShooting.Unravel: states only the shape. Its values are given by `MultipleShooting.FlattenUnravel`.
- MultipleShooting.Defects: states only the shape. Each defect is given by `MultipleShooting.DefectAt`.
- MultipleShooting.BoundsTable: states only the length. Its meaning is `MultipleShooting.BoundsTableAdmits`.
- HermiteSimpson.Flatten: states only the length. Positions are `HermiteSimpson.FlattenAt`.
- HermiteSimpson.Unravel: states only the shape. Its values are given by `HermiteSimpson.FlattenUnravel`.
- HsBounds.StateRow: states only the length. Its entries are `HsBounds.StateRowAt`.
- HsBounds.NodeBounds: states only the length. Its meaning is `HsBounds.NodeAdmits` and `HsBounds.NodePairs`.
- HsInterpolation.StateCubic: states only the shape and the start. The end and the midpoint are `HsInterpolation.StateCubicEnd` and `HsInterpolation.StateCubicMid`.
- HsBounds.BoundsTable: states only the length. Its meaning is `HsBounds.BoundsTableAdmits` and `HsBounds.BoundsOrdered`.
- HsBounds.InitialGuess: states only the shape. Its values are given by `HsBounds.InitialGuessLinear` and `HsBounds.InitialGuessInBox`.
- HsInterpolation.Cubic: the division by `dt**2` in equation 4.13 is written as two divisions by `dt`, which is the same value over the reals.
