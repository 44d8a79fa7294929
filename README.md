# Two bodies in a box: impulse model and spring model

`M2_main.py` moves two discs of equal radius inside a rectangular box. It
uses two collision models and records, per sample, both centres, the total
kinetic energy and the total linear momentum:

- **Analytical (impulse) model.** For each entry of the sample times
  `t_eval`, both bodies coast over the time since the previous sample. If
  the centres are closer than a diameter and the bodies approach, an
  elastic impulse (restitution 1) along the line of centres changes their
  velocities. A positional correction then pushes each body back by half of
  the overlap. Finally each coordinate that crosses a wall is clamped to the
  wall, and its velocity is sent inward.
- **Numerical (spring) model.** Each step of length `dt` sums the
  Hooke-law penalty forces of the walls and of the other body. The velocity
  is updated from the force first; the position then moves with the new
  velocity (semi-implicit Euler).

The project models this physics over the reals:

- `bodies.dfy`: the state, the run configuration, and the bookkeeping of
  energy and momentum.
- `forces.dfy`: the wall and body-body forces.
- `analytical.dfy`: one analytical sample as functions, with the lemmas
  about it.
- `numerical.dfy`: one numerical step as functions, with the lemmas about
  it.
- `simulation.dfy`: the two loops as methods of the class `TwoBallRun`.
  They update its eight state fields in place and append to its `seq`
  histories. Each method is proved against the functions above.

The module globals of the source become parameters:

- The masses, radius, walls and stiffness (`M2_main.py:8-13`) are a
  `Config`.
- The sample times are a `seq<real>`.
- The step length and step count are `dt` and `steps`.
- The square root (`np.sqrt`, `np.hypot`) is a parameter `sqrt`. Most
  results require it to be a square root (`IsSqrt`). The numerical step
  only needs it to be positive on positive numbers (`SqrtPositive`).

`calculate_energy` and `calculate_momentum` read the global masses, even
when they are called from `simulate_analytical_two_balls`. That function
has its own `m1`, `m2` and `radius` parameters, with defaults 1.0, 1.0 and
0.05. Its only call (`M2_main.py:197`) passes the globals, so one `Config`
serves both the bookkeeping and the mechanics. `SimulateAnalytical` models
that call.

With exact arithmetic and a positive radius, the ball-ball force's second guard (`overlap <= 0`,
`M2_main.py:83`) never fires once the first guard has passed.
`Forces.OverlapDistance` states this.

## Model

| member | source | states |
|---|---|---|
| Bodies.KineticEnergy | M2_main.py:44-45 | one body's kinetic energy is never negative when its mass is not |
| Bodies.Momentum | M2_main.py:49-52 | definition: the mass-weighted sums of the velocity components; its conservation is stated in Analytical.KickedKeepsMomentum, Analytical.CollideConservesMomentum and Numerical.NumericalStepMomentum |
| Bodies.Energy | M2_main.py:43-46 | total kinetic energy is non-negative for non-negative masses |
| Bodies.EnergyIgnoresPositions | M2_main.py:43-52 | energy and momentum depend on the velocities only: states with equal velocities have equal energy and momentum |
| Bodies.UnitNormal | M2_main.py:135 | the separation divided by its positive length is a unit vector |
| Bodies.ClampIsNearest | M2_main.py:152-157 | the clamped coordinate is the admissible coordinate nearest the old one |
| Forces.AxisWallForce | M2_main.py:60-65 | no force on an axis when the body's extent lies between that axis's walls |
| Forces.AxisWallForceTowardsBox | M2_main.py:60-65 | in a box at least a diameter wide, the force is k times the way to the nearest admissible centre; when both walls are crossed, the two contributions add |
| Forces.AxisWallForcePointsInward | M2_main.py:60-65 | with positive stiffness, crossing only the low wall gives a positive force and crossing only the high wall a negative one |
| Forces.WallForce | M2_main.py:58-72 | zero force when the body touches none of the four walls |
| Forces.WallForceTowardsBox | M2_main.py:58-72 | in a box that fits the body, each component is k times the way to the nearest admissible centre on that axis |
| Forces.WallForceAxesIndependent | M2_main.py:58-72 | the x force does not depend on y, and the y force does not depend on x |
| Forces.BallBallForce | M2_main.py:75-93 | the force on body 2 is minus the force on body 1; both are zero unless 0 < distance² < (2·radius)² |
| Forces.OverlapDistance | M2_main.py:78-83 | when the squared distance passes the first guard, the distance lies strictly between 0 and a diameter, so the overlap is positive |
| Forces.BallBallForceAlongNormal | M2_main.py:86-90 | the force on body 1 is parallel to the line of centres |
| Forces.BallBallForceMagnitude | M2_main.py:81-90 | when overlapping, the force's squared length is (k·(2·radius − distance))² |
| Forces.BallBallForceRepulsive | M2_main.py:75-93 | with positive stiffness, the force pushes body 1 away from body 2, and it is non-zero exactly when the discs overlap |
| Analytical.FreeFlight | M2_main.py:126-129 | definition: positions advance by velocity times the step; its in-place form is Simulation.TwoBallRun.Fly |
| Analytical.ImpulseOf | M2_main.py:138-139 | definition: the restitution-1 impulse over the reduced mass; its properties are in Analytical.ImpulseShares and Analytical.KickedKeepsEnergy |
| Analytical.Kicked | M2_main.py:140-143 | definition: the velocity update of the impulse; its properties are in Analytical.KickedKeepsMomentum, Analytical.KickedKeepsEnergy and Analytical.KickedReversesNormalVelocity |
| Analytical.Separated | M2_main.py:144-148 | definition: the half-overlap position correction; its property is in Analytical.SeparatedRestoresContact |
| Analytical.Collide | M2_main.py:131-148 | definition: the collision block; its properties are in Analytical.CollideConservesMomentum, CollideConservesEnergy, CollideReversesNormalVelocity, CollideRestoresContact and CollideFiresIff |
| Analytical.ImpulseShares | M2_main.py:139-143 | the velocity changes j/m1 and j/m2 sum to minus twice the normal velocity |
| Analytical.KickedKeepsMomentum | M2_main.py:140-143 | an impulse of any size along any direction keeps the total momentum |
| Analytical.KickedKeepsEnergy | M2_main.py:138-143 | along a unit normal, the restitution-1 impulse keeps the total kinetic energy |
| Analytical.KickedReversesNormalVelocity | M2_main.py:136-143 | along a unit normal, the impulse turns the relative normal velocity v into −v |
| Analytical.SeparatedRestoresContact | M2_main.py:144-148 | centres d apart along a unit normal, corrected by the overlap, end exactly one diameter apart with the same midpoint |
| Analytical.ContactNormal | M2_main.py:131-135 | when the impulse fires, the distance is positive, the normal is a unit vector and the separation is the normal times the distance |
| Analytical.CollideConservesMomentum | M2_main.py:131-148 | the collision stage keeps the total momentum, whether or not it fires |
| Analytical.CollideConservesEnergy | M2_main.py:131-148 | the collision stage keeps the total kinetic energy, whether or not it fires |
| Analytical.CollideReversesNormalVelocity | M2_main.py:134-143 | after a collision, the relative normal velocity is the negation of the approach velocity |
| Analytical.CollideRestoresContact | M2_main.py:144-148 | after a collision, the squared distance is (2·radius)², and x1+x2 and y1+y2 are unchanged |
| Analytical.CollideIdle | M2_main.py:134-137 | bodies not in contact, or not approaching, are left unchanged |
| Analytical.CollideFiresIff | M2_main.py:134-137 | the collision changes the state if and only if 0 < distance < 2·radius and the normal velocity is negative |
| Analytical.ReflectAxis | M2_main.py:152-157 | definition: the if/elif wall handling on one axis; its properties are in Analytical.ReflectAxisSpec |
| Analytical.Walls | M2_main.py:151-176 | definition: the wall handling of both bodies on both axes; its properties are in Analytical.WallsKeepInside, WallsKeepEnergy and WallsIdleWhenClear |
| Analytical.AnalyticalStep | M2_main.py:123-176 | definition: one sample (flight, collision, walls); its properties are in Analytical.AnalyticalStepConserves |
| Analytical.ReflectAxisSpec | M2_main.py:152-157 | the new coordinate is the clamp into [low+radius, high−radius] and the speed is kept; after a low-wall crossing the velocity is ≥ 0 (the low wall wins over the high one); after a high-wall crossing alone it is ≤ 0; inside, nothing changes |
| Analytical.WallsKeepInside | M2_main.py:151-176 | in a box at least a diameter wide and high, both bodies end clear of all four walls |
| Analytical.WallsKeepEnergy | M2_main.py:151-176 | wall handling keeps the total kinetic energy |
| Analytical.WallsIdleWhenClear | M2_main.py:151-176 | bodies touching no wall are left unchanged |
| Analytical.AnalyticalStepConserves | M2_main.py:123-176 | one sample keeps the energy; it keeps the momentum when no wall is touched; it leaves both bodies inside a box that fits them |
| Analytical.AnalyticalKeepsEnergy | M2_main.py:123-182 | the energy after any number of samples equals the initial energy |
| Analytical.AnalyticalKeepsMomentum | M2_main.py:123-182 | the momentum after n samples equals the initial one when none of those samples touched a wall |
| Numerical.KickImpulse | M2_main.py:219-227 | a force f acting over dt adds f·dt to the body's momentum, whatever its mass |
| Numerical.Accelerate | M2_main.py:219-232 | definition: velocities updated from the forces, then positions with the new velocities; its properties are in Numerical.AccelerateUsesNewVelocity and AccelerateMomentum |
| Numerical.AccelerateUsesNewVelocity | M2_main.py:219-232 | each velocity changes by force·dt/m, and each position moves by the new velocity times dt |
| Numerical.AccelerateMomentum | M2_main.py:219-232 | an Euler update adds (f1 + f2)·dt to the total momentum |
| Numerical.TotalForces | M2_main.py:215-222 | definition: wall force plus body-body force on each body; its property is in Numerical.TotalForcesSum |
| Numerical.TotalForcesSum | M2_main.py:215-222 | the body-body forces cancel in the total force: what remains is the two wall forces |
| Numerical.NumericalStep | M2_main.py:214-232 | definition: forces on the old state, then the Euler update; its properties are in Numerical.NumericalStepMomentum, NumericalStepIsFreeFlight and RestIsFixed |
| Numerical.NumericalStepMomentum | M2_main.py:214-232 | one step changes the total momentum by exactly the wall impulse |
| Numerical.NumericalStepKeepsMomentum | M2_main.py:214-232 | a step that starts with neither body touching a wall keeps the total momentum |
| Numerical.NumericalStepIsFreeFlight | M2_main.py:214-232 | without wall or body contact, a step keeps the velocities and moves each position by v·dt |
| Numerical.NumericalKeepsMomentum | M2_main.py:214-239 | the momentum after n steps equals the initial one when none of those steps started at a wall |
| Numerical.RestIsFixed | M2_main.py:214-232 | bodies at rest, apart and clear of the walls stay where they are for any number of steps |
| Simulation.TwoBallRun.constructor | M2_main.py:113-121 | the run starts at the given state with empty histories; the initial energy and momentum are those of the starting state |
| Simulation.TwoBallRun.Record | M2_main.py:178-181 | each history gains exactly one entry: the two positions, the energy and the momentum of the current state |
| Simulation.TwoBallRun.Fly | M2_main.py:126-129 | positions advance by velocity times the step; velocities are untouched |
| Simulation.TwoBallRun.ApplyImpulse | M2_main.py:139-143 | the velocities become those of the impulse j along (nx, ny) |
| Simulation.TwoBallRun.Separate | M2_main.py:144-148 | the positions become those of the half-overlap correction |
| Simulation.TwoBallRun.CollideInPlace | M2_main.py:131-148 | the in-place collision code yields exactly the collision function of the old state |
| Simulation.ReflectOnAxis | M2_main.py:152-157 | the if/elif wall handling on one axis yields exactly the per-axis reflection |
| Simulation.TwoBallRun.ReflectAtWalls | M2_main.py:151-176 | the in-place wall handling yields exactly the wall function of the old state |
| Simulation.TwoBallRun.AdvanceAnalytical | M2_main.py:124-176 | the in-place sample is free flight, then collision, then walls |
| Simulation.TwoBallRun.SampleAnalytical | M2_main.py:123-176 | the state after i samples becomes the state after i + 1 samples |
| Simulation.TwoBallRun.StepAnalytical | M2_main.py:123-182 | one sample plus recording: the state moves one sample on, and the histories describe one more sample |
| Simulation.TwoBallRun.RunAnalytical | M2_main.py:118-182 | after the loop, the state is that after all samples; the histories hold one entry per sample, each with that sample's positions and momentum and the initial energy; the initial values are untouched |
| Simulation.AnalyticalHistoryExtend | M2_main.py:178-181 | appending the next sample's record keeps the analytical history invariant, including the constant energy |
| Simulation.AnalyticalHistoryMomentum | M2_main.py:181 | each momentum entry recorded before any sample touched a wall equals the initial momentum |
| Simulation.SimulateAnalytical | M2_main.py:99-191 | len(t_eval) entries in every history; every energy entry equals the initial energy; every momentum entry before the first wall contact equals the initial momentum |
| Simulation.TwoBallRun.Push | M2_main.py:219-227 | each velocity gains force/mass times dt; positions are untouched |
| Simulation.TwoBallRun.ApplyForces | M2_main.py:219-232 | velocities first, then positions with the new velocities: the Euler update of the old state |
| Simulation.TwoBallRun.AdvanceNumerical | M2_main.py:215-232 | the in-place step is the numerical step of the old state, with all forces evaluated before any update |
| Simulation.TwoBallRun.StepNumerical | M2_main.py:214-239 | one step plus recording: the state moves one step on, and the histories describe one more step |
| Simulation.TwoBallRun.RunNumerical | M2_main.py:214-239 | after the loop, the state is that after `steps` steps; the histories hold one entry per step with that step's positions, energy and momentum; the initial values are untouched |
| Simulation.NumericalHistoryExtend | M2_main.py:234-239 | appending the next step's record keeps the numerical history invariant |
| Simulation.NumericalHistoryMomentum | M2_main.py:239 | each momentum entry recorded before any step started at a wall equals the initial momentum |
| Simulation.SimulateNumerical | M2_main.py:205-249 | `steps` entries in every history; every momentum entry before the first wall contact equals the initial momentum |

## Left out

- Animation, figures and the frame callback (`M2_main.py:251-342`), and the conservation plots (`M2_main.py:401-430`): presentation only.
- Console output (`M2_main.py:35-37`, the collision log at `149`, `194`, `204`, `344-399`): presentation only. The drift percentages printed there are reports on floating-point output.
- Building `t_eval` with `np.linspace`, `steps = int(t_max / dt)`, and the degree-to-radian conversion of the initial velocities (`M2_main.py:14-33`). These are library numerics. The sample times, step count, step length and initial state are inputs.
- Floating-point rounding: the model computes over the reals, so drift, instability for large `dt` and claims of "machine precision" are outside it.
- `np.sqrt` and `np.hypot` are a parameter `sqrt`, which is assumed to be an exact square root. Real square roots are not constructed here.
- The NumPy array conversion of the results (`M2_main.py:191`, `241-242`) and the `conservation_data` dictionary (`184-189`, `244-249`). The histories and initial values are the fields of `TwoBallRun`.
- The velocity arguments of `hooke_force_ball_wall` and `hooke_force_ball_ball` are never read by the source, so the model's force functions do not take them.
- The `m1`, `m2`, `radius` parameters of `simulate_analytical_two_balls` and their defaults: the only call passes the global values, so the model has one configuration.
- Collisions missed between samples (tunnelling) are a consequence of checking contact only at the sample instants; the model reproduces that check as written and proves nothing about missed contacts.
- Simulation.TwoBallRun.RunAnalytical: requires empty histories on entry, because the source always starts the loop on freshly created lists.
- Simulation.TwoBallRun.RunNumerical: requires empty histories on entry, because the source always starts the loop on freshly created lists.
- Simulation.SimulateNumerical: states no energy conservation; the spring model stores energy in the springs during contact, and the semi-implicit Euler update does not conserve kinetic energy exactly.
