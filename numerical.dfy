/** The numerical (spring) model: every step of length `dt` sums the wall
    and body-body Hooke forces, turns them into accelerations, and advances
    with semi-implicit Euler (velocity first, then position with the new
    velocity). */
module Numerical {
  import opened Bodies
  import opened Forces
  import Analytical

  /** Velocity after a force `f` acts on a mass `m` for `dt`. */
  function Kick(m: real, v: real, f: real, dt: real): real
    requires m != 0.0
  {
    v + (f / m) * dt
  }

  /** The momentum a kick adds is the impulse f*dt, whatever the mass. */
  lemma KickImpulse(m: real, v: real, f: real, dt: real)
    requires m != 0.0
    ensures m * Kick(m, v, f, dt) == m * v + f * dt
  {
    assert m * ((f / m) * dt) == (m * (f / m)) * dt;
  }

  /** The forces `f1` on body 1 and `f2` on body 2 act for `dt`: each
      velocity gains force/mass times `dt`; the positions stay. */
  function Pushed(cfg: Config, s: State, f1: Vec, f2: Vec, dt: real): State
    requires cfg.MassesPositive()
  {
    s.(vx1 := Kick(cfg.m1, s.vx1, f1.x, dt), vy1 := Kick(cfg.m1, s.vy1, f1.y, dt),
       vx2 := Kick(cfg.m2, s.vx2, f2.x, dt), vy2 := Kick(cfg.m2, s.vy2, f2.y, dt))
  }

  /** Semi-implicit Euler: the velocities are updated first, then each
      position advances with its new velocity. */
  function Accelerate(cfg: Config, s: State, f1: Vec, f2: Vec, dt: real): State
    requires cfg.MassesPositive()
  {
    Analytical.FreeFlight(Pushed(cfg, s, f1, f2, dt), dt)
  }

  /** Semi-implicit order: the positions advance with the velocities of the
      end of the step, and each velocity changes by force/mass times `dt`. */
  lemma AccelerateUsesNewVelocity(cfg: Config, s: State, f1: Vec, f2: Vec, dt: real)
    requires cfg.MassesPositive()
    ensures
      var t := Accelerate(cfg, s, f1, f2, dt);
      t.x1 == s.x1 + t.vx1 * dt && t.y1 == s.y1 + t.vy1 * dt &&
      t.x2 == s.x2 + t.vx2 * dt && t.y2 == s.y2 + t.vy2 * dt &&
      cfg.m1 * (t.vx1 - s.vx1) == f1.x * dt && cfg.m1 * (t.vy1 - s.vy1) == f1.y * dt &&
      cfg.m2 * (t.vx2 - s.vx2) == f2.x * dt && cfg.m2 * (t.vy2 - s.vy2) == f2.y * dt
  {
    KickImpulse(cfg.m1, s.vx1, f1.x, dt);
    KickImpulse(cfg.m1, s.vy1, f1.y, dt);
    KickImpulse(cfg.m2, s.vx2, f2.x, dt);
    KickImpulse(cfg.m2, s.vy2, f2.y, dt);
  }

  /** The momentum `p` after an impulse `f` * dt. */
  function Shifted(p: Vec, f: Vec, dt: real): Vec {
    Vec(p.x + f.x * dt, p.y + f.y * dt)
  }

  /** The momentum after an Euler step is the old momentum plus the total
      impulse `total` * dt, where `total` is f1 + f2. */
  lemma AccelerateMomentum(cfg: Config, s: State, f1: Vec, f2: Vec, dt: real, total: Vec)
    requires cfg.MassesPositive() && total == Vec(f1.x + f2.x, f1.y + f2.y)
    ensures Momentum(cfg, Accelerate(cfg, s, f1, f2, dt)) == Shifted(Momentum(cfg, s), total, dt)
  {
    KickMomentum(cfg.m1, cfg.m2, s.vx1, s.vx2, f1.x, f2.x, dt, total.x);
    KickMomentum(cfg.m1, cfg.m2, s.vy1, s.vy2, f1.y, f2.y, dt, total.y);
  }

  /** On one axis, the momentum of two kicked bodies grows by the total
      force times `dt`. */
  lemma KickMomentum(m1: real, m2: real, v1: real, v2: real, f1: real, f2: real, dt: real, total: real)
    requires m1 != 0.0 && m2 != 0.0 && total == f1 + f2
    ensures m1 * Kick(m1, v1, f1, dt) + m2 * Kick(m2, v2, f2, dt) == (m1 * v1 + m2 * v2) + total * dt
  {
    KickImpulse(m1, v1, f1, dt);
    KickImpulse(m2, v2, f2, dt);
  }

  /** The total force on body 1 and on body 2: walls plus the other body. */
  function TotalForces(cfg: Config, sqrt: real -> real, s: State): ForcePair
    requires SqrtPositive(sqrt)
  {
    var w1 := WallForce(cfg, s.x1, s.y1);
    var w2 := WallForce(cfg, s.x2, s.y2);
    var b := BallBallForce(cfg, sqrt, s);
    ForcePair(Vec(w1.x + b.f1.x, w1.y + b.f1.y), Vec(w2.x + b.f2.x, w2.y + b.f2.y))
  }

  /** One step of the numerical model: all forces are evaluated on the old
      state, then the Euler update is applied. */
  function NumericalStep(cfg: Config, sqrt: real -> real, s: State, dt: real): State
    requires cfg.MassesPositive() && SqrtPositive(sqrt)
  {
    var f := TotalForces(cfg, sqrt, s);
    Accelerate(cfg, s, f.f1, f.f2, dt)
  }

  /** Total force the walls exert on the two bodies. */
  function WallImpulseRate(cfg: Config, s: State): Vec {
    var w1 := WallForce(cfg, s.x1, s.y1);
    var w2 := WallForce(cfg, s.x2, s.y2);
    Vec(w1.x + w2.x, w1.y + w2.y)
  }

  /** The body-body forces cancel: the total force on the two bodies is
      the force of the walls. */
  lemma TotalForcesSum(cfg: Config, sqrt: real -> real, s: State)
    requires SqrtPositive(sqrt)
    ensures
      var f := TotalForces(cfg, sqrt, s);
      WallImpulseRate(cfg, s) == Vec(f.f1.x + f.f2.x, f.f1.y + f.f2.y)
  {
    var b := BallBallForce(cfg, sqrt, s);
    assert b.f2.x == -b.f1.x && b.f2.y == -b.f1.y;
  }

  /** A step changes the total momentum by the wall impulse only: the
      body-body forces cancel. */
  lemma NumericalStepMomentum(cfg: Config, sqrt: real -> real, s: State, dt: real)
    requires cfg.MassesPositive() && SqrtPositive(sqrt)
    ensures
      Momentum(cfg, NumericalStep(cfg, sqrt, s, dt)) == Shifted(Momentum(cfg, s), WallImpulseRate(cfg, s), dt)
  {
    var f, w := TotalForces(cfg, sqrt, s), WallImpulseRate(cfg, s);
    assert NumericalStep(cfg, sqrt, s, dt) == Accelerate(cfg, s, f.f1, f.f2, dt);
    TotalForcesSum(cfg, sqrt, s);
    AccelerateMomentum(cfg, s, f.f1, f.f2, dt, w);
  }

  /** Away from the walls a step keeps the total momentum. */
  lemma NumericalStepKeepsMomentum(cfg: Config, sqrt: real -> real, s: State, dt: real)
    requires cfg.MassesPositive() && SqrtPositive(sqrt) && BothClearOfWalls(cfg, s)
    ensures Momentum(cfg, NumericalStep(cfg, sqrt, s, dt)) == Momentum(cfg, s)
  {
    NumericalStepMomentum(cfg, sqrt, s, dt);
  }

  /** Without contact the numerical step is the analytical free flight: the
      velocities are unchanged and the positions advance by v*dt. */
  lemma NumericalStepIsFreeFlight(cfg: Config, sqrt: real -> real, s: State, dt: real)
    requires cfg.MassesPositive() && SqrtPositive(sqrt)
    requires BothClearOfWalls(cfg, s) && !Overlapping(cfg, s)
    ensures NumericalStep(cfg, sqrt, s, dt) == Analytical.FreeFlight(s, dt)
  {
    assert WallForce(cfg, s.x1, s.y1) == Zero && WallForce(cfg, s.x2, s.y2) == Zero;
    assert BallBallForce(cfg, sqrt, s) == ForcePair(Zero, Zero);
    assert TotalForces(cfg, sqrt, s) == ForcePair(Zero, Zero);
    assert Kick(cfg.m1, s.vx1, 0.0, dt) == s.vx1 && Kick(cfg.m1, s.vy1, 0.0, dt) == s.vy1;
    assert Kick(cfg.m2, s.vx2, 0.0, dt) == s.vx2 && Kick(cfg.m2, s.vy2, 0.0, dt) == s.vy2;
    assert Accelerate(cfg, s, Zero, Zero, dt) == Analytical.FreeFlight(s, dt);
  }

  /** The state after `n` steps of length `dt`. */
  function NumericalAfter(cfg: Config, sqrt: real -> real, s0: State, dt: real, n: nat): State
    requires cfg.MassesPositive() && SqrtPositive(sqrt)
  {
    if n == 0 then s0 else NumericalStep(cfg, sqrt, NumericalAfter(cfg, sqrt, s0, dt, n - 1), dt)
  }

  /** None of the first `n` steps starts with a body touching a wall. */
  predicate ClearStepsBefore(cfg: Config, sqrt: real -> real, s0: State, dt: real, n: nat)
    requires cfg.MassesPositive() && SqrtPositive(sqrt)
  {
    forall i: nat :: i < n ==> BothClearOfWalls(cfg, NumericalAfter(cfg, sqrt, s0, dt, i))
  }

  /** Momentum is the same after `n` steps if no step started with a body
      touching a wall. */
  lemma {:induction false} NumericalKeepsMomentum(cfg: Config, sqrt: real -> real, s0: State, dt: real, n: nat)
    requires cfg.MassesPositive() && SqrtPositive(sqrt)
    requires ClearStepsBefore(cfg, sqrt, s0, dt, n)
    ensures Momentum(cfg, NumericalAfter(cfg, sqrt, s0, dt, n)) == Momentum(cfg, s0)
  {
    if n > 0 {
      NumericalKeepsMomentum(cfg, sqrt, s0, dt, n - 1);
      NumericalStepKeepsMomentum(cfg, sqrt, NumericalAfter(cfg, sqrt, s0, dt, n - 1), dt);
    }
  }

  /** Bodies at rest, apart and clear of the walls stay where they are for
      any number of steps. */
  lemma {:induction false} RestIsFixed(cfg: Config, sqrt: real -> real, s0: State, dt: real, n: nat)
    requires cfg.MassesPositive() && SqrtPositive(sqrt)
    requires s0.vx1 == 0.0 && s0.vy1 == 0.0 && s0.vx2 == 0.0 && s0.vy2 == 0.0
    requires BothClearOfWalls(cfg, s0) && !Overlapping(cfg, s0)
    ensures NumericalAfter(cfg, sqrt, s0, dt, n) == s0
  {
    if n > 0 {
      RestIsFixed(cfg, sqrt, s0, dt, n - 1);
      NumericalStepIsFreeFlight(cfg, sqrt, s0, dt);
    }
  }
}
