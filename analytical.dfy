/** The analytical (impulse) model: per sample, free flight, then an
    elastic impulse between the bodies with a positional correction, then
    clamping and reflection at the walls. Collisions are looked for only at
    the sample instants. */
module Analytical {
  import opened Bodies
  import opened Forces

  /** Restitution of the body-body impulse: perfectly elastic. */
  const Restitution := 1.0

  /** Both bodies coast for `dtStep`: no force acts between samples. */
  function FreeFlight(s: State, dtStep: real): State {
    s.(x1 := s.x1 + s.vx1 * dtStep, y1 := s.y1 + s.vy1 * dtStep,
       x2 := s.x2 + s.vx2 * dtStep, y2 := s.y2 + s.vy2 * dtStep)
  }

  /** Distance of the centres (the source's `hypot(dx, dy)`). */
  function Distance(sqrt: real -> real, s: State): real {
    sqrt(SquaredDistance(s))
  }

  /** The normal from body 2 to body 1: the separation divided by the
      distance. */
  function Normal(sqrt: real -> real, s: State): Vec
    requires Distance(sqrt, s) != 0.0
  {
    var distance := Distance(sqrt, s);
    Vec((s.x1 - s.x2) / distance, (s.y1 - s.y2) / distance)
  }

  /** The relative velocity of body 1 with respect to body 2 along the
      normal; negative when the bodies approach. */
  function NormalVelocity(sqrt: real -> real, s: State): real
    requires Distance(sqrt, s) != 0.0
  {
    var n := Normal(sqrt, s);
    (s.vx1 - s.vx2) * n.x + (s.vy1 - s.vy2) * n.y
  }

  /** The condition under which the impulse is applied: the centres are
      apart but closer than a diameter, and the bodies approach. */
  predicate Approaching(cfg: Config, sqrt: real -> real, s: State) {
    0.0 < Distance(sqrt, s) < 2.0 * cfg.radius && NormalVelocity(sqrt, s) < 0.0
  }

  /** Magnitude of the impulse for normal velocity `vRelN`, with the
      restitution and the reduced mass of the two bodies. */
  function ImpulseOf(cfg: Config, vRelN: real): real
    requires cfg.MassesPositive()
  {
    -(1.0 + Restitution) * vRelN / (1.0 / cfg.m1 + 1.0 / cfg.m2)
  }

  /** Velocities after the impulse `j` along `n`: body 1 gains j/m1, body 2
      loses j/m2. */
  function Kicked(cfg: Config, s: State, n: Vec, j: real): State
    requires cfg.MassesPositive()
  {
    s.(vx1 := s.vx1 + (j / cfg.m1) * n.x, vy1 := s.vy1 + (j / cfg.m1) * n.y,
       vx2 := s.vx2 - (j / cfg.m2) * n.x, vy2 := s.vy2 - (j / cfg.m2) * n.y)
  }

  /** Positions after each body is pushed back along `n` by half of `overlap`. */
  function Separated(s: State, n: Vec, overlap: real): State {
    s.(x1 := s.x1 + n.x * (overlap * 0.5), y1 := s.y1 + n.y * (overlap * 0.5),
       x2 := s.x2 - n.x * (overlap * 0.5), y2 := s.y2 - n.y * (overlap * 0.5))
  }

  /** Body-body collision: when the bodies touch and approach, the impulse
      along the normal, then the positional correction by the overlap. */
  function Collide(cfg: Config, sqrt: real -> real, s: State): State
    requires cfg.MassesPositive()
  {
    if Approaching(cfg, sqrt, s) then
      var n := Normal(sqrt, s);
      Separated(Kicked(cfg, s, n, ImpulseOf(cfg, NormalVelocity(sqrt, s))), n, 2.0 * cfg.radius - Distance(sqrt, s))
    else
      s
  }

  /** The impulse splits as j/m1 and j/m2, which together undo twice the
      approach speed. */
  lemma ImpulseShares(m1: real, m2: real, vRelN: real)
    requires 0.0 < m1 && 0.0 < m2
    ensures
      var j := -(1.0 + Restitution) * vRelN / (1.0 / m1 + 1.0 / m2);
      m1 * (j / m1) == j && m2 * (j / m2) == j && j / m1 + j / m2 == -2.0 * vRelN
  {
    var mu := 1.0 / m1 + 1.0 / m2;
    var j := -(1.0 + Restitution) * vRelN / mu;
    assert j * mu == -2.0 * vRelN;
    assert j / m1 + j / m2 == j * mu;
  }

  /** Kinetic energy gained by a mass `m` moving at speed `p` along a unit
      vector when that speed changes by `c`. */
  function KickGain(m: real, c: real, p: real): real {
    m * c * p + 0.5 * m * c * c
  }

  /** Kinetic energy after a velocity change `c` along a unit vector. */
  lemma KineticEnergyAfterKick(m: real, vx: real, vy: real, c: real, nx: real, ny: real, p: real, wx: real, wy: real)
    requires nx * nx + ny * ny == 1.0 && p == vx * nx + vy * ny
    requires wx == vx + c * nx && wy == vy + c * ny
    ensures KineticEnergy(m, wx, wy) == KineticEnergy(m, vx, vy) + KickGain(m, c, p)
  {
    calc {
      (vx + c * nx) * (vx + c * nx) + (vy + c * ny) * (vy + c * ny);
      vx * vx + vy * vy + 2.0 * c * (vx * nx + vy * ny) + c * c * (nx * nx + ny * ny);
      vx * vx + vy * vy + 2.0 * c * (vx * nx + vy * ny) + c * c;
    }
  }

  /** The energy gained by one body is lost by the other when the shares
      c1 = j/m1 and c2 = j/m2 sum to twice the approach speed. */
  lemma KickBalance(m1: real, m2: real, c1: real, c2: real, j: real, p1: real, p2: real)
    requires m1 * c1 == j && m2 * c2 == j
    requires c1 + c2 == -2.0 * (p1 - p2)
    ensures KickGain(m1, c1, p1) + KickGain(m2, -c2, p2) == 0.0
  {
    calc {
      m1 * c1 * p1 + 0.5 * m1 * c1 * c1 + m2 * (-c2) * p2 + 0.5 * m2 * (-c2) * (-c2);
      (m1 * c1) * p1 + 0.5 * (m1 * c1) * c1 - (m2 * c2) * p2 + 0.5 * (m2 * c2) * c2;
      j * p1 + 0.5 * j * c1 - j * p2 + 0.5 * j * c2;
      j * ((p1 - p2) + 0.5 * (c1 + c2));
      0.0;
    }
  }

  /** An impulse `j` along any direction keeps the total momentum: body 1
      gains j*n and body 2 loses the same. */
  lemma KickedKeepsMomentum(cfg: Config, s: State, n: Vec, j: real)
    requires cfg.MassesPositive()
    ensures Momentum(cfg, Kicked(cfg, s, n, j)) == Momentum(cfg, s)
  {
    assert cfg.m1 * ((j / cfg.m1) * n.x) == j * n.x && cfg.m2 * ((j / cfg.m2) * n.x) == j * n.x;
    assert cfg.m1 * ((j / cfg.m1) * n.y) == j * n.y && cfg.m2 * ((j / cfg.m2) * n.y) == j * n.y;
  }

  /** Body 1 gaining c1 and body 2 losing c2 along a unit normal keeps the
      total kinetic energy when m1*c1 = m2*c2 and the shares sum to twice
      minus the normal velocity `v`. */
  lemma KickEnergyBalance(m1: real, m2: real, vx1: real, vy1: real, vx2: real, vy2: real,
                          nx: real, ny: real, j: real, c1: real, c2: real, v: real)
    requires nx * nx + ny * ny == 1.0 && v == (vx1 - vx2) * nx + (vy1 - vy2) * ny
    requires m1 * c1 == j && m2 * c2 == j && c1 + c2 == -2.0 * v
    ensures KineticEnergy(m1, vx1 + c1 * nx, vy1 + c1 * ny) + KineticEnergy(m2, vx2 - c2 * nx, vy2 - c2 * ny)
         == KineticEnergy(m1, vx1, vy1) + KineticEnergy(m2, vx2, vy2)
  {
    var p1, p2 := vx1 * nx + vy1 * ny, vx2 * nx + vy2 * ny;
    assert v == p1 - p2;
    KineticEnergyAfterKick(m1, vx1, vy1, c1, nx, ny, p1, vx1 + c1 * nx, vy1 + c1 * ny);
    KineticEnergyAfterKick(m2, vx2, vy2, -c2, nx, ny, p2, vx2 - c2 * nx, vy2 - c2 * ny);
    KickBalance(m1, m2, c1, c2, j, p1, p2);
  }

  /** Body 1 gaining c1 and body 2 losing c2 along a unit normal, with
      c1 + c2 twice minus the normal velocity `v`, turns `v` into -v. */
  lemma KickReversal(vx1: real, vy1: real, vx2: real, vy2: real, nx: real, ny: real, c1: real, c2: real, v: real)
    requires nx * nx + ny * ny == 1.0 && v == (vx1 - vx2) * nx + (vy1 - vy2) * ny
    requires c1 + c2 == -2.0 * v
    ensures ((vx1 + c1 * nx) - (vx2 - c2 * nx)) * nx + ((vy1 + c1 * ny) - (vy2 - c2 * ny)) * ny == -v
  {
    calc {
      ((vx1 + c1 * nx) - (vx2 - c2 * nx)) * nx + ((vy1 + c1 * ny) - (vy2 - c2 * ny)) * ny;
      v + (c1 + c2) * (nx * nx + ny * ny);
      v + (c1 + c2);
    }
  }

  /** Along a unit normal, the restitution-1 impulse for the normal velocity
      `vRelN` keeps the total kinetic energy of the two bodies. */
  lemma KickedKeepsEnergy(cfg: Config, s: State, n: Vec, vRelN: real)
    requires cfg.MassesPositive() && n.x * n.x + n.y * n.y == 1.0
    requires vRelN == (s.vx1 - s.vx2) * n.x + (s.vy1 - s.vy2) * n.y
    ensures Energy(cfg, Kicked(cfg, s, n, ImpulseOf(cfg, vRelN))) == Energy(cfg, s)
  {
    var j := ImpulseOf(cfg, vRelN);
    ImpulseShares(cfg.m1, cfg.m2, vRelN);
    KickEnergyBalance(cfg.m1, cfg.m2, s.vx1, s.vy1, s.vx2, s.vy2, n.x, n.y, j, j / cfg.m1, j / cfg.m2, vRelN);
  }

  /** Along a unit normal, the restitution-1 impulse turns the normal
      velocity `vRelN` into -vRelN. */
  lemma KickedReversesNormalVelocity(cfg: Config, s: State, n: Vec, vRelN: real)
    requires cfg.MassesPositive() && n.x * n.x + n.y * n.y == 1.0
    requires vRelN == (s.vx1 - s.vx2) * n.x + (s.vy1 - s.vy2) * n.y
    ensures
      var t := Kicked(cfg, s, n, ImpulseOf(cfg, vRelN));
      (t.vx1 - t.vx2) * n.x + (t.vy1 - t.vy2) * n.y == -vRelN
  {
    var j := ImpulseOf(cfg, vRelN);
    ImpulseShares(cfg.m1, cfg.m2, vRelN);
    KickReversal(s.vx1, s.vy1, s.vx2, s.vy2, n.x, n.y, j / cfg.m1, j / cfg.m2, vRelN);
  }

  /** Centres `d` apart along the unit normal, pushed apart by the overlap
      `diameter - d`, end exactly `diameter` apart with the same midpoint. */
  lemma SeparatedRestoresContact(s: State, n: Vec, d: real, diameter: real)
    requires n.x * n.x + n.y * n.y == 1.0
    requires s.x1 - s.x2 == n.x * d && s.y1 - s.y2 == n.y * d
    ensures
      var t := Separated(s, n, diameter - d);
      SquaredDistance(t) == diameter * diameter &&
      t.x1 + t.x2 == s.x1 + s.x2 && t.y1 + t.y2 == s.y1 + s.y2
  {
    var t := Separated(s, n, diameter - d);
    assert t.x1 - t.x2 == n.x * diameter;
    assert t.y1 - t.y2 == n.y * diameter;
    SquaredDistanceOf(t, n.x * diameter, n.y * diameter);
    ScaledUnit(n.x, n.y, diameter);
  }

  /** Scaling a unit vector by `a` gives a vector of squared length a*a. */
  lemma ScaledUnit(nx: real, ny: real, a: real)
    requires nx * nx + ny * ny == 1.0
    ensures (nx * a) * (nx * a) + (ny * a) * (ny * a) == a * a
  {
    calc {
      (nx * a) * (nx * a) + (ny * a) * (ny * a);
      (nx * nx + ny * ny) * (a * a);
    }
  }

  lemma SquaredDistanceOf(t: State, a: real, b: real)
    requires t.x1 - t.x2 == a && t.y1 - t.y2 == b
    ensures SquaredDistance(t) == a * a + b * b
  {
  }

  /** When the impulse fires, the distance is positive, the normal is a unit
      vector and the separation is the normal times the distance. */
  lemma ContactNormal(cfg: Config, sqrt: real -> real, s: State)
    requires IsSqrt(sqrt) && Approaching(cfg, sqrt, s)
    ensures
      var d, n := Distance(sqrt, s), Normal(sqrt, s);
      0.0 < d && n.x * n.x + n.y * n.y == 1.0 &&
      s.x1 - s.x2 == n.x * d && s.y1 - s.y2 == n.y * d
  {
    var d, n := Distance(sqrt, s), Normal(sqrt, s);
    assert d * d == SquaredDistance(s);
    UnitNormal(s.x1 - s.x2, s.y1 - s.y2, d, n.x, n.y);
  }

  /** The collision keeps the total momentum, whether or not it fires. */
  lemma CollideConservesMomentum(cfg: Config, sqrt: real -> real, s: State)
    requires cfg.MassesPositive()
    ensures Momentum(cfg, Collide(cfg, sqrt, s)) == Momentum(cfg, s)
  {
    if Approaching(cfg, sqrt, s) {
      KickedKeepsMomentum(cfg, s, Normal(sqrt, s), ImpulseOf(cfg, NormalVelocity(sqrt, s)));
    }
  }

  /** The collision keeps the total kinetic energy, whether or not it fires. */
  lemma CollideConservesEnergy(cfg: Config, sqrt: real -> real, s: State)
    requires cfg.MassesPositive() && IsSqrt(sqrt)
    ensures Energy(cfg, Collide(cfg, sqrt, s)) == Energy(cfg, s)
  {
    if Approaching(cfg, sqrt, s) {
      var n := Normal(sqrt, s);
      ContactNormal(cfg, sqrt, s);
      KickedKeepsEnergy(cfg, s, n, NormalVelocity(sqrt, s));
      var k := Kicked(cfg, s, n, ImpulseOf(cfg, NormalVelocity(sqrt, s)));
      EnergyIgnoresPositions(cfg, k, Collide(cfg, sqrt, s));
    }
  }

  /** After an impulse the normal velocity is reversed: the bodies separate
      exactly as fast as they approached. */
  lemma CollideReversesNormalVelocity(cfg: Config, sqrt: real -> real, s: State)
    requires cfg.MassesPositive() && IsSqrt(sqrt) && Approaching(cfg, sqrt, s)
    ensures
      var t, n := Collide(cfg, sqrt, s), Normal(sqrt, s);
      (t.vx1 - t.vx2) * n.x + (t.vy1 - t.vy2) * n.y == -NormalVelocity(sqrt, s)
  {
    ContactNormal(cfg, sqrt, s);
    KickedReversesNormalVelocity(cfg, s, Normal(sqrt, s), NormalVelocity(sqrt, s));
  }

  /** The positional correction leaves the centres exactly one diameter
      apart and keeps their midpoint. */
  lemma CollideRestoresContact(cfg: Config, sqrt: real -> real, s: State)
    requires cfg.MassesPositive() && IsSqrt(sqrt) && Approaching(cfg, sqrt, s)
    ensures
      var t := Collide(cfg, sqrt, s);
      SquaredDistance(t) == (2.0 * cfg.radius) * (2.0 * cfg.radius) &&
      t.x1 + t.x2 == s.x1 + s.x2 && t.y1 + t.y2 == s.y1 + s.y2
  {
    var n, d := Normal(sqrt, s), Distance(sqrt, s);
    ContactNormal(cfg, sqrt, s);
    var k := Kicked(cfg, s, n, ImpulseOf(cfg, NormalVelocity(sqrt, s)));
    assert k.x1 == s.x1 && k.y1 == s.y1 && k.x2 == s.x2 && k.y2 == s.y2;
    assert Collide(cfg, sqrt, s) == Separated(k, n, 2.0 * cfg.radius - d);
    SeparatedRestoresContact(k, n, d, 2.0 * cfg.radius);
  }

  /** Bodies that do not approach, or are not in contact, are left alone. */
  lemma CollideIdle(cfg: Config, sqrt: real -> real, s: State)
    requires cfg.MassesPositive() && !Approaching(cfg, sqrt, s)
    ensures Collide(cfg, sqrt, s) == s
  {
  }

  /** The collision changes the state exactly when the bodies are in
      contact and approach. */
  lemma CollideFiresIff(cfg: Config, sqrt: real -> real, s: State)
    requires cfg.MassesPositive() && IsSqrt(sqrt)
    ensures Collide(cfg, sqrt, s) != s <==> Approaching(cfg, sqrt, s)
  {
    if Approaching(cfg, sqrt, s) {
      CollideReversesNormalVelocity(cfg, sqrt, s);
    }
  }

  /** Position and velocity of one body along one axis. */
  datatype Phase = Phase(pos: real, vel: real)

  /** Wall handling on one axis: a body crossing the low wall is put against
      it and sent inward; otherwise one crossing the high wall likewise. */
  function ReflectAxis(low: real, high: real, r: real, p: real, v: real): Phase {
    if p - r < low then
      Phase(low + r, Abs(v))
    else if p + r > high then
      Phase(high - r, -Abs(v))
    else
      Phase(p, v)
  }

  /** The body ends at the admissible position nearest to where it was, with
      the same speed; after touching the low wall it moves inward (the low
      wall wins when both are crossed), after touching only the high wall it
      moves inward too, and inside the box nothing changes. */
  lemma ReflectAxisSpec(low: real, high: real, r: real, p: real, v: real)
    ensures ReflectAxis(low, high, r, p, v).pos == Clamp(p, low + r, high - r)
    ensures Abs(ReflectAxis(low, high, r, p, v).vel) == Abs(v)
    ensures p - r < low ==> 0.0 <= ReflectAxis(low, high, r, p, v).vel
    ensures low <= p - r && p + r > high ==> ReflectAxis(low, high, r, p, v).vel <= 0.0
    ensures low <= p - r && p + r <= high ==> ReflectAxis(low, high, r, p, v) == Phase(p, v)
  {
  }

  /** Velocities of equal magnitude carry equal kinetic energy. */
  lemma SameSpeedSquare(a: real, v: real)
    requires Abs(a) == Abs(v)
    ensures a * a == v * v
  {
    if a != v {
      assert a == -v;
    }
  }

  /** Walls act on body 1 (x, then y), then on body 2 (x, then y). */
  function Walls(cfg: Config, s: State): State {
    var ax1 := ReflectAxis(cfg.wallLeft, cfg.wallRight, cfg.radius, s.x1, s.vx1);
    var ay1 := ReflectAxis(cfg.wallBottom, cfg.wallTop, cfg.radius, s.y1, s.vy1);
    var ax2 := ReflectAxis(cfg.wallLeft, cfg.wallRight, cfg.radius, s.x2, s.vx2);
    var ay2 := ReflectAxis(cfg.wallBottom, cfg.wallTop, cfg.radius, s.y2, s.vy2);
    State(ax1.pos, ay1.pos, ax1.vel, ay1.vel, ax2.pos, ay2.pos, ax2.vel, ay2.vel)
  }

  /** In a box that fits the bodies, both centres end at least a radius
      inside every wall, whatever the incoming state. */
  lemma WallsKeepInside(cfg: Config, s: State)
    requires cfg.BoxFitsBody()
    ensures BothClearOfWalls(cfg, Walls(cfg, s))
  {
    var r := cfg.radius;
    ReflectAxisSpec(cfg.wallLeft, cfg.wallRight, r, s.x1, s.vx1);
    ReflectAxisSpec(cfg.wallBottom, cfg.wallTop, r, s.y1, s.vy1);
    ReflectAxisSpec(cfg.wallLeft, cfg.wallRight, r, s.x2, s.vx2);
    ReflectAxisSpec(cfg.wallBottom, cfg.wallTop, r, s.y2, s.vy2);
  }

  /** Reflection only flips signs of velocity components, so the kinetic
      energy is kept. */
  lemma WallsKeepEnergy(cfg: Config, s: State)
    ensures Energy(cfg, Walls(cfg, s)) == Energy(cfg, s)
  {
    var r := cfg.radius;
    var t := Walls(cfg, s);
    ReflectAxisSpec(cfg.wallLeft, cfg.wallRight, r, s.x1, s.vx1);
    SameSpeedSquare(t.vx1, s.vx1);
    ReflectAxisSpec(cfg.wallBottom, cfg.wallTop, r, s.y1, s.vy1);
    SameSpeedSquare(t.vy1, s.vy1);
    ReflectAxisSpec(cfg.wallLeft, cfg.wallRight, r, s.x2, s.vx2);
    SameSpeedSquare(t.vx2, s.vx2);
    ReflectAxisSpec(cfg.wallBottom, cfg.wallTop, r, s.y2, s.vy2);
    SameSpeedSquare(t.vy2, s.vy2);
  }

  /** Bodies that touch no wall are left alone. */
  lemma WallsIdleWhenClear(cfg: Config, s: State)
    requires BothClearOfWalls(cfg, s)
    ensures Walls(cfg, s) == s
  {
  }

  /** One sample of the analytical model. */
  function AnalyticalStep(cfg: Config, sqrt: real -> real, s: State, dtStep: real): State
    requires cfg.MassesPositive()
  {
    Walls(cfg, Collide(cfg, sqrt, FreeFlight(s, dtStep)))
  }

  /** The sample touches no wall: after flight and collision both bodies are
      clear of the walls, so the walls leave the state alone. */
  predicate ClearSample(cfg: Config, sqrt: real -> real, s: State, dtStep: real)
    requires cfg.MassesPositive()
  {
    BothClearOfWalls(cfg, Collide(cfg, sqrt, FreeFlight(s, dtStep)))
  }

  /** One analytical sample keeps the kinetic energy, keeps the momentum
      when no wall is touched, and leaves both bodies inside the box. */
  lemma AnalyticalStepConserves(cfg: Config, sqrt: real -> real, s: State, dtStep: real)
    requires cfg.MassesPositive() && IsSqrt(sqrt)
    ensures Energy(cfg, AnalyticalStep(cfg, sqrt, s, dtStep)) == Energy(cfg, s)
    ensures ClearSample(cfg, sqrt, s, dtStep) ==>
      Momentum(cfg, AnalyticalStep(cfg, sqrt, s, dtStep)) == Momentum(cfg, s)
    ensures cfg.BoxFitsBody() ==> BothClearOfWalls(cfg, AnalyticalStep(cfg, sqrt, s, dtStep))
  {
    var f := FreeFlight(s, dtStep);
    EnergyIgnoresPositions(cfg, s, f);
    CollideConservesEnergy(cfg, sqrt, f);
    CollideConservesMomentum(cfg, sqrt, f);
    var c := Collide(cfg, sqrt, f);
    WallsKeepEnergy(cfg, c);
    if ClearSample(cfg, sqrt, s, dtStep) {
      WallsIdleWhenClear(cfg, c);
    }
    if cfg.BoxFitsBody() {
      WallsKeepInside(cfg, c);
    }
  }

  /** The time of the sample before sample `i`; the first sample is measured
      from time 0. */
  function PreviousTime(ts: seq<real>, i: nat): real
    requires i <= |ts|
  {
    if i == 0 then 0.0 else ts[i - 1]
  }

  /** The state after the first `n` samples of `ts`. */
  function AnalyticalAfter(cfg: Config, sqrt: real -> real, s0: State, ts: seq<real>, n: nat): State
    requires cfg.MassesPositive() && n <= |ts|
  {
    if n == 0 then s0
    else AnalyticalStep(cfg, sqrt, AnalyticalAfter(cfg, sqrt, s0, ts, n - 1), ts[n - 1] - PreviousTime(ts, n - 1))
  }

  /** Kinetic energy is the same after every prefix of the samples. */
  lemma {:induction false} AnalyticalKeepsEnergy(cfg: Config, sqrt: real -> real, s0: State, ts: seq<real>, n: nat)
    requires cfg.MassesPositive() && IsSqrt(sqrt) && n <= |ts|
    ensures Energy(cfg, AnalyticalAfter(cfg, sqrt, s0, ts, n)) == Energy(cfg, s0)
  {
    if n > 0 {
      AnalyticalKeepsEnergy(cfg, sqrt, s0, ts, n - 1);
      AnalyticalStepConserves(cfg, sqrt, AnalyticalAfter(cfg, sqrt, s0, ts, n - 1), ts[n - 1] - PreviousTime(ts, n - 1));
    }
  }

  /** Sample `i` of `ts` (counted from 0) touches no wall. */
  predicate ClearSampleAt(cfg: Config, sqrt: real -> real, s0: State, ts: seq<real>, i: nat)
    requires cfg.MassesPositive() && i < |ts|
  {
    ClearSample(cfg, sqrt, AnalyticalAfter(cfg, sqrt, s0, ts, i), ts[i] - PreviousTime(ts, i))
  }

  /** None of the first `n` samples touches a wall. */
  predicate ClearSamplesBefore(cfg: Config, sqrt: real -> real, s0: State, ts: seq<real>, n: nat)
    requires cfg.MassesPositive() && n <= |ts|
  {
    forall i :: 0 <= i < n ==> ClearSampleAt(cfg, sqrt, s0, ts, i)
  }

  /** Momentum is the same after the first `n` samples if none of them
      touched a wall. */
  lemma {:induction false} AnalyticalKeepsMomentum(cfg: Config, sqrt: real -> real, s0: State, ts: seq<real>, n: nat)
    requires cfg.MassesPositive() && IsSqrt(sqrt) && n <= |ts|
    requires ClearSamplesBefore(cfg, sqrt, s0, ts, n)
    ensures Momentum(cfg, AnalyticalAfter(cfg, sqrt, s0, ts, n)) == Momentum(cfg, s0)
  {
    if n > 0 {
      AnalyticalKeepsMomentum(cfg, sqrt, s0, ts, n - 1);
      assert ClearSampleAt(cfg, sqrt, s0, ts, n - 1);
      AnalyticalStepConserves(cfg, sqrt, AnalyticalAfter(cfg, sqrt, s0, ts, n - 1), ts[n - 1] - PreviousTime(ts, n - 1));
    }
  }
}
