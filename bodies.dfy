/** The state of two circular bodies in a rectangular box, the run's
    configuration, and the conservation bookkeeping (kinetic energy and
    linear momentum) that both collision models are checked against. */
module Bodies {

  /** A planar vector: a position, a velocity, a force or a momentum. */
  datatype Vec = Vec(x: real, y: real)

  const Zero := Vec(0.0, 0.0)

  /** The parameters fixed for a whole run: the two masses, the radius
      shared by both bodies, the four walls and the contact stiffness. */
  datatype Config = Config(
    m1: real, m2: real,
    radius: real,
    wallLeft: real, wallRight: real, wallBottom: real, wallTop: real,
    k: real)
  {
    /** Both steps divide by the masses. */
    predicate MassesPositive() {
      0.0 < m1 && 0.0 < m2
    }

    /** The box is at least one diameter wide and one diameter high. */
    predicate BoxFitsBody() {
      2.0 * radius <= wallRight - wallLeft && 2.0 * radius <= wallTop - wallBottom
    }
  }

  /** The eight numbers both models update: position and velocity of body 1,
      then of body 2. */
  datatype State = State(
    x1: real, y1: real, vx1: real, vy1: real,
    x2: real, y2: real, vx2: real, vy2: real)
  {
    function Pos1(): Vec { Vec(x1, y1) }
    function Pos2(): Vec { Vec(x2, y2) }
  }

  /** `sqrt` is positive on the positive reals: all that dividing by a
      distance needs. */
  ghost predicate SqrtPositive(sqrt: real -> real) {
    forall q :: 0.0 < q ==> 0.0 < sqrt(q)
  }

  /** `sqrt` behaves as a square root on the non-negative reals (and so is
      positive on the positive ones); it stands for the floating-point
      square root and `hypot` of the source. */
  ghost predicate IsSqrt(sqrt: real -> real) {
    SqrtPositive(sqrt) && forall q :: 0.0 <= q ==> 0.0 <= sqrt(q) && sqrt(q) * sqrt(q) == q
  }

  /** Squared length of the vector (dx, dy). */
  function SquaredLength(dx: real, dy: real): real {
    dx * dx + dy * dy
  }

  function Abs(a: real): real {
    if a < 0.0 then -a else a
  }

  lemma PositiveProduct(a: real, b: real)
    requires 0.0 < a && 0.0 < b
    ensures 0.0 < a * b
  {
  }

  lemma Cancel(x: real, y: real, d: real)
    requires d != 0.0 && x * d == y * d
    ensures x == y
  {
    assert (x - y) * d == 0.0;
  }

  lemma ScaleLe(x: real, y: real, z: real)
    requires 0.0 <= z && x <= y
    ensures x * z <= y * z
  {
  }

  /** Between non-negative numbers, squares keep the order. */
  lemma SquareLess(a: real, b: real)
    requires 0.0 <= a && 0.0 < b && a * a < b * b
    ensures a < b
  {
    if b <= a {
      ScaleLe(b, a, b);
      ScaleLe(b, a, a);
      assert false;
    }
  }

  /** Dividing a separation (dx, dy) by its positive length gives a unit vector. */
  lemma UnitNormal(dx: real, dy: real, d: real, nx: real, ny: real)
    requires 0.0 < d && d * d == dx * dx + dy * dy
    requires nx == dx / d && ny == dy / d
    ensures nx * nx + ny * ny == 1.0
  {
    assert nx * d == dx && ny * d == dy;
    var a := nx * nx + ny * ny;
    calc {
      (a * d) * d;
      (nx * d) * (nx * d) + (ny * d) * (ny * d);
      dx * dx + dy * dy;
      d * d;
    }
    Cancel(a * d, d, d);
    Cancel(a, 1.0, d);
  }

  /** The point of [lo, hi] nearest to p; the low bound is tested first. */
  function Clamp(p: real, lo: real, hi: real): (c: real)
    ensures lo <= hi ==> lo <= c <= hi
    ensures lo <= p <= hi ==> c == p
  {
    if p < lo then lo else if p > hi then hi else p
  }

  /** No point of [lo, hi] is closer to p than its clamp. */
  lemma ClampIsNearest(p: real, lo: real, hi: real, q: real)
    requires lo <= q <= hi
    ensures Abs(Clamp(p, lo, hi) - p) <= Abs(q - p)
  {
    if p < lo {
      assert Clamp(p, lo, hi) == lo;
    } else if p > hi {
      assert Clamp(p, lo, hi) == hi;
    }
  }

  /** A body centred at (x, y) touches no wall: its extent lies within all four. */
  predicate ClearOfWalls(cfg: Config, x: real, y: real) {
    cfg.wallLeft <= x - cfg.radius && x + cfg.radius <= cfg.wallRight &&
    cfg.wallBottom <= y - cfg.radius && y + cfg.radius <= cfg.wallTop
  }

  predicate BothClearOfWalls(cfg: Config, s: State) {
    ClearOfWalls(cfg, s.x1, s.y1) && ClearOfWalls(cfg, s.x2, s.y2)
  }

  function KineticEnergy(m: real, vx: real, vy: real): (e: real)
    ensures 0.0 <= m ==> 0.0 <= e
  {
    0.5 * m * (vx * vx + vy * vy)
  }

  /** Total kinetic energy of the two bodies. */
  function Energy(cfg: Config, s: State): (e: real)
    ensures 0.0 <= cfg.m1 && 0.0 <= cfg.m2 ==> 0.0 <= e
  {
    KineticEnergy(cfg.m1, s.vx1, s.vy1) + KineticEnergy(cfg.m2, s.vx2, s.vy2)
  }

  /** Total linear momentum of the two bodies. */
  function Momentum(cfg: Config, s: State): Vec {
    Vec(cfg.m1 * s.vx1 + cfg.m2 * s.vx2, cfg.m1 * s.vy1 + cfg.m2 * s.vy2)
  }

  /** Energy reads velocities only: moving the bodies leaves it unchanged. */
  lemma EnergyIgnoresPositions(cfg: Config, s: State, t: State)
    requires s.vx1 == t.vx1 && s.vy1 == t.vy1 && s.vx2 == t.vx2 && s.vy2 == t.vy2
    ensures Energy(cfg, s) == Energy(cfg, t)
    ensures Momentum(cfg, s) == Momentum(cfg, t)
  {
  }
}
