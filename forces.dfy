/** The penalty contact forces of the spring model: Hooke's law on the
    depth by which a body's extent crosses a wall or the other body. */
module Forces {
  import opened Bodies

  /** Force along one axis from the walls at `low` and `high` on a body of
      radius `r` centred at `p`: each crossed wall adds `k` times the depth
      of the crossing, pointing back into the box. */
  function AxisWallForce(k: real, r: real, low: real, high: real, p: real): (f: real)
    ensures low <= p - r && p + r <= high ==> f == 0.0
  {
    var fromLow := if p - r < low then k * (low - (p - r)) else 0.0;
    var fromHigh := if p + r > high then k * ((p + r) - high) else 0.0;
    fromLow - fromHigh
  }

  /** In a box at least a diameter wide the force is `k` times the way from
      the centre to the nearest admissible position; when the body crosses
      both walls the two contributions add. */
  lemma AxisWallForceTowardsBox(k: real, r: real, low: real, high: real, p: real)
    ensures 2.0 * r <= high - low ==> AxisWallForce(k, r, low, high, p) == k * (Clamp(p, low + r, high - r) - p)
    ensures p - r < low && high < p + r ==>
      AxisWallForce(k, r, low, high, p) == k * (low - (p - r)) - k * ((p + r) - high)
  {
    if 2.0 * r <= high - low {
      if p - r < low {
        assert Clamp(p, low + r, high - r) - p == low - (p - r);
      } else if p + r > high {
        assert Clamp(p, low + r, high - r) - p == -((p + r) - high);
      }
    }
  }

  /** With a positive stiffness a single crossed wall pushes the body back
      into the box. */
  lemma AxisWallForcePointsInward(k: real, r: real, low: real, high: real, p: real)
    requires 0.0 < k
    ensures p - r < low && p + r <= high ==> 0.0 < AxisWallForce(k, r, low, high, p)
    ensures low <= p - r && high < p + r ==> AxisWallForce(k, r, low, high, p) < 0.0
  {
    if p - r < low && p + r <= high {
      PositiveProduct(k, low - (p - r));
    }
    if low <= p - r && high < p + r {
      PositiveProduct(k, (p + r) - high);
    }
  }

  /** Wall force on a body centred at (x, y); the source also passes the
      velocity, which the force does not read. */
  function WallForce(cfg: Config, x: real, y: real): (f: Vec)
    ensures ClearOfWalls(cfg, x, y) ==> f == Zero
  {
    Vec(AxisWallForce(cfg.k, cfg.radius, cfg.wallLeft, cfg.wallRight, x),
        AxisWallForce(cfg.k, cfg.radius, cfg.wallBottom, cfg.wallTop, y))
  }

  /** In a box that fits the bodies the wall force pulls the centre towards
      the nearest position where the body touches no wall. */
  lemma WallForceTowardsBox(cfg: Config, x: real, y: real)
    requires cfg.BoxFitsBody()
    ensures WallForce(cfg, x, y) ==
      Vec(cfg.k * (Clamp(x, cfg.wallLeft + cfg.radius, cfg.wallRight - cfg.radius) - x),
          cfg.k * (Clamp(y, cfg.wallBottom + cfg.radius, cfg.wallTop - cfg.radius) - y))
  {
    assert 2.0 * cfg.radius <= cfg.wallRight - cfg.wallLeft && 2.0 * cfg.radius <= cfg.wallTop - cfg.wallBottom;
    var fx := AxisWallForce(cfg.k, cfg.radius, cfg.wallLeft, cfg.wallRight, x);
    var fy := AxisWallForce(cfg.k, cfg.radius, cfg.wallBottom, cfg.wallTop, y);
    AxisWallForceTowardsBox(cfg.k, cfg.radius, cfg.wallLeft, cfg.wallRight, x);
    AxisWallForceTowardsBox(cfg.k, cfg.radius, cfg.wallBottom, cfg.wallTop, y);
    assert fx == cfg.k * (Clamp(x, cfg.wallLeft + cfg.radius, cfg.wallRight - cfg.radius) - x);
    assert fy == cfg.k * (Clamp(y, cfg.wallBottom + cfg.radius, cfg.wallTop - cfg.radius) - y);
    assert WallForce(cfg, x, y) == Vec(fx, fy);
  }

  /** The wall force on one axis depends on that axis's coordinate only. */
  lemma WallForceAxesIndependent(cfg: Config, x: real, y: real, x': real, y': real)
    ensures WallForce(cfg, x, y).x == WallForce(cfg, x, y').x
    ensures WallForce(cfg, x, y).y == WallForce(cfg, x', y).y
  {
  }

  function SquaredDistance(s: State): real {
    SquaredLength(s.x1 - s.x2, s.y1 - s.y2)
  }

  /** The two discs overlap: their centres are apart, but closer than a diameter. */
  predicate Overlapping(cfg: Config, s: State) {
    0.0 < SquaredDistance(s) < (2.0 * cfg.radius) * (2.0 * cfg.radius)
  }

  /** Forces on body 1 and on body 2. */
  datatype ForcePair = ForcePair(f1: Vec, f2: Vec)

  /** Penalty force between the bodies: `k` times the overlap depth, along
      the line of centres, equal and opposite on the two bodies. */
  function BallBallForce(cfg: Config, sqrt: real -> real, s: State): (f: ForcePair)
    requires SqrtPositive(sqrt)
    ensures f.f2 == Vec(-f.f1.x, -f.f1.y)
    ensures !Overlapping(cfg, s) ==> f.f1 == Zero
  {
    var dx, dy := s.x1 - s.x2, s.y1 - s.y2;
    var distanceSq := SquaredLength(dx, dy);
    if distanceSq <= 0.0 || distanceSq >= (2.0 * cfg.radius) * (2.0 * cfg.radius) then
      ForcePair(Zero, Zero)
    else
      var distance := sqrt(distanceSq);
      var overlap := 2.0 * cfg.radius - distance;
      if overlap <= 0.0 then
        ForcePair(Zero, Zero)
      else
        var nx, ny := dx / distance, dy / distance;
        var normalForce := cfg.k * overlap;
        var fx1, fy1 := normalForce * nx, normalForce * ny;
        ForcePair(Vec(fx1, fy1), Vec(-fx1, -fy1))
  }

  /** The force on body 1 is parallel to the line of centres. */
  lemma BallBallForceAlongNormal(cfg: Config, sqrt: real -> real, s: State)
    requires SqrtPositive(sqrt)
    ensures
      var f := BallBallForce(cfg, sqrt, s).f1;
      f.x * (s.y1 - s.y2) == f.y * (s.x1 - s.x2)
  {
    var dx, dy := s.x1 - s.x2, s.y1 - s.y2;
    var q := SquaredLength(dx, dy);
    if 0.0 < q < (2.0 * cfg.radius) * (2.0 * cfg.radius) {
      var d := sqrt(q);
      ScaledCross(cfg.k * (2.0 * cfg.radius - d), dx, dy, d);
    }
  }

  /** Scaling (dx, dy) / d by `g` gives a vector parallel to (dx, dy). */
  lemma ScaledCross(g: real, dx: real, dy: real, d: real)
    requires d != 0.0
    ensures (g * (dx / d)) * dy == (g * (dy / d)) * dx
  {
    calc {
      (g * (dx / d)) * dy;
      g * ((dx * dy) / d);
      (g * (dy / d)) * dx;
    }
  }

  /** When the discs overlap, the distance of the centres lies strictly
      between 0 and a diameter. */
  lemma OverlapDistance(cfg: Config, sqrt: real -> real, s: State)
    requires IsSqrt(sqrt) && Overlapping(cfg, s) && 0.0 < cfg.radius
    ensures 0.0 < sqrt(SquaredDistance(s)) < 2.0 * cfg.radius
  {
    var q := SquaredDistance(s);
    var d := sqrt(q);
    var diameter := 2.0 * cfg.radius;
    assert 0.0 <= d && d * d == q;
    assert d != 0.0;
    assert q < diameter * diameter;
    SquareLess(d, diameter);
  }

  /** When the discs overlap, body 1 is pushed with magnitude `k` times the
      overlap depth. */
  lemma BallBallForceMagnitude(cfg: Config, sqrt: real -> real, s: State)
    requires IsSqrt(sqrt) && Overlapping(cfg, s) && 0.0 < cfg.radius
    ensures
      var f := BallBallForce(cfg, sqrt, s).f1;
      var overlap := 2.0 * cfg.radius - sqrt(SquaredDistance(s));
      f.x * f.x + f.y * f.y == (cfg.k * overlap) * (cfg.k * overlap)
  {
    var dx, dy := s.x1 - s.x2, s.y1 - s.y2;
    var d := sqrt(SquaredDistance(s));
    OverlapDistance(cfg, sqrt, s);
    var nx, ny := dx / d, dy / d;
    UnitNormal(dx, dy, d, nx, ny);
    var g := cfg.k * (2.0 * cfg.radius - d);
    var f := BallBallForce(cfg, sqrt, s).f1;
    assert f == Vec(g * nx, g * ny);
    calc {
      (g * nx) * (g * nx) + (g * ny) * (g * ny);
      (g * g) * (nx * nx + ny * ny);
      g * g;
    }
  }

  /** With positive stiffness the force on body 1 points away from body 2,
      and it vanishes exactly when the discs do not overlap. */
  lemma BallBallForceRepulsive(cfg: Config, sqrt: real -> real, s: State)
    requires IsSqrt(sqrt) && 0.0 < cfg.radius && 0.0 < cfg.k
    ensures
      var f := BallBallForce(cfg, sqrt, s).f1;
      Overlapping(cfg, s) ==> 0.0 < f.x * (s.x1 - s.x2) + f.y * (s.y1 - s.y2)
    ensures BallBallForce(cfg, sqrt, s).f1 != Zero <==> Overlapping(cfg, s)
  {
    if Overlapping(cfg, s) {
      var dx, dy := s.x1 - s.x2, s.y1 - s.y2;
      var d := sqrt(SquaredDistance(s));
      OverlapDistance(cfg, sqrt, s);
      PositiveProduct(cfg.k, 2.0 * cfg.radius - d);
      ScaledDot(cfg.k * (2.0 * cfg.radius - d), dx, dy, d);
    }
  }

  /** Scaling (dx, dy) / d by a positive `g`, where `d` is the length of
      (dx, dy), gives a vector pointing the same way as (dx, dy). */
  lemma ScaledDot(g: real, dx: real, dy: real, d: real)
    requires 0.0 < g && 0.0 < d && d * d == dx * dx + dy * dy
    ensures 0.0 < (g * (dx / d)) * dx + (g * (dy / d)) * dy
  {
    calc {
      (g * (dx / d)) * dx + (g * (dy / d)) * dy;
      (g / d) * (dx * dx + dy * dy);
      (g / d) * (d * d);
      g * d;
    }
    PositiveProduct(g, d);
  }
}
