/** The two simulation loops. Each runs on the eight state variables of the
    two bodies, updated in place, and appends one trajectory point per body,
    the total kinetic energy and the total momentum to its histories after
    every sample or step. */
module Simulation {
  import opened Bodies
  import opened Forces
  import opened Analytical
  import opened Numerical

  class TwoBallRun {
    const cfg: Config
    const sqrt: real -> real
    var x1: real, y1: real, vx1: real, vy1: real
    var x2: real, y2: real, vx2: real, vy2: real
    var traj1: seq<Vec>
    var traj2: seq<Vec>
    var energyHistory: seq<real>
    var momentumHistory: seq<Vec>
    /** Energy and momentum of the starting state, taken before any update. */
    var initialEnergy: real
    var initialMomentum: Vec

    function Current(): State
      reads this
    {
      State(x1, y1, vx1, vy1, x2, y2, vx2, vy2)
    }

    /** The masses can be divided by, `sqrt` is a square root, and the four
        histories have one entry per recorded sample. */
    ghost predicate Valid()
      reads this
    {
      cfg.MassesPositive() && IsSqrt(sqrt) &&
      |traj2| == |traj1| && |energyHistory| == |traj1| && |momentumHistory| == |traj1|
    }

    /** The starting state, empty histories, and the initial energy and
        momentum of that state. */
    constructor (cfg: Config, sqrt: real -> real, s0: State)
      requires cfg.MassesPositive() && IsSqrt(sqrt)
      ensures Valid() && this.cfg == cfg && this.sqrt == sqrt && Current() == s0
      ensures traj1 == [] && traj2 == [] && energyHistory == [] && momentumHistory == []
      ensures initialEnergy == Energy(cfg, s0) && initialMomentum == Momentum(cfg, s0)
    {
      this.cfg := cfg;
      this.sqrt := sqrt;
      x1, y1, vx1, vy1 := s0.x1, s0.y1, s0.vx1, s0.vy1;
      x2, y2, vx2, vy2 := s0.x2, s0.y2, s0.vx2, s0.vy2;
      traj1, traj2, energyHistory, momentumHistory := [], [], [], [];
      initialEnergy := Energy(cfg, s0);
      initialMomentum := Momentum(cfg, s0);
    }

    /** Appends the current positions, energy and momentum to the histories. */
    method Record()
      requires Valid()
      modifies this`traj1, this`traj2, this`energyHistory, this`momentumHistory
      ensures Valid()
      ensures traj1 == old(traj1) + [Vec(x1, y1)] && traj2 == old(traj2) + [Vec(x2, y2)]
      ensures energyHistory == old(energyHistory) + [Energy(cfg, Current())]
      ensures momentumHistory == old(momentumHistory) + [Momentum(cfg, Current())]
    {
      traj1 := traj1 + [Vec(x1, y1)];
      traj2 := traj2 + [Vec(x2, y2)];
      energyHistory := energyHistory + [Energy(cfg, Current())];
      momentumHistory := momentumHistory + [Momentum(cfg, Current())];
    }

    /** One sample of the analytical model, in place: free flight, then the
        impulse and the positional correction, then the walls. */
    method AdvanceAnalytical(dtStep: real)
      requires Valid()
      modifies this`x1, this`y1, this`vx1, this`vy1, this`x2, this`y2, this`vx2, this`vy2
      ensures Valid()
      ensures Current() == AnalyticalStep(cfg, sqrt, old(Current()), dtStep)
    {
      Fly(dtStep);
      CollideInPlace();
      ReflectAtWalls();
    }

    /** Both bodies coast for `dtStep`. */
    method Fly(dtStep: real)
      requires Valid()
      modifies this`x1, this`y1, this`x2, this`y2
      ensures Valid()
      ensures Current() == FreeFlight(old(Current()), dtStep)
    {
      x1 := x1 + vx1 * dtStep;
      y1 := y1 + vy1 * dtStep;
      x2 := x2 + vx2 * dtStep;
      y2 := y2 + vy2 * dtStep;
    }

    /** The impulse and the positional correction when the bodies are in
        contact and approach. */
    method CollideInPlace()
      requires Valid()
      modifies this`x1, this`y1, this`vx1, this`vy1, this`x2, this`y2, this`vx2, this`vy2
      ensures Valid()
      ensures Current() == Collide(cfg, sqrt, old(Current()))
    {
      ghost var s := Current();
      var dx, dy := x1 - x2, y1 - y2;
      var distance := sqrt(SquaredLength(dx, dy));
      assert distance == Distance(sqrt, s);
      if 0.0 < distance < 2.0 * cfg.radius {
        var nx, ny := dx / distance, dy / distance;
        assert Vec(nx, ny) == Normal(sqrt, s);
        var vRelN := (vx1 - vx2) * nx + (vy1 - vy2) * ny;
        assert vRelN == NormalVelocity(sqrt, s);
        if vRelN < 0.0 {
          var j := -(1.0 + Restitution) * vRelN / (1.0 / cfg.m1 + 1.0 / cfg.m2);
          assert j == ImpulseOf(cfg, NormalVelocity(sqrt, s));
          ApplyImpulse(nx, ny, j);
          var overlap := 2.0 * cfg.radius - distance;
          Separate(nx, ny, overlap);
          assert Approaching(cfg, sqrt, s);
        }
      }
    }

    /** Velocity change of the impulse `j` along the normal (nx, ny). */
    method ApplyImpulse(nx: real, ny: real, j: real)
      requires Valid()
      modifies this`vx1, this`vy1, this`vx2, this`vy2
      ensures Valid()
      ensures Current() == Kicked(cfg, old(Current()), Vec(nx, ny), j)
    {
      vx1 := vx1 + (j / cfg.m1) * nx;
      vy1 := vy1 + (j / cfg.m1) * ny;
      vx2 := vx2 - (j / cfg.m2) * nx;
      vy2 := vy2 - (j / cfg.m2) * ny;
    }

    /** Each body is pushed back along the normal by half the overlap. */
    method Separate(nx: real, ny: real, overlap: real)
      requires Valid()
      modifies this`x1, this`y1, this`x2, this`y2
      ensures Valid()
      ensures Current() == Separated(old(Current()), Vec(nx, ny), overlap)
    {
      x1 := x1 + nx * (overlap * 0.5);
      y1 := y1 + ny * (overlap * 0.5);
      x2 := x2 - nx * (overlap * 0.5);
      y2 := y2 - ny * (overlap * 0.5);
    }

    /** Clamping and reflection at the walls: body 1 on x, then y, then
        body 2. */
    method ReflectAtWalls()
      requires Valid()
      modifies this`x1, this`y1, this`vx1, this`vy1, this`x2, this`y2, this`vx2, this`vy2
      ensures Valid()
      ensures Current() == Walls(cfg, old(Current()))
    {
      var px1, qx1 := ReflectOnAxis(cfg.wallLeft, cfg.wallRight, cfg.radius, x1, vx1);
      var py1, qy1 := ReflectOnAxis(cfg.wallBottom, cfg.wallTop, cfg.radius, y1, vy1);
      var px2, qx2 := ReflectOnAxis(cfg.wallLeft, cfg.wallRight, cfg.radius, x2, vx2);
      var py2, qy2 := ReflectOnAxis(cfg.wallBottom, cfg.wallTop, cfg.radius, y2, vy2);
      x1, y1, vx1, vy1, x2, y2, vx2, vy2 := px1, py1, qx1, qy1, px2, py2, qx2, qy2;
    }

    /** The histories are those of the first `i` analytical samples of
        `ts` from `s0`. */
    ghost predicate TracksAnalytical(s0: State, ts: seq<real>, i: nat)
      reads this
    {
      AnalyticalHistory(cfg, sqrt, s0, ts, i, traj1, traj2, energyHistory, momentumHistory)
    }

    /** Sample `i` of `ts`, over the time since the previous sample: the
        state after `i` samples becomes the state after `i + 1`. */
    method SampleAnalytical(ghost s0: State, ts: seq<real>, i: nat, tPrev: real)
      requires Valid() && i < |ts| && tPrev == PreviousTime(ts, i)
      requires Current() == AnalyticalAfter(cfg, sqrt, s0, ts, i)
      modifies this`x1, this`y1, this`vx1, this`vy1, this`x2, this`y2, this`vx2, this`vy2
      ensures Valid()
      ensures Current() == AnalyticalAfter(cfg, sqrt, s0, ts, i + 1)
    {
      AdvanceAnalytical(ts[i] - tPrev);
    }

    /** Sample `i` of `ts`, over the time since the previous sample, then
        recording: the state moves on from the one after `i` samples to the
        one after `i + 1`, and the histories gain that sample. */
    method StepAnalytical(ghost s0: State, ts: seq<real>, i: nat, tPrev: real)
      requires Valid() && i < |ts| && tPrev == PreviousTime(ts, i)
      requires Current() == AnalyticalAfter(cfg, sqrt, s0, ts, i)
      requires TracksAnalytical(s0, ts, i)
      modifies this
      ensures Valid()
      ensures initialEnergy == old(initialEnergy) && initialMomentum == old(initialMomentum)
      ensures Current() == AnalyticalAfter(cfg, sqrt, s0, ts, i + 1)
      ensures TracksAnalytical(s0, ts, i + 1)
    {
      ghost var t1, t2, es, ps := traj1, traj2, energyHistory, momentumHistory;
      SampleAnalytical(s0, ts, i, tPrev);
      Record();
      AnalyticalHistoryExtend(cfg, sqrt, s0, ts, i, t1, t2, es, ps);
    }

    /** Runs one analytical sample per entry of `tEval`, each over the time
        since the previous entry (the first since time 0), recording after
        every sample into the empty histories. */
    method RunAnalytical(tEval: seq<real>)
      requires Valid()
      requires traj1 == [] && traj2 == [] && energyHistory == [] && momentumHistory == []
      modifies this
      ensures Valid()
      ensures initialEnergy == old(initialEnergy) && initialMomentum == old(initialMomentum)
      ensures Current() == AnalyticalAfter(cfg, sqrt, old(Current()), tEval, |tEval|)
      ensures TracksAnalytical(old(Current()), tEval, |tEval|)
    {
      ghost var s0 := Current();
      var tPrev := 0.0;
      var i := 0;
      while i < |tEval|
        invariant 0 <= i <= |tEval|
        invariant Valid()
        invariant initialEnergy == old(initialEnergy) && initialMomentum == old(initialMomentum)
        invariant tPrev == PreviousTime(tEval, i)
        invariant Current() == AnalyticalAfter(cfg, sqrt, s0, tEval, i)
        invariant TracksAnalytical(s0, tEval, i)
      {
        StepAnalytical(s0, tEval, i, tPrev);
        tPrev := tEval[i];
        i := i + 1;
      }
    }

    /** One step of the numerical model, in place: the wall and body-body
        forces on the current state, then the Euler update. */
    method AdvanceNumerical(dt: real)
      requires Valid()
      modifies this`x1, this`y1, this`vx1, this`vy1, this`x2, this`y2, this`vx2, this`vy2
      ensures Valid()
      ensures Current() == NumericalStep(cfg, sqrt, old(Current()), dt)
    {
      var w1 := WallForce(cfg, x1, y1);
      var w2 := WallForce(cfg, x2, y2);
      var b := BallBallForce(cfg, sqrt, Current());
      ApplyForces(Vec(w1.x + b.f1.x, w1.y + b.f1.y), Vec(w2.x + b.f2.x, w2.y + b.f2.y), dt);
    }

    /** Velocities first, then positions with the new velocities. */
    method ApplyForces(f1: Vec, f2: Vec, dt: real)
      requires Valid()
      modifies this`x1, this`y1, this`vx1, this`vy1, this`x2, this`y2, this`vx2, this`vy2
      ensures Valid()
      ensures Current() == Accelerate(cfg, old(Current()), f1, f2, dt)
    {
      Push(f1, f2, dt);
      Fly(dt);
    }

    /** Each velocity gains its acceleration force/mass times `dt`. */
    method Push(f1: Vec, f2: Vec, dt: real)
      requires Valid()
      modifies this`vx1, this`vy1, this`vx2, this`vy2
      ensures Valid()
      ensures Current() == Pushed(cfg, old(Current()), f1, f2, dt)
    {
      var ax1 := f1.x / cfg.m1;
      var ay1 := f1.y / cfg.m1;
      var ax2 := f2.x / cfg.m2;
      var ay2 := f2.y / cfg.m2;
      vx1 := vx1 + ax1 * dt;
      vy1 := vy1 + ay1 * dt;
      vx2 := vx2 + ax2 * dt;
      vy2 := vy2 + ay2 * dt;
    }

    /** The histories are those of the first `i` numerical steps of length
        `dt` from `s0`. */
    ghost predicate TracksNumerical(s0: State, dt: real, i: nat)
      reads this
    {
      NumericalHistory(cfg, sqrt, s0, dt, i, traj1, traj2, energyHistory, momentumHistory)
    }

    /** One numerical step followed by recording: the state moves on from
        the one after `i` steps to the one after `i + 1`, and the histories
        gain that step. */
    method StepNumerical(ghost s0: State, dt: real, ghost i: nat)
      requires Valid() && Current() == NumericalAfter(cfg, sqrt, s0, dt, i)
      requires TracksNumerical(s0, dt, i)
      modifies this
      ensures Valid()
      ensures initialEnergy == old(initialEnergy) && initialMomentum == old(initialMomentum)
      ensures Current() == NumericalAfter(cfg, sqrt, s0, dt, i + 1)
      ensures TracksNumerical(s0, dt, i + 1)
    {
      ghost var t1, t2, es, ps := traj1, traj2, energyHistory, momentumHistory;
      AdvanceNumerical(dt);
      Record();
      assert Current() == NumericalAfter(cfg, sqrt, s0, dt, i + 1);
      NumericalHistoryExtend(cfg, sqrt, s0, dt, i, t1, t2, es, ps);
    }

    /** Runs `steps` numerical steps of length `dt`, recording after every
        step into the empty histories. */
    method RunNumerical(dt: real, steps: nat)
      requires Valid()
      requires traj1 == [] && traj2 == [] && energyHistory == [] && momentumHistory == []
      modifies this
      ensures Valid()
      ensures initialEnergy == old(initialEnergy) && initialMomentum == old(initialMomentum)
      ensures Current() == NumericalAfter(cfg, sqrt, old(Current()), dt, steps)
      ensures TracksNumerical(old(Current()), dt, steps)
    {
      ghost var s0 := Current();
      var i := 0;
      while i < steps
        invariant 0 <= i <= steps
        invariant Valid()
        invariant initialEnergy == old(initialEnergy) && initialMomentum == old(initialMomentum)
        invariant Current() == NumericalAfter(cfg, sqrt, s0, dt, i)
        invariant TracksNumerical(s0, dt, i)
      {
        StepNumerical(s0, dt, i);
        i := i + 1;
      }
    }
  }

  /** `t1` and `t2` hold the positions of the two bodies and `ps` the
      momentum after each of the first `n` analytical samples of `ts` from
      `s0`, and every entry of `es` is the energy of `s0`. */
  ghost predicate AnalyticalHistory(cfg: Config, sqrt: real -> real, s0: State, ts: seq<real>, n: nat,
                                    t1: seq<Vec>, t2: seq<Vec>, es: seq<real>, ps: seq<Vec>)
  {
    cfg.MassesPositive() && n <= |ts| && |t1| == n && |t2| == n && |es| == n && |ps| == n &&
    (forall k :: 0 <= k < n ==>
      var s := AnalyticalAfter(cfg, sqrt, s0, ts, k + 1);
      t1[k] == s.Pos1() && t2[k] == s.Pos2() && ps[k] == Momentum(cfg, s)) &&
    (forall k :: 0 <= k < n ==> es[k] == Energy(cfg, s0))
  }

  /** Recording the state after one more sample extends the history. */
  lemma AnalyticalHistoryExtend(cfg: Config, sqrt: real -> real, s0: State, ts: seq<real>, n: nat,
                                t1: seq<Vec>, t2: seq<Vec>, es: seq<real>, ps: seq<Vec>)
    requires cfg.MassesPositive() && IsSqrt(sqrt) && n < |ts|
    requires AnalyticalHistory(cfg, sqrt, s0, ts, n, t1, t2, es, ps)
    ensures
      var s := AnalyticalAfter(cfg, sqrt, s0, ts, n + 1);
      AnalyticalHistory(cfg, sqrt, s0, ts, n + 1, t1 + [s.Pos1()], t2 + [s.Pos2()],
                        es + [Energy(cfg, s)], ps + [Momentum(cfg, s)])
  {
    AnalyticalKeepsEnergy(cfg, sqrt, s0, ts, n + 1);
  }

  /** `t1` and `t2` hold the positions of the two bodies, `es` the energy
      and `ps` the momentum after each of the first `n` numerical steps of
      length `dt` from `s0`. */
  ghost predicate NumericalHistory(cfg: Config, sqrt: real -> real, s0: State, dt: real, n: nat,
                                   t1: seq<Vec>, t2: seq<Vec>, es: seq<real>, ps: seq<Vec>)
  {
    cfg.MassesPositive() && SqrtPositive(sqrt) && |t1| == n && |t2| == n && |es| == n && |ps| == n &&
    forall k :: 0 <= k < n ==>
      var s := NumericalAfter(cfg, sqrt, s0, dt, k + 1);
      t1[k] == s.Pos1() && t2[k] == s.Pos2() && es[k] == Energy(cfg, s) && ps[k] == Momentum(cfg, s)
  }

  /** Recording the state after one more step extends the history. */
  lemma NumericalHistoryExtend(cfg: Config, sqrt: real -> real, s0: State, dt: real, n: nat,
                               t1: seq<Vec>, t2: seq<Vec>, es: seq<real>, ps: seq<Vec>)
    requires cfg.MassesPositive() && SqrtPositive(sqrt)
    requires NumericalHistory(cfg, sqrt, s0, dt, n, t1, t2, es, ps)
    ensures
      var s := NumericalAfter(cfg, sqrt, s0, dt, n + 1);
      NumericalHistory(cfg, sqrt, s0, dt, n + 1, t1 + [s.Pos1()], t2 + [s.Pos2()],
                       es + [Energy(cfg, s)], ps + [Momentum(cfg, s)])
  {
  }

  /** Every entry of an analytical history recorded before any sample
      touched a wall holds the starting momentum. */
  lemma AnalyticalHistoryMomentum(cfg: Config, sqrt: real -> real, s0: State, ts: seq<real>, n: nat,
                                  t1: seq<Vec>, t2: seq<Vec>, es: seq<real>, ps: seq<Vec>)
    requires cfg.MassesPositive() && IsSqrt(sqrt) && n <= |ts|
    requires AnalyticalHistory(cfg, sqrt, s0, ts, n, t1, t2, es, ps)
    ensures forall i :: 0 <= i < n && ClearSamplesBefore(cfg, sqrt, s0, ts, i + 1) ==> ps[i] == Momentum(cfg, s0)
  {
    forall i | 0 <= i < n && ClearSamplesBefore(cfg, sqrt, s0, ts, i + 1)
      ensures ps[i] == Momentum(cfg, s0)
    {
      AnalyticalKeepsMomentum(cfg, sqrt, s0, ts, i + 1);
    }
  }

  /** Every entry of a numerical history recorded before any step started
      with a body touching a wall holds the starting momentum. */
  lemma NumericalHistoryMomentum(cfg: Config, sqrt: real -> real, s0: State, dt: real, n: nat,
                                 t1: seq<Vec>, t2: seq<Vec>, es: seq<real>, ps: seq<Vec>)
    requires cfg.MassesPositive() && SqrtPositive(sqrt)
    requires NumericalHistory(cfg, sqrt, s0, dt, n, t1, t2, es, ps)
    ensures forall i :: 0 <= i < n && ClearStepsBefore(cfg, sqrt, s0, dt, i + 1) ==> ps[i] == Momentum(cfg, s0)
  {
    forall i | 0 <= i < n && ClearStepsBefore(cfg, sqrt, s0, dt, i + 1)
      ensures ps[i] == Momentum(cfg, s0)
    {
      NumericalKeepsMomentum(cfg, sqrt, s0, dt, i + 1);
    }
  }

  /** One axis of the wall handling: the low wall is tested first, and only
      if it is not crossed the high wall. */
  method ReflectOnAxis(low: real, high: real, r: real, p: real, v: real) returns (p': real, v': real)
    ensures Phase(p', v') == ReflectAxis(low, high, r, p, v)
  {
    p', v' := p, v;
    if p - r < low {
      p', v' := low + r, Abs(v);
    } else if p + r > high {
      p', v' := high - r, -Abs(v);
    }
  }

  /** The analytical simulation from `s0` over the sample times `tEval`:
      one history entry per sample, all with the initial energy, and with
      the initial momentum as long as no sample has touched a wall. */
  method SimulateAnalytical(cfg: Config, sqrt: real -> real, s0: State, tEval: seq<real>)
    returns (run: TwoBallRun)
    requires cfg.MassesPositive() && IsSqrt(sqrt)
    ensures run.Valid() && run.cfg == cfg && run.sqrt == sqrt
    ensures run.initialEnergy == Energy(cfg, s0) && run.initialMomentum == Momentum(cfg, s0)
    ensures AnalyticalHistory(cfg, sqrt, s0, tEval, |tEval|, run.traj1, run.traj2, run.energyHistory, run.momentumHistory)
    ensures forall i :: 0 <= i < |tEval| ==> run.energyHistory[i] == run.initialEnergy
    ensures forall i :: 0 <= i < |tEval| && ClearSamplesBefore(cfg, sqrt, s0, tEval, i + 1) ==>
      run.momentumHistory[i] == run.initialMomentum
  {
    run := new TwoBallRun(cfg, sqrt, s0);
    run.RunAnalytical(tEval);
    AnalyticalHistoryMomentum(cfg, sqrt, s0, tEval, |tEval|, run.traj1, run.traj2, run.energyHistory, run.momentumHistory);
  }

  /** The numerical simulation from `s0`: `steps` steps of length `dt`, one
      history entry per step, with the initial momentum as long as no step
      has started with a body touching a wall. */
  method SimulateNumerical(cfg: Config, sqrt: real -> real, s0: State, dt: real, steps: nat)
    returns (run: TwoBallRun)
    requires cfg.MassesPositive() && IsSqrt(sqrt)
    ensures run.Valid() && run.cfg == cfg && run.sqrt == sqrt
    ensures run.initialEnergy == Energy(cfg, s0) && run.initialMomentum == Momentum(cfg, s0)
    ensures NumericalHistory(cfg, sqrt, s0, dt, steps, run.traj1, run.traj2, run.energyHistory, run.momentumHistory)
    ensures forall i :: 0 <= i < steps && ClearStepsBefore(cfg, sqrt, s0, dt, i + 1) ==>
      run.momentumHistory[i] == run.initialMomentum
  {
    run := new TwoBallRun(cfg, sqrt, s0);
    run.RunNumerical(dt, steps);
    NumericalHistoryMomentum(cfg, sqrt, s0, dt, steps, run.traj1, run.traj2, run.energyHistory, run.momentumHistory);
  }
}
