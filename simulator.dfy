/** The simulation driver: integrator and thermostat selection from the
    configuration, and the `run` loop, one iteration at a time. The renderer
    is represented only by the two flags the loop reads from it on each
    iteration; drawing, timing and the frame rate are not modelled. */
module Simulator {
  import opened Vectors
  import opened Particle
  import opened Physics
  import opened Integrator
  import opened Utils

  /** The configuration entries the simulator reads. */
  datatype Config = Config(
    dt: real,
    steps: int,
    integrator: string,
    kNeighbors: int,
    coulombConstant: real,
    thermostat: string,
    temperature: real,
    thermostatTau: real,
    boundarySize: Vec3,
    restitution: real)

  /** What the loop reads from the renderer on one iteration. */
  datatype RendererView = RendererView(running: bool, paused: bool)

  /** How one pass through the loop body ends. */
  datatype Outcome =
    | Finished   // the step budget is used up: the loop condition fails
    | Stopped    // the renderer was closed: `break`
    | Paused     // the renderer is paused: draw and `continue`
    | Advanced   // one simulation step was taken

  /** `str.lower` on one character, for the ASCII letters. */
  function LowerChar(c: char): (d: char)
    ensures 'A' <= c <= 'Z' ==> d as int == c as int + 32
    ensures !('A' <= c <= 'Z') ==> d == c
    ensures !('A' <= d <= 'Z')
  {
    if 'A' <= c <= 'Z' then (c as int + 32) as char else c
  }

  function Lower(s: string): (r: string)
    ensures |r| == |s|
  {
    seq(|s|, i requires 0 <= i < |s| => LowerChar(s[i]))
  }

  /** Lower-casing twice is lower-casing once. */
  lemma LowerIdempotent(s: string)
    ensures Lower(Lower(s)) == Lower(s)
  {
    var l := Lower(s);
    forall i | 0 <= i < |s| ensures Lower(l)[i] == l[i] {
      assert !('A' <= l[i] <= 'Z');
    }
  }

  /** `euler_step` when the lower-cased name is "euler", the velocity Verlet
      step for every other name. */
  function SelectIntegrator(name: string): (s: Scheme)
  {
    if Lower(name) == "euler" then Euler else VelocityVerlet
  }

  /** The selection ignores case, and every name other than "euler" selects
      velocity Verlet. */
  lemma SelectIntegratorCases(name: string)
    ensures SelectIntegrator(name) == Euler <==> Lower(name) == "euler"
    ensures SelectIntegrator(Lower(name)) == SelectIntegrator(name)
  {
    LowerIdempotent(name);
  }

  lemma SelectIntegratorExamples()
    ensures SelectIntegrator("Euler") == Euler
    ensures SelectIntegrator("EULER") == Euler
    ensures SelectIntegrator("verlet") == VelocityVerlet
    ensures SelectIntegrator("rk4") == VelocityVerlet
  {
    assert Lower("Euler") == "euler";
    assert Lower("EULER") == "euler";
    assert Lower("verlet")[0] == 'v';
    assert Lower("rk4")[0] == 'r';
  }

  /** How the loop body ends when entered at `step` with the renderer (if
      there is one) showing `view`: the budget test, then the stop test,
      then the pause test. */
  function IterationOutcome(step: int, steps: int, hasRenderer: bool, view: RendererView): Outcome {
    if step >= steps then Finished
    else if hasRenderer && !view.running then Stopped
    else if hasRenderer && view.paused then Paused
    else Advanced
  }

  /** A simulation step is taken exactly when the budget allows it and no
      renderer is closed or paused. */
  lemma AdvancesExactlyWhen(step: int, steps: int, hasRenderer: bool, view: RendererView)
    ensures IterationOutcome(step, steps, hasRenderer, view) == Advanced
            <==> step < steps && (!hasRenderer || (view.running && !view.paused))
    ensures !hasRenderer ==> IterationOutcome(step, steps, hasRenderer, view) in {Finished, Advanced}
  {
  }

  /** The number of simulation steps a run takes from `step` when the
      renderer shows `views` on the successive iterations (one view per
      iteration; the run ends when they are used up). It never takes the
      counter past the budget. */
  function Advances(step: int, steps: int, hasRenderer: bool, views: seq<RendererView>): (n: nat)
    ensures step + n <= if step <= steps then steps else step
    ensures step >= steps ==> n == 0
    decreases |views|
  {
    if views == [] then 0
    else
      match IterationOutcome(step, steps, hasRenderer, views[0])
      case Finished => 0
      case Stopped => 0
      case Paused => Advances(step, steps, hasRenderer, views[1..])
      case Advanced => 1 + Advances(step + 1, steps, hasRenderer, views[1..])
  }

  /** The steps taken from iteration `i` on: the outcome of iteration `i`,
      then the steps taken from iteration `i + 1` on. */
  lemma AdvancesNext(step: int, steps: int, hasRenderer: bool, views: seq<RendererView>, i: nat)
    requires i < |views|
    ensures Advances(step, steps, hasRenderer, views[i..]) ==
      match IterationOutcome(step, steps, hasRenderer, views[i])
      case Finished => 0
      case Stopped => 0
      case Paused => Advances(step, steps, hasRenderer, views[i + 1..])
      case Advanced => 1 + Advances(step + 1, steps, hasRenderer, views[i + 1..])
  {
    assert views[i..][0] == views[i];
    assert views[i..][1..] == views[i + 1..];
  }

  /** Without a renderer, a run with at least as many iterations as steps
      left uses up the whole budget. */
  lemma {:induction false} AdvancesWithoutRenderer(step: int, steps: int, views: seq<RendererView>)
    requires step <= steps && |views| >= steps - step
    ensures step + Advances(step, steps, false, views) == steps
    decreases |views|
  {
    if step < steps {
      AdvancesWithoutRenderer(step + 1, steps, views[1..]);
    }
  }

  /** A closed renderer ends the run at once. */
  lemma AdvancesWhenStopped(step: int, steps: int, views: seq<RendererView>)
    requires views != [] && !views[0].running
    ensures Advances(step, steps, true, views) == 0
  {
  }

  /** Paused iterations take no steps: only the iterations that find the
      renderer running and not paused do. */
  lemma {:induction false} AdvancesWhilePaused(step: int, steps: int, paused: seq<RendererView>, rest: seq<RendererView>)
    requires forall i :: 0 <= i < |paused| ==> paused[i].running && paused[i].paused
    ensures Advances(step, steps, true, paused + rest) == if step >= steps then 0 else Advances(step, steps, true, rest)
    decreases |paused|
  {
    if paused == [] {
      assert paused + rest == rest;
    } else {
      assert (paused + rest)[0] == paused[0];
      assert (paused + rest)[1..] == paused[1..] + rest;
      AdvancesWhilePaused(step, steps, paused[1..], rest);
    }
  }

  /** The velocities after the thermostat, read as a function of the
      velocities it finds: unchanged without particles or at a temperature
      that is not positive, otherwise all scaled by the same factor. */
  function ThermostatVelocities(masses: seq<real>, vs: seq<Vec3>, target: real, tau: real, dt: real,
                                sqrt: real -> real, kB: real): (r: seq<Vec3>)
    requires |masses| == |vs| && kB != 0.0 && tau != 0.0
    ensures |r| == |vs|
  {
    if |vs| == 0 then vs
    else
      var t := TemperatureOf(masses, vs, |vs|, kB);
      if t > 0.0 then ScaleAll(vs, sqrt(ThermostatFactorSquared(t, target, tau, dt))) else vs
  }

  /** The velocities left by the thermostat: the ones it found when there are
      no particles or the temperature is not positive, otherwise velocities
      whose temperature has relaxed by `dt / tau` of the way to the target. */
  lemma ThermostatVelocitiesRelax(masses: seq<real>, vs: seq<Vec3>, target: real, tau: real, dt: real,
                                  sqrt: real -> real, kB: real)
    requires |masses| == |vs| && kB != 0.0 && tau != 0.0
    ensures |vs| == 0 || TemperatureOf(masses, vs, |vs|, kB) <= 0.0 ==>
      ThermostatVelocities(masses, vs, target, tau, dt, sqrt, kB) == vs
    ensures |vs| > 0 && IsSqrtFn(sqrt) && TemperatureOf(masses, vs, |vs|, kB) > 0.0
            && ThermostatFactorSquared(TemperatureOf(masses, vs, |vs|, kB), target, tau, dt) >= 0.0 ==>
      var t := TemperatureOf(masses, vs, |vs|, kB);
      TemperatureOf(masses, ThermostatVelocities(masses, vs, target, tau, dt, sqrt, kB), |vs|, kB)
        == t + (dt / tau) * (target - t)
  {
    if |vs| > 0 && IsSqrtFn(sqrt) && TemperatureOf(masses, vs, |vs|, kB) > 0.0
       && ThermostatFactorSquared(TemperatureOf(masses, vs, |vs|, kB), target, tau, dt) >= 0.0 {
      ThermostatRelaxes(masses, vs, |vs|, kB, target, tau, dt, sqrt);
    }
  }

  class Simulator {
    const particles: ParticleSystem
    const dt: real
    const k: int
    const coulombK: real
    const boundarySize: Vec3
    const restitution: real
    const useThermostat: bool
    const targetTemp: real
    const thermostatTau: real
    const steps: int
    const integrate: Scheme
    const integratorName: string
    const hasRenderer: bool
    /** The square root every `torch.sqrt` of the step stands for. */
    const sqrt: real -> real
    var step: int

    /** `Simulator.__init__`: the thermostat is on unless configured as
        "none"; the integrator is chosen by its lower-cased name. */
    constructor (particles: ParticleSystem, config: Config, hasRenderer: bool, sqrt: real -> real)
      ensures this.particles == particles && this.hasRenderer == hasRenderer && this.sqrt == sqrt
      ensures dt == config.dt && k == config.kNeighbors && coulombK == config.coulombConstant
      ensures boundarySize == config.boundarySize && restitution == config.restitution
      ensures useThermostat == (config.thermostat != "none")
      ensures targetTemp == config.temperature && thermostatTau == config.thermostatTau
      ensures steps == config.steps && step == 0
      ensures integrate == SelectIntegrator(config.integrator) && integratorName == config.integrator
    {
      this.particles := particles;
      this.dt := config.dt;
      this.k := config.kNeighbors;
      this.coulombK := config.coulombConstant;
      this.boundarySize := config.boundarySize;
      this.restitution := config.restitution;
      this.useThermostat := config.thermostat != "none";
      this.targetTemp := config.temperature;
      this.thermostatTau := config.thermostatTau;
      this.steps := config.steps;
      this.step := 0;
      this.integrate := SelectIntegrator(config.integrator);
      this.integratorName := config.integrator;
      this.hasRenderer := hasRenderer;
      this.sqrt := sqrt;
    }

    /** What the configuration must give for a step to be defined: a
        neighbour count the selection accepts, and a nonzero relaxation time
        if the thermostat runs. */
    predicate Configured() {
      k >= -1 && (useThermostat ==> thermostatTau != 0.0)
    }

    /** Consistent particle arrays, nonzero masses (the accelerations divide
        by them) and a usable configuration. */
    ghost predicate Ready()
      reads this, particles
    {
      particles.Valid() && NonZeroMasses(particles.masses) && Configured()
    }

    /** Positions and velocities after one advancing iteration from `xs` and
        `vs`: integrate, then the boundary, then the thermostat if it is on. */
    function StepResult(c: Constants, xs: seq<Vec3>, vs: seq<Vec3>): (r: (seq<Vec3>, seq<Vec3>))
      requires Configured() && Fits(c, |xs|) && |vs| == |xs|
      ensures |r.0| == |xs| && |r.1| == |xs|
    {
      var integrated := SchemeState(integrate, c, xs, vs, dt, k, coulombK, sqrt);
      var bounded := Boundary(integrated.0, integrated.1, boundarySize, restitution);
      if useThermostat
      then (bounded.0, ThermostatVelocities(c.masses, bounded.1, targetTemp, thermostatTau, dt, sqrt, BOLTZMANN))
      else bounded
    }

    /** After an advancing iteration in a box with non-negative extents,
        every particle is inside the box: the thermostat, which runs after
        the boundary, changes only the velocities. */
    lemma StepResultInBox(c: Constants, xs: seq<Vec3>, vs: seq<Vec3>)
      requires Configured() && Fits(c, |xs|) && |vs| == |xs|
      requires BoxNonNegative(boundarySize)
      ensures InBox(StepResult(c, xs, vs).0, boundarySize)
    {
      var integrated := SchemeState(integrate, c, xs, vs, dt, k, coulombK, sqrt);
      BoundaryInBox(integrated.0, integrated.1, boundarySize, restitution);
    }

    /** One pass through the body of `run`'s loop. A paused, stopped or
        finished pass changes neither the particles nor the counter; an
        advancing pass takes one step of the pipeline and counts it. */
    method Iterate(view: RendererView) returns (outcome: Outcome)
      requires Ready()
      modifies this`step, particles`positions, particles`velocities
      ensures Ready()
      ensures outcome == IterationOutcome(old(step), steps, hasRenderer, view)
      ensures outcome != Advanced ==>
        step == old(step) && particles.positions == old(particles.positions) && particles.velocities == old(particles.velocities)
      ensures outcome == Advanced ==>
        step == old(step) + 1 &&
        (particles.positions, particles.velocities) == StepResult(ConstantsOf(particles), old(particles.positions), old(particles.velocities))
    {
      if step >= steps {
        return Finished;
      }
      if hasRenderer && !view.running {
        return Stopped;
      }
      if hasRenderer && view.paused {
        var elementCounts := GetElementCounts(particles);
        return Paused;
      }
      Advance();
      outcome := Advanced;
    }

    /** The advancing part of an iteration: integrate, reflect at the box,
        rescale the velocities if the thermostat is on, read the element
        counts for the renderer, and count the step. */
    method Advance()
      requires Ready()
      modifies this`step, particles`positions, particles`velocities
      ensures Ready()
      ensures step == old(step) + 1
      ensures (particles.positions, particles.velocities) == StepResult(ConstantsOf(particles), old(particles.positions), old(particles.velocities))
    {
      var _ := Integrate(integrate, particles, dt, k, coulombK, sqrt);
      ApplyBoundary(particles, boundarySize, restitution);
      if useThermostat {
        particles.ApplyThermostat(targetTemp, thermostatTau, dt, sqrt);
      }
      if hasRenderer {
        var elementCounts := GetElementCounts(particles);
      }
      step := step + 1;
    }

    /** `run`, over the renderer views of its successive iterations: the
        counter goes up by the number of steps taken; a run that takes no step
        leaves the particles alone, and without a renderer a run given enough
        iterations finishes all configured steps. */
    method Run(views: seq<RendererView>)
      requires Ready()
      modifies this`step, particles`positions, particles`velocities
      ensures Ready()
      ensures step == old(step) + Advances(old(step), steps, hasRenderer, views)
      ensures step == old(step) ==> particles.positions == old(particles.positions) && particles.velocities == old(particles.velocities)
      ensures !hasRenderer && old(step) <= steps && |views| >= steps - old(step) ==> step == steps
    {
      var i := 0;
      var done := false;
      while i < |views| && !done
        invariant 0 <= i <= |views|
        invariant Ready()
        invariant old(step) <= step
        invariant old(step) + Advances(old(step), steps, hasRenderer, views)
                  == step + if done then 0 else Advances(step, steps, hasRenderer, views[i..])
        invariant step == old(step) ==> particles.positions == old(particles.positions) && particles.velocities == old(particles.velocities)
      {
        ghost var stepBefore := step;
        var outcome := Iterate(views[i]);
        RunStepCount(old(step), stepBefore, step, views, i, outcome);
        done := outcome == Finished || outcome == Stopped;
        i := i + 1;
      }
      if !hasRenderer && old(step) <= steps && |views| >= steps - old(step) {
        AdvancesWithoutRenderer(old(step), steps, views);
      }
    }

    /** The step count of `Run`'s invariant carries over one iteration. */
    lemma RunStepCount(start: int, stepBefore: int, stepAfter: int, views: seq<RendererView>, i: nat, outcome: Outcome)
      requires i < |views| && start <= stepBefore
      requires start + Advances(start, steps, hasRenderer, views) == stepBefore + Advances(stepBefore, steps, hasRenderer, views[i..])
      requires outcome == IterationOutcome(stepBefore, steps, hasRenderer, views[i])
      requires outcome != Advanced ==> stepAfter == stepBefore
      requires outcome == Advanced ==> stepAfter == stepBefore + 1
      ensures start <= stepAfter
      ensures start + Advances(start, steps, hasRenderer, views)
              == stepAfter + if outcome == Finished || outcome == Stopped then 0 else Advances(stepAfter, steps, hasRenderer, views[i + 1..])
    {
      AdvancesNext(stepBefore, steps, hasRenderer, views, i);
    }
  }
}
