/** The two time-stepping schemes. Both evaluate `compute_forces`, turn the
    forces into accelerations `f / m` and update the particle system's
    velocities and positions in place with `+=`. */
module Integrator {
  import opened Vectors
  import opened Physics
  import opened Particle

  ghost predicate NonZeroMasses(masses: seq<real>) {
    forall i :: 0 <= i < |masses| ==> masses[i] != 0.0
  }

  /** `f / masses.unsqueeze(1)`: each particle's force divided by its mass,
      so that mass times acceleration gives the force back. */
  function Accelerations(forces: seq<Vec3>, masses: seq<real>): (a: seq<Vec3>)
    requires |forces| == |masses| && NonZeroMasses(masses)
    ensures |a| == |forces|
    ensures forall i :: 0 <= i < |a| ==> Scale(a[i], masses[i]) == forces[i]
  {
    seq(|forces|, i requires 0 <= i < |forces| => Div(forces[i], masses[i]))
  }

  /** `xs + rates * dt`, row by row: each entry moves by its rate times `dt`. */
  function Advance(xs: seq<Vec3>, rates: seq<Vec3>, dt: real): (r: seq<Vec3>)
    requires |xs| == |rates|
    ensures |r| == |xs|
    ensures forall i :: 0 <= i < |r| ==> Sub(r[i], xs[i]) == Scale(rates[i], dt)
  {
    seq(|xs|, i requires 0 <= i < |xs| => Add(xs[i], Scale(rates[i], dt)))
  }

  /** The Verlet position update `x + v dt + 0.5 a dt dt`, row by row. */
  function VerletPositions(xs: seq<Vec3>, vs: seq<Vec3>, a: seq<Vec3>, dt: real): (r: seq<Vec3>)
    requires |xs| == |vs| == |a|
    ensures |r| == |xs|
    ensures forall i :: 0 <= i < |r| ==> Sub(r[i], xs[i]) == Add(Scale(vs[i], dt), Scale(a[i], 0.5 * dt * dt))
  {
    seq(|xs|, i requires 0 <= i < |xs| => Add(Add(xs[i], Scale(vs[i], dt)), Scale(a[i], 0.5 * dt * dt)))
  }

  /** The Verlet velocity update `v + 0.5 (a + a') dt`, row by row. */
  function VerletVelocities(vs: seq<Vec3>, a: seq<Vec3>, aNew: seq<Vec3>, dt: real): (r: seq<Vec3>)
    requires |vs| == |a| == |aNew|
    ensures |r| == |vs|
    ensures forall i :: 0 <= i < |r| ==> Sub(r[i], vs[i]) == Scale(Add(a[i], aNew[i]), 0.5 * dt)
  {
    seq(|vs|, i requires 0 <= i < |vs| => Add(vs[i], Scale(Add(a[i], aNew[i]), 0.5 * dt)))
  }

  /** The per-particle quantities a step reads but never writes: masses,
      charges and the Lennard-Jones parameters. */
  datatype Constants = Constants(masses: seq<real>, charges: seq<real>, epsilons: seq<real>, sigmas: seq<real>)

  /** Constants for `n` particles, with the nonzero masses that the
      accelerations divide by. */
  ghost predicate Fits(c: Constants, n: nat) {
    |c.masses| == n && |c.charges| == n && |c.epsilons| == n && |c.sigmas| == n && NonZeroMasses(c.masses)
  }

  function ConstantsOf(particles: ParticleSystem): (c: Constants)
    reads particles
    ensures particles.Valid() && NonZeroMasses(particles.masses) ==> Fits(c, particles.NParticles())
  {
    Constants(particles.masses, particles.charges, particles.epsilons, particles.sigmas)
  }

  /** `compute_forces` at positions `xs`. */
  function Forces(c: Constants, xs: seq<Vec3>, k: int, coulombK: real, sqrt: real -> real): (f: seq<Vec3>)
    requires Fits(c, |xs|) && k >= -1
    ensures |f| == |xs|
  {
    ComputeForces(xs, c.charges, c.epsilons, c.sigmas, k, coulombK, sqrt)
  }

  /** `euler_step` (Euler-Cromer order): the velocities take the acceleration
      at the current positions, then the positions move with the NEW
      velocities. The same system is returned; only its positions and
      velocities change. */
  method EulerStep(particles: ParticleSystem, dt: real, k: int, coulombK: real, sqrt: real -> real)
    returns (r: ParticleSystem)
    requires particles.Valid() && NonZeroMasses(particles.masses) && k >= -1
    modifies particles`positions, particles`velocities
    ensures r == particles && particles.Valid()
    ensures var c := ConstantsOf(particles);
            var a := Accelerations(Forces(c, old(particles.positions), k, coulombK, sqrt), c.masses);
            particles.velocities == Advance(old(particles.velocities), a, dt)
    ensures particles.positions == Advance(old(particles.positions), particles.velocities, dt)
  {
    var f := ComputeForces(particles.positions, particles.charges, particles.epsilons, particles.sigmas, k, coulombK, sqrt);
    var a := Accelerations(f, particles.masses);
    particles.velocities := Advance(particles.velocities, a, dt);
    particles.positions := Advance(particles.positions, particles.velocities, dt);
    r := particles;
  }

  /** `velocity_verlet_step`: the positions move by `v dt + a dt^2 / 2`, the
      forces are evaluated again at the moved positions, and the velocities
      take the mean of the old and the new acceleration. */
  method VelocityVerletStep(particles: ParticleSystem, dt: real, k: int, coulombK: real, sqrt: real -> real)
    returns (r: ParticleSystem)
    requires particles.Valid() && NonZeroMasses(particles.masses) && k >= -1
    modifies particles`positions, particles`velocities
    ensures r == particles && particles.Valid()
    ensures var c := ConstantsOf(particles);
            var a := Accelerations(Forces(c, old(particles.positions), k, coulombK, sqrt), c.masses);
            particles.positions == VerletPositions(old(particles.positions), old(particles.velocities), a, dt)
    ensures var c := ConstantsOf(particles);
            var a := Accelerations(Forces(c, old(particles.positions), k, coulombK, sqrt), c.masses);
            var aNew := Accelerations(Forces(c, particles.positions, k, coulombK, sqrt), c.masses);
            particles.velocities == VerletVelocities(old(particles.velocities), a, aNew, dt)
  {
    var f := ComputeForces(particles.positions, particles.charges, particles.epsilons, particles.sigmas, k, coulombK, sqrt);
    var a := Accelerations(f, particles.masses);
    particles.positions := VerletPositions(particles.positions, particles.velocities, a, dt);
    var fNew := ComputeForces(particles.positions, particles.charges, particles.epsilons, particles.sigmas, k, coulombK, sqrt);
    var aNew := Accelerations(fNew, particles.masses);
    particles.velocities := VerletVelocities(particles.velocities, a, aNew, dt);
    r := particles;
  }

  /** The integrator a configuration can select. */
  datatype Scheme = Euler | VelocityVerlet

  /** `rk4_step` is another name for the velocity Verlet step. */
  function Rk4Step(): Scheme {
    VelocityVerlet
  }

  /** Positions and velocities after one step of `scheme` from `xs` and
      `vs`. */
  function SchemeState(scheme: Scheme, c: Constants, xs: seq<Vec3>, vs: seq<Vec3>,
                       dt: real, k: int, coulombK: real, sqrt: real -> real): (r: (seq<Vec3>, seq<Vec3>))
    requires Fits(c, |xs|) && |vs| == |xs| && k >= -1
    ensures |r.0| == |xs| && |r.1| == |xs|
  {
    var a := Accelerations(Forces(c, xs, k, coulombK, sqrt), c.masses);
    match scheme
    case Euler =>
      var v := Advance(vs, a, dt);
      (Advance(xs, v, dt), v)
    case VelocityVerlet =>
      var x := VerletPositions(xs, vs, a, dt);
      var aNew := Accelerations(Forces(c, x, k, coulombK, sqrt), c.masses);
      (x, VerletVelocities(vs, a, aNew, dt))
  }

  /** One step of the selected scheme. */
  method Integrate(scheme: Scheme, particles: ParticleSystem, dt: real, k: int, coulombK: real, sqrt: real -> real)
    returns (r: ParticleSystem)
    requires particles.Valid() && NonZeroMasses(particles.masses) && k >= -1
    modifies particles`positions, particles`velocities
    ensures r == particles && particles.Valid()
    ensures (particles.positions, particles.velocities)
            == SchemeState(scheme, ConstantsOf(particles), old(particles.positions), old(particles.velocities), dt, k, coulombK, sqrt)
  {
    match scheme
    case Euler => r := EulerStep(particles, dt, k, coulombK, sqrt);
    case VelocityVerlet => r := VelocityVerletStep(particles, dt, k, coulombK, sqrt);
  }

  /** Zero forces give zero accelerations. */
  lemma AccelerationsOfZeroForces(forces: seq<Vec3>, masses: seq<real>)
    requires |forces| == |masses| && NonZeroMasses(masses)
    requires forall i :: 0 <= i < |forces| ==> forces[i] == Zero
    ensures forall i :: 0 <= i < |forces| ==> Accelerations(forces, masses)[i] == Zero
  {
    var a := Accelerations(forces, masses);
    forall i | 0 <= i < |forces| ensures a[i] == Zero {
      assert a[i] == Div(Zero, masses[i]);
    }
  }

  /** Advancing at zero rates leaves every entry where it is. */
  lemma AdvanceAtZeroRate(xs: seq<Vec3>, rates: seq<Vec3>, dt: real)
    requires |xs| == |rates|
    requires forall i :: 0 <= i < |rates| ==> rates[i] == Zero
    ensures Advance(xs, rates, dt) == xs
  {
    var r := Advance(xs, rates, dt);
    forall i | 0 <= i < |xs| ensures r[i] == xs[i] {
      assert Sub(r[i], xs[i]) == Scale(Zero, dt) == Zero;
    }
  }

  /** Without forces the Euler step keeps the velocities and moves every
      particle by `v dt`. */
  lemma EulerWithoutForces(xs: seq<Vec3>, vs: seq<Vec3>, forces: seq<Vec3>, masses: seq<real>, dt: real)
    requires |xs| == |vs| == |forces| == |masses| && NonZeroMasses(masses)
    requires forall i :: 0 <= i < |forces| ==> forces[i] == Zero
    ensures var vNew := Advance(vs, Accelerations(forces, masses), dt);
            vNew == vs && Advance(xs, vNew, dt) == Advance(xs, vs, dt)
  {
    AccelerationsOfZeroForces(forces, masses);
    AdvanceAtZeroRate(vs, Accelerations(forces, masses), dt);
  }

  /** Without forces, before or after the move, the Verlet step keeps the
      velocities and moves every particle by `v dt`. */
  lemma VerletWithoutForces(xs: seq<Vec3>, vs: seq<Vec3>, forces: seq<Vec3>, forcesNew: seq<Vec3>, masses: seq<real>, dt: real)
    requires |xs| == |vs| == |forces| == |forcesNew| == |masses| && NonZeroMasses(masses)
    requires forall i :: 0 <= i < |forces| ==> forces[i] == Zero && forcesNew[i] == Zero
    ensures var a := Accelerations(forces, masses);
            var aNew := Accelerations(forcesNew, masses);
            VerletPositions(xs, vs, a, dt) == Advance(xs, vs, dt) &&
            VerletVelocities(vs, a, aNew, dt) == vs
  {
    var a := Accelerations(forces, masses);
    var aNew := Accelerations(forcesNew, masses);
    AccelerationsOfZeroForces(forces, masses);
    AccelerationsOfZeroForces(forcesNew, masses);
    var p, q := VerletPositions(xs, vs, a, dt), Advance(xs, vs, dt);
    forall i | 0 <= i < |xs| ensures p[i] == q[i] {
      assert Scale(a[i], 0.5 * dt * dt) == Zero;
    }
    var w := VerletVelocities(vs, a, aNew, dt);
    forall i | 0 <= i < |vs| ensures w[i] == vs[i] {
      assert Scale(Add(a[i], aNew[i]), 0.5 * dt) == Zero;
    }
  }

  /** Particles at rest with no forces on them stay where they are, under
      either scheme. */
  lemma AtRestWithoutForces(xs: seq<Vec3>, vs: seq<Vec3>, forces: seq<Vec3>, forcesNew: seq<Vec3>, masses: seq<real>, dt: real)
    requires |xs| == |vs| == |forces| == |forcesNew| == |masses| && NonZeroMasses(masses)
    requires forall i :: 0 <= i < |forces| ==> forces[i] == Zero && forcesNew[i] == Zero && vs[i] == Zero
    ensures Advance(xs, Advance(vs, Accelerations(forces, masses), dt), dt) == xs
    ensures VerletPositions(xs, vs, Accelerations(forces, masses), dt) == xs
  {
    EulerWithoutForces(xs, vs, forces, masses, dt);
    VerletWithoutForces(xs, vs, forces, forcesNew, masses, dt);
    AdvanceAtZeroRate(xs, vs, dt);
  }

  /** Under a constant acceleration the Verlet step is exact kinematics: the
      velocity gains `a dt`. */
  lemma VerletConstantAcceleration(vs: seq<Vec3>, a: seq<Vec3>, dt: real)
    requires |vs| == |a|
    ensures VerletVelocities(vs, a, a, dt) == Advance(vs, a, dt)
  {
    var w, u := VerletVelocities(vs, a, a, dt), Advance(vs, a, dt);
    forall i | 0 <= i < |vs| ensures w[i] == u[i] {
      var h := 0.5 * dt;
      assert h + h == dt;
      assert Add(a[i], a[i]).x * h == a[i].x * dt;
      assert Add(a[i], a[i]).y * h == a[i].y * dt;
      assert Add(a[i], a[i]).z * h == a[i].z * dt;
    }
  }

  /** Advancing by `dt` and then by `-dt` at the same rates returns every
      entry to where it started. */
  lemma AdvanceRoundTrip(xs: seq<Vec3>, rates: seq<Vec3>, dt: real)
    requires |xs| == |rates|
    ensures Advance(Advance(xs, rates, dt), rates, -dt) == xs
  {
    var once := Advance(xs, rates, dt);
    var back := Advance(once, rates, -dt);
    forall i | 0 <= i < |xs| ensures back[i] == xs[i] {
      assert once[i] == Add(xs[i], Scale(rates[i], dt));
      assert back[i] == Add(once[i], Scale(rates[i], -dt));
    }
  }

  /** The Verlet position update is a half kick of the velocities by `a`
      followed by a drift over the whole `dt`. */
  lemma VerletPositionsKickDrift(xs: seq<Vec3>, vs: seq<Vec3>, a: seq<Vec3>, dt: real)
    requires |xs| == |vs| == |a|
    ensures VerletPositions(xs, vs, a, dt) == Advance(xs, Advance(vs, a, 0.5 * dt), dt)
  {
    var p := VerletPositions(xs, vs, a, dt);
    var half := Advance(vs, a, 0.5 * dt);
    var q := Advance(xs, half, dt);
    forall i | 0 <= i < |xs| ensures p[i] == q[i] {
      assert half[i] == Add(vs[i], Scale(a[i], 0.5 * dt));
      KickDrift(xs[i].x, vs[i].x, a[i].x, dt);
      KickDrift(xs[i].y, vs[i].y, a[i].y, dt);
      KickDrift(xs[i].z, vs[i].z, a[i].z, dt);
    }
  }

  lemma KickDrift(x: real, v: real, a: real, dt: real)
    ensures (x + v * dt) + a * (0.5 * dt * dt) == x + (v + a * (0.5 * dt)) * dt
  {
  }

  /** The Verlet velocity update is two half kicks: by the old acceleration,
      then by the new one. */
  lemma VerletVelocitiesHalfKicks(vs: seq<Vec3>, a: seq<Vec3>, aNew: seq<Vec3>, dt: real)
    requires |vs| == |a| == |aNew|
    ensures VerletVelocities(vs, a, aNew, dt) == Advance(Advance(vs, a, 0.5 * dt), aNew, 0.5 * dt)
  {
    var w := VerletVelocities(vs, a, aNew, dt);
    var half := Advance(vs, a, 0.5 * dt);
    var u := Advance(half, aNew, 0.5 * dt);
    forall i | 0 <= i < |vs| ensures w[i] == u[i] {
      assert half[i] == Add(vs[i], Scale(a[i], 0.5 * dt));
      assert u[i] == Add(half[i], Scale(aNew[i], 0.5 * dt));
      var h := 0.5 * dt;
      assert (a[i].x + aNew[i].x) * h == a[i].x * h + aNew[i].x * h;
      assert (a[i].y + aNew[i].y) * h == a[i].y * h + aNew[i].y * h;
      assert (a[i].z + aNew[i].z) * h == a[i].z * h + aNew[i].z * h;
    }
  }
}
