/** The particle aggregate: N-length parallel per-particle arrays, the
    kinetic energy and temperature read from them, and the velocity-rescaling
    (Berendsen-style) thermostat that updates the velocities in place. */
module Particle {
  import opened Vectors

  /** Kilograms per atomic mass unit. */
  const AMU_KG: real := 1.66053906660e-27
  /** Metres per second per angstrom per femtosecond. */
  const VELOCITY_TO_SI: real := 1e5
  /** The Boltzmann constant in J/K, the default `k_b`. */
  const BOLTZMANN: real := 1.380649e-23

  /** One particle's share of the sum of `mass_kg * v_m_s ** 2`: its SI mass
      times the squared SI velocity component, summed over the three axes. */
  function MassVelocitySquared(m: real, v: Vec3): real {
    var mKg := m * AMU_KG;
    mKg * Sq(v.x * VELOCITY_TO_SI) + mKg * Sq(v.y * VELOCITY_TO_SI) + mKg * Sq(v.z * VELOCITY_TO_SI)
  }

  /** The per-particle terms of `mass_kg[:, None] * v_m_s ** 2`, summed over
      the axes. */
  function EnergyTerms(masses: seq<real>, velocities: seq<Vec3>): (r: seq<real>)
    requires |masses| == |velocities|
    ensures |r| == |masses|
  {
    seq(|masses|, i requires 0 <= i < |masses| => MassVelocitySquared(masses[i], velocities[i]))
  }

  /** Kinetic energy in joules, `0.5 * sum(m v^2)` after conversion to SI. */
  function KineticEnergyOf(masses: seq<real>, velocities: seq<Vec3>): real
    requires |masses| == |velocities|
  {
    0.5 * Sum(EnergyTerms(masses, velocities))
  }

  /** The equipartition temperature `(2/3) KE / (n k_B)` of `n` particles. */
  function TemperatureOf(masses: seq<real>, velocities: seq<Vec3>, n: nat, kB: real): real
    requires |masses| == |velocities|
    requires n > 0 && kB != 0.0
  {
    (2.0 / 3.0) * KineticEnergyOf(masses, velocities) / (n as real * kB)
  }

  /** Every velocity multiplied by the same factor, `velocities *= lambda`. */
  function ScaleAll(vs: seq<Vec3>, factor: real): (r: seq<Vec3>)
    ensures |r| == |vs|
  {
    seq(|vs|, i requires 0 <= i < |vs| => Scale(vs[i], factor))
  }

  /** The squared rescaling factor `1 + (dt / tau) (target / current - 1)`. */
  function ThermostatFactorSquared(current: real, target: real, tau: real, dt: real): real
    requires tau != 0.0 && current != 0.0
  {
    1.0 + (dt / tau) * (target / current - 1.0)
  }

  class ParticleSystem {
    var positions: seq<Vec3>
    var velocities: seq<Vec3>
    var masses: seq<real>
    var charges: seq<real>
    var radii: seq<real>
    var colors: seq<Vec3>
    var epsilons: seq<real>
    var sigmas: seq<real>
    var elements: seq<string>
    var device: string

    /** All per-particle arrays have the same length N, and index i refers to
        the same particle in each. */
    ghost predicate Valid()
      reads this
    {
      && |velocities| == |positions|
      && |masses| == |positions|
      && |charges| == |positions|
      && |radii| == |positions|
      && |colors| == |positions|
      && |epsilons| == |positions|
      && |sigmas| == |positions|
      && |elements| == |positions|
    }

    constructor (positions: seq<Vec3>, velocities: seq<Vec3>, masses: seq<real>, charges: seq<real>,
                 radii: seq<real>, colors: seq<Vec3>, epsilons: seq<real>, sigmas: seq<real>,
                 elements: seq<string>, device: string)
      ensures this.positions == positions && this.velocities == velocities
      ensures this.masses == masses && this.charges == charges
      ensures this.radii == radii && this.colors == colors
      ensures this.epsilons == epsilons && this.sigmas == sigmas
      ensures this.elements == elements && this.device == device
    {
      this.positions, this.velocities := positions, velocities;
      this.masses, this.charges := masses, charges;
      this.radii, this.colors := radii, colors;
      this.epsilons, this.sigmas := epsilons, sigmas;
      this.elements, this.device := elements, device;
    }

    /** `n_particles`: the number of positions, which under `Valid()` is the
        length of every per-particle array. */
    function NParticles(): (n: nat)
      reads this
      ensures n == |positions|
      ensures Valid() ==> n == |velocities| == |masses| == |charges| == |epsilons| == |sigmas| == |elements|
    {
      |positions|
    }

    function KineticEnergy(): real
      reads this
      requires |masses| == |velocities|
    {
      KineticEnergyOf(masses, velocities)
    }

    function Temperature(kB: real := BOLTZMANN): real
      reads this
      requires |masses| == |velocities|
      requires NParticles() > 0 && kB != 0.0
    {
      TemperatureOf(masses, velocities, NParticles(), kB)
    }

    /** `apply_thermostat`: when the current temperature is positive, every
        velocity is multiplied by `sqrt(ThermostatFactorSquared(...))`;
        otherwise nothing changes. With no particles the temperature is NaN in
        the tensor code, the comparison `NaN > 0` is false, and nothing changes
        either. Only the velocities are written. */
    method ApplyThermostat(targetTemp: real, tau: real, dt: real, sqrt: real -> real, kB: real := BOLTZMANN)
      requires Valid()
      requires kB != 0.0
      requires NParticles() > 0 && Temperature(kB) > 0.0 ==> tau != 0.0
      modifies this`velocities
      ensures Valid()
      ensures old(NParticles()) == 0 || old(Temperature(kB)) <= 0.0 ==> velocities == old(velocities)
      ensures old(NParticles()) > 0 && old(Temperature(kB)) > 0.0 ==>
        velocities == ScaleAll(old(velocities), sqrt(ThermostatFactorSquared(old(Temperature(kB)), targetTemp, tau, dt)))
      ensures old(NParticles()) > 0 && old(Temperature(kB)) > 0.0 && IsSqrtFn(sqrt)
              && ThermostatFactorSquared(old(Temperature(kB)), targetTemp, tau, dt) >= 0.0 ==>
        Temperature(kB) == old(Temperature(kB)) + (dt / tau) * (targetTemp - old(Temperature(kB)))
    {
      if NParticles() > 0 {
        var currentTemp := Temperature(kB);
        if currentTemp > 0.0 {
          var lambdaFactor := sqrt(ThermostatFactorSquared(currentTemp, targetTemp, tau, dt));
          ghost var before := velocities;
          velocities := ScaleAll(velocities, lambdaFactor);
          if IsSqrtFn(sqrt) && ThermostatFactorSquared(currentTemp, targetTemp, tau, dt) >= 0.0 {
            ThermostatRelaxes(masses, before, NParticles(), kB, targetTemp, tau, dt, sqrt);
          }
        }
      }
    }
  }

  /** With non-negative masses the kinetic energy is non-negative. */
  lemma KineticEnergyNonNegative(masses: seq<real>, velocities: seq<Vec3>)
    requires |masses| == |velocities|
    requires forall i :: 0 <= i < |masses| ==> masses[i] >= 0.0
    ensures KineticEnergyOf(masses, velocities) >= 0.0
  {
    var terms := EnergyTerms(masses, velocities);
    forall i | 0 <= i < |terms| ensures terms[i] >= 0.0 {
      MassVelocitySquaredNonNegative(masses[i], velocities[i]);
    }
    SumNonNegative(terms);
  }

  lemma MassVelocitySquaredNonNegative(m: real, v: Vec3)
    requires m >= 0.0
    ensures MassVelocitySquared(m, v) >= 0.0
  {
    var mKg := m * AMU_KG;
    var a, b, c := Sq(v.x * VELOCITY_TO_SI), Sq(v.y * VELOCITY_TO_SI), Sq(v.z * VELOCITY_TO_SI);
    SqNonNegative(v.x * VELOCITY_TO_SI);
    SqNonNegative(v.y * VELOCITY_TO_SI);
    SqNonNegative(v.z * VELOCITY_TO_SI);
    assert mKg >= 0.0;
    assert mKg * a >= 0.0 && mKg * b >= 0.0 && mKg * c >= 0.0;
  }

  /** Particles at rest have zero kinetic energy, whatever their masses. */
  lemma KineticEnergyAtRest(masses: seq<real>, velocities: seq<Vec3>)
    requires |masses| == |velocities|
    requires forall i :: 0 <= i < |velocities| ==> velocities[i] == Zero
    ensures KineticEnergyOf(masses, velocities) == 0.0
  {
    var terms := EnergyTerms(masses, velocities);
    forall i | 0 <= i < |terms| ensures terms[i] == 0.0 {
      assert velocities[i] == Zero;
      assert Sq(0.0 * VELOCITY_TO_SI) == 0.0;
    }
    SumOfZeros(terms);
  }

  /** With non-negative masses and at least one particle, the temperature is
      non-negative (for a positive Boltzmann constant). */
  lemma TemperatureNonNegative(masses: seq<real>, velocities: seq<Vec3>, n: nat, kB: real)
    requires |masses| == |velocities| && n > 0 && kB > 0.0
    requires forall i :: 0 <= i < |masses| ==> masses[i] >= 0.0
    ensures TemperatureOf(masses, velocities, n, kB) >= 0.0
  {
    KineticEnergyNonNegative(masses, velocities);
    var ke, d := KineticEnergyOf(masses, velocities), n as real * kB;
    assert d > 0.0;
    assert (2.0 / 3.0) * ke >= 0.0;
    assert (2.0 / 3.0) * ke / d >= 0.0;
  }

  /** Scaling a velocity by `f` scales its energy term by `f * f`. */
  lemma MassVelocitySquaredScaled(m: real, v: Vec3, f: real)
    ensures MassVelocitySquared(m, Scale(v, f)) == Sq(f) * MassVelocitySquared(m, v)
  {
    var mKg, sf := m * AMU_KG, Sq(f);
    var a, b, c := Sq(v.x * VELOCITY_TO_SI), Sq(v.y * VELOCITY_TO_SI), Sq(v.z * VELOCITY_TO_SI);
    assert Sq(v.x * f * VELOCITY_TO_SI) == sf * a;
    assert Sq(v.y * f * VELOCITY_TO_SI) == sf * b;
    assert Sq(v.z * f * VELOCITY_TO_SI) == sf * c;
    calc {
      MassVelocitySquared(m, Scale(v, f));
      == mKg * (sf * a) + mKg * (sf * b) + mKg * (sf * c);
      == sf * (mKg * a + mKg * b + mKg * c);
      == sf * MassVelocitySquared(m, v);
    }
  }

  /** Scaling every velocity by `f` scales every energy term by `f * f`. */
  lemma EnergyTermsScaled(masses: seq<real>, velocities: seq<Vec3>, f: real)
    requires |masses| == |velocities|
    ensures EnergyTerms(masses, ScaleAll(velocities, f)) == ScaleReals(EnergyTerms(masses, velocities), Sq(f))
  {
    var a, b := EnergyTerms(masses, ScaleAll(velocities, f)), ScaleReals(EnergyTerms(masses, velocities), Sq(f));
    forall i | 0 <= i < |masses| ensures a[i] == b[i] {
      MassVelocitySquaredScaled(masses[i], velocities[i], f);
    }
  }

  /** Scaling every velocity by `f` scales the temperature by `f * f`. */
  lemma TemperatureScaled(masses: seq<real>, velocities: seq<Vec3>, n: nat, kB: real, f: real)
    requires |masses| == |velocities| && n > 0 && kB != 0.0
    ensures TemperatureOf(masses, ScaleAll(velocities, f), n, kB) == Sq(f) * TemperatureOf(masses, velocities, n, kB)
  {
    EnergyTermsScaled(masses, velocities, f);
    SumScaled(EnergyTerms(masses, velocities), Sq(f));
    EquipartitionScaled(Sum(EnergyTerms(masses, velocities)), Sum(EnergyTerms(masses, ScaleAll(velocities, f))),
                        Sq(f), n as real * kB);
  }

  /** The equipartition formula is linear in the energy sum. */
  lemma EquipartitionScaled(s: real, ss: real, l: real, d: real)
    requires d != 0.0 && ss == l * s
    ensures (2.0 / 3.0) * (0.5 * ss) / d == l * ((2.0 / 3.0) * (0.5 * s) / d)
  {
    var t := (2.0 / 3.0) * (0.5 * s) / d;
    assert t * d == (2.0 / 3.0) * (0.5 * s);
    calc {
      (2.0 / 3.0) * (0.5 * ss) / d;
      == (l * (t * d)) / d;
      == ((l * t) * d) / d;
      == l * t;
    }
  }

  /** Weak coupling: with `lambda^2 = 1 + (dt/tau)(target/T - 1)` the new
      temperature `lambda^2 T` is `T + (dt/tau)(target - T)`. */
  lemma RelaxedTemperature(current: real, target: real, tau: real, dt: real, l: real)
    requires tau != 0.0 && current != 0.0
    requires l == ThermostatFactorSquared(current, target, tau, dt)
    ensures l * current == current + (dt / tau) * (target - current)
  {
    var a, b := dt / tau, target / current;
    assert b * current == target;
    calc {
      l * current;
      == (1.0 + a * (b - 1.0)) * current;
      == current + a * (b * current - current);
      == current + a * (target - current);
    }
  }

  /** The thermostat's effect on temperature: after rescaling by the square
      root of the factor, the temperature has relaxed by `dt / tau` of the way
      towards the target. */
  lemma ThermostatRelaxes(masses: seq<real>, velocities: seq<Vec3>, n: nat, kB: real,
                          target: real, tau: real, dt: real, sqrt: real -> real)
    requires |masses| == |velocities| && n > 0 && kB != 0.0 && tau != 0.0
    requires IsSqrtFn(sqrt)
    requires TemperatureOf(masses, velocities, n, kB) > 0.0
    requires ThermostatFactorSquared(TemperatureOf(masses, velocities, n, kB), target, tau, dt) >= 0.0
    ensures var t := TemperatureOf(masses, velocities, n, kB);
      TemperatureOf(masses, ScaleAll(velocities, sqrt(ThermostatFactorSquared(t, target, tau, dt))), n, kB)
        == t + (dt / tau) * (target - t)
  {
    var t := TemperatureOf(masses, velocities, n, kB);
    var l2 := ThermostatFactorSquared(t, target, tau, dt);
    var lambda := sqrt(l2);
    assert Sq(lambda) == l2;
    TemperatureScaled(masses, velocities, n, kB, lambda);
    RelaxedTemperature(t, target, tau, dt, l2);
  }

  /** At the target temperature the thermostat leaves the velocities as they
      are. */
  lemma ThermostatAtTargetIsIdentity(velocities: seq<Vec3>, current: real, tau: real, dt: real, sqrt: real -> real)
    requires IsSqrtFn(sqrt) && tau != 0.0 && current != 0.0
    ensures ScaleAll(velocities, sqrt(ThermostatFactorSquared(current, current, tau, dt))) == velocities
  {
    assert current / current == 1.0;
    assert ThermostatFactorSquared(current, current, tau, dt) == 1.0;
    SqrtOfOne(sqrt);
    var r := ScaleAll(velocities, 1.0);
    assert forall i :: 0 <= i < |r| ==> r[i] == velocities[i];
  }

  /** With `dt == tau` one thermostat application reaches the target. */
  lemma ThermostatHitsTargetWhenDtIsTau(masses: seq<real>, velocities: seq<Vec3>, n: nat, kB: real,
                                        target: real, tau: real, sqrt: real -> real)
    requires |masses| == |velocities| && n > 0 && kB != 0.0 && tau != 0.0
    requires IsSqrtFn(sqrt)
    requires TemperatureOf(masses, velocities, n, kB) > 0.0
    requires ThermostatFactorSquared(TemperatureOf(masses, velocities, n, kB), target, tau, tau) >= 0.0
    ensures var t := TemperatureOf(masses, velocities, n, kB);
      TemperatureOf(masses, ScaleAll(velocities, sqrt(ThermostatFactorSquared(t, target, tau, tau))), n, kB) == target
  {
    ThermostatRelaxes(masses, velocities, n, kB, target, tau, tau, sqrt);
    assert tau / tau == 1.0;
  }
}
