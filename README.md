# AE particle engine: a Dafny model

This project models the physics engine of the AE ("Atomic Engine")
particle simulator, where charged particles with mass move under
truncated Lennard-Jones and Coulomb pair forces. It covers:

- the particle system, with its kinetic energy, its equipartition temperature
  and the Berendsen-style velocity-rescaling thermostat;
- the nearest-neighbour search, built on a pairwise distance matrix and a
  smallest-k selection;
- the pair forces and the per-particle force sums;
- the reflecting box boundary;
- the explicit (Euler-Cromer) and velocity Verlet integrators;
- the element count read for the renderer;
- the simulation loop of the `Simulator` class, one iteration at a time.

Arithmetic is exact (`real`). The square root is a parameter
`sqrt: real -> real`. Lemmas that need its meaning require `IsSqrtFn(sqrt)`,
meaning that for every `x >= 0`, `sqrt(x) >= 0` and `sqrt(x) * sqrt(x) == x`.

Layout, one module per file:

- `vectors.dfy`: `Vec3` and vector arithmetic, the norm, and sums over sequences.
- `tensor_ops.dfy`: the tensor library calls the engine uses.
  - `torch.cdist` is `CDist`.
  - `torch.topk(..., largest=False)` is `TopK`, an insertion sort of the
    column indices followed by a prefix.
- `particle.dfy`: `src/particle.py`. `ParticleSystem` is a class whose
  per-particle tensors are `seq` fields. `ApplyThermostat` reassigns the
  velocities in place.
- `physics.dfy`: `src/physics.py`.
  - `FindKNearest` and `ComputeForces` are functions.
  - `ApplyBoundary` is a method. It runs the `for dim in range(3)` loop with
    the masked writes, and is proved equal to the pure `Boundary`.
- `integrator.dfy`: `src/integrator.py`.
  - `EulerStep` and `VelocityVerletStep` update the system in place. Each is
    proved equal to a function of the old positions and velocities.
  - `rk4_step` is `Rk4Step`, which names the velocity Verlet scheme.
- `utils.dfy`: `get_element_counts` from `src/utils.py`. It is a loop over the
  labels, proved to produce each label's multiplicity.
- `simulator.dfy`: `src/simulator.py`.
  - The constructor reads the configuration and selects the integrator by
    its lower-cased name.
  - `Iterate` is one pass of the `while` body.
  - `Run` is the loop.

Four behaviours of the code that are easy to get wrong:

- **Neighbour selection.** `find_k_nearest` drops column 0 of the smallest-k
  selection, which is the row minimum. That minimum is the particle itself
  only when no other particle shares its position; with coinciding points,
  one of its twins may be the one dropped (`FindKNearest`, `SelfExcluded`).
- **Lennard-Jones force at `r == sigma`.** The force there is `24 eps / sigma`,
  not zero. It vanishes where `(sigma / r)^6 == 1/2` (`LennardJonesAtSigma`,
  `LennardJonesZero`).
- **"rk4".** The name selects the velocity Verlet step, because `rk4_step`
  is an alias. Every name other than "euler" selects velocity Verlet.
- **Zero particles.** The code does not reject a system with no particles.
  The model follows the code's behaviour: an empty neighbour set and no
  forces; for the thermostat, the NaN temperature compares false, so nothing
  changes.

## Model

| member | source | states |
|---|---|---|
| TensorOps.CDist | src/physics.py:5 | the pairwise distance matrix, one row and one column per point; its properties are `CDistFacts` |
| TensorOps.CDistFacts | src/physics.py:5 | every pairwise distance is non-negative, is zero exactly when the two points coincide, and is symmetric |
| TensorOps.TopK | src/physics.py:6 | the smallest-`m` selection has `m` columns, ordered ascending by value (ties by lower index), and every column left out comes after every column selected |
| TensorOps.SortColumnsAscending | src/physics.py:6 | sorting distinct columns gives an ascending list that is a permutation of them |
| Physics.Nearest | src/physics.py:6 | column 0 of the selection: an entry that comes before every other entry of the row (ties by lower index); `NearestIsSelf` identifies it |
| Physics.NearestColumns | src/physics.py:6-7 | dropping column 0 of the selection leaves `m - 1` in-range ascending columns; the row minimum is not among them; every other column left out comes after all of them |
| Physics.FirstIsNearest | src/physics.py:6-7 | column 0 of the selection is the row minimum, and no later column repeats it |
| Physics.FindKNearest | src/physics.py:3-7 | one row per particle, each of `min(k + 1, n) - 1` entries; each entry is the distance to its index; indices within a row are distinct, with distances ascending; the row minimum is excluded; every particle left out (other than the minimum) is at least as far as every neighbour |
| Physics.NeighbourCount | src/physics.py:11-13 | after `k = min(k, n - 1)`, every row holds exactly `min(k, n - 1)` neighbours |
| Physics.NeighbourDistancesNonNegative | src/physics.py:5-7 | every returned neighbour distance is non-negative |
| Physics.SelfExcluded | src/physics.py:5-7 | a particle whose position no other particle shares is not among its own neighbours |
| Physics.NearestIsSelf | src/physics.py:5-6 | the minimum of such a particle's distance row is the particle itself |
| Physics.Separation | src/physics.py:19-20 | the separation is the larger of the true distance and 1e-2: at least both, and equal to one of them |
| Physics.SeparationSymmetric | src/physics.py:19-20 | the clamped separation of `i` from `j` equals that of `j` from `i` |
| Physics.MixedEpsilon | src/physics.py:25-27 | the combined well depth is a non-negative square root of `eps_i * eps_j` |
| Physics.MixedSigma | src/physics.py:29-31 | the combined diameter lies between the two, at equal distance from each |
| Physics.MixingSymmetric | src/physics.py:25-31 | both combination rules are symmetric in the two particles |
| Physics.PairForceAntisymmetric | src/physics.py:15-41 | Newton's third law for a pair: the force of `j` on `i` plus the force of `i` on `j` is zero |
| Physics.CoulombWithoutCharge | src/physics.py:37-39 | an uncharged particle feels no Coulomb term |
| Physics.CoulombSign | src/physics.py:37-39 | for a positive constant, like charges give a positive (repulsive) magnitude and opposite charges a negative (attractive) one |
| Physics.LennardJonesAtSigma | src/physics.py:33-35 | at `r == sigma` the Lennard-Jones magnitude is `24 eps / sigma` |
| Physics.LennardJonesZero | src/physics.py:33-35 | the Lennard-Jones magnitude is zero where `(sigma / r)^6 == 1/2` |
| Physics.LennardJones | src/physics.py:33-35 | the Lennard-Jones magnitude; its value at `sigma` and its zero are `LennardJonesAtSigma` and `LennardJonesZero` |
| Physics.Coulomb | src/physics.py:37-39 | the Coulomb magnitude; its sign and its zero are `CoulombSign` and `CoulombWithoutCharge` |
| Physics.PairForce | src/physics.py:15-41 | the force of one neighbour on a particle, along the clamped unit direction; `PairForceAntisymmetric` proves Newton's third law for it |
| Physics.NetForce | src/physics.py:43-44 | the sum of the pair forces over a neighbour list; `SingleNeighbour` reduces a one-entry list to its pair force |
| Physics.SingleNeighbour | src/physics.py:43-44 | the net force over a single neighbour is that neighbour's pair force |
| Physics.ComputeForces | src/physics.py:9-46 | one force per particle |
| Physics.TwoParticleForcesBalance | src/physics.py:9-46 | two particles at distinct positions with `k >= 1` are each other's only neighbour, and their two forces add up to zero |
| Physics.NoNeighboursNoForce | src/physics.py:9-46 | with `k <= 0` or at most one particle, every force is zero |
| Physics.ReflectCoord | src/physics.py:52-59 | one coordinate and its velocity component after one axis's masked writes; the cases are `ReflectCoordCases` and `WritesReflect` |
| Physics.Boundary | src/physics.py:48-59 | positions and velocities after `apply_boundary`; `ApplyBoundary` is proved equal to it, with `BoundaryInBox`, `BoundaryInsideIsIdentity` and `BoundaryIdempotent` about it |
| Physics.ReflectCoordCases | src/physics.py:51-59 | a coordinate inside `[0, b]` is untouched; one below 0 or above `b >= 0` is clamped to that wall, with its velocity component multiplied by `-restitution`; the result lies in `[0, b]` |
| Physics.BoundaryComponents | src/physics.py:51-59 | each coordinate and velocity component after the boundary depends only on that axis's original values |
| Physics.BoundaryInBox | src/physics.py:48-59 | in a box with non-negative extents, every particle ends up inside the box |
| Physics.BoundaryKeepsInside | src/physics.py:51-59 | a coordinate already inside the box keeps its value and its velocity component |
| Physics.BoundaryInsideIsIdentity | src/physics.py:48-59 | particles all inside the box are left unchanged |
| Physics.BoundaryIdempotent | src/physics.py:48-59 | applying the boundary twice gives the same result as applying it once |
| Physics.BoundaryExample | src/physics.py:48-59 | a particle at x = -1 moving at -2, with restitution 0.8, lands at x = 0 moving at +1.6; y and z are unchanged |
| Physics.ApplyBoundary | src/physics.py:48-59 | the three axis passes of masked in-place writes leave the positions and velocities equal to `Boundary` of the old ones, and write nothing else |
| Physics.WritesReflect | src/physics.py:52-59 | the lower write and then the upper write on one axis, with both masks taken beforehand, give the single-coordinate reflection |
| Particle.ParticleSystem.constructor | src/particle.py:4-15 | every field holds the value it was given |
| Particle.ParticleSystem.NParticles | src/particle.py:17-19 | the count is the number of positions, which is the length of every per-particle array of a consistent system |
| Particle.KineticEnergyOf | src/particle.py:21-24 | `0.5 * sum(m v^2)` in SI units; it is non-negative (`KineticEnergyNonNegative`) and zero at rest (`KineticEnergyAtRest`) |
| Particle.ParticleSystem.KineticEnergy | src/particle.py:21-24 | `kinetic_energy()` of the system's current masses and velocities, which is `KineticEnergyOf` of them |
| Particle.TemperatureOf | src/particle.py:26-28 | the equipartition temperature `(2/3) KE / (n k_B)`; it is non-negative (`TemperatureNonNegative`) and scales with the squared velocity factor (`TemperatureScaled`) |
| Particle.ParticleSystem.Temperature | src/particle.py:26-28 | `temperature(k_b)` of the system's current state, which is `TemperatureOf` of it |
| Particle.KineticEnergyNonNegative | src/particle.py:21-24 | with non-negative masses, the kinetic energy is non-negative |
| Particle.KineticEnergyAtRest | src/particle.py:21-24 | particles at rest have zero kinetic energy |
| Particle.TemperatureNonNegative | src/particle.py:26-28 | with non-negative masses, at least one particle and a positive Boltzmann constant, the temperature is non-negative |
| Particle.TemperatureScaled | src/particle.py:21-28 | multiplying every velocity by `f` multiplies the temperature by `f * f` |
| Particle.RelaxedTemperature | src/particle.py:33 | `lambda^2 * T` equals `T + (dt / tau) (target - T)` |
| Particle.ThermostatRelaxes | src/particle.py:30-34 | after rescaling, the temperature is `T + (dt / tau) (target - T)` |
| Particle.ThermostatAtTargetIsIdentity | src/particle.py:32-34 | at the target temperature, rescaling leaves the velocities unchanged |
| Particle.ThermostatHitsTargetWhenDtIsTau | src/particle.py:30-34 | with `dt == tau`, one rescaling reaches the target temperature exactly |
| Particle.ParticleSystem.ApplyThermostat | src/particle.py:30-34 | writes only the velocities; with no particles or a temperature that is not positive, nothing changes; otherwise every velocity is scaled by `sqrt(1 + (dt / tau)(target / T - 1))`, and the new temperature is `T + (dt / tau)(target - T)` |
| Integrator.Accelerations | src/integrator.py:6 | mass times acceleration gives each particle's force back |
| Integrator.Advance | src/integrator.py:8-9 | `xs + rates * dt`, the `+=` updates of both schemes; stepping back with `-dt` undoes it (`AdvanceRoundTrip`) |
| Integrator.VerletPositions | src/integrator.py:17 | the Verlet position update; it is a half kick then a drift (`VerletPositionsKickDrift`) |
| Integrator.VerletVelocities | src/integrator.py:22 | the Verlet velocity update; it is two half kicks (`VerletVelocitiesHalfKicks`) and exact under a constant acceleration (`VerletConstantAcceleration`) |
| Integrator.EulerStep | src/integrator.py:4-11 | returns the same system; the velocities gain `a dt`, with `a` taken at the old positions; then the positions move by the new velocities times `dt` |
| Integrator.VelocityVerletStep | src/integrator.py:13-24 | returns the same system; the positions take the Verlet update from the old state; the velocities take the mean of the accelerations at the old and the new positions |
| Integrator.Integrate | src/integrator.py:4-26 | one step of the selected scheme, equal to `SchemeState` of the old positions and velocities |
| Integrator.EulerWithoutForces | src/integrator.py:4-11 | without forces, the Euler step keeps the velocities and moves each particle by `v dt` |
| Integrator.VerletWithoutForces | src/integrator.py:13-24 | without forces, the Verlet step keeps the velocities and moves each particle by `v dt` |
| Integrator.AtRestWithoutForces | src/integrator.py:4-24 | particles at rest, with no forces on them, stay where they are under either scheme |
| Integrator.VerletConstantAcceleration | src/integrator.py:19-22 | under a constant acceleration, the Verlet velocity gains exactly `a dt` |
| Integrator.AdvanceRoundTrip | src/integrator.py:8-9 | advancing by `dt` and then by `-dt` at the same rates returns every entry to where it started |
| Integrator.VerletPositionsKickDrift | src/integrator.py:15-17 | `x + v dt + a dt^2 / 2` is a half kick of the velocities by `a`, then a drift of the positions over `dt` |
| Integrator.VerletVelocitiesHalfKicks | src/integrator.py:19-22 | `v + (a + a_new) dt / 2` is a half kick by the old acceleration followed by a half kick by the new one |
| Integrator.SchemeState | src/integrator.py:4-24 | positions and velocities after one step of either scheme; `Integrate`, `EulerStep` and `VelocityVerletStep` are proved equal to it, and `AtRestWithoutForces` shows that particles at rest with no forces do not move under it |
| Integrator.Rk4Step | src/integrator.py:26 | the `rk4_step` alias: the velocity Verlet scheme, so `Integrate(Rk4Step(), ...)` takes the velocity Verlet step |
| Utils.Increment | src/utils.py:83 | incrementing one label's count, whether the label is new or not, adds one to the sum of all counts |
| Utils.GetElementCounts | src/utils.py:80-84 | the keys are exactly the labels that occur; each count is that label's multiplicity (at least 1); the counts add up to the number of particles; no labels give an empty map |
| Simulator.LowerChar | src/simulator.py:25 | lower-cases an ASCII capital by adding 32, leaves every other character alone, and never returns a capital |
| Simulator.LowerIdempotent | src/simulator.py:25 | lower-casing twice is the same as lower-casing once |
| Simulator.SelectIntegrator | src/simulator.py:25-26 | the integrator a configured name selects; `SelectIntegratorCases` and `SelectIntegratorExamples` state which |
| Simulator.SelectIntegratorCases | src/simulator.py:25-26 | Euler is selected exactly when the lower-cased name is "euler", and the selection ignores case |
| Simulator.SelectIntegratorExamples | src/simulator.py:25-26 | "Euler" and "EULER" select Euler; "verlet" and "rk4" select velocity Verlet |
| Simulator.Simulator.constructor | src/simulator.py:8-27 | the settings are copied from the configuration; the thermostat is on unless configured as "none"; the counter starts at 0; the integrator is the one its name selects |
| Simulator.IterationOutcome | src/simulator.py:35-43 | how one loop iteration ends; `AdvancesExactlyWhen` states when it takes a step |
| Simulator.ThermostatVelocities | src/particle.py:30-34 | the velocities the thermostat leaves, as a function of the ones it finds; `ThermostatVelocitiesRelax` states them |
| Simulator.ThermostatVelocitiesRelax | src/particle.py:30-34 | with no particles or a temperature that is not positive, the velocities are kept; otherwise their temperature is `T + (dt / tau)(target - T)` |
| Simulator.AdvancesExactlyWhen | src/simulator.py:35-43 | an iteration takes a step exactly when the budget allows and no renderer is closed or paused; without a renderer, it either finishes or takes a step |
| Simulator.Advances | src/simulator.py:35-59 | a run never takes the counter past the step budget, and takes no step once the budget is used up |
| Simulator.AdvancesNext | src/simulator.py:35-59 | the steps taken from iteration `i` onward are determined by iteration `i`'s outcome and the steps taken from `i + 1` |
| Simulator.AdvancesWithoutRenderer | src/simulator.py:35-59 | without a renderer, enough iterations use up exactly the whole budget |
| Simulator.AdvancesWhenStopped | src/simulator.py:36-37 | a closed renderer ends the run with no step taken |
| Simulator.AdvancesWhilePaused | src/simulator.py:39-43 | paused iterations take no steps and do not end the run |
| Simulator.Simulator.StepResult | src/simulator.py:45-53 | positions and velocities after integrate, boundary and the optional thermostat; `Advance` is proved equal to it, and `StepResultInBox` keeps every particle in the box |
| Simulator.Simulator.StepResultInBox | src/simulator.py:45-53 | after an advancing step in a box with non-negative extents, every particle is inside the box |
| Simulator.Simulator.Iterate | src/simulator.py:35-59 | the outcome is determined, in order, by the budget test, the stop test and the pause test; a finished, stopped or paused iteration changes neither the particles nor the counter; an advancing one takes one integrate-boundary-thermostat step and counts it |
| Simulator.Simulator.Advance | src/simulator.py:45-59 | integrates, reflects at the box, rescales the velocities if the thermostat is on, and adds one to the counter; positions and velocities equal `StepResult` of the old ones |
| Simulator.Simulator.Run | src/simulator.py:31-69 | the counter rises by exactly the steps `Advances` predicts for the renderer's views; a run that takes no step leaves the particles unchanged; without a renderer, enough iterations finish all configured steps |
| Simulator.Simulator.RunStepCount | src/simulator.py:35-59 | the loop's step accounting carries over one iteration |

## Left out

- Floating point: the model uses exact reals. IEEE rounding, overflow to infinity and NaN propagation are not modelled. The one NaN case the code depends on is modelled by its effect: with no particles, the thermostat's temperature comparison is false.
- The square root is an opaque parameter. `torch.sqrt` of a negative number, which gives NaN, is not modelled. The lemmas that rely on the square root require a non-negative argument.
- Zero masses: accelerations divide by the masses, so every step requires them to be nonzero. The code would produce infinities.
- `thermostat_tau != 0`: the simulator requires it whenever the thermostat is on. The code divides by it only at a positive temperature, and `ApplyThermostat` requires it only then.
- A neighbour count below -1 is excluded by a precondition: the tensor library rejects a negative `topk` size.
- `torch.topk` makes no promise about the order of equal values. The model breaks ties by the lower column index. This is one admissible behaviour, not the only one.
- Units: `dt`, distances and accelerations are taken as the code combines them. No unit conversion beyond the kinetic-energy constants is modelled.
- The order of the element counts is not modelled: `get_element_counts` returns a map, while a Python dict keeps the order in which labels first occur, which only the renderer's label string uses.
- Tensor storage aliasing: `positions[indices]` copies and views are modelled as values. In-place `+=` and `*=` are reassignments of the class's sequence fields.
- The renderer is not modelled: drawing, `cleanup`, and `time.sleep`. The loop sees the renderer only as a running and a paused flag per iteration.
- The wall-clock frame-rate estimate is not modelled: `time.time`, `fps` and `frame_count` feed only the renderer.
- The `mps` device synchronisation is not modelled. It has no effect on the values.
- Simulator.Simulator.Run: the loop runs over a finite sequence of renderer views. A renderer that stays paused forever, which never terminates in the code, is not modelled.
- Simulator.Simulator.Run: it does not state the particles after a whole run as a closed form. `Iterate` and `Advance` state each iteration's effect.
- Simulator.LowerChar: lower-cases only the ASCII letters. Python's Unicode case mapping is not modelled.
- `load_elements`, `load_config`, `print_initial_system` and the rest of `src/utils.py` are not part of this model. Neither is `main.py`, nor the renderer module.
- Console output and configuration file reading are not modelled. The configuration is given as a `Config` value.
