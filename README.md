# ASC-ODE time-steppers and the mass-spring right-hand side, in Dafny

This project models the one-step integrators of the ASC-ODE framework for
y' = f(y) and the mass-spring system it integrates:

- **Time-steppers** (`src/timestepper.hpp`):
  - explicit Euler;
  - improved Euler (Heun, through the midpoint state);
  - implicit Euler and Crank-Nicolson. Both build a residual G once and re-arm its leaves (y_n, f(y_n), tau) on every step before a Newton solve.
- **Explicit Runge-Kutta** (`src/explicitRK.hpp`): a generic stepper driven by a Butcher tableau (A, b, c).
- **Mass-spring system** (`mechsystem/mass_spring.hpp`):
  - `MassSpringSystem<D>`: fixes, masses, springs, distance constraints and gravity, plus the row-major packing of positions, velocities and accelerations into flat state vectors;
  - `MSS_Function<D>`: the right-hand side. It accumulates gravity and spring forces, divides by the masses, and applies a Lagrange-multiplier correction per distance constraint.

Files:

| file | module | contents |
|---|---|---|
| `vectors.dfy` | `Vectors` | vectors as `seq<real>`, the entrywise operations, the dot product, in-place copy and `y += a * x` on arrays |
| `nonlinear.dfy` | `Nonlinear` | the right-hand-side interface (`dimX`, `dimF`, `evaluate`); the Newton solve as the steppers see it |
| `timestepper.dfy` | `TimeStepper` | each scheme as a function, its properties, and one class per stepper |
| `explicit_rk.dfy` | `ExplicitRK` | the stages and the step as functions, their properties, and the stepper class |
| `mass_spring.dfy` | `MassSpring` | the entities, the packing, and the `MassSpringSystem` class |
| `mass_spring_forces.dfy` | `MassSpringForces` | `evaluate` as functions (one per loop of the source), and the physics proved about them |
| `mss_function.dfy` | `MassSpringFunction` | the loops of `evaluate` as methods proved against those functions; the `MssFunction` class |

How the model is built:

- Each stepper's `DoStep` updates an `array<real>` state in place, through the same scratch buffers the source uses. Its postcondition ties the new state to the scheme's function of the old state.
- Properties of the schemes are lemmas about those functions. They include:
  - zero steps;
  - the roots of the implicit residuals;
  - exact solutions of the test equation y' = lambda * y;
  - the special tableaux that reduce to Euler and to improved Euler;
  - the fact that entries of A on or above the diagonal are never read.
- The loops of `evaluate` are methods. Each is proved equal to a function. The conservation of momentum, and the vanishing of relative acceleration along each active constraint, are proved about those functions.

Two points about the source itself:

- **Tableau sizes.** The constructor (`src/explicitRK.hpp:16-21`) checks neither the tableau sizes nor that A is strictly lower triangular.
  - Here the sizes are a precondition of the step (`ConsistentSizes`).
  - The entries on and above the diagonal are shown to be ignored (`RungeKuttaReadsStrictlyLower`).
- **Step name.** The Runge-Kutta step is declared `doStep` (`src/explicitRK.hpp:23`) while the base class declares `DoStep` (`src/timestepper.hpp:20`). The model names it `DoStep`, the operation the base class dispatches to.

## Model

| member | source | states |
|---|---|---|
| TimeStepper.EulerStep | src/timestepper.hpp:29-33 | entry i of the explicit Euler step is y[i] + tau * f(y)[i] |
| TimeStepper.MidState | src/timestepper.hpp:73-77 | entry i of the midpoint state y~ is y[i] + (0.5 * tau) * f(y)[i] |
| TimeStepper.ImprovedEulerStep | src/timestepper.hpp:70-84 | entry i of the improved Euler step is y[i] + tau * f(y~)[i], with f evaluated at the midpoint state |
| TimeStepper.ImplicitEulerResidual | src/timestepper.hpp:45-47 | entry i of the residual G(z) = z - y_n - tau * f(z) is z[i] - y_n[i] - tau * f(z)[i] |
| TimeStepper.Trapezoid | src/timestepper.hpp:113-116 | entry i of 0.5 f(z) + 0.5 f(y_n) is the average of the two values |
| TimeStepper.CrankNicolsonResidual | src/timestepper.hpp:113-119 | entry i of the residual is z[i] - y_n[i] - tau * (0.5 f(z)[i] + 0.5 f(y_n)[i]) |
| TimeStepper.EulerZeroStep | src/timestepper.hpp:29-33 | explicit Euler with tau = 0 returns y unchanged |
| TimeStepper.ImprovedEulerZeroStep | src/timestepper.hpp:70-84 | improved Euler with tau = 0 returns y unchanged (the midpoint state is y itself) |
| TimeStepper.ImplicitEulerRoot | src/timestepper.hpp:45-47 | the residual z - y_n - tau * f(z) is zero exactly when z = y_n + tau * f(z) (both directions) |
| TimeStepper.CrankNicolsonRoot | src/timestepper.hpp:113-119 | the residual z - y_n - tau * (0.5 f(z) + 0.5 f(y_n)) is zero exactly when z = y_n + tau * (0.5 f(z) + 0.5 f(y_n)) (both directions) |
| TimeStepper.EulerLinearStep | src/timestepper.hpp:29-33 | on y' = lambda * y, one explicit Euler step from p * y0 gives p * (1 + lambda * tau) * y0 |
| TimeStepper.EulerLinear | src/timestepper.hpp:29-33 | on y' = lambda * y, n explicit Euler steps give (1 + lambda * tau)^n * y0 |
| TimeStepper.ImplicitEulerLinear | src/timestepper.hpp:45-54 | on y' = lambda * y with 1 - lambda * tau != 0, the implicit Euler root is exactly y_n / (1 - lambda * tau) |
| TimeStepper.ImplicitEulerLinearSteps | src/timestepper.hpp:50-55 | a trajectory whose every step is an implicit Euler root of y' = lambda * y reaches y0 / (1 - lambda * tau)^n after n steps |
| TimeStepper.CrankNicolsonLinear | src/timestepper.hpp:113-137 | on y' = lambda * y, the Crank-Nicolson root is exactly y_n * (1 + lambda tau / 2) / (1 - lambda tau / 2) |
| TimeStepper.ExplicitEuler.constructor | src/timestepper.hpp:27-28 | m_vecf is a fresh buffer of size dimF |
| TimeStepper.ExplicitEuler.DoStep | src/timestepper.hpp:29-33 | y becomes y + tau * f(y) in place; m_vecf holds f of the incoming y |
| TimeStepper.ImprovedEuler.constructor | src/timestepper.hpp:64-68 | m_vecf (size dimF) and m_ytilde (size dimX) are fresh, distinct buffers |
| TimeStepper.ImprovedEuler.DoStep | src/timestepper.hpp:70-84 | y becomes y + tau * f(y + tau/2 * f(y)); m_ytilde holds the midpoint state and m_vecf holds f at it |
| TimeStepper.ImplicitEuler.constructor | src/timestepper.hpp:42-48 | the equation is built over the given right-hand side, with tau = 0 (`Parameter(0.0)`) and the y_n leaf holding zeros (see Left out) |
| TimeStepper.ImplicitEuler.Equation | src/timestepper.hpp:45-47 | the equation object, read at any z of the right size, is the implicit Euler residual over the current leaves y_n and tau |
| TimeStepper.ImplicitEuler.DoStep | src/timestepper.hpp:50-55 | re-arms y_n := y and tau before the solve; on convergence the new y is a root of the residual, i.e. y_new = y_old + tau * f(y_new) |
| TimeStepper.CrankNicolson.constructor | src/timestepper.hpp:101-120 | the equation is built over the given right-hand side, with tau = 0 (`Parameter(0.0)`) and the y_n and f(y_n) leaves holding zeros (see Left out) |
| TimeStepper.CrankNicolson.Equation | src/timestepper.hpp:106-119 | the equation object, read at any z of the right size, is the Crank-Nicolson residual over the current leaves y_n, f(y_n) and tau |
| TimeStepper.CrankNicolson.DoStep | src/timestepper.hpp:122-137 | freezes y_n := y and f(y_n) evaluated at the incoming y, re-arms tau; on convergence y_new = y_old + tau * (0.5 f(y_new) + 0.5 f(y_old)) |
| Nonlinear.Evaluate | src/timestepper.hpp:31 | `evaluate(x, f)` leaves f(x) in the output buffer, read from x as it was on entry |
| Nonlinear.Solve | src/timestepper.hpp:54 | a converged solve leaves an exact root of the equation in y; a non-converged one reports the iteration cap and the last residual |
| ExplicitRK.WeightedSum | src/explicitRK.hpp:34-37 | y plus the first m weighted stage vectors is a vector of y's length (its value is fixed by WeightedSumPrefix and AccumulateInPlace) |
| ExplicitRK.Stages | src/explicitRK.hpp:30-40 | the first j stages are j vectors of y's length (their values are fixed by StageAt) |
| ExplicitRK.RungeKuttaStep | src/explicitRK.hpp:23-44 | the step has y's length (its value is fixed by the lemmas below and by DoStep) |
| ExplicitRK.ExplicitRungeKutta.constructor | src/explicitRK.hpp:16-21 | the tableau is stored as given and the stage count s is the length of c |
| ExplicitRK.ExplicitRungeKutta.DoStep | src/explicitRK.hpp:23-44 | y becomes the Runge-Kutta step of the old y: y + tau * sum_j b[j] k_j, with k_j = f(y + tau * sum_{i<j} A[j][i] k_i) |
| ExplicitRK.AccumulateInPlace | src/explicitRK.hpp:34-37 | the `+=` loop leaves acc + sum_{i<m} cs[i] * ks[i] in the buffer |
| ExplicitRK.StageAt | src/explicitRK.hpp:30-40 | stage i of the computed stages is f at y + tau * sum_{l<i} A[i][l] k_l |
| ExplicitRK.StagesPrefix | src/explicitRK.hpp:30-40 | computing more stages never changes the earlier ones |
| ExplicitRK.WeightedSumPrefix | src/explicitRK.hpp:34-37 | a weighted sum over i < m reads only the first m coefficients and vectors |
| ExplicitRK.StagesReadStrictlyLower | src/explicitRK.hpp:34-37 | two stage matrices that agree strictly below the diagonal give the same stages |
| ExplicitRK.RungeKuttaReadsStrictlyLower | src/explicitRK.hpp:23-44 | the step never reads A[j][i] for i >= j |
| ExplicitRK.RungeKuttaZeroStep | src/explicitRK.hpp:23-44 | a step with tau = 0 returns y unchanged, for every tableau |
| ExplicitRK.OneStageIsExplicitEuler | src/explicitRK.hpp:23-44 | the tableau b = [1] gives the explicit Euler step of src/timestepper.hpp |
| ExplicitRK.MidpointIsImprovedEuler | src/explicitRK.hpp:23-44 | the tableau A[1][0] = 1/2, b = [0, 1] gives the improved Euler step of src/timestepper.hpp |
| MassSpring.NewMassAtRest | mechsystem/mass_spring.hpp:17-20 | after appending a mass built from a mass value and a position, the packed positions gain that position and the packed velocities and accelerations gain D zeros |
| MassSpring.Unflatten | mechsystem/mass_spring.hpp:124-126 | cutting n * D entries gives n rows of length D (the rows' contents are fixed by RowOfUnflatten) |
| MassSpring.WithState | mechsystem/mass_spring.hpp:122-134 | setting the state keeps the number of masses and every mass value, and leaves every vector of length D |
| MassSpring.FlattenLength | mechsystem/mass_spring.hpp:110-112 | n rows of length D pack into n * D entries |
| MassSpring.FlattenAt | mechsystem/mass_spring.hpp:110-118 | packing is row-major: entry d of row i sits at i * D + d |
| MassSpring.UnflattenFlatten | mechsystem/mass_spring.hpp:124-126 | cutting a packed vector into rows of length D gives back the rows |
| MassSpring.FlattenUnflatten | mechsystem/mass_spring.hpp:124-126 | packing the rows of a vector of n * D entries gives back the vector |
| MassSpring.RowOfUnflatten | mechsystem/mass_spring.hpp:124-132 | row i of a cut vector is its slice from i * D to i * D + D |
| MassSpring.GetAfterSet | mechsystem/mass_spring.hpp:108-134 | `getState` after `setState` returns the three vectors that were set; mass values are untouched |
| MassSpring.SetAfterGet | mechsystem/mass_spring.hpp:108-134 | `setState` with what `getState` returned leaves every mass as it was |
| MassSpring.MassSpringSystem.constructor | mechsystem/mass_spring.hpp:61-68 | a new system is empty with zero gravity |
| MassSpring.MassSpringSystem.AddDistanceConstraint | mechsystem/mass_spring.hpp:74-81 | appends the constraint (c1, c2, length); nothing else changes |
| MassSpring.MassSpringSystem.SetGravity | mechsystem/mass_spring.hpp:83-84 | `getGravity()` afterwards returns g; the lists are unchanged |
| MassSpring.MassSpringSystem.AddFix | mechsystem/mass_spring.hpp:86-90 | appends the fix and returns the connector (FIX, old count), which refers to it |
| MassSpring.MassSpringSystem.AddMass | mechsystem/mass_spring.hpp:92-96 | appends the mass and returns the connector (MASS, old count), which refers to it |
| MassSpring.MassSpringSystem.AddSpring | mechsystem/mass_spring.hpp:98-102 | appends the spring and returns its index, the old count |
| MassSpring.MassSpringSystem.GetState | mechsystem/mass_spring.hpp:108-120 | the three buffers receive the positions, velocities and accelerations of the masses, packed row-major |
| MassSpring.MassSpringSystem.SetState | mechsystem/mass_spring.hpp:122-134 | mass i takes row i of each buffer as position, velocity and acceleration; its mass value and all other lists stay |
| MassSpring.SetRow | mechsystem/mass_spring.hpp:116-118 | writing row i of a packed buffer sets entries i * D .. i * D + D - 1 and leaves the rest |
| MassSpringForces.GravityRows | mechsystem/mass_spring.hpp:177-178 | one force row of length D per mass (the values are fixed by GravityPass and GravityOnly) |
| MassSpringForces.ApplySpring | mechsystem/mass_spring.hpp:180-209 | one spring keeps one row of length D per mass (what it changes is fixed by SpringIsLocal and SpringActionReaction) |
| MassSpringForces.SpringIsLocal | mechsystem/mass_spring.hpp:204-208 | a spring changes only the rows of the masses at its two ends |
| MassSpringForces.ApplySprings | mechsystem/mass_spring.hpp:180-209 | the first k springs keep one row of length D per mass |
| MassSpringForces.ApplySpringsLast | mechsystem/mass_spring.hpp:180-209 | the first k springs are the first k - 1 followed by spring k - 1, in the source's order |
| MassSpringForces.SpringsStepConserves | mechsystem/mass_spring.hpp:204-208 | applying one more spring between two masses leaves the sum of the force rows unchanged |
| MassSpringForces.DivideByMass | mechsystem/mass_spring.hpp:211-212 | every divided row r satisfies mass_i * r[i][d] = rows[i][d], that is m * a = F |
| MassSpringForces.ConstraintCorrection | mechsystem/mass_spring.hpp:218-258 | there is no correction exactly when dist <= 1e-12 or dist * (invm1 + invm2) <= 1e-12 (both directions); a correction's direction is a D-vector |
| MassSpringForces.ApplyConstraint | mechsystem/mass_spring.hpp:216-265 | a constraint keeps one row of length D per mass and changes only the rows of the masses at its ends |
| MassSpringForces.ApplyConstraints | mechsystem/mass_spring.hpp:216-265 | the first k constraints keep one row of length D per mass |
| MassSpringForces.AccelerationRows | mechsystem/mass_spring.hpp:169-265 | the acceleration has one row of length D per mass (its value is fixed by MssFunction.Evaluate and the lemmas above) |
| MassSpringForces.SpringActionReaction | mechsystem/mass_spring.hpp:197-208 | a spring between two different masses adds to one row what it takes from the other, and leaves every other row |
| MassSpringForces.SpringConservesRowSum | mechsystem/mass_spring.hpp:197-208 | a spring between two masses leaves the total force unchanged |
| MassSpringForces.SpringsConserveRowSum | mechsystem/mass_spring.hpp:180-209 | when every spring joins two masses, the spring loop leaves the sum of the force rows unchanged |
| MassSpringForces.CoincidentSpringsVanish | mechsystem/mass_spring.hpp:197-199 | springs whose ends are at most 1e-12 apart contribute nothing |
| MassSpringForces.GravityOnly | mechsystem/mass_spring.hpp:177-212 | without springs and constraints every mass accelerates by exactly the gravity vector |
| MassSpringForces.CorrectConservesMomentum | mechsystem/mass_spring.hpp:260-264 | a correction whose shares balance (m1 * s1 + m2 * s2 = 0) changes the two masses' momenta by opposite amounts |
| MassSpringForces.ConstraintConservesMomentum | mechsystem/mass_spring.hpp:216-265 | a constraint between two different masses changes m1 * a1 + m2 * a2 by zero |
| MassSpringForces.NudgeEnd | mechsystem/mass_spring.hpp:260-264 | moving an end's row by k along dir moves its acceleration by k * dir |
| MassSpringForces.NudgeOther | mechsystem/mass_spring.hpp:260-264 | moving one end's row leaves the acceleration of any other end |
| MassSpringForces.CorrectEnds | mechsystem/mass_spring.hpp:260-264 | after a correction each end's acceleration has moved along dir by its share |
| MassSpringForces.ConstraintEnds | mechsystem/mass_spring.hpp:216-265 | after an active constraint each end's acceleration has moved along dir by its share |
| MassSpringForces.ConstraintStopsApproach | mechsystem/mass_spring.hpp:216-265 | with a Euclidean norm, an active constraint leaves (p2 - p1) . (a2 - a1) = 0: no relative acceleration along the constraint |
| MassSpringForces.StopsAlong | mechsystem/mass_spring.hpp:254-264 | the vector identity behind it: the multiplier cancels num exactly |
| MassSpringForces.MultiplierCancels | mechsystem/mass_spring.hpp:247-258 | num + (lambda * (invm1 + invm2)) * dist = 0 for lambda = -num / (dist * (invm1 + invm2)) |
| MassSpringForces.RelativeAlong | mechsystem/mass_spring.hpp:260-264 | moving both ends along dir changes diff . (a2 - a1) by (s2 - s1) * (diff . dir) |
| MassSpringForces.SharesBalance | mechsystem/mass_spring.hpp:242-264 | the shares -lambda / m1 and lambda / m2 carry opposite momenta |
| MassSpringFunction.GravityPass | mechsystem/mass_spring.hpp:177-178 | row i becomes mass_i * gravity |
| MassSpringFunction.ReadEnd | mechsystem/mass_spring.hpp:185-195 | a connector's position is the fix's stored position or row nr of x |
| MassSpringFunction.SpringStep | mechsystem/mass_spring.hpp:180-209 | one spring pass, with the skip at dist <= 1e-12 and force stiffness * (dist - length) along diff / dist |
| MassSpringFunction.SpringPass | mechsystem/mass_spring.hpp:180-209 | the spring loop applies every spring in order |
| MassSpringFunction.DivisionPass | mechsystem/mass_spring.hpp:211-212 | row i is multiplied by 1 / mass_i |
| MassSpringFunction.RelativeProjection | mechsystem/mass_spring.hpp:254-256 | the accumulation loop computes num = diff . (a2 - a1) |
| MassSpringFunction.ConstraintMultiplier | mechsystem/mass_spring.hpp:218-258 | the constraint's correction, or none at either early exit (dist <= 1e-12, denom <= 1e-12) |
| MassSpringFunction.ConstraintStep | mechsystem/mass_spring.hpp:216-265 | one constraint pass: mass ends move along dir by -lambda * invm1 and lambda * invm2; fixed ends are skipped |
| MassSpringFunction.ConstraintPass | mechsystem/mass_spring.hpp:216-265 | the constraint loop applies every constraint in order, each on the rows left by the previous one |
| MassSpringFunction.MssFunction.constructor | mechsystem/mass_spring.hpp:162-163 | the function refers to the given system |
| MassSpringFunction.MssFunction.DimX | mechsystem/mass_spring.hpp:165 | dimX is the size of the packed positions, D per mass |
| MassSpringFunction.MssFunction.DimF | mechsystem/mass_spring.hpp:166 | dimF equals dimX |
| MassSpringFunction.MssFunction.Rhs | mechsystem/mass_spring.hpp:157-166 | the system as a right-hand side: dimX = dimF, outputs of size dimF, evaluating to the packed accelerations |
| MassSpringFunction.MssFunction.Evaluate | mechsystem/mass_spring.hpp:169-266 | f receives the packed accelerations from gravity, springs, division and constraints, computed in that order |

## Left out

- The function algebra (Identity, Constant, Parameter, sums, differences, scalings) and its Jacobians are not part of this model. The implicit steppers hold their leaves (y_n, f(y_n), tau) as fields and read the residual as a function of them.
- TimeStepper.ImplicitEuler.constructor and TimeStepper.CrankNicolson.constructor: the leaves `ConstantFunction(dimX)` and `ConstantFunction(dimF)` are modelled as holding zeros. Their real initial contents are set in nonlinfunc.hpp, which is not part of this model. No step reads them before DoStep re-arms them.
- `evaluateDeriv` (including the finite-difference Jacobian of `MSS_Function`) is used by Newton alone and is not modelled.
- Nonlinear.Solve: Newton.hpp is not part of this model.
  - Solve takes the Newton correction as a parameter.
  - Convergence means an exact root, not a residual below a tolerance.
  - So the implicit steppers' postconditions are stated for an exact solve.
- Printing (`operator<<`), the demos and the plotting scripts are I/O and are not modelled.
- Floating point: `double` is modelled as `real`. Rounding is not modelled, and the threshold 1e-12 is the exact real 10^-12.
- The Euclidean norm is a parameter `norm`, because square roots are not modelled.
  - MassSpringForces.ConstraintStopsApproach assumes norm(d)^2 = d . d for the one separation it is about.
- Dimensions:
  - The template parameter D is a constant of the system.
  - `Vec<D>` is a sequence of length D; `Ready` and `MassFits` say every stored vector has that length.
  - Connectors referring to missing elements are excluded by `Connected`; the source indexes out of range there.
- Masses are required to be non-zero (`Ready`), since the source divides by them.
- MassSpringFunction.MssFunction.Evaluate:
  - It builds the rows of `fmat` as values and copies them into f at the end. The source writes through a matrix view of f.
  - It requires x and f to be different buffers.
  - Its result reads the system's current state; the source holds a reference to the system.
- MassSpring.MassSpringSystem.GetState requires the three buffers to be distinct; the source does not say what aliasing would do.
- ExplicitRK.ExplicitRungeKutta.DoStep:
  - The tableau sizes (A is s x s, b has s entries) are a precondition.
  - The stage vectors k are a `seq` of values inside an array.
  - The nodes c are stored but, as in the source, never read.
- The accessors `fixes()`, `masses()`, `springs()` and `constraints()` return references in the source. Here they are reads of the class fields.
- MassSpringFunction.ConstraintMultiplier computes the direction diff / dist after the inverse masses (inside `MakeCorrection`); the source computes it before them. The values are the same.
