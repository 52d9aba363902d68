# mush.py in Dafny: compaction-flow stencils and system assembly

mush.py advances the porosity `phi` of a one-dimensional compacting mush
(after Sumita et al. 1996 and Sramek's thesis) on a uniform grid of N cells.
Every step builds tridiagonal linear systems `(a, b, c, d)`, row i standing
for `a[i] x[i-1] + b[i] x[i] + c[i] x[i+1] == d[i]`, and hands them to an
external solver. This project models the assembly of those systems and
proves what the assembled rows mean:

- `Config`: the options dictionary (`advection`, `Ra`, `bc`, `s`, `K0`,
  `delta`, `eta`). Each key is optional, and each builder substitutes its own
  default for a missing key.
- `Tridiagonal`: the `System` value and what it means for a vector to solve it.
- `Advection`: `fluxlimiterscheme`, the flux-limited advection stencil.
  It covers the upwind, centered and FLS (minmod) limiters and the split of
  the velocity into v+ and v-. Proved: the flux (conservation) form of every
  interior row, the telescoping of the right-hand sides, zero column sums,
  the upwind and centered coefficients, and the upwind sign pattern.
- `Diffusion`: `CrankNicholson`, the diffusion stencil.
- `Boundary`: `boundary_conditions`, a method that rewrites `d[0]` and
  `d[N-1]` of an `array` in place and returns it. It is specified by the
  function `BoundaryRhs`.
- `TimeStep`: the assembly part of `update`. The two stencils are summed,
  scaled by dt, and the boundary policy is applied. Proved: a step of length
  zero is the identity, and interior rows carry the explicit flux divergence
  and curvature.
- `Velocity`: the coefficient assembly of `velocity_Sramek` and
  `velocity_Sumita`. Proved: rest at the ends, row sums, diagonal dominance
  and the bounds on the buoyancy source.

The solvers (`TDMAsolver`, `inversion_matrice`) are outside the model.
Wherever a property concerns their result, it is stated for any `x` with
`Solves(system, x)`. The square roots `np.sqrt(phi[:-1] * phi[1:])` of the
velocity assemblers are an input sequence `roots`. Lemmas that need their
meaning require `SquareRoots(phi, roots)`.

Four consequences of the code as written, each stated by a lemma:

- Row 0 of the step is not an identity row. `fluxlimiterscheme` sets row 0
  to (0, 1, 0) before dividing by 2dr (mush.py:83-87), and `update` scales
  it by dt and adds 1 (mush.py:205-207). The solve at mush.py:219 therefore
  uses a row 0 with a[0] == c[0] and a[0] + b[0] + c[0] == 1 + dt/(2dr),
  with right-hand side phi[0] outside Dirichlet mode (`TimeStep.CombinedRowZero`,
  `TimeStep.StepBoundaryRows`). Without Ra it reads
  `(1 + dt/(2dr)) x[0] == phi[0]` (`TimeStep.PinnedRowZero`). The
  interior-only solve at mush.py:211-216, which copies phi[0] and phi[-1]
  into its result, is overwritten at mush.py:219-220.
- The explicit half of the diffusion, `_d[1:-1]` at mush.py:110, is half
  the second difference of phi without the factor Ra/dr^2 that the matrix
  carries (mush.py:106-109), and `update` subtracts it from phi
  (mush.py:208). So the right-hand side of an interior row is phi[i] minus
  dt times the flux divergence plus half the second difference, whatever Ra
  is (`TimeStep.StepInteriorRhs`).
- `velocity_Sumita` never assigns row 0, so that row is all zero and the
  system is singular (`Velocity.SumitaRowZeroIsEmpty`). The source's authors
  mark this function as not working. The model keeps the all-zero row.
- For constant porosity 0.5 the Sramek right-hand side of every interior
  row is `1 - sqrt(0.25) = 0.5` (`Velocity.SramekExample`).

## Model

| member | source | states |
|---|---|---|
| Advection.SchemeDefault | mush.py:49-52 | a present `advection` key names the scheme; a missing one selects upwind |
| Advection.Clamp01 | mush.py:63-64 | the minmod clamp lies in [0,1], is 0 for a non-positive ratio, 1 for a ratio of at least 1, and the ratio itself in between |
| Advection.Limit | mush.py:60-64 | the limiter of a ratio lies in [0,1], including numpy's outcome for a zero denominator |
| Advection.FluxLimiters | mush.py:46-66 | limiters lie in [0,1]; centered gives all ones, upwind and unrecognised names give all zeros, and FLS is zero outside cells 1..N-3 |
| Advection.LimitedPlus | mush.py:60-63 | lambda+ of FLS has length N, lies in [0,1], and is zero outside cells 1..N-3 |
| Advection.LimitedMinus | mush.py:61-64 | lambda- of FLS has length N, lies in [0,1], and is zero outside cells 1..N-3 |
| Advection.FlsLimiterValues | mush.py:59-64 | on cells 1..N-3 with a non-zero step, FLS limiters are the clamped ratios Rp and Rm: 0 when the ratio is not positive, 1 when it is at least 1 |
| Advection.VelocitySplit | mush.py:68-76 | the last face carries no velocity; a single value is v+ on every other face with v- zero; a field splits into v+ >= 0 and v- <= 0 summing to the face velocity |
| Advection.SplitExclusive | mush.py:73-74 | on each face of a velocity field at most one of v+ and v- is non-zero |
| Advection.SplitRecombines | mush.py:68-76 | v+ + v- is the face velocity on every face but the last, for both forms of the velocity |
| Advection.FluxLimiterScheme | mush.py:28-87 | the system has N rows, row 0 is (0, 1/(2dr), 0), and d is zero at both ends |
| Advection.AdvectionRhsIsStencil | mush.py:83-87 | on rows 1..N-2, phi itself satisfies the scaled stencil: d is the stencil applied to phi |
| Advection.AdvectionFluxForm | mush.py:78-87 | each interior d[i] is (F[i] - F[i-1])/(2dr), with F an independently defined limited face flux |
| Advection.OutflowExtends | mush.py:78-87 | adding the divergence of cell m-1 to the net outflow through faces 0..m-2 gives the net outflow through faces 0..m-1 |
| Advection.AdvectionTelescopes | mush.py:78-87 | the interior right-hand sides over rows 1..m-1 sum to (F[m-1] - F[0])/(2dr): nothing is created inside the domain |
| Advection.AdvectionColumnsSumToZero | mush.py:78-81 | every column j in 2..N-2 sums to zero (a[j+1] + b[j] + c[j-1] == 0) |
| Advection.ZeroVelocityZeroRows | mush.py:68-87 | a zero velocity makes every row but row 0 zero, under every scheme |
| Advection.UpwindRows | mush.py:78-81 | with upwind or an unrecognised name, row i is (-v+[i-1], v+[i] - v-[i-1], v-[i]) / (2dr) |
| Advection.UpwindSigns | mush.py:73-81 | with upwind, a velocity field and dr > 0, rows have non-positive off-diagonals and a non-negative diagonal |
| Advection.UpwindExample | mush.py:68-87 | a uniform unit velocity on five cells with dr = 1 gives row 2 == (-0.5, 0.5, 0) |
| Advection.CenteredRows | mush.py:78-81 | with centered, interior row i is (-V[i-1], V[i] - V[i-1], V[i]) / (4dr) |
| Diffusion.CrankNicholson | mush.py:93-112 | rows 0..N-2 are symmetric with zero row sum; row N-1 and d at both ends are zero; 2 d[i] is the second difference of phi |
| Diffusion.RaDefault | mush.py:100-103 | a present `Ra` key is used as given; a missing one means 0 |
| Diffusion.NoRaNoDiffusion | mush.py:100-109 | without an Ra option every diagonal of every row is zero |
| Diffusion.DiffusionNumber | mush.py:106-108 | on rows 0..N-2, b[i] dr^2 == Ra |
| Diffusion.LinearProfileNoCurvature | mush.py:110 | a field with constant steps has a zero right-hand side on every row |
| Diffusion.DiffusionExample | mush.py:93-112 | Ra = 2, dr = 1 and the field [0,1,2,1,0] give interior rows (-1, 2, -1) and d[2] == -1 |
| Boundary.ModeDefault | mush.py:227-230 | a present `bc` key is used as given; a missing one means Dirichlet |
| Boundary.BoundaryRhs | mush.py:225-241 | d keeps its length and its interior; outside Dirichlet mode the last entry is the field's last value |
| Boundary.BoundaryConditions | mush.py:225-241 | rewrites the caller's array in place to BoundaryRhs of its old contents and returns that same array |
| Boundary.DirichletEliminates | mush.py:232-234 | Dirichlet mode subtracts a[0] phi[0] from d[0] and c[N-1] phi[N-1] from d[N-1] |
| Boundary.OtherModePins | mush.py:236-239 | any other mode sets d[0] = phi[0] and d[N-1] = phi[N-1] |
| Boundary.OtherModeIdempotent | mush.py:236-239 | applying the pass-through policy twice equals applying it once |
| Boundary.DirichletZeroCoefficients | mush.py:232-234 | Dirichlet mode leaves d unchanged when a[0] and c[N-1] are zero |
| TimeStep.Implicit | mush.py:203-208 | the implicit system of the summed stencils has N rows; what its rows mean is stated by ImplicitRowValue, ImplicitRhs and ImplicitBackwardEuler |
| TimeStep.ImplicitRowValue | mush.py:205-207 | row i of the implicit system applied to any x is x[i] plus dt times row i of both stencils applied to x |
| TimeStep.ImplicitResidual | mush.py:202-208 | the residual of row i of the implicit system at any x equals x[i] - phi[i] plus dt times the summed rows and right-hand sides of both stencils at x |
| TimeStep.ImplicitBackwardEuler | mush.py:202-208 | x satisfies row i of the implicit system exactly when x[i] - phi[i] == -dt times the summed rows and right-hand sides of both stencils at x (a backward-Euler step) |
| TimeStep.Stepped | mush.py:203-209 | the boundary policy applied to an implicit system keeps its N rows, a, b, c and the interior of d |
| TimeStep.SteppedBackwardEuler | mush.py:202-209 | on interior rows, x solves the step of any two stencils exactly when it is one backward-Euler step from phi |
| TimeStep.SteppedBoundaryRows | mush.py:208-209 | for stencils whose d vanishes at both ends, d of the implicit system ends in phi[0] and phi[N-1]; Dirichlet mode then subtracts a[0] phi[0] and c[N-1] phi[N-1], any other mode keeps phi[0] and phi[N-1] |
| TimeStep.Combined | mush.py:201-208 | the system before the boundary policy has N rows; its rows are stated by SummedRhs, CombinedRowZero and NoDiffusionRowZero |
| TimeStep.StepSystem | mush.py:201-209 | the system handed to the solver keeps a, b, c and the interior of d of the combined system; it is Stepped of the two stencils, so SteppedBackwardEuler and SteppedBoundaryRows give its rows |
| TimeStep.StepBoundaryRows | mush.py:201-209 | both ends of d before the policy are phi's ends, and outside Dirichlet mode the step's d ends in phi[0] and phi[N-1] |
| TimeStep.Update | mush.py:199-219 | the system handed to the solver, computed with the in-place boundary method, equals StepSystem |
| TimeStep.DefaultOptionsAreEmpty | mush.py:199 | update's default options argument builds the same system as an empty dictionary |
| TimeStep.ZeroStepIsIdentity | mush.py:203-209 | dt = 0 gives identity rows with right-hand side phi, in either boundary mode |
| TimeStep.ZeroStepKeepsField | mush.py:203-219 | every solution of the dt = 0 system is phi itself |
| TimeStep.ImplicitRhs | mush.py:208 | phi[i] - d[i] of the implicit system is dt times the summed right-hand sides |
| TimeStep.SummedRhs | mush.py:201-203 | the summed interior right-hand side is the flux divergence plus half the second difference |
| TimeStep.StepInteriorRhs | mush.py:201-209 | interior phi[i] - d[i] of the step is dt times flux divergence plus half the second difference |
| TimeStep.ImplicitIdentityRow | mush.py:205-207 | a row (0, 1/h, 0) of advection over a zero diffusion row becomes (0, 1 + dt/h, 0) |
| TimeStep.NoDiffusionRowZero | mush.py:201-207 | without Ra, row 0 of the combined system is (0, 1 + dt/(2dr), 0) |
| TimeStep.ImplicitRowZero | mush.py:203-208 | an advective identity row over h plus a symmetric zero-sum diffusion row, both with zero right-hand side, give a symmetric row 0 summing to 1 + dt/h with right-hand side phi[0] |
| TimeStep.CombinedRowZero | mush.py:201-208 | row 0 of the combined system has a[0] == c[0], sums to 1 + dt/(2dr) and has right-hand side phi[0], with or without Ra |
| TimeStep.PinnedRowZero | mush.py:201-209 | without Ra and outside Dirichlet mode, row 0 of the step is (0, 1 + dt/(2dr), 0 \| phi[0]), not the identity |
| Velocity.SramekDefaults | mush.py:123-139 | present `s`, `K0`, `delta` keys are used as given; missing, each is 1 |
| Velocity.SramekAssemble | mush.py:146-154 | the system has N rows and both end rows are (0, 1, 0 \| 0) |
| Velocity.VelocitySramek | mush.py:115-159 | the Sramek system has N rows and both end rows are (0, 1, 0 \| 0) |
| Velocity.SramekEndsAtRest | mush.py:153-159 | every solution of the Sramek system is zero at both ends |
| Velocity.AssembledRow | mush.py:146-151 | interior row i is (w[i-1], -g[i] - w[i-1] - w[i], w[i] \| f[i]) |
| Velocity.SramekCouplings | mush.py:146-150 | the off-diagonals of interior row i are the viscosities of cells i-1 and i over dr^2 |
| Velocity.SramekRowSum | mush.py:146-150 | interior row i sums to minus the compaction term 1/(delta^2 phi[i-1] phi[i]) |
| Velocity.AssembledSource | mush.py:151 | the right-hand side of an interior row is the buoyancy s(1 - root) of its face |
| Velocity.SramekSource | mush.py:151 | interior d[i] == s(1 - sqrt(phi[i-1] phi[i])) |
| Velocity.InterPositive | mush.py:142 | with K0 >= 0 and 0 < phi < 1 the viscosity (K0 + 4/3 phi)(1 - phi)/phi is positive |
| Velocity.CompactionPositive | mush.py:147 | the compaction term is positive for positive porosities |
| Velocity.AssembledDominant | mush.py:146-150 | positive couplings and compaction term give positive off-diagonals and a strictly dominant negative diagonal |
| Velocity.SramekDiagonallyDominant | mush.py:142-150 | with a physical porosity and K0 >= 0, interior rows are strictly diagonally dominant with a negative diagonal |
| Velocity.RootInUnit | mush.py:151 | the square root of a product of two porosities in (0,1) lies in (0,1) |
| Velocity.BuoyancyShrunk | mush.py:151 | with a physical porosity, each face's buoyancy has the sign of s and a smaller magnitude |
| Velocity.SramekBuoyancy | mush.py:151 | with a physical porosity, interior d[i] has the sign of s and a smaller magnitude |
| Velocity.SramekExample | mush.py:115-155 | constant porosity 0.5, dr = 1 and the defaults give interior rows (5/3, -22/3, 5/3 \| 1/2) |
| Velocity.SumitaDefaults | mush.py:171-181 | present `K0`, `eta` keys are used as given; missing, K0 is 0 and eta is 1 |
| Velocity.SumitaAssemble | mush.py:183-190 | the last row is (0, 1, 0 \| 0) and row 0 is all zero |
| Velocity.VelocitySumita | mush.py:163-192 | the Sumita system has N rows, its last row is (0, 1, 0 \| 0) and its row 0 is all zero |
| Velocity.SumitaAssembledRow | mush.py:185-188 | interior row i is (-k phi[i-1], 1 + k (phi[i] + phi[i-1]), -k phi[i] \| f[i]) |
| Velocity.SumitaRowSum | mush.py:185-187 | every interior row sums to 1 |
| Velocity.SumitaRowZeroIsEmpty | mush.py:183-190 | row 0 holds at every vector: it constrains nothing |
| Velocity.UncoupledRow | mush.py:185-190 | zero coupling and a zero source make row i the identity with zero right-hand side |
| Velocity.SumitaZeroK0 | mush.py:171-192 | with K0 == 0 (its default) every solution is zero on faces 1..N-1 |
| Velocity.SumitaDiagonallyDominant | mush.py:185-187 | with non-negative porosity and K0 eta >= 0, each interior row is diagonally dominant by exactly 1 |

## Left out

- The solvers `TDMAsolver` and `inversion_matrice` (mush.py:159, 192, 213, 219) are not part of this model. Properties of solutions are stated for any `x` with `Solves`. The slicing of the arguments at mush.py:159 (`_a[1:]`, `_c[:-1]`) is not modelled; the system is the full-length one.
- The interior-only solve of `update` (mush.py:211-216) is left out. Its result is overwritten at mush.py:219-220.
- The printed advisory notices (mush.py:66, 127, 133, 139, 141, 175, 181, 194), `Schema`, `Nr`/`Nt`, `sourceterm` and the `__main__` block have no effect on the assembled systems.
- Floating point: the model uses exact reals. Overflow, rounding and NaN or infinity are not modelled. The one exception is the FLS limiter with a zero denominator, whose numpy outcome is written out in `Advection.Limit`.
- Velocity.VelocitySramek: requires non-zero porosities and a non-zero delta. At zero, numpy produces infinities, which the model does not represent.
- Advection.VelocitySplit: requires a velocity of length 1 or N (`VelocityFits`), as does `Advection.FluxLimiterScheme`. numpy also accepts a length-2 velocity against a field of N >= 3 cells: `velocity[:-1]` then has one entry, which numpy broadcasts over every face (mush.py:73-74). That case is not modelled.
- `np.sqrt` is an input sequence `roots`. It is constrained by `SquareRoots` only where a lemma needs it.
- Default arguments: callers pass an `Options` value. `Config.NoOptions` is the empty dictionary and `Config.UpdateDefaults` is `update`'s default.
- The `update` function returns the solver's result; `TimeStep.Update` stops at the system it hands to the solver.
