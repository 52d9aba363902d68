/** The implicit time step `update` (mush.py:199-222), up to the hand-off to
    the external tridiagonal solver: the advection and diffusion stencils are
    summed, dt is applied, and the boundary policy rewrites the ends of d. */
module TimeStep {
  import opened Config
  import opened Tridiagonal
  import opened Advection
  import opened Diffusion
  import opened Boundary

  /** The implicit system of one step of length dt from the summed
      stencils adv + diff (mush.py:203-208): a*dt, 1 + b*dt, c*dt, phi - d*dt. */
  function Implicit(adv: System, diff: System, phi: seq<real>, dt: real): (s: System)
    requires adv.Shaped(|phi|) && diff.Shaped(|phi|)
    ensures s.Shaped(|phi|)
  {
    var n := |phi|;
    System(
      seq(n, i requires 0 <= i < n => (adv.a[i] + diff.a[i]) * dt),
      seq(n, i requires 0 <= i < n => 1.0 + (adv.b[i] + diff.b[i]) * dt),
      seq(n, i requires 0 <= i < n => (adv.c[i] + diff.c[i]) * dt),
      seq(n, i requires 0 <= i < n => phi[i] - (adv.d[i] + diff.d[i]) * dt))
  }

  /** The system before the boundary policy (mush.py:201-208). */
  function Combined(velocity: seq<real>, phi: seq<real>, dt: real, dr: real, options: Options): (s: System)
    requires AdvectionInput(velocity, phi, dr)
    ensures s.Shaped(|phi|)
  {
    Implicit(FluxLimiterScheme(velocity, phi, dr, options), CrankNicholson(phi, dr, options), phi, dt)
  }

  /** The system `update` hands to the solver: Combined, with d[0] and
      d[N-1] rewritten by the boundary policy. */
  function StepSystem(velocity: seq<real>, phi: seq<real>, dt: real, dr: real, options: Options): (s: System)
    requires AdvectionInput(velocity, phi, dr)
    ensures s.Shaped(|phi|)
    ensures var pre := Combined(velocity, phi, dt, dr, options);
      && s.a == pre.a && s.b == pre.b && s.c == pre.c
      && forall i :: 0 < i < |phi| - 1 ==> s.d[i] == pre.d[i]
  {
    Stepped(FluxLimiterScheme(velocity, phi, dr, options), CrankNicholson(phi, dr, options), phi, dt, Mode(options))
  }

  /** The implicit system of adv + diff with the boundary policy of `mode`
      applied to its d. */
  function Stepped(adv: System, diff: System, phi: seq<real>, dt: real, mode: string): (s: System)
    requires adv.Shaped(|phi|) && diff.Shaped(|phi|) && |phi| >= 1
    ensures var pre := Implicit(adv, diff, phi, dt);
      && s.Shaped(|phi|) && s.a == pre.a && s.b == pre.b && s.c == pre.c
      && forall i :: 0 < i < |phi| - 1 ==> s.d[i] == pre.d[i]
  {
    var pre := Implicit(adv, diff, phi, dt);
    pre.(d := BoundaryRhs(phi, pre.a, pre.c, pre.d, mode))
  }

  /** `update` (mush.py:199-222) up to the solver call at mush.py:219:
      whole-array arithmetic, then the in-place boundary policy on a fresh d. */
  method Update(velocity: seq<real>, phi: seq<real>, dt: real, dr: real, options: Options) returns (sys: System)
    requires AdvectionInput(velocity, phi, dr)
    ensures sys == StepSystem(velocity, phi, dt, dr, options)
  {
    var pre := Combined(velocity, phi, dt, dr, options);
    var n := |phi|;
    var d := new real[n](i requires 0 <= i < n => pre.d[i]);
    assert d[..] == pre.d;
    d := BoundaryConditions(phi, pre.a, pre.b, pre.c, d, options);
    sys := System(pre.a, pre.b, pre.c, d[..]);
  }

  /** The default options argument of `update` (mush.py:199) builds the same
      system as an empty dictionary: it names the defaults every builder
      substitutes for a missing key. */
  lemma DefaultOptionsAreEmpty(velocity: seq<real>, phi: seq<real>, dt: real, dr: real)
    requires AdvectionInput(velocity, phi, dr)
    ensures StepSystem(velocity, phi, dt, dr, UpdateDefaults) == StepSystem(velocity, phi, dt, dr, NoOptions)
  {
    assert FluxLimiterScheme(velocity, phi, dr, UpdateDefaults) == FluxLimiterScheme(velocity, phi, dr, NoOptions) by {
      assert Scheme(UpdateDefaults) == Scheme(NoOptions);
    }
    assert CrankNicholson(phi, dr, UpdateDefaults) == CrankNicholson(phi, dr, NoOptions) by {
      assert Ra(UpdateDefaults) == Ra(NoOptions);
    }
    assert Combined(velocity, phi, dt, dr, UpdateDefaults) == Combined(velocity, phi, dt, dr, NoOptions);
    assert Mode(UpdateDefaults) == Mode(NoOptions);
  }

  /** Row i of s is (0, 1, 0) with right-hand side phi[i]. */
  predicate IdentityWith(s: System, phi: seq<real>)
    requires s.Shaped(|phi|)
  {
    forall i :: 0 <= i < |phi| ==> s.IdentityRow(i, phi[i])
  }

  lemma ZeroTimesIsZero(x: real)
    ensures x * 0.0 == 0.0
  {
  }

  /** dt = 0 gives the identity system with right-hand side phi, in either
      boundary mode: a step of length zero changes nothing. */
  lemma ZeroStepIsIdentity(velocity: seq<real>, phi: seq<real>, dr: real, options: Options)
    requires AdvectionInput(velocity, phi, dr)
    ensures IdentityWith(StepSystem(velocity, phi, 0.0, dr, options), phi)
  {
    var n := |phi|;
    var adv := FluxLimiterScheme(velocity, phi, dr, options);
    var diff := CrankNicholson(phi, dr, options);
    var pre := Combined(velocity, phi, 0.0, dr, options);
    assert pre == Implicit(adv, diff, phi, 0.0);
    assert IdentityWith(pre, phi) by {
      forall i | 0 <= i < n
        ensures pre.IdentityRow(i, phi[i])
      {
        ZeroTimesIsZero(adv.a[i] + diff.a[i]);
        ZeroTimesIsZero(adv.b[i] + diff.b[i]);
        ZeroTimesIsZero(adv.c[i] + diff.c[i]);
        ZeroTimesIsZero(adv.d[i] + diff.d[i]);
      }
    }
    if Mode(options) == "dirichlet" {
      DirichletZeroCoefficients(phi, pre.a, pre.c, pre.d);
    } else {
      var r := BoundaryRhs(phi, pre.a, pre.c, pre.d, Mode(options));
      assert forall i :: 0 <= i < n ==> r[i] == phi[i];
    }
  }

  /** So any solution of the dt = 0 system is the current field itself. */
  lemma ZeroStepKeepsField(velocity: seq<real>, phi: seq<real>, dr: real, options: Options, x: seq<real>)
    requires AdvectionInput(velocity, phi, dr)
    requires Solves(StepSystem(velocity, phi, 0.0, dr, options), x)
    ensures x == phi
  {
    var s := StepSystem(velocity, phi, 0.0, dr, options);
    ZeroStepIsIdentity(velocity, phi, dr, options);
    forall i | 0 <= i < |phi|
      ensures x[i] == phi[i]
    {
      IdentityRowPins(s, x, i, phi[i]);
    }
  }

  /** phi[i] - d[i] of the implicit system is dt times x, for x the summed
      right-hand sides of row i. */
  predicate ExplicitPart(s: System, phi: seq<real>, dt: real, i: nat, x: real)
    requires s.Shaped(|phi|) && i < |phi|
  {
    phi[i] - s.d[i] == x * dt
  }

  lemma ImplicitRhs(adv: System, diff: System, phi: seq<real>, dt: real, i: nat, x: real)
    requires adv.Shaped(|phi|) && diff.Shaped(|phi|) && i < |phi|
    requires adv.d[i] + diff.d[i] == x
    ensures ExplicitPart(Implicit(adv, diff, phi, dt), phi, dt, i, x)
  {
  }

  /** The summed right-hand side of interior row i: the advective flux
      difference over 2*dr plus half the second difference of phi. */
  function ExplicitRate(velocity: seq<real>, phi: seq<real>, dr: real, options: Options, i: nat): real
    requires AdvectionInput(velocity, phi, dr) && 1 <= i < |phi| - 1
  {
    FluxDivergence(velocity, phi, dr, options, i) + (phi[i - 1] - 2.0 * phi[i] + phi[i + 1]) / 2.0
  }

  lemma SummedRhs(velocity: seq<real>, phi: seq<real>, dr: real, options: Options, i: nat)
    requires AdvectionInput(velocity, phi, dr) && 1 <= i < |phi| - 1
    ensures FluxLimiterScheme(velocity, phi, dr, options).d[i] + CrankNicholson(phi, dr, options).d[i]
      == ExplicitRate(velocity, phi, dr, options, i)
  {
    AdvectionFluxForm(velocity, phi, dr, options, i);
  }

  /** Interior rows carry the explicit part of the step: phi[i] - d[i] is
      dt times the flux difference of cell i over 2*dr plus half its second
      difference. */
  lemma StepInteriorRhs(velocity: seq<real>, phi: seq<real>, dt: real, dr: real, options: Options, i: nat)
    requires AdvectionInput(velocity, phi, dr) && 1 <= i < |phi| - 1
    ensures ExplicitPart(StepSystem(velocity, phi, dt, dr, options), phi, dt, i, ExplicitRate(velocity, phi, dr, options, i))
  {
    var x := ExplicitRate(velocity, phi, dr, options, i);
    SummedRhs(velocity, phi, dr, options, i);
    ImplicitRhs(FluxLimiterScheme(velocity, phi, dr, options), CrankNicholson(phi, dr, options), phi, dt, i, x);
    assert ExplicitPart(Combined(velocity, phi, dt, dr, options), phi, dt, i, x);
  }

  lemma QuotientTimes(dt: real, h: real)
    requires h != 0.0
    ensures 1.0 / h * dt == dt / h
  {
  }

  /** Row i of s is (a, b, c). */
  predicate RowIs(s: System, i: nat, a: real, b: real, c: real)
    requires i < |s.a| && s.Shaped(|s.a|)
  {
    s.a[i] == a && s.b[i] == b && s.c[i] == c
  }

  lemma ImplicitIdentityRow(adv: System, diff: System, phi: seq<real>, dt: real, h: real, i: nat)
    requires adv.Shaped(|phi|) && diff.Shaped(|phi|) && i < |phi| && h != 0.0
    requires RowIs(adv, i, 0.0, 1.0 / h, 0.0) && RowIs(diff, i, 0.0, 0.0, 0.0)
    ensures RowIs(Implicit(adv, diff, phi, dt), i, 0.0, 1.0 + dt / h, 0.0)
  {
    QuotientTimes(dt, h);
  }

  lemma NoDiffusionRowZero(velocity: seq<real>, phi: seq<real>, dt: real, dr: real, options: Options)
    requires AdvectionInput(velocity, phi, dr) && options.ra.None?
    ensures RowIs(Combined(velocity, phi, dt, dr, options), 0, 0.0, 1.0 + dt / (2.0 * dr), 0.0)
  {
    var adv, diff := FluxLimiterScheme(velocity, phi, dr, options), CrankNicholson(phi, dr, options);
    NoRaNoDiffusion(phi, dr, options, 0);
    assert RowIs(adv, 0, 0.0, 1.0 / (2.0 * dr), 0.0) && RowIs(diff, 0, 0.0, 0.0, 0.0);
    ImplicitIdentityRow(adv, diff, phi, dt, 2.0 * dr, 0);
  }

  /** Without diffusion and outside Dirichlet mode, row 0 of the step is
      (0, 1 + dt/(2dr), 0 | phi[0]): the advective identity row of
      `fluxlimiterscheme` is scaled by dt and added to 1, so the solver's
      x[0] is phi[0] / (1 + dt/(2dr)), not phi[0]. */
  lemma PinnedRowZero(velocity: seq<real>, phi: seq<real>, dt: real, dr: real, options: Options)
    requires AdvectionInput(velocity, phi, dr) && |phi| >= 2
    requires options.ra.None? && Mode(options) != "dirichlet"
    ensures var s := StepSystem(velocity, phi, dt, dr, options);
      && s.a[0] == 0.0 && s.c[0] == 0.0
      && s.b[0] == 1.0 + dt / (2.0 * dr)
      && s.d[0] == phi[0]
  {
    NoDiffusionRowZero(velocity, phi, dt, dr, options);
    var pre := Combined(velocity, phi, dt, dr, options);
    OtherModePins(phi, pre.a, pre.c, pre.d, Mode(options));
  }

  /** Row i of the implicit system applied to x is x[i] plus dt times row i
      of both stencils applied to x (mush.py:205-207). */
  lemma ImplicitRowValue(adv: System, diff: System, phi: seq<real>, dt: real, x: seq<real>, i: nat)
    requires adv.Shaped(|phi|) && diff.Shaped(|phi|) && |x| == |phi| && i < |phi|
    ensures RowValue(Implicit(adv, diff, phi, dt), x, i) == x[i] + dt * (RowValue(adv, x, i) + RowValue(diff, x, i))
  {
    var s := Implicit(adv, diff, phi, dt);
    ScaledSum(adv.b[i], diff.b[i], dt, x[i]);
    if i > 0 {
      ScaledSum(adv.a[i], diff.a[i], dt, x[i - 1]);
    }
    if i < |x| - 1 {
      ScaledSum(adv.c[i], diff.c[i], dt, x[i + 1]);
    }
  }

  lemma ScaledSum(u: real, v: real, dt: real, y: real)
    ensures ((u + v) * dt) * y == dt * (u * y) + dt * (v * y)
  {
  }

  /** Row i of both stencils applied to x, plus their right-hand sides. */
  function Rate(adv: System, diff: System, x: seq<real>, i: nat): real
    requires adv.Shaped(|x|) && diff.Shaped(|x|) && i < |x|
  {
    (RowValue(adv, x, i) + adv.d[i]) + (RowValue(diff, x, i) + diff.d[i])
  }

  /** The residual of row i of the implicit system at x is the
      backward-Euler residual x[i] - phi[i] + dt * Rate. */
  lemma ImplicitResidual(adv: System, diff: System, phi: seq<real>, dt: real, x: seq<real>, i: nat)
    requires adv.Shaped(|phi|) && diff.Shaped(|phi|) && |x| == |phi| && i < |phi|
    ensures var s := Implicit(adv, diff, phi, dt);
      RowValue(s, x, i) - s.d[i] == (x[i] - phi[i]) + dt * Rate(adv, diff, x, i)
  {
    var s := Implicit(adv, diff, phi, dt);
    ImplicitRowValue(adv, diff, phi, dt, x, i);
    StepAlgebra(x[i], phi[i], dt, RowValue(adv, x, i), RowValue(diff, x, i), adv.d[i], diff.d[i], RowValue(s, x, i), s.d[i]);
  }

  lemma StepAlgebra(y: real, z: real, dt: real, p: real, q: real, u: real, w: real, lhs: real, rhs: real)
    requires lhs == y + dt * (p + q) && rhs == z - (u + w) * dt
    ensures lhs - rhs == (y - z) + dt * ((p + u) + (q + w))
  {
    assert dt * ((p + u) + (q + w)) == dt * (p + q) + (u + w) * dt;
  }

  /** x satisfies row i of the implicit system exactly when it is one
      backward-Euler step of length dt from phi: x[i] - phi[i] is -dt times
      the summed residuals of row i of both stencils at x. */
  lemma ImplicitBackwardEuler(adv: System, diff: System, phi: seq<real>, dt: real, x: seq<real>, i: nat)
    requires adv.Shaped(|phi|) && diff.Shaped(|phi|) && |x| == |phi| && i < |phi|
    ensures RowHolds(Implicit(adv, diff, phi, dt), x, i)
      <==> x[i] - phi[i] == -dt * Rate(adv, diff, x, i)
  {
    ImplicitResidual(adv, diff, phi, dt, x, i);
  }

  /** Two stencils of the field's length, a vector x of that length and an interior row i. */
  predicate InteriorRow(adv: System, diff: System, phi: seq<real>, x: seq<real>, i: nat) {
    adv.Shaped(|phi|) && diff.Shaped(|phi|) && |x| == |phi| && 0 < i < |phi| - 1
  }

  lemma SteppedBackwardEuler(adv: System, diff: System, phi: seq<real>, dt: real, mode: string, x: seq<real>, i: nat)
    requires InteriorRow(adv, diff, phi, x, i)
    ensures RowHolds(Stepped(adv, diff, phi, dt, mode), x, i)
      <==> x[i] - phi[i] == -dt * Rate(adv, diff, x, i)
  {
    var pre := Implicit(adv, diff, phi, dt);
    SameRowHolds(pre, BoundaryRhs(phi, pre.a, pre.c, pre.d, mode), x, i);
    ImplicitBackwardEuler(adv, diff, phi, dt, x, i);
  }

  /** Replacing d by r leaves row i as it was when r[i] == d[i]. */
  lemma SameRowHolds(s: System, r: seq<real>, x: seq<real>, i: nat)
    requires s.Shaped(|x|) && |r| == |x| && i < |x| && r[i] == s.d[i]
    ensures s.(d := r).Shaped(|x|) && (RowHolds(s.(d := r), x, i) <==> RowHolds(s, x, i))
  {
    assert RowValue(s.(d := r), x, i) == RowValue(s, x, i);
  }

  /** Row 0 before the boundary policy: a[0] == c[0], the row sums to
      1 + dt/(2dr) (the diffusion part sums to zero, the advective identity
      row contributes 1/(2dr)), and d[0] is phi[0]. */
  lemma CombinedRowZero(velocity: seq<real>, phi: seq<real>, dt: real, dr: real, options: Options)
    requires AdvectionInput(velocity, phi, dr) && |phi| >= 2
    ensures var s := Combined(velocity, phi, dt, dr, options);
      && s.a[0] == s.c[0]
      && s.a[0] + s.b[0] + s.c[0] == 1.0 + dt / (2.0 * dr)
      && s.d[0] == phi[0]
  {
    ImplicitRowZero(FluxLimiterScheme(velocity, phi, dr, options), CrankNicholson(phi, dr, options), phi, dt, 2.0 * dr);
  }

  /** Row 0 of the implicit system when the advective row is the identity
      row over h and the diffusive row is symmetric, sums to zero, and both
      right-hand sides vanish. */
  lemma ImplicitRowZero(adv: System, diff: System, phi: seq<real>, dt: real, h: real)
    requires adv.Shaped(|phi|) && diff.Shaped(|phi|) && |phi| >= 1 && h != 0.0
    requires RowIs(adv, 0, 0.0, 1.0 / h, 0.0) && adv.d[0] == 0.0 && diff.d[0] == 0.0
    requires diff.a[0] == diff.c[0] && diff.a[0] + diff.b[0] + diff.c[0] == 0.0
    ensures var s := Implicit(adv, diff, phi, dt);
      && s.a[0] == s.c[0]
      && s.a[0] + s.b[0] + s.c[0] == 1.0 + dt / h
      && s.d[0] == phi[0]
  {
    var s := Implicit(adv, diff, phi, dt);
    var da, db, dc := diff.a[0], diff.b[0], diff.c[0];
    QuotientTimes(dt, h);
    ZeroTimesIsZero(dt);
    assert s.a[0] + s.b[0] + s.c[0] == 1.0 + (da + db + dc) * dt + 1.0 / h * dt;
  }

  /** The ends of d after the boundary policy, for stencils whose d vanishes
      at both ends. Before the policy both ends of d are the field's own end
      values; in Dirichlet mode d[0] then loses a[0] phi[0] and d[N-1] loses
      c[N-1] phi[N-1]; in any other mode they stay phi[0] and phi[N-1]. */
  lemma SteppedBoundaryRows(adv: System, diff: System, phi: seq<real>, dt: real, mode: string)
    requires adv.Shaped(|phi|) && diff.Shaped(|phi|) && |phi| >= 2
    requires adv.d[0] == 0.0 && adv.d[|phi| - 1] == 0.0 && diff.d[0] == 0.0 && diff.d[|phi| - 1] == 0.0
    ensures var pre, s, n := Implicit(adv, diff, phi, dt), Stepped(adv, diff, phi, dt, mode), |phi|;
      && pre.d[0] == phi[0] && pre.d[n - 1] == phi[n - 1]
      && (mode == "dirichlet" ==>
            s.d[0] == phi[0] - pre.a[0] * phi[0] && s.d[n - 1] == phi[n - 1] - pre.c[n - 1] * phi[n - 1])
      && (mode != "dirichlet" ==> s.d[0] == phi[0] && s.d[n - 1] == phi[n - 1])
  {
    var pre := Implicit(adv, diff, phi, dt);
    assert pre.d[0] == phi[0] - (0.0 + 0.0) * dt;
    assert pre.d[|phi| - 1] == phi[|phi| - 1] - (0.0 + 0.0) * dt;
    if mode == "dirichlet" {
      DirichletEliminates(phi, pre.a, pre.c, pre.d);
    } else {
      OtherModePins(phi, pre.a, pre.c, pre.d, mode);
    }
  }

  /** `update`'s own stencils vanish in d at both ends (their contracts say
      so), so SteppedBoundaryRows applies to its step: before the policy the
      ends of d are the field's end values, and outside Dirichlet mode they
      stay so. */
  lemma StepBoundaryRows(velocity: seq<real>, phi: seq<real>, dt: real, dr: real, options: Options)
    requires AdvectionInput(velocity, phi, dr) && |phi| >= 2
    ensures var pre, s, n := Combined(velocity, phi, dt, dr, options), StepSystem(velocity, phi, dt, dr, options), |phi|;
      && pre.d[0] == phi[0] && pre.d[n - 1] == phi[n - 1]
      && (Mode(options) != "dirichlet" ==> s.d[0] == phi[0] && s.d[n - 1] == phi[n - 1])
  {
    SteppedBoundaryRows(FluxLimiterScheme(velocity, phi, dr, options), CrankNicholson(phi, dr, options), phi, dt, Mode(options));
  }
}
