/** The two compaction-velocity assemblers of mush.py, each building the
    tridiagonal elliptic system for the face velocities from the porosity:
    `velocity_Sramek` (mush.py:115-160), the buoyancy-driven model, and
    `velocity_Sumita` (mush.py:163-196), the variant its authors mark as not
    working. Both take np.sqrt(phi[:-1] * phi[1:]) as an input sequence
    `roots` (roots[k] for the face between cells k and k+1); lemmas that need
    its meaning require SquareRoots(phi, roots). */
module Velocity {
  import opened Config
  import opened Tridiagonal

  /** The grid spacing, from the first two radii (mush.py:121, 169). */
  function Spacing(radius: seq<real>): real
    requires |radius| >= 2
  {
    radius[1] - radius[0]
  }

  /** A grid with a usable spacing, and one root per inner face. */
  predicate GridInput(phi: seq<real>, radius: seq<real>, roots: seq<real>) {
    |phi| >= 1 && |radius| >= 2 && Spacing(radius) != 0.0 && |roots| == |phi| - 1
  }

  /** roots[k] is the non-negative square root of phi[k] phi[k+1]: what
      np.sqrt returns for the geometric mean of the two cells. */
  predicate SquareRoots(phi: seq<real>, roots: seq<real>) {
    |roots| == |phi| - 1
    && forall k :: 0 <= k < |roots| ==> roots[k] >= 0.0 && roots[k] * roots[k] == phi[k] * phi[k + 1]
  }

  // ---------------------------------------------------------------------
  // velocity_Sramek

  /** The options of `velocity_Sramek` with their defaults: s = 1, K0 = 1, delta = 1. */
  function SramekSign(options: Options): real { options.s.GetOr(1.0) }
  function SramekK0(options: Options): real { options.k0.GetOr(1.0) }
  function SramekDelta(options: Options): real { options.delta.GetOr(1.0) }

  /** Present keys are used as given; with none of them s, K0 and delta are all 1. */
  lemma SramekDefaults(options: Options)
    ensures options.s.Some? ==> SramekSign(options) == options.s.value
    ensures options.k0.Some? ==> SramekK0(options) == options.k0.value
    ensures options.delta.Some? ==> SramekDelta(options) == options.delta.value
    ensures SramekSign(NoOptions) == 1.0 && SramekK0(NoOptions) == 1.0 && SramekDelta(NoOptions) == 1.0
  {
  }

  /** What the assembler divides by: every porosity and delta must be
      non-zero (at zero numpy produces infinities instead). */
  predicate SramekInput(phi: seq<real>, radius: seq<real>, options: Options, roots: seq<real>) {
    GridInput(phi, radius, roots) && SramekDelta(options) != 0.0
    && forall i :: 0 <= i < |phi| ==> phi[i] != 0.0
  }

  /** The effective compaction viscosity of a cell, (K0 + 4/3 phi)(1 - phi)/phi
      (mush.py:142). */
  function Inter(k0: real, p: real): real
    requires p != 0.0
  {
    (k0 + 4.0 / 3.0 * p) * (1.0 - p) / p
  }

  /** The compaction term 1/(delta^2 p q) of a face between porosities p and q. */
  function Compaction(delta: real, p: real, q: real): real
    requires delta != 0.0 && p != 0.0 && q != 0.0
  {
    1.0 / (delta * delta * p * q)
  }

  /** The cell couplings `_inter / dr**2` (mush.py:142, 146-149). */
  function Couplings(phi: seq<real>, k0: real, dr: real): (w: seq<real>)
    requires dr != 0.0 && forall i :: 0 <= i < |phi| ==> phi[i] != 0.0
    ensures |w| == |phi|
  {
    seq(|phi|, i requires 0 <= i < |phi| => Inter(k0, phi[i]) / (dr * dr))
  }

  /** The compaction terms of the faces (mush.py:147); face 0 is never assigned. */
  function Compactions(phi: seq<real>, delta: real): (g: seq<real>)
    requires delta != 0.0 && forall i :: 0 <= i < |phi| ==> phi[i] != 0.0
    ensures |g| == |phi|
  {
    seq(|phi|, i requires 0 <= i < |phi| =>
      if i == 0 then 0.0 else Compaction(delta, phi[i - 1], phi[i]))
  }

  /** The buoyancy source s(1 - sqrt(phi[i-1] phi[i])) of face i (mush.py:151). */
  function Buoyancy(roots: seq<real>, sign: real): (f: seq<real>)
    ensures |f| == |roots| + 1
  {
    seq(|roots| + 1, i requires 0 <= i < |roots| + 1 =>
      if i == 0 then 0.0 else sign * (1.0 - roots[i - 1]))
  }

  /** The Sramek rows from the couplings w, compaction terms g and sources f:
      interior row i is (w[i-1], -g[i] - w[i-1] - w[i], w[i] | f[i]), and both
      end rows are (0, 1, 0 | 0) (mush.py:146-155). */
  function SramekAssemble(w: seq<real>, g: seq<real>, f: seq<real>): (s: System)
    requires |w| >= 1 && |g| == |w| && |f| == |w|
    ensures s.Shaped(|w|)
    ensures s.IdentityRow(0, 0.0) && s.IdentityRow(|w| - 1, 0.0)
  {
    var n := |w|;
    System(
      seq(n, i requires 0 <= i < n => if i == 0 || i == n - 1 then 0.0 else w[i - 1]),
      seq(n, i requires 0 <= i < n => if i == 0 || i == n - 1 then 1.0 else -g[i] - w[i - 1] - w[i]),
      seq(n, i requires 0 <= i < n => if i == 0 || i == n - 1 then 0.0 else w[i]),
      seq(n, i requires 0 <= i < n => if i == 0 || i == n - 1 then 0.0 else f[i]))
  }

  /** `velocity_Sramek` up to the solver call (mush.py:115-159): interior
      rows are the second-order discretisation of d/dz(inter dV/dz) - V/(delta^2 phi^2)
      on the faces, the geometric mean sqrt(phi[i-1] phi[i]) standing for phi
      on face i; both end rows are (0, 1, 0 | 0). */
  function VelocitySramek(phi: seq<real>, radius: seq<real>, options: Options, roots: seq<real>): (s: System)
    requires SramekInput(phi, radius, options, roots)
    ensures s.Shaped(|phi|)
    ensures s.IdentityRow(0, 0.0) && s.IdentityRow(|phi| - 1, 0.0)
  {
    SramekAssemble(
      Couplings(phi, SramekK0(options), Spacing(radius)),
      Compactions(phi, SramekDelta(options)),
      Buoyancy(roots, SramekSign(options)))
  }

  /** Any solution of the Sramek system is at rest at both ends of the
      domain (no penetration). */
  lemma SramekEndsAtRest(phi: seq<real>, radius: seq<real>, options: Options, roots: seq<real>, x: seq<real>)
    requires SramekInput(phi, radius, options, roots)
    requires Solves(VelocitySramek(phi, radius, options, roots), x)
    ensures x[0] == 0.0 && x[|x| - 1] == 0.0
  {
    var s := VelocitySramek(phi, radius, options, roots);
    IdentityRowPins(s, x, 0, 0.0);
    IdentityRowPins(s, x, |x| - 1, 0.0);
  }

  /** Interior row i of an assembled Sramek system. */
  lemma AssembledRow(w: seq<real>, g: seq<real>, f: seq<real>, i: nat)
    requires |w| >= 1 && |g| == |w| && |f| == |w| && 1 <= i < |w| - 1
    ensures var s := SramekAssemble(w, g, f);
      s.a[i] == w[i - 1] && s.b[i] == -g[i] - w[i - 1] - w[i] && s.c[i] == w[i] && s.d[i] == f[i]
  {
  }

  lemma CouplingAt(phi: seq<real>, k0: real, dr: real, j: nat)
    requires dr != 0.0 && forall i :: 0 <= i < |phi| ==> phi[i] != 0.0
    requires j < |phi|
    ensures Couplings(phi, k0, dr)[j] == Inter(k0, phi[j]) / (dr * dr)
  {
  }

  lemma CompactionAt(phi: seq<real>, delta: real, i: nat)
    requires delta != 0.0 && forall i :: 0 <= i < |phi| ==> phi[i] != 0.0
    requires 1 <= i < |phi|
    ensures Compactions(phi, delta)[i] == Compaction(delta, phi[i - 1], phi[i])
  {
  }

  /** Interior Sramek row i: the off-diagonals are the viscosities of the two
      neighbouring cells over dr^2. */
  lemma SramekCouplings(phi: seq<real>, radius: seq<real>, options: Options, roots: seq<real>, i: nat)
    requires SramekInput(phi, radius, options, roots) && 1 <= i < |phi| - 1
    ensures var s := VelocitySramek(phi, radius, options, roots);
      var dr, k0 := Spacing(radius), SramekK0(options);
      s.a[i] == Inter(k0, phi[i - 1]) / (dr * dr) && s.c[i] == Inter(k0, phi[i]) / (dr * dr)
  {
    var dr, k0 := Spacing(radius), SramekK0(options);
    var w := Couplings(phi, k0, dr);
    AssembledRow(w, Compactions(phi, SramekDelta(options)), Buoyancy(roots, SramekSign(options)), i);
    CouplingAt(phi, k0, dr, i - 1);
    CouplingAt(phi, k0, dr, i);
  }

  /** Interior Sramek row i sums to -1/(delta^2 phi[i-1] phi[i]), the
      compaction term alone. */
  lemma SramekRowSum(phi: seq<real>, radius: seq<real>, options: Options, roots: seq<real>, i: nat)
    requires SramekInput(phi, radius, options, roots) && 1 <= i < |phi| - 1
    ensures var s, delta := VelocitySramek(phi, radius, options, roots), SramekDelta(options);
      s.a[i] + s.b[i] + s.c[i] == -Compaction(delta, phi[i - 1], phi[i])
  {
    var delta := SramekDelta(options);
    var g := Compactions(phi, delta);
    AssembledRow(Couplings(phi, SramekK0(options), Spacing(radius)), g, Buoyancy(roots, SramekSign(options)), i);
    CompactionAt(phi, delta, i);
  }

  /** The right-hand side of interior Sramek row i is the buoyancy
      s(1 - sqrt(phi[i-1] phi[i])). */
  lemma SramekSource(phi: seq<real>, radius: seq<real>, options: Options, roots: seq<real>, i: nat)
    requires SramekInput(phi, radius, options, roots) && 1 <= i < |phi| - 1
    ensures VelocitySramek(phi, radius, options, roots).d[i] == SramekSign(options) * (1.0 - roots[i - 1])
  {
    AssembledSource(Couplings(phi, SramekK0(options), Spacing(radius)), Compactions(phi, SramekDelta(options)), roots, SramekSign(options), i);
  }

  /** The right-hand side of an assembled interior row is the buoyancy of its face. */
  lemma AssembledSource(w: seq<real>, g: seq<real>, roots: seq<real>, sign: real, i: nat)
    requires |w| >= 1 && |g| == |w| && |roots| + 1 == |w| && 1 <= i < |w| - 1
    ensures SramekAssemble(w, g, Buoyancy(roots, sign)).d[i] == sign * (1.0 - roots[i - 1])
  {
    AssembledRow(w, g, Buoyancy(roots, sign), i);
  }

  lemma QuotientPositive(x: real, y: real)
    requires x > 0.0 && y > 0.0
    ensures x / y > 0.0
  {
  }

  /** In a porosity strictly between 0 and 1, with K0 >= 0, the viscosity is positive. */
  lemma InterPositive(k0: real, p: real)
    requires k0 >= 0.0 && 0.0 < p < 1.0
    ensures Inter(k0, p) > 0.0
  {
    var u, w := k0 + 4.0 / 3.0 * p, 1.0 - p;
    assert u * w > 0.0;
    QuotientPositive(u * w, p);
  }

  lemma CompactionPositive(delta: real, p: real, q: real)
    requires delta != 0.0 && p > 0.0 && q > 0.0
    ensures Compaction(delta, p, q) > 0.0
  {
  }

  /** An assembled interior row whose couplings and compaction term are
      positive is strictly diagonally dominant, with a negative diagonal. */
  lemma AssembledDominant(w: seq<real>, g: seq<real>, f: seq<real>, i: nat)
    requires |w| >= 1 && |g| == |w| && |f| == |w| && 1 <= i < |w| - 1
    requires w[i - 1] > 0.0 && w[i] > 0.0 && g[i] > 0.0
    ensures var s := SramekAssemble(w, g, f);
      s.a[i] > 0.0 && s.c[i] > 0.0 && s.b[i] < 0.0 && Abs(s.b[i]) > s.a[i] + s.c[i]
  {
    AssembledRow(w, g, f, i);
  }

  /** A physical porosity field: every value strictly between 0 and 1. */
  predicate Physical(phi: seq<real>) {
    forall i :: 0 <= i < |phi| ==> 0.0 < phi[i] < 1.0
  }

  /** With a physical porosity and K0 >= 0 the interior Sramek rows have
      positive off-diagonals and a negative diagonal larger in magnitude than
      their sum: the system is strictly diagonally dominant. */
  lemma SramekDiagonallyDominant(phi: seq<real>, radius: seq<real>, options: Options, roots: seq<real>, i: nat)
    requires SramekInput(phi, radius, options, roots) && Physical(phi) && SramekK0(options) >= 0.0
    requires 1 <= i < |phi| - 1
    ensures var s := VelocitySramek(phi, radius, options, roots);
      s.a[i] > 0.0 && s.c[i] > 0.0 && s.b[i] < 0.0 && Abs(s.b[i]) > s.a[i] + s.c[i]
  {
    var dr, k0, delta := Spacing(radius), SramekK0(options), SramekDelta(options);
    assert dr * dr > 0.0;
    InterPositive(k0, phi[i - 1]);
    InterPositive(k0, phi[i]);
    QuotientPositive(Inter(k0, phi[i - 1]), dr * dr);
    QuotientPositive(Inter(k0, phi[i]), dr * dr);
    CompactionPositive(delta, phi[i - 1], phi[i]);
    CouplingAt(phi, k0, dr, i - 1);
    CouplingAt(phi, k0, dr, i);
    CompactionAt(phi, delta, i);
    AssembledDominant(Couplings(phi, k0, dr), Compactions(phi, delta), Buoyancy(roots, SramekSign(options)), i);
  }

  lemma ProductInUnit(p: real, q: real)
    requires 0.0 < p < 1.0 && 0.0 < q < 1.0
    ensures 0.0 < p * q < 1.0
  {
    assert p * q < 1.0 * q;
  }

  lemma PositiveRoot(r: real)
    requires r >= 0.0 && r * r > 0.0
    ensures r > 0.0
  {
  }

  lemma NegativeFactor(u: real, v: real)
    requires u * v < 0.0 && v > 0.0
    ensures u < 0.0
  {
  }

  lemma ZeroFactor(u: real, v: real)
    requires u * v == 0.0 && v != 0.0
    ensures u == 0.0
  {
    assert u == u * v / v;
  }

  /** The square root of p q, for p and q strictly between 0 and 1, lies
      strictly between 0 and 1. */
  lemma RootInUnit(r: real, p: real, q: real)
    requires 0.0 < p < 1.0 && 0.0 < q < 1.0 && r >= 0.0 && r * r == p * q
    ensures 0.0 < r < 1.0
  {
    ProductInUnit(p, q);
    PositiveRoot(r);
    assert (r - 1.0) * (r + 1.0) == p * q - 1.0;
    NegativeFactor(r - 1.0, r + 1.0);
  }

  /** s(1 - r) with r strictly between 0 and 1 has the sign of s and a
      smaller magnitude. */
  lemma ShrunkSign(sign: real, r: real, d: real)
    requires 0.0 < r < 1.0 && d == sign * (1.0 - r)
    ensures sign > 0.0 ==> 0.0 < d < sign
    ensures sign < 0.0 ==> sign < d < 0.0
    ensures sign == 0.0 ==> d == 0.0
  {
    assert d == sign - sign * r;
    if sign > 0.0 {
      PositiveProduct(sign, 1.0 - r);
      PositiveProduct(sign, r);
    } else if sign < 0.0 {
      NegativeTimesPositive(sign, 1.0 - r);
      NegativeTimesPositive(sign, r);
    }
  }

  lemma PositiveProduct(u: real, v: real)
    requires u > 0.0 && v > 0.0
    ensures u * v > 0.0
  {
  }

  lemma NegativeTimesPositive(u: real, v: real)
    requires u < 0.0 && v > 0.0
    ensures u * v < 0.0
  {
    assert (-u) * v > 0.0;
  }

  /** s(1 - sqrt(p q)) for p and q strictly between 0 and 1 has the sign of
      s and a smaller magnitude. */
  lemma BuoyancyBounds(sign: real, r: real, p: real, q: real, d: real)
    requires 0.0 < p < 1.0 && 0.0 < q < 1.0 && r >= 0.0 && r * r == p * q
    requires d == sign * (1.0 - r)
    ensures sign > 0.0 ==> 0.0 < d < sign
    ensures sign < 0.0 ==> sign < d < 0.0
    ensures sign == 0.0 ==> d == 0.0
  {
    RootInUnit(r, p, q);
    ShrunkSign(sign, r, d);
  }

  /** d has the sign of s and a smaller magnitude. */
  predicate ShrunkFrom(sign: real, d: real) {
    && (sign > 0.0 ==> 0.0 < d < sign)
    && (sign < 0.0 ==> sign < d < 0.0)
    && (sign == 0.0 ==> d == 0.0)
  }

  /** With a physical porosity the buoyancy source s(1 - sqrt(phi[i-1] phi[i]))
      of every face has the sign of s and a smaller magnitude. */
  lemma BuoyancyShrunk(phi: seq<real>, roots: seq<real>, sign: real, i: nat)
    requires Physical(phi) && SquareRoots(phi, roots) && 1 <= i < |phi|
    ensures ShrunkFrom(sign, Buoyancy(roots, sign)[i])
  {
    BuoyancyBounds(sign, roots[i - 1], phi[i - 1], phi[i], Buoyancy(roots, sign)[i]);
  }

  /** The same bound for the right-hand side of the assembled system. */
  lemma SramekBuoyancy(phi: seq<real>, radius: seq<real>, options: Options, roots: seq<real>, i: nat)
    requires SramekInput(phi, radius, options, roots) && Physical(phi) && SquareRoots(phi, roots)
    requires 1 <= i < |phi| - 1
    ensures ShrunkFrom(SramekSign(options), VelocitySramek(phi, radius, options, roots).d[i])
  {
    var sign := SramekSign(options);
    SramekSource(phi, radius, options, roots, i);
    BuoyancyShrunk(phi, roots, sign, i);
  }

  lemma HalfIsRootOfQuarter(r: real)
    requires r >= 0.0 && r * r == 0.25
    ensures r == 0.5
  {
    assert (r - 0.5) * (r + 0.5) == r * r - 0.25;
    ZeroFactor(r - 0.5, r + 0.5);
  }

  /** Five cells of constant porosity 0.5, dr = 1 and the default options
      (s = K0 = delta = 1): interior rows (5/3, -22/3, 5/3 | 1/2). */
  lemma SramekExample(roots: seq<real>, i: nat)
    requires SquareRoots([0.5, 0.5, 0.5, 0.5, 0.5], roots) && 1 <= i < 4
    ensures var s := VelocitySramek([0.5, 0.5, 0.5, 0.5, 0.5], [0.0, 1.0], NoOptions, roots);
      s.a[i] == 5.0 / 3.0 && s.b[i] == -22.0 / 3.0 && s.c[i] == 5.0 / 3.0 && s.d[i] == 0.5
  {
    var phi, radius := [0.5, 0.5, 0.5, 0.5, 0.5], [0.0, 1.0];
    assert Inter(1.0, 0.5) == 5.0 / 3.0;
    assert Compaction(1.0, 0.5, 0.5) == 4.0;
    HalfIsRootOfQuarter(roots[i - 1]);
    SramekCouplings(phi, radius, NoOptions, roots, i);
    SramekRowSum(phi, radius, NoOptions, roots, i);
    SramekSource(phi, radius, NoOptions, roots, i);
  }

  // ---------------------------------------------------------------------
  // velocity_Sumita

  /** The options of `velocity_Sumita` with their defaults: K0 = 0, eta = 1. */
  function SumitaK0(options: Options): real { options.k0.GetOr(0.0) }
  function SumitaEta(options: Options): real { options.eta.GetOr(1.0) }

  /** Present keys are used as given; with none of them K0 is 0 and eta is 1. */
  lemma SumitaDefaults(options: Options)
    ensures options.k0.Some? ==> SumitaK0(options) == options.k0.value
    ensures options.eta.Some? ==> SumitaEta(options) == options.eta.value
    ensures SumitaK0(NoOptions) == 0.0 && SumitaEta(NoOptions) == 1.0
  {
  }

  /** The coupling k = K0 eta / dr^2 (mush.py:185-187). */
  function Coupling(k0: real, eta: real, dr: real): real
    requires dr != 0.0
  {
    k0 * eta / (dr * dr)
  }

  function SumitaCoupling(radius: seq<real>, options: Options): real
    requires |radius| >= 2 && Spacing(radius) != 0.0
  {
    Coupling(SumitaK0(options), SumitaEta(options), Spacing(radius))
  }

  /** The source -K0 sqrt(phi[i-1] phi[i]) of face i (mush.py:188). */
  function SumitaSource(roots: seq<real>, k0: real): (f: seq<real>)
    ensures |f| == |roots| + 1
  {
    seq(|roots| + 1, i requires 0 <= i < |roots| + 1 => if i == 0 then 0.0 else -k0 * roots[i - 1])
  }

  /** The Sumita rows for the coupling k and sources f: interior rows
      (-k phi[i-1], 1 + k (phi[i] + phi[i-1]), -k phi[i] | f[i]), row N-1 the
      identity with zero right-hand side, and row 0 never assigned, so left
      all zero (mush.py:183-190). */
  function SumitaAssemble(phi: seq<real>, k: real, f: seq<real>): (s: System)
    requires |phi| >= 1 && |f| == |phi|
    ensures s.Shaped(|phi|)
    ensures s.IdentityRow(|phi| - 1, 0.0)
    ensures |phi| >= 2 ==> s.a[0] == 0.0 && s.b[0] == 0.0 && s.c[0] == 0.0 && s.d[0] == 0.0
  {
    var n := |phi|;
    System(
      seq(n, i requires 0 <= i < n => if i == n - 1 || i == 0 then 0.0 else -k * phi[i - 1]),
      seq(n, i requires 0 <= i < n =>
        if i == n - 1 then 1.0 else if i == 0 then 0.0 else 1.0 + k * (phi[i] + phi[i - 1])),
      seq(n, i requires 0 <= i < n => if i == n - 1 || i == 0 then 0.0 else -k * phi[i]),
      seq(n, i requires 0 <= i < n => if i == n - 1 || i == 0 then 0.0 else f[i]))
  }

  /** `velocity_Sumita` up to the solver call (mush.py:163-192). */
  function VelocitySumita(phi: seq<real>, radius: seq<real>, options: Options, roots: seq<real>): (s: System)
    requires GridInput(phi, radius, roots)
    ensures s.Shaped(|phi|)
    ensures s.IdentityRow(|phi| - 1, 0.0)
    ensures |phi| >= 2 ==> s.a[0] == 0.0 && s.b[0] == 0.0 && s.c[0] == 0.0 && s.d[0] == 0.0
  {
    SumitaAssemble(phi, SumitaCoupling(radius, options), SumitaSource(roots, SumitaK0(options)))
  }

  /** Interior row i of an assembled Sumita system. */
  lemma SumitaAssembledRow(phi: seq<real>, k: real, f: seq<real>, i: nat)
    requires |phi| >= 1 && |f| == |phi| && 1 <= i < |phi| - 1
    ensures var s := SumitaAssemble(phi, k, f);
      s.a[i] == -k * phi[i - 1] && s.b[i] == 1.0 + k * (phi[i] + phi[i - 1])
      && s.c[i] == -k * phi[i] && s.d[i] == f[i]
  {
  }

  lemma UnitSum(k: real, p: real, q: real)
    ensures -k * p + (1.0 + k * (q + p)) + -k * q == 1.0
  {
    assert k * (q + p) == k * q + k * p;
  }

  /** Every interior Sumita row sums to 1. */
  lemma SumitaRowSum(phi: seq<real>, radius: seq<real>, options: Options, roots: seq<real>, i: nat)
    requires GridInput(phi, radius, roots) && 1 <= i < |phi| - 1
    ensures var s := VelocitySumita(phi, radius, options, roots);
      s.a[i] + s.b[i] + s.c[i] == 1.0
  {
    var k := SumitaCoupling(radius, options);
    SumitaAssembledRow(phi, k, SumitaSource(roots, SumitaK0(options)), i);
    UnitSum(k, phi[i - 1], phi[i]);
  }

  /** Row 0 of the Sumita system holds at every vector: it constrains
      nothing, so the system is singular. */
  lemma SumitaRowZeroIsEmpty(phi: seq<real>, radius: seq<real>, options: Options, roots: seq<real>, x: seq<real>)
    requires GridInput(phi, radius, roots) && |phi| >= 2 && |x| == |phi|
    ensures RowHolds(VelocitySumita(phi, radius, options, roots), x, 0)
  {
    var s := VelocitySumita(phi, radius, options, roots);
    assert s.b[0] * x[0] == 0.0 && s.c[0] * x[1] == 0.0;
  }

  /** An assembled Sumita system with zero coupling and zero sources has the
      identity with zero right-hand side in rows 1..N-1. */
  lemma UncoupledRow(phi: seq<real>, f: seq<real>, i: nat)
    requires |phi| >= 1 && |f| == |phi| && 1 <= i < |phi|
    requires f[i] == 0.0
    ensures SumitaAssemble(phi, 0.0, f).IdentityRow(i, 0.0)
  {
    if i < |phi| - 1 {
      SumitaAssembledRow(phi, 0.0, f, i);
      assert 0.0 * (phi[i] + phi[i - 1]) == 0.0;
    }
  }

  lemma CancelSquare(x: real, dr: real)
    requires dr != 0.0 && x * dr * dr == 0.0
    ensures x == 0.0
  {
    ZeroFactor(x * dr, dr);
    ZeroFactor(x, dr);
  }

  /** Dividing by dr^2 is dividing by dr twice. */
  lemma SquareQuotient(z: real, dr: real)
    requires dr != 0.0
    ensures z / (dr * dr) == z / dr / dr
  {
    assert z / (dr * dr) * (dr * dr) == z;
    assert z / dr / dr * dr * dr == z;
    CancelSquare(z / (dr * dr) - z / dr / dr, dr);
  }

  lemma QuotientNonNegative(z: real, dr: real)
    requires z >= 0.0 && dr != 0.0
    ensures z / (dr * dr) >= 0.0
  {
    SquareQuotient(z, dr);
  }

  lemma ZeroQuotient(z: real, dr: real)
    requires z == 0.0 && dr != 0.0
    ensures z / (dr * dr) == 0.0
  {
    SquareQuotient(z, dr);
  }

  /** K0 == 0 switches the coupling off. */
  lemma NoK0NoCoupling(k0: real, eta: real, dr: real)
    requires k0 == 0.0 && dr != 0.0
    ensures Coupling(k0, eta, dr) == 0.0
  {
    ZeroQuotient(k0 * eta, dr);
  }

  /** K0 eta >= 0 makes the coupling non-negative. */
  lemma CouplingNonNegative(k0: real, eta: real, dr: real)
    requires k0 * eta >= 0.0 && dr != 0.0
    ensures Coupling(k0, eta, dr) >= 0.0
  {
    QuotientNonNegative(k0 * eta, dr);
  }

  /** With K0 == 0 (its default) rows 1..N-1 are identities with zero
      right-hand side, so every solution vanishes away from face 0. */
  lemma SumitaZeroK0(phi: seq<real>, radius: seq<real>, options: Options, roots: seq<real>, x: seq<real>)
    requires GridInput(phi, radius, roots) && SumitaK0(options) == 0.0
    requires Solves(VelocitySumita(phi, radius, options, roots), x)
    ensures forall i :: 1 <= i < |x| ==> x[i] == 0.0
  {
    var s := VelocitySumita(phi, radius, options, roots);
    var f := SumitaSource(roots, 0.0);
    NoK0NoCoupling(SumitaK0(options), SumitaEta(options), Spacing(radius));
    forall i | 1 <= i < |x|
      ensures x[i] == 0.0
    {
      assert f[i] == -0.0 * roots[i - 1];
      UncoupledRow(phi, f, i);
      IdentityRowPins(s, x, i, 0.0);
    }
  }

  lemma NonNegativeProduct(u: real, v: real)
    requires u >= 0.0 && v >= 0.0
    ensures u * v >= 0.0
  {
  }

  lemma MarginOne(k: real, p: real, q: real)
    requires k >= 0.0 && p >= 0.0 && q >= 0.0
    ensures 1.0 + k * (q + p) - Abs(-k * p) - Abs(-k * q) == 1.0
  {
    NonNegativeProduct(k, p);
    NonNegativeProduct(k, q);
    assert k * (q + p) == k * q + k * p;
  }

  /** With a non-negative porosity and K0 eta >= 0, each interior Sumita row
      is strictly diagonally dominant, by a margin of exactly 1. */
  lemma SumitaDiagonallyDominant(phi: seq<real>, radius: seq<real>, options: Options, roots: seq<real>, i: nat)
    requires GridInput(phi, radius, roots) && 1 <= i < |phi| - 1
    requires SumitaK0(options) * SumitaEta(options) >= 0.0
    requires forall j :: 0 <= j < |phi| ==> phi[j] >= 0.0
    ensures var s := VelocitySumita(phi, radius, options, roots);
      s.b[i] - Abs(s.a[i]) - Abs(s.c[i]) == 1.0
  {
    var k := SumitaCoupling(radius, options);
    CouplingNonNegative(SumitaK0(options), SumitaEta(options), Spacing(radius));
    SumitaAssembledRow(phi, k, SumitaSource(roots, SumitaK0(options)), i);
    MarginOne(k, phi[i - 1], phi[i]);
  }
}
