/** The advection stencil `fluxlimiterscheme` (mush.py:28-87): coefficients of
    the flux-limited discretisation of d/dr(phi*V), with porosity phi at cell
    centres and velocity V on the faces, face k lying between cells k and k+1. */
module Advection {
  import opened Config
  import opened Tridiagonal

  /** The advection schemes `fluxlimiterscheme` recognises, and the rest. */
  datatype AdvectionScheme = Upwind | Centered | FluxLimited | Unrecognised

  /** The scheme a name selects (mush.py:54-66). */
  function SchemeNamed(name: string): AdvectionScheme {
    if name == "upwind" then Upwind
    else if name == "centered" then Centered
    else if name == "FLS" then FluxLimited
    else Unrecognised
  }

  /** The `advection` option, "upwind" when missing (mush.py:49-52). */
  function Scheme(options: Options): AdvectionScheme {
    SchemeNamed(options.advection.GetOr("upwind"))
  }

  /** A present `advection` key names the scheme; a missing one means upwind. */
  lemma SchemeDefault(options: Options)
    ensures options.advection.Some? ==> Scheme(options) == SchemeNamed(options.advection.value)
    ensures options.advection.None? ==> Scheme(options) == Upwind
  {
  }

  /** numpy's `fmax(0., minimum(1., r))` on a finite ratio. */
  function Clamp01(r: real): (l: real)
    ensures 0.0 <= l <= 1.0
    ensures r <= 0.0 ==> l == 0.0
    ensures r >= 1.0 ==> l == 1.0
    ensures 0.0 <= r <= 1.0 ==> l == r
  {
    Max(0.0, Min(1.0, r))
  }

  /** The minmod limiter of the ratio num/den. A zero denominator follows
      numpy's IEEE arithmetic: num/0 is +inf or -inf, clamped to 1 or 0, and
      0/0 is NaN, which `fmax` drops in favour of 0. */
  function Limit(num: real, den: real): (l: real)
    ensures 0.0 <= l <= 1.0
  {
    if den != 0.0 then Clamp01(num / den)
    else if num > 0.0 then 1.0
    else 0.0
  }

  datatype Limiters = Limiters(plus: seq<real>, minus: seq<real>)

  /** lambda+ and lambda- of every cell (mush.py:46, 54-66). Only the FLS
      scheme fills cells 1..N-3; an unrecognised scheme behaves as upwind. */
  function FluxLimiters(phi: seq<real>, scheme: AdvectionScheme): (l: Limiters)
    ensures |l.plus| == |phi| && |l.minus| == |phi|
    ensures forall i :: 0 <= i < |phi| ==> 0.0 <= l.plus[i] <= 1.0 && 0.0 <= l.minus[i] <= 1.0
    ensures scheme == Centered ==>
      forall i :: 0 <= i < |phi| ==> l.plus[i] == 1.0 && l.minus[i] == 1.0
    ensures scheme == Upwind || scheme == Unrecognised ==>
      forall i :: 0 <= i < |phi| ==> l.plus[i] == 0.0 && l.minus[i] == 0.0
    ensures scheme == FluxLimited ==>
      forall i :: 0 <= i < |phi| && !(1 <= i < |phi| - 2) ==> l.plus[i] == 0.0 && l.minus[i] == 0.0
  {
    var n := |phi|;
    match scheme
    case Upwind => Limiters(Fill(n, 0.0), Fill(n, 0.0))
    case Centered => Limiters(Fill(n, 1.0), Fill(n, 1.0))
    case FluxLimited => Limiters(LimitedPlus(phi), LimitedMinus(phi))
    case Unrecognised => Limiters(Fill(n, 0.0), Fill(n, 0.0))
  }

  /** lambda+ of the FLS scheme: the minmod of the ratio Rp of the upstream
      to the downstream step, on cells 1..N-3 only (mush.py:60, 63). */
  function LimitedPlus(phi: seq<real>): (l: seq<real>)
    ensures |l| == |phi|
    ensures forall i :: 0 <= i < |phi| ==> 0.0 <= l[i] <= 1.0
    ensures forall i :: 0 <= i < |phi| && !(1 <= i < |phi| - 2) ==> l[i] == 0.0
  {
    var n := |phi|;
    seq(n, i requires 0 <= i < n =>
      if 1 <= i < n - 2 then Limit(phi[i] - phi[i - 1], phi[i + 1] - phi[i]) else 0.0)
  }

  /** lambda- of the FLS scheme: the minmod of the ratio Rm of the step two
      cells ahead to the downstream step, on cells 1..N-3 only (mush.py:61, 64). */
  function LimitedMinus(phi: seq<real>): (l: seq<real>)
    ensures |l| == |phi|
    ensures forall i :: 0 <= i < |phi| ==> 0.0 <= l[i] <= 1.0
    ensures forall i :: 0 <= i < |phi| && !(1 <= i < |phi| - 2) ==> l[i] == 0.0
  {
    var n := |phi|;
    seq(n, i requires 0 <= i < n =>
      if 1 <= i < n - 2 then Limit(phi[i + 2] - phi[i + 1], phi[i + 1] - phi[i]) else 0.0)
  }

  datatype Split = Split(plus: seq<real>, minus: seq<real>)

  /** The velocities the stencil accepts: one uniform value or one per face. */
  predicate VelocityFits(velocity: seq<real>, n: nat) {
    |velocity| == 1 || |velocity| == n
  }

  /** v+ and v- of every face (mush.py:68-76). A single value is taken as v+
      on every face but the last; a full field is split into its non-negative
      and non-positive parts. The last face carries no velocity. */
  function VelocitySplit(velocity: seq<real>, n: nat): (v: Split)
    requires n >= 1 && VelocityFits(velocity, n)
    ensures |v.plus| == n && |v.minus| == n
    ensures v.plus[n - 1] == 0.0 && v.minus[n - 1] == 0.0
    ensures |velocity| == 1 ==>
      (forall i :: 0 <= i < n - 1 ==> v.plus[i] == velocity[0])
      && (forall i :: 0 <= i < n ==> v.minus[i] == 0.0)
    ensures |velocity| != 1 ==>
      forall i :: 0 <= i < n - 1 ==>
        v.plus[i] >= 0.0 && v.minus[i] <= 0.0 && v.plus[i] + v.minus[i] == velocity[i]
  {
    if |velocity| == 1 then
      Split(seq(n, i requires 0 <= i < n => if i < n - 1 then velocity[0] else 0.0), Fill(n, 0.0))
    else
      Split(
        seq(n, i requires 0 <= i < n => if i < n - 1 then 0.5 * (velocity[i] + Abs(velocity[i])) else 0.0),
        seq(n, i requires 0 <= i < n => if i < n - 1 then 0.5 * (velocity[i] - Abs(velocity[i])) else 0.0))
  }

  /** At most one of v+ and v- is non-zero on each face of a velocity field:
      the split sends each face to exactly one upwind side. */
  lemma SplitExclusive(velocity: seq<real>, n: nat, k: nat)
    requires n >= 1 && |velocity| == n && k < n - 1
    ensures var v := VelocitySplit(velocity, n); v.plus[k] * v.minus[k] == 0.0
  {
    var v := VelocitySplit(velocity, n);
    if velocity[k] >= 0.0 {
      assert v.minus[k] == 0.0;
    } else {
      assert v.plus[k] == 0.0;
    }
  }

  /** What `fluxlimiterscheme` needs of its arguments: a non-empty field, a
      velocity that numpy can assign to the faces, and a non-zero spacing. */
  predicate AdvectionInput(velocity: seq<real>, phi: seq<real>, dr: real) {
    |phi| >= 1 && VelocityFits(velocity, |phi|) && dr != 0.0
  }

  /** The weights of the limiters and velocity split, all of the field's length. */
  predicate Weights(v: Split, l: Limiters, n: nat) {
    |v.plus| == n && |v.minus| == n && |l.plus| == n && |l.minus| == n
  }

  /** Row i >= 1 of the stencil before scaling (mush.py:78-81). */
  function RawA(v: Split, l: Limiters, i: nat): real
    requires 1 <= i < |v.plus| && Weights(v, l, |v.plus|)
  {
    -v.plus[i - 1] * (1.0 - l.plus[i - 1] / 2.0) - v.minus[i - 1] * l.minus[i - 1] / 2.0
  }

  function RawB(v: Split, l: Limiters, i: nat): real
    requires 1 <= i < |v.plus| && Weights(v, l, |v.plus|)
  {
    v.plus[i] * (1.0 - l.plus[i] / 2.0) + v.minus[i] * l.minus[i] / 2.0
    - v.minus[i - 1] * (1.0 - l.minus[i - 1] / 2.0) - v.plus[i - 1] * l.plus[i - 1] / 2.0
  }

  function RawC(v: Split, l: Limiters, i: nat): real
    requires 1 <= i < |v.plus| && Weights(v, l, |v.plus|)
  {
    v.minus[i] * (1.0 - l.minus[i] / 2.0) + v.plus[i] * l.plus[i] / 2.0
  }

  /** The stencil before its division by 2*dr (mush.py:78-85): row 0 the
      identity, d the stencil applied to phi on rows 1..N-2 and zero on rows
      0 and N-1 (numpy's `zeros_like` start). */
  function RawStencil(v: Split, l: Limiters, phi: seq<real>): (s: System)
    requires Weights(v, l, |phi|)
    ensures s.Shaped(|phi|)
  {
    var n := |phi|;
    var a := seq(n, i requires 0 <= i < n => if i == 0 then 0.0 else RawA(v, l, i));
    var b := seq(n, i requires 0 <= i < n => if i == 0 then 1.0 else RawB(v, l, i));
    var c := seq(n, i requires 0 <= i < n => if i == 0 then 0.0 else RawC(v, l, i));
    var d := seq(n, i requires 0 <= i < n =>
      if 1 <= i < n - 1 then a[i] * phi[i - 1] + b[i] * phi[i] + c[i] * phi[i + 1] else 0.0);
    System(a, b, c, d)
  }

  lemma RawStencilRhs(v: Split, l: Limiters, phi: seq<real>, i: nat)
    requires Weights(v, l, |phi|) && 1 <= i < |phi| - 1
    ensures RowHolds(RawStencil(v, l, phi), phi, i)
  {
  }

  /** Every coefficient of s divided by h (numpy's `_a/(2*dr)` and so on). */
  function Divided(s: System, h: real): (r: System)
    requires h != 0.0
    ensures forall n: nat :: s.Shaped(n) ==> r.Shaped(n)
  {
    System(
      seq(|s.a|, i requires 0 <= i < |s.a| => s.a[i] / h),
      seq(|s.b|, i requires 0 <= i < |s.b| => s.b[i] / h),
      seq(|s.c|, i requires 0 <= i < |s.c| => s.c[i] / h),
      seq(|s.d|, i requires 0 <= i < |s.d| => s.d[i] / h))
  }

  /** `fluxlimiterscheme` (mush.py:28-87): the limiters and the velocity
      split feed the rows, which are divided by 2*dr. */
  function FluxLimiterScheme(velocity: seq<real>, phi: seq<real>, dr: real, options: Options): (s: System)
    requires AdvectionInput(velocity, phi, dr)
    ensures s.Shaped(|phi|)
    ensures s.a[0] == 0.0 && s.b[0] == 1.0 / (2.0 * dr) && s.c[0] == 0.0
    ensures s.d[0] == 0.0 && s.d[|phi| - 1] == 0.0
  {
    var l := FluxLimiters(phi, Scheme(options));
    var v := VelocitySplit(velocity, |phi|);
    Divided(RawStencil(v, l, phi), 2.0 * dr)
  }

  /** Dividing a row by h keeps it holding at the same vector. */
  lemma DividedRowHolds(s: System, h: real, x: seq<real>, i: nat)
    requires h != 0.0 && s.Shaped(|x|) && 0 < i < |x| - 1 && RowHolds(s, x, i)
    ensures Divided(s, h).Shaped(|x|) && RowHolds(Divided(s, h), x, i)
  {
    var a, b, c := s.a[i], s.b[i], s.c[i];
    assert (a * x[i - 1] + b * x[i] + c * x[i + 1]) / h == a / h * x[i - 1] + b / h * x[i] + c / h * x[i + 1];
  }

  lemma StencilRowHolds(v: Split, l: Limiters, phi: seq<real>, i: nat, dr: real)
    requires Weights(v, l, |phi|) && 1 <= i < |phi| - 1 && dr != 0.0
    ensures Divided(RawStencil(v, l, phi), 2.0 * dr).Shaped(|phi|)
    ensures RowHolds(Divided(RawStencil(v, l, phi), 2.0 * dr), phi, i)
  {
    RawStencilRhs(v, l, phi, i);
    DividedRowHolds(RawStencil(v, l, phi), 2.0 * dr, phi, i);
  }

  /** On rows 1..N-2, d is the scaled stencil applied to phi itself: phi
      satisfies those rows, the intermediate flux-divergence estimate
      (mush.py:83, 87). */
  lemma AdvectionRhsIsStencil(velocity: seq<real>, phi: seq<real>, dr: real, options: Options, i: nat)
    requires AdvectionInput(velocity, phi, dr) && 1 <= i < |phi| - 1
    ensures RowHolds(FluxLimiterScheme(velocity, phi, dr, options), phi, i)
  {
    StencilRowHolds(VelocitySplit(velocity, |phi|), FluxLimiters(phi, Scheme(options)), phi, i, dr);
  }

  /** The limited flux through face k, between cells k and k+1: the upwind
      cell value corrected by half the limited jump, for each sign of the
      velocity. An independent statement of the scheme of mush.py:40-41. */
  function FaceFlux(v: Split, l: Limiters, phi: seq<real>, k: nat): real
    requires Weights(v, l, |phi|) && k < |phi| - 1
  {
    v.plus[k] * (phi[k] + l.plus[k] / 2.0 * (phi[k + 1] - phi[k]))
    + v.minus[k] * (phi[k + 1] + l.minus[k] / 2.0 * (phi[k] - phi[k + 1]))
  }

  /** FaceFlux for the arguments of `fluxlimiterscheme`. */
  function Flux(velocity: seq<real>, phi: seq<real>, options: Options, k: nat): real
    requires |phi| >= 1 && VelocityFits(velocity, |phi|) && k < |phi| - 1
  {
    FaceFlux(VelocitySplit(velocity, |phi|), FluxLimiters(phi, Scheme(options)), phi, k)
  }

  /** d[i] is the difference of the fluxes through the faces of cell i. */
  predicate FluxDifference(s: System, v: Split, l: Limiters, phi: seq<real>, h: real, i: nat)
    requires Weights(v, l, |phi|) && s.Shaped(|phi|) && 1 <= i < |phi| - 1 && h != 0.0
  {
    s.d[i] == (FaceFlux(v, l, phi, i) - FaceFlux(v, l, phi, i - 1)) / h
  }

  lemma RawFluxDifference(v: Split, l: Limiters, phi: seq<real>, i: nat)
    requires Weights(v, l, |phi|) && 1 <= i < |phi| - 1
    ensures FluxDifference(RawStencil(v, l, phi), v, l, phi, 1.0, i)
  {
    var s := RawStencil(v, l, phi);
    assert s.d[i] == RawA(v, l, i) * phi[i - 1] + RawB(v, l, i) * phi[i] + RawC(v, l, i) * phi[i + 1];
  }

  lemma DividedFluxDifference(s: System, v: Split, l: Limiters, phi: seq<real>, h: real, i: nat)
    requires Weights(v, l, |phi|) && s.Shaped(|phi|) && 1 <= i < |phi| - 1 && h != 0.0
    requires FluxDifference(s, v, l, phi, 1.0, i)
    ensures Divided(s, h).Shaped(|phi|) && FluxDifference(Divided(s, h), v, l, phi, h, i)
  {
  }

  /** The difference quotient (hi - lo) / h. */
  function Slope(lo: real, hi: real, h: real): real
    requires h != 0.0
  {
    (hi - lo) / h
  }

  /** Difference quotients over consecutive intervals add up. */
  lemma SlopesAdd(x: real, y: real, z: real, h: real)
    requires h != 0.0
    ensures Slope(x, y, h) + Slope(y, z, h) == Slope(x, z, h)
  {
  }

  /** The discrete divergence (F[i] - F[i-1]) / (2*dr) of the limited face
      flux F at cell i. */
  function FluxDivergence(velocity: seq<real>, phi: seq<real>, dr: real, options: Options, i: nat): real
    requires AdvectionInput(velocity, phi, dr) && 1 <= i < |phi| - 1
  {
    Slope(Flux(velocity, phi, options, i - 1), Flux(velocity, phi, options, i), 2.0 * dr)
  }

  /** Flux form (conservation form) of the advection stencil: on every
      interior row, d[i] == (F[i] - F[i-1]) / (2*dr) with F the limited face flux. */
  lemma AdvectionFluxForm(velocity: seq<real>, phi: seq<real>, dr: real, options: Options, i: nat)
    requires AdvectionInput(velocity, phi, dr) && 1 <= i < |phi| - 1
    ensures FluxLimiterScheme(velocity, phi, dr, options).d[i] == FluxDivergence(velocity, phi, dr, options, i)
  {
    RawFluxDifference(VelocitySplit(velocity, |phi|), FluxLimiters(phi, Scheme(options)), phi, i);
    DividedFluxDifference(RawStencil(VelocitySplit(velocity, |phi|), FluxLimiters(phi, Scheme(options)), phi), VelocitySplit(velocity, |phi|), FluxLimiters(phi, Scheme(options)), phi, 2.0 * dr, i);
  }

  /** The flux leaving through face m-1 minus the flux entering through
      face 0, over 2*dr. */
  function NetOutflow(velocity: seq<real>, phi: seq<real>, dr: real, options: Options, m: nat): real
    requires AdvectionInput(velocity, phi, dr) && 1 <= m <= |phi| - 1
  {
    Slope(Flux(velocity, phi, options, 0), Flux(velocity, phi, options, m - 1), 2.0 * dr)
  }

  /** The divergence of cell m-1 extends the net outflow by one cell. */
  lemma OutflowExtends(velocity: seq<real>, phi: seq<real>, dr: real, options: Options, m: nat)
    requires AdvectionInput(velocity, phi, dr) && 2 <= m <= |phi| - 1
    ensures NetOutflow(velocity, phi, dr, options, m - 1) + FluxDivergence(velocity, phi, dr, options, m - 1)
      == NetOutflow(velocity, phi, dr, options, m)
  {
    FaceSlopesAdd(VelocitySplit(velocity, |phi|), FluxLimiters(phi, Scheme(options)), phi, 2.0 * dr, m);
  }

  lemma FaceSlopesAdd(v: Split, l: Limiters, phi: seq<real>, h: real, m: nat)
    requires Weights(v, l, |phi|) && h != 0.0 && 2 <= m <= |phi| - 1
    ensures Slope(FaceFlux(v, l, phi, 0), FaceFlux(v, l, phi, m - 2), h)
      + Slope(FaceFlux(v, l, phi, m - 2), FaceFlux(v, l, phi, m - 1), h)
      == Slope(FaceFlux(v, l, phi, 0), FaceFlux(v, l, phi, m - 1), h)
  {
    SlopesAdd(FaceFlux(v, l, phi, 0), FaceFlux(v, l, phi, m - 2), FaceFlux(v, l, phi, m - 1), h);
  }

  /** The interior right-hand sides telescope: their sum over rows 1..m-1 is
      the flux leaving through face m-1 minus the flux entering through face 0,
      over 2*dr. Nothing is created or lost inside the domain. */
  lemma {:induction false} AdvectionTelescopes(velocity: seq<real>, phi: seq<real>, dr: real, options: Options, m: nat)
    requires AdvectionInput(velocity, phi, dr) && 1 <= m <= |phi| - 1
    ensures Sum(FluxLimiterScheme(velocity, phi, dr, options).d[1..m]) == NetOutflow(velocity, phi, dr, options, m)
  {
    var d := FluxLimiterScheme(velocity, phi, dr, options).d;
    if m > 1 {
      AdvectionTelescopes(velocity, phi, dr, options, m - 1);
      AdvectionFluxForm(velocity, phi, dr, options, m - 1);
      assert d[1..m][..m - 2] == d[1..m - 1];
      OutflowExtends(velocity, phi, dr, options, m);
    }
  }

  /** In the FLS scheme, cells 1..N-3 carry the minmod limiters of the
      consecutive-gradient ratios r+ and r-: clamped into [0,1], and zero
      when the ratio is not positive (a sign change across the stencil). */
  lemma FlsLimiterValues(phi: seq<real>, i: nat)
    requires 1 <= i < |phi| - 2 && phi[i + 1] != phi[i]
    ensures var l := FluxLimiters(phi, FluxLimited);
      var rp := (phi[i] - phi[i - 1]) / (phi[i + 1] - phi[i]);
      var rm := (phi[i + 2] - phi[i + 1]) / (phi[i + 1] - phi[i]);
      && l.plus[i] == Clamp01(rp) && l.minus[i] == Clamp01(rm)
      && (rp <= 0.0 ==> l.plus[i] == 0.0) && (rm <= 0.0 ==> l.minus[i] == 0.0)
      && (rp >= 1.0 ==> l.plus[i] == 1.0) && (rm >= 1.0 ==> l.minus[i] == 1.0)
  {
  }

  /** The velocity of face k: the single value, or the k-th entry of the field. */
  function FaceVelocity(velocity: seq<real>, k: nat): real
    requires |velocity| == 1 || k < |velocity|
  {
    if |velocity| == 1 then velocity[0] else velocity[k]
  }

  /** v+ + v- recovers the face velocity on every face but the last, for
      both forms of the velocity argument. */
  lemma SplitRecombines(velocity: seq<real>, n: nat, k: nat)
    requires n >= 1 && VelocityFits(velocity, n) && k < n - 1
    ensures var v := VelocitySplit(velocity, n); v.plus[k] + v.minus[k] == FaceVelocity(velocity, k)
  {
  }

  /** Column j of the stencil sums to zero. */
  predicate ColumnSumsToZero(s: System, j: nat)
    requires 2 <= j && j + 1 < |s.a| && s.Shaped(|s.a|)
  {
    s.a[j + 1] + s.b[j] + s.c[j - 1] == 0.0
  }

  lemma RawColumnSums(v: Split, l: Limiters, phi: seq<real>, j: nat)
    requires Weights(v, l, |phi|) && 2 <= j && j + 1 < |phi|
    ensures ColumnSumsToZero(RawStencil(v, l, phi), j)
  {
  }

  lemma DividedColumnSums(s: System, h: real, j: nat)
    requires h != 0.0 && s.Shaped(|s.a|) && 2 <= j && j + 1 < |s.a| && ColumnSumsToZero(s, j)
    ensures Divided(s, h).Shaped(|s.a|) && ColumnSumsToZero(Divided(s, h), j)
  {
    var x, y, z := s.a[j + 1], s.b[j], s.c[j - 1];
    assert x / h + y / h + z / h == (x + y + z) / h;
  }

  lemma StencilColumnSums(v: Split, l: Limiters, phi: seq<real>, j: nat, dr: real)
    requires Weights(v, l, |phi|) && 2 <= j && j + 1 < |phi| && dr != 0.0
    ensures Divided(RawStencil(v, l, phi), 2.0 * dr).Shaped(|phi|)
    ensures ColumnSumsToZero(Divided(RawStencil(v, l, phi), 2.0 * dr), j)
  {
    RawColumnSums(v, l, phi, j);
    DividedColumnSums(RawStencil(v, l, phi), 2.0 * dr, j);
  }

  /** Every column j in 2..N-2 sums to zero, a[j+1] + b[j] + c[j-1] == 0:
      what leaves cell j through a face enters its neighbour, so the
      operator conserves the total of phi away from the ends. */
  lemma AdvectionColumnsSumToZero(velocity: seq<real>, phi: seq<real>, dr: real, options: Options, j: nat)
    requires AdvectionInput(velocity, phi, dr) && 2 <= j <= |phi| - 2
    ensures var s := FluxLimiterScheme(velocity, phi, dr, options);
      s.a[j + 1] + s.b[j] + s.c[j - 1] == 0.0
  {
    StencilColumnSums(VelocitySplit(velocity, |phi|), FluxLimiters(phi, Scheme(options)), phi, j, dr);
  }

  /** Rows 1..N-1 are all zero. */
  predicate ZeroRows(s: System)
    requires s.Shaped(|s.a|)
  {
    forall i :: 1 <= i < |s.a| ==> s.a[i] == 0.0 && s.b[i] == 0.0 && s.c[i] == 0.0 && s.d[i] == 0.0
  }

  /** A zero velocity splits into zero v+ and v- on every face. */
  lemma ZeroSplit(velocity: seq<real>, n: nat)
    requires n >= 1 && VelocityFits(velocity, n)
    requires forall k :: 0 <= k < |velocity| ==> velocity[k] == 0.0
    ensures var v := VelocitySplit(velocity, n);
      forall k :: 0 <= k < n ==> v.plus[k] == 0.0 && v.minus[k] == 0.0
  {
  }

  lemma StencilZeroRows(v: Split, l: Limiters, phi: seq<real>, dr: real)
    requires Weights(v, l, |phi|) && dr != 0.0
    requires forall k :: 0 <= k < |phi| ==> v.plus[k] == 0.0 && v.minus[k] == 0.0
    ensures Divided(RawStencil(v, l, phi), 2.0 * dr).Shaped(|phi|)
    ensures ZeroRows(Divided(RawStencil(v, l, phi), 2.0 * dr))
  {
    assert ZeroRows(RawStencil(v, l, phi));
  }

  /** A zero velocity, given as one value or as a field, moves nothing:
      every row but the identity row 0 is zero, whatever the scheme. */
  lemma ZeroVelocityZeroRows(velocity: seq<real>, phi: seq<real>, dr: real, options: Options)
    requires AdvectionInput(velocity, phi, dr)
    requires forall k :: 0 <= k < |velocity| ==> velocity[k] == 0.0
    ensures ZeroRows(FluxLimiterScheme(velocity, phi, dr, options))
  {
    ZeroSplit(velocity, |phi|);
    StencilZeroRows(VelocitySplit(velocity, |phi|), FluxLimiters(phi, Scheme(options)), phi, dr);
  }

  /** Row i holds the upwind weights of faces i-1 and i, over h. */
  predicate UpwindRow(s: System, v: Split, i: nat, h: real)
    requires s.Shaped(|v.plus|) && |v.minus| == |v.plus| && 1 <= i < |v.plus| && h != 0.0
  {
    && s.a[i] == -v.plus[i - 1] / h
    && s.b[i] == (v.plus[i] - v.minus[i - 1]) / h
    && s.c[i] == v.minus[i] / h
  }

  lemma DividedUpwindRow(s: System, v: Split, i: nat, h: real)
    requires s.Shaped(|v.plus|) && |v.minus| == |v.plus| && 1 <= i < |v.plus| && h != 0.0
    requires UpwindRow(s, v, i, 1.0)
    ensures Divided(s, h).Shaped(|v.plus|) && UpwindRow(Divided(s, h), v, i, h)
  {
  }

  /** Zero limiters give the upwind weights, divided by 2*dr. */
  lemma UpwindCoefficients(v: Split, l: Limiters, phi: seq<real>, i: nat, dr: real)
    requires Weights(v, l, |phi|) && 1 <= i < |phi| && dr != 0.0
    requires l.plus[i - 1] == 0.0 && l.minus[i - 1] == 0.0 && l.plus[i] == 0.0 && l.minus[i] == 0.0
    ensures Divided(RawStencil(v, l, phi), 2.0 * dr).Shaped(|phi|)
    ensures UpwindRow(Divided(RawStencil(v, l, phi), 2.0 * dr), v, i, 2.0 * dr)
  {
    var raw := RawStencil(v, l, phi);
    assert UpwindRow(raw, v, i, 1.0);
    DividedUpwindRow(raw, v, i, 2.0 * dr);
  }

  /** Upwind (and every unrecognised scheme): no limiter, so row i takes
      phi from the upwind side of each face, a[i] = -v+[i-1]/(2dr) and
      c[i] = v-[i]/(2dr). */
  lemma UpwindRows(velocity: seq<real>, phi: seq<real>, dr: real, options: Options, i: nat)
    requires AdvectionInput(velocity, phi, dr) && 1 <= i < |phi|
    requires (Scheme(options) == Upwind || Scheme(options) == Unrecognised)
    ensures var s := FluxLimiterScheme(velocity, phi, dr, options);
      var v := VelocitySplit(velocity, |phi|);
      && s.a[i] == -v.plus[i - 1] / (2.0 * dr)
      && s.b[i] == (v.plus[i] - v.minus[i - 1]) / (2.0 * dr)
      && s.c[i] == v.minus[i] / (2.0 * dr)
  {
    UpwindCoefficients(VelocitySplit(velocity, |phi|), FluxLimiters(phi, Scheme(options)), phi, i, dr);
  }

  lemma UpwindRowSigns(s: System, v: Split, i: nat, h: real)
    requires s.Shaped(|v.plus|) && |v.minus| == |v.plus| && 1 <= i < |v.plus| && h > 0.0
    requires UpwindRow(s, v, i, h)
    requires v.plus[i - 1] >= 0.0 && v.minus[i - 1] <= 0.0 && v.plus[i] >= 0.0 && v.minus[i] <= 0.0
    ensures s.a[i] <= 0.0 && s.b[i] >= 0.0 && s.c[i] <= 0.0
  {
  }

  /** For a velocity field on a grid with dr > 0, upwind rows have
      non-positive off-diagonals and a non-negative diagonal. */
  lemma UpwindSigns(velocity: seq<real>, phi: seq<real>, dr: real, options: Options, i: nat)
    requires AdvectionInput(velocity, phi, dr) && dr > 0.0 && |velocity| != 1 && 1 <= i < |phi|
    requires Scheme(options) == Upwind || Scheme(options) == Unrecognised
    ensures var s := FluxLimiterScheme(velocity, phi, dr, options);
      s.a[i] <= 0.0 && s.b[i] >= 0.0 && s.c[i] <= 0.0
  {
    var v := VelocitySplit(velocity, |phi|);
    UpwindCoefficients(v, FluxLimiters(phi, Scheme(options)), phi, i, dr);
    UpwindRowSigns(FluxLimiterScheme(velocity, phi, dr, options), v, i, 2.0 * dr);
  }

  /** Upwind with a uniform unit velocity on five points and dr = 1:
      row 2 is (-0.5, 0.5, 0). */
  lemma UpwindExample()
    ensures var s := FluxLimiterScheme([1.0], [0.1, 0.2, 0.3, 0.4, 0.5], 1.0, NoOptions);
      s.a[2] == -0.5 && s.b[2] == 0.5 && s.c[2] == 0.0
  {
    UpwindRows([1.0], [0.1, 0.2, 0.3, 0.4, 0.5], 1.0, NoOptions, 2);
  }

  /** Row i holds the central weights of faces i-1 and i, over h. */
  predicate CenteredRow(s: System, velocity: seq<real>, i: nat, h: real)
    requires s.Shaped(|s.a|) && 1 <= i < |s.a| && (|velocity| == 1 || i < |velocity|) && h != 0.0
  {
    && s.a[i] == -FaceVelocity(velocity, i - 1) / h
    && s.b[i] == (FaceVelocity(velocity, i) - FaceVelocity(velocity, i - 1)) / h
    && s.c[i] == FaceVelocity(velocity, i) / h
  }

  lemma DividedCenteredRow(s: System, velocity: seq<real>, i: nat, h: real, h2: real)
    requires s.Shaped(|s.a|) && 1 <= i < |s.a| && (|velocity| == 1 || i < |velocity|) && h != 0.0
    requires CenteredRow(s, velocity, i, 2.0) && h2 == 2.0 * h
    ensures Divided(s, h).Shaped(|s.a|) && CenteredRow(Divided(s, h), velocity, i, h2)
  {
    var x, y := FaceVelocity(velocity, i - 1), FaceVelocity(velocity, i);
    assert -x / 2.0 / h == -x / (2.0 * h);
    assert (y - x) / 2.0 / h == (y - x) / (2.0 * h);
    assert y / 2.0 / h == y / (2.0 * h);
  }

  /** Limiters 1 and a split that recombines to the face velocities give
      the central weights, divided by 2*dr. */
  lemma CenteredCoefficients(v: Split, l: Limiters, phi: seq<real>, velocity: seq<real>, i: nat, dr: real)
    requires Weights(v, l, |phi|) && 1 <= i < |phi| && (|velocity| == 1 || i < |velocity|) && dr != 0.0
    requires l.plus[i - 1] == 1.0 && l.minus[i - 1] == 1.0 && l.plus[i] == 1.0 && l.minus[i] == 1.0
    requires v.plus[i - 1] + v.minus[i - 1] == FaceVelocity(velocity, i - 1)
    requires v.plus[i] + v.minus[i] == FaceVelocity(velocity, i)
    ensures Divided(RawStencil(v, l, phi), 2.0 * dr).Shaped(|phi|)
    ensures CenteredRow(Divided(RawStencil(v, l, phi), 2.0 * dr), velocity, i, 4.0 * dr)
  {
    var raw := RawStencil(v, l, phi);
    assert CenteredRow(raw, velocity, i, 2.0);
    DividedCenteredRow(raw, velocity, i, 2.0 * dr, 4.0 * dr);
  }

  /** Centered: both limiters 1, which gives the central difference of the
      face velocities, a[i] = -V[i-1]/(4dr) and c[i] = V[i]/(4dr). */
  lemma CenteredRows(velocity: seq<real>, phi: seq<real>, dr: real, options: Options, i: nat)
    requires AdvectionInput(velocity, phi, dr) && 1 <= i < |phi| - 1
    requires Scheme(options) == Centered
    ensures var s := FluxLimiterScheme(velocity, phi, dr, options);
      && s.a[i] == -FaceVelocity(velocity, i - 1) / (4.0 * dr)
      && s.b[i] == (FaceVelocity(velocity, i) - FaceVelocity(velocity, i - 1)) / (4.0 * dr)
      && s.c[i] == FaceVelocity(velocity, i) / (4.0 * dr)
  {
    SplitRecombines(velocity, |phi|, i - 1);
    SplitRecombines(velocity, |phi|, i);
    CenteredCoefficients(VelocitySplit(velocity, |phi|), FluxLimiters(phi, Centered), phi, velocity, i, dr);
  }
}
