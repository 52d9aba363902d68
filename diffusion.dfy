/** The diffusion stencil `CrankNicholson` (mush.py:93-112): constant
    centred-difference diagonals from the diffusion number Ra/dr^2 and, as
    right-hand side, half the second difference of the field (the explicit
    half of a Crank-Nicolson step). */
module Diffusion {
  import opened Config
  import opened Tridiagonal

  /** The `Ra` option, 0 when missing (mush.py:100-103). */
  function Ra(options: Options): real {
    options.ra.GetOr(0.0)
  }

  /** A present `Ra` key is used as given; a missing one means 0. */
  lemma RaDefault(options: Options)
    ensures options.ra.Some? ==> Ra(options) == options.ra.value
    ensures options.ra.None? ==> Ra(options) == 0.0
  {
  }

  /** `CrankNicholson` (mush.py:93-112). The field only gives the shape and
      the right-hand side; row N-1 is left at zero. */
  function CrankNicholson(phi: seq<real>, dr: real, options: Options): (s: System)
    requires dr != 0.0
    ensures s.Shaped(|phi|)
    ensures forall i :: 0 <= i < |phi| - 1 ==> s.a[i] == s.c[i] && s.a[i] + s.b[i] + s.c[i] == 0.0
    ensures |phi| >= 1 ==>
      s.a[|phi| - 1] == 0.0 && s.b[|phi| - 1] == 0.0 && s.c[|phi| - 1] == 0.0 && s.d[|phi| - 1] == 0.0
    ensures |phi| >= 1 ==> s.d[0] == 0.0
    ensures forall i :: 1 <= i < |phi| - 1 ==>
      2.0 * s.d[i] == (phi[i + 1] - phi[i]) - (phi[i] - phi[i - 1])
  {
    var n := |phi|;
    var diff := Ra(options) / (dr * dr);
    System(
      seq(n, i requires 0 <= i < n => if i < n - 1 then -diff / 2.0 else 0.0),
      seq(n, i requires 0 <= i < n => if i < n - 1 then diff else 0.0),
      seq(n, i requires 0 <= i < n => if i < n - 1 then -diff / 2.0 else 0.0),
      seq(n, i requires 0 <= i < n =>
        if 1 <= i < n - 1 then (phi[i - 1] - 2.0 * phi[i] + phi[i + 1]) / 2.0 else 0.0))
  }

  /** Without an `Ra` option there is no diffusion: every diagonal of
      every row is zero. */
  lemma NoRaNoDiffusion(phi: seq<real>, dr: real, options: Options, i: nat)
    requires dr != 0.0 && options.ra.None? && i < |phi|
    ensures var s := CrankNicholson(phi, dr, options);
      s.a[i] == 0.0 && s.b[i] == 0.0 && s.c[i] == 0.0
  {
    var s := CrankNicholson(phi, dr, options);
    if i < |phi| - 1 {
      assert s.b[i] == 0.0 / (dr * dr);
    }
  }

  /** Rows 0..N-2 carry the diffusion number Ra/dr^2 on the diagonal:
      b[i] dr^2 == Ra. */
  lemma DiffusionNumber(phi: seq<real>, dr: real, options: Options, i: nat)
    requires dr != 0.0 && i < |phi| - 1
    ensures CrankNicholson(phi, dr, options).b[i] * (dr * dr) == Ra(options)
  {
    var s := CrankNicholson(phi, dr, options);
    assert s.b[i] == Ra(options) / (dr * dr);
  }

  /** A linear profile, one whose steps phi[i] - phi[i-1] are all equal,
      has no curvature: the right-hand side vanishes on every row. */
  lemma LinearProfileNoCurvature(phi: seq<real>, dr: real, options: Options, q: real)
    requires dr != 0.0
    requires forall i :: 1 <= i < |phi| ==> phi[i] - phi[i - 1] == q
    ensures var s := CrankNicholson(phi, dr, options);
      forall i :: 0 <= i < |phi| ==> s.d[i] == 0.0
  {
    var s := CrankNicholson(phi, dr, options);
    forall i | 1 <= i < |phi| - 1
      ensures s.d[i] == 0.0
    {
      assert phi[i + 1] - phi[i] == q;
    }
  }

  /** Ra = 2, dr = 1 and the field [0, 1, 2, 1, 0]: interior rows are
      (-1, 2, -1) and d[2] == -1. */
  lemma DiffusionExample()
    ensures var s := CrankNicholson([0.0, 1.0, 2.0, 1.0, 0.0], 1.0, Options(None, Some(2.0), None, None, None, None, None));
      && (forall i :: 1 <= i < 4 ==> s.a[i] == -1.0 && s.b[i] == 2.0 && s.c[i] == -1.0)
      && s.d[2] == -1.0
  {
  }
}
