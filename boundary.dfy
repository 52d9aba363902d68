/** The boundary policy `boundary_conditions` (mush.py:225-241): it rewrites
    the first and last right-hand side entries of an assembled system in
    place, and nothing else. */
module Boundary {
  import opened Config

  /** The `bc` option, "dirichlet" when missing (mush.py:227-230). */
  function Mode(options: Options): string {
    options.bc.GetOr("dirichlet")
  }

  /** A present `bc` key is used as given; a missing one means Dirichlet. */
  lemma ModeDefault(options: Options)
    ensures options.bc.Some? ==> Mode(options) == options.bc.value
    ensures options.bc.None? ==> Mode(options) == "dirichlet"
  {
  }

  /** What the policy indexes: the ends of the field and of d, and in
      Dirichlet mode a[0] and c[-1]. */
  predicate BoundaryInput(variable: seq<real>, a: seq<real>, c: seq<real>, d: seq<real>, mode: string) {
    |variable| >= 1 && |d| >= 1 && (mode == "dirichlet" ==> |a| >= 1 && |c| >= 1)
  }

  /** The right-hand side after the policy: the assignment to d[0] and then
      the one to d[-1] (on a one-entry d both land on the same entry). */
  function BoundaryRhs(variable: seq<real>, a: seq<real>, c: seq<real>, d: seq<real>, mode: string): (r: seq<real>)
    requires BoundaryInput(variable, a, c, d, mode)
    ensures |r| == |d|
    ensures forall k :: 0 < k < |d| - 1 ==> r[k] == d[k]
    ensures mode != "dirichlet" ==> r[|d| - 1] == variable[|variable| - 1]
  {
    if mode == "dirichlet" then
      var first := d[0 := d[0] - a[0] * variable[0]];
      first[|d| - 1 := first[|d| - 1] - c[|c| - 1] * variable[|variable| - 1]]
    else
      var first := d[0 := variable[0]];
      first[|d| - 1 := variable[|variable| - 1]]
  }

  /** `boundary_conditions` (mush.py:225-241): updates the caller's d in
      place and returns it. b is accepted and unused, as in the source. */
  method BoundaryConditions(variable: seq<real>, a: seq<real>, b: seq<real>, c: seq<real>, d: array<real>, options: Options)
    returns (r: array<real>)
    requires BoundaryInput(variable, a, c, d[..], Mode(options))
    modifies d
    ensures r == d
    ensures d[..] == BoundaryRhs(variable, a, c, old(d[..]), Mode(options))
  {
    if Mode(options) == "dirichlet" {
      d[0] := d[0] - a[0] * variable[0];
      d[d.Length - 1] := d[d.Length - 1] - c[|c| - 1] * variable[|variable| - 1];
    } else {
      d[0] := variable[0];
      d[d.Length - 1] := variable[|variable| - 1];
    }
    r := d;
  }

  /** Dirichlet mode moves the known boundary values to the right-hand side:
      d[0] loses a[0]*phi[0] and d[N-1] loses c[N-1]*phi[N-1]. */
  lemma DirichletEliminates(variable: seq<real>, a: seq<real>, c: seq<real>, d: seq<real>)
    requires BoundaryInput(variable, a, c, d, "dirichlet") && |d| >= 2
    ensures var r := BoundaryRhs(variable, a, c, d, "dirichlet");
      && r[0] == d[0] - a[0] * variable[0]
      && r[|d| - 1] == d[|d| - 1] - c[|c| - 1] * variable[|variable| - 1]
  {
  }

  /** Any other mode pins the ends of d to the ends of the current field. */
  lemma OtherModePins(variable: seq<real>, a: seq<real>, c: seq<real>, d: seq<real>, mode: string)
    requires BoundaryInput(variable, a, c, d, mode) && mode != "dirichlet" && |d| >= 2
    ensures var r := BoundaryRhs(variable, a, c, d, mode);
      r[0] == variable[0] && r[|d| - 1] == variable[|variable| - 1]
  {
  }

  /** Pinning twice pins once. */
  lemma OtherModeIdempotent(variable: seq<real>, a: seq<real>, c: seq<real>, d: seq<real>, mode: string)
    requires BoundaryInput(variable, a, c, d, mode) && mode != "dirichlet"
    ensures var r := BoundaryRhs(variable, a, c, d, mode);
      BoundaryInput(variable, a, c, r, mode) && BoundaryRhs(variable, a, c, r, mode) == r
  {
    var r := BoundaryRhs(variable, a, c, d, mode);
    var rr := BoundaryRhs(variable, a, c, r, mode);
    if |d| >= 2 {
      OtherModePins(variable, a, c, d, mode);
      OtherModePins(variable, a, c, r, mode);
    }
    assert rr == r;
  }

  /** Dirichlet mode leaves d alone when the eliminated coefficients are zero. */
  lemma DirichletZeroCoefficients(variable: seq<real>, a: seq<real>, c: seq<real>, d: seq<real>)
    requires BoundaryInput(variable, a, c, d, "dirichlet")
    requires a[0] == 0.0 && c[|c| - 1] == 0.0
    ensures BoundaryRhs(variable, a, c, d, "dirichlet") == d
  {
    var r := BoundaryRhs(variable, a, c, d, "dirichlet");
    assert a[0] * variable[0] == 0.0;
    assert c[|c| - 1] * variable[|variable| - 1] == 0.0;
    var first := d[0 := d[0] - a[0] * variable[0]];
    assert first == d;
    assert forall k :: 0 <= k < |d| ==> r[k] == d[k];
  }
}
