/** Tridiagonal systems as the builders of mush.py return them: four
    coefficient sequences a, b, c, d, row i standing for the equation
    a[i]*x[i-1] + b[i]*x[i] + c[i]*x[i+1] == d[i], with a[0] and c[N-1] ignored. */
module Tridiagonal {

  datatype System = System(a: seq<real>, b: seq<real>, c: seq<real>, d: seq<real>) {
    /** All four sequences have length n. */
    predicate Shaped(n: nat) {
      |a| == n && |b| == n && |c| == n && |d| == n
    }

    /** Row i is the identity row (0, 1, 0) with right-hand side r. */
    predicate IdentityRow(i: nat, r: real)
      requires i < |a| && i < |b| && i < |c| && i < |d|
    {
      a[i] == 0.0 && b[i] == 1.0 && c[i] == 0.0 && d[i] == r
    }
  }

  /** Left-hand side of row i of `s` at the vector x. */
  function RowValue(s: System, x: seq<real>, i: nat): real
    requires s.Shaped(|x|) && i < |x|
  {
    (if i > 0 then s.a[i] * x[i - 1] else 0.0)
    + s.b[i] * x[i]
    + (if i < |x| - 1 then s.c[i] * x[i + 1] else 0.0)
  }

  /** Row i of s holds at x. */
  predicate RowHolds(s: System, x: seq<real>, i: nat)
    requires s.Shaped(|x|) && i < |x|
  {
    RowValue(s, x, i) == s.d[i]
  }

  /** x solves s: what the external tridiagonal solver is expected to return. */
  predicate Solves(s: System, x: seq<real>) {
    s.Shaped(|x|) && forall i :: 0 <= i < |x| ==> RowHolds(s, x, i)
  }

  /** An identity row pins the unknown of its row to its right-hand side. */
  lemma IdentityRowPins(s: System, x: seq<real>, i: nat, r: real)
    requires Solves(s, x) && i < |x| && s.IdentityRow(i, r)
    ensures x[i] == r
  {
    assert RowHolds(s, x, i);
  }

  function Abs(x: real): real {
    if x < 0.0 then -x else x
  }

  function Max(x: real, y: real): real {
    if x >= y then x else y
  }

  function Min(x: real, y: real): real {
    if x <= y then x else y
  }

  /** The sum of a sequence, taken from the back. */
  function Sum(s: seq<real>): real {
    if s == [] then 0.0 else Sum(s[..|s| - 1]) + s[|s| - 1]
  }

  /** Constant sequence of length n, numpy's `zeros_like` / `ones_like`. */
  function Fill(n: nat, x: real): (r: seq<real>)
    ensures |r| == n && forall i :: 0 <= i < n ==> r[i] == x
  {
    seq(n, _ => x)
  }
}
