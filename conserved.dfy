/** Conversions between basic variables, conserved variables and the convective
    flux (src/fluid2d/marching/eq/euler/conserved.rs).

    A conserved vector is the cell's density, momentum and total energy times an
    area s; the flux through an interface with area-weighted normal (ixs, iys) is
    the conserved densities carried by the normal velocity U = ixs u + iys v plus
    the pressure acting on the normal. */
module Conserved {
  import opened F64
  import opened Fluid2d
  import opened Eos

  /** calc_conservative: (rho, rho u, rho v, e) times the area s */
  function CalcConservative(c: Cell, s: real): (q: seq<real>)
    ensures |q| == NF
    ensures q[0] == c.rho * s && q[3] == c.e * s
    ensures q[1] == q[0] * c.u && q[2] == q[0] * c.v
  {
    [c.rho * s, c.rho * c.u * s, c.rho * c.v * s, c.e * s]
  }

  /** calc_flux_conv: the convective flux through the interface (ixs, iys) */
  function CalcFluxConv(eos: IdealEoS, c: Cell, ixs: real, iys: real): (f: seq<real>)
    ensures |f| == NF
  {
    FluxWithPressure(c, ixs, iys, CalcP(eos, c.rho, c.u, c.v, c.e))
  }

  /** the flux of calc_flux_conv for the pressure p */
  function FluxWithPressure(c: Cell, ixs: real, iys: real, p: real): (f: seq<real>)
    ensures |f| == NF
    ensures var bigu := ixs * c.u + iys * c.v;
      && f[0] == c.rho * bigu
      && f[1] == f[0] * c.u + ixs * p && f[2] == f[0] * c.v + iys * p
      && f[3] == (c.e + p) * bigu
  {
    var bigu := ixs * c.u + iys * c.v;
    [c.rho * bigu, c.rho * c.u * bigu + ixs * p, c.rho * c.v * bigu + iys * p, (c.e + p) * bigu]
  }

  /** calc_basic: the basic variables of a conserved vector over the area s.  For a
      non-zero area the density and energy times s are q[0] and q[3]; for a non-zero
      density as well, the momenta rho u s and rho v s are q[1] and q[2]. */
  function CalcBasic(q: seq<real>, s: real): (c: Cell)
    requires |q| == NF
    ensures s != 0.0 ==> c.rho * s == q[0] && c.e * s == q[3]
    ensures s != 0.0 && q[0] != 0.0 ==> c.rho * c.u * s == q[1] && c.rho * c.v * s == q[2]
  {
    var rho := Div(q[0], s);
    var u := Div(Div(q[1], rho), s);
    var v := Div(Div(q[2], rho), s);
    if s != 0.0 && q[0] != 0.0 then
      SplitQuotient(q[1], rho, s, u);
      SplitQuotient(q[2], rho, s, v);
      Cell(rho, u, v, Div(q[3], s))
    else
      Cell(rho, u, v, Div(q[3], s))
  }

  /** When the area and the density are non-zero, converting the basic variables of a
      conserved vector back gives the vector again. */
  lemma ConservativeRoundTrip(q: seq<real>, s: real)
    requires |q| == NF && s != 0.0 && q[0] != 0.0
    ensures CalcConservative(CalcBasic(q, s), s) == q
  {
    var c := CalcBasic(q, s);
    var q' := CalcConservative(c, s);
    assert q'[1] == c.rho * s * c.u == q[1];
    assert q'[2] == c.rho * s * c.v == q[2];
    assert q' == q;
  }

  /** x / a / b times a times b gives x back */
  lemma SplitQuotient(x: real, a: real, b: real, w: real)
    requires a != 0.0 && b != 0.0 && w == Div(Div(x, a), b)
    ensures a * w * b == x
  {
    assert w * b == Div(x, a);
    assert Div(x, a) * a == x;
  }

  /** calc_basic inverts calc_conservative for a non-zero density and area. */
  lemma BasicRoundTrip(c: Cell, s: real)
    requires c.rho != 0.0 && s != 0.0
    ensures CalcBasic(CalcConservative(c, s), s) == c
  {
    var q := CalcConservative(c, s);
    var rho := Div(q[0], s);
    assert rho == c.rho by {
      ZeroProduct(rho - c.rho, s);
    }
    var u := Div(Div(q[1], rho), s);
    assert u == c.u by {
      assert Div(q[1], rho) * rho == c.rho * c.u * s;
      ZeroProduct(Div(q[1], rho) - c.u * s, rho);
      ZeroProduct(u - c.u, s);
    }
    var v := Div(Div(q[2], rho), s);
    assert v == c.v by {
      assert Div(q[2], rho) * rho == c.rho * c.v * s;
      ZeroProduct(Div(q[2], rho) - c.v * s, rho);
      ZeroProduct(v - c.v, s);
    }
    assert Div(q[3], s) == c.e by {
      ZeroProduct(Div(q[3], s) - c.e, s);
    }
  }

  /** calc_conservative is linear in the area: each component is the unit-area value
      times s. */
  lemma ConservativeLinear(c: Cell, s: real)
    ensures forall k :: 0 <= k < NF ==> CalcConservative(c, s)[k] == CalcConservative(c, 1.0)[k] * s
  {
  }

  /** An interface of zero area-weighted normal carries no flux. */
  lemma FluxZeroNormal(eos: IdealEoS, c: Cell)
    ensures CalcFluxConv(eos, c, 0.0, 0.0) == [0.0, 0.0, 0.0, 0.0]
  {
  }
}
