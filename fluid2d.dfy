/** The state structs of the solver (src/fluid2d.rs) and the value views the
    specifications work on.

    The Rust structs are generic in the logical sizes NI, NJ (cells, ghost
    cells included) and the ghost width NB; here every object carries them as
    constants `ni`, `nj`, `nb`.  Each fixed-size `[[f64; NJ]; NI]` field is an
    `array2<real>` and each `[[[f64; NF]; NJ]; NI]` field an `array3<real>`; the
    array objects are allocated once by the constructors, so they are `const`
    fields whose contents the solver updates in place. */
module Fluid2d {

  /** number of conserved variables and flux components */
  const NF: nat := 4

  /** an optional value; None stands for the `panic!` of an unrecognised scheme name */
  datatype Option<T> = None | Some(value: T)

  /** the ideal equation of state: only the ratio of specific heats */
  datatype IdealEoS = IdealEoS(gamma: real)

  /** the four basic variables (density, velocity, total energy per volume) of one cell */
  datatype Cell = Cell(rho: real, u: real, v: real, e: real)

  /** a 2D array as a value: f[i][j] */
  type Field = seq<seq<real>>

  ghost predicate IsField(f: Field, ni: nat, nj: nat)
  {
    |f| == ni && forall i :: 0 <= i < ni ==> |f[i]| == nj
  }

  /** the current contents of a 2D array */
  function Snap(a: array2<real>): (f: Field)
    reads a
    ensures IsField(f, a.Length0, a.Length1)
    ensures forall i, j :: 0 <= i < a.Length0 && 0 <= j < a.Length1 ==> f[i][j] == a[i, j]
  {
    seq(a.Length0, i requires 0 <= i < a.Length0 reads a =>
      seq(a.Length1, j requires 0 <= j < a.Length1 reads a => a[i, j]))
  }

  /** Two fields of the same shape that agree everywhere are equal. */
  lemma FieldExt(f: Field, g: Field, ni: nat, nj: nat)
    requires IsField(f, ni, nj) && IsField(g, ni, nj)
    requires forall i, j :: 0 <= i < ni && 0 <= j < nj ==> f[i][j] == g[i][j]
    ensures f == g
  {
    forall i | 0 <= i < ni
      ensures f[i] == g[i]
    {
      assert |f[i]| == |g[i]| == nj;
    }
  }

  /** the basic-variable field as a value */
  datatype BasicField = BasicField(rho: Field, u: Field, v: Field, e: Field)
  {
    ghost predicate Shaped(ni: nat, nj: nat)
    {
      IsField(rho, ni, nj) && IsField(u, ni, nj) && IsField(v, ni, nj) && IsField(e, ni, nj)
    }

    /** the four basic variables at (i, j) */
    function At(i: nat, j: nat): Cell
      requires i < |rho| && i < |u| && i < |v| && i < |e|
      requires j < |rho[i]| && j < |u[i]| && j < |v[i]| && j < |e[i]|
    {
      Cell(rho[i][j], u[i][j], v[i][j], e[i][j])
    }
  }

  /** The logical sizes every sweep of the solver relies on: a non-empty interior in
      both directions. */
  predicate SizesOk(ni: nat, nj: nat, nb: nat)
  {
    ni > 2 * nb && nj > 2 * nb
  }

  /** struct BasicVarHD: the basic variables, ghost cells included */
  class BasicVarHD {
    const ni: nat
    const nj: nat
    const nb: nat
    /** density */
    const rho: array2<real>
    /** x-component of velocity */
    const u: array2<real>
    /** y-component of velocity */
    const v: array2<real>
    /** total energy per volume */
    const e: array2<real>

    /** every array is NI x NJ and the four are distinct objects */
    ghost predicate Valid()
    {
      && rho.Length0 == ni && rho.Length1 == nj
      && u.Length0 == ni && u.Length1 == nj
      && v.Length0 == ni && v.Length1 == nj
      && e.Length0 == ni && e.Length1 == nj
      && rho != u && rho != v && rho != e && u != v && u != e && v != e
    }

    /** the current basic state as a value */
    function Values(): (b: BasicField)
      reads rho, u, v, e
    {
      BasicField(Snap(rho), Snap(u), Snap(v), Snap(e))
    }

    /** BasicVarHD::new: all four arrays zero */
    constructor (ni: nat, nj: nat, nb: nat)
      ensures this.ni == ni && this.nj == nj && this.nb == nb && Valid()
      ensures fresh(rho) && fresh(u) && fresh(v) && fresh(e)
      ensures forall i, j :: 0 <= i < ni && 0 <= j < nj ==>
        rho[i, j] == 0.0 && u[i, j] == 0.0 && v[i, j] == 0.0 && e[i, j] == 0.0
    {
      this.ni, this.nj, this.nb := ni, nj, nb;
      rho := new real[ni, nj]((i, j) => 0.0);
      u := new real[ni, nj]((i, j) => 0.0);
      v := new real[ni, nj]((i, j) => 0.0);
      e := new real[ni, nj]((i, j) => 0.0);
    }
  }

  /** struct GenStructCoord: grid-point coordinates and the quantities derived from them */
  class GenStructCoord {
    const ni: nat
    const nj: nat
    const nb: nat
    /** x of the grid points */
    const x: array2<real>
    /** y of the grid points */
    const y: array2<real>
    /** metric ix divided by the Jacobian; only [0, NI-2NB+2) x [0, NJ-2NB+2) is used */
    const ixs: array2<real>
    /** metric iy divided by the Jacobian; same used region */
    const iys: array2<real>
    /** metric jx divided by the Jacobian; same used region */
    const jxs: array2<real>
    /** metric jy divided by the Jacobian; same used region */
    const jys: array2<real>
    /** inverse of the Jacobian (cell area); only [0, NI-1) x [0, NJ-1) is used */
    const s: array2<real>
    /** length scale for the CFL condition; only [0, NI-2NB) x [0, NJ-2NB) is used */
    const dx: array2<real>

    ghost predicate Valid()
    {
      && x.Length0 == ni && x.Length1 == nj && y.Length0 == ni && y.Length1 == nj
      && ixs.Length0 == ni && ixs.Length1 == nj && iys.Length0 == ni && iys.Length1 == nj
      && jxs.Length0 == ni && jxs.Length1 == nj && jys.Length0 == ni && jys.Length1 == nj
      && s.Length0 == ni && s.Length1 == nj && dx.Length0 == ni && dx.Length1 == nj
      && x != y && x != ixs && x != iys && x != jxs && x != jys && x != s && x != dx
      && y != ixs && y != iys && y != jxs && y != jys && y != s && y != dx
      && ixs != iys && ixs != jxs && ixs != jys && ixs != s && ixs != dx
      && iys != jxs && iys != jys && iys != s && iys != dx
      && jxs != jys && jxs != s && jxs != dx
      && jys != s && jys != dx
      && s != dx
    }

    /** GenStructCoord::new: all eight arrays zero */
    constructor (ni: nat, nj: nat, nb: nat)
      ensures this.ni == ni && this.nj == nj && this.nb == nb && Valid()
      ensures fresh(x) && fresh(y) && fresh(ixs) && fresh(iys)
      ensures fresh(jxs) && fresh(jys) && fresh(s) && fresh(dx)
      ensures forall i, j :: 0 <= i < ni && 0 <= j < nj ==>
        && x[i, j] == 0.0 && y[i, j] == 0.0 && ixs[i, j] == 0.0 && iys[i, j] == 0.0
        && jxs[i, j] == 0.0 && jys[i, j] == 0.0 && s[i, j] == 0.0 && dx[i, j] == 0.0
    {
      this.ni, this.nj, this.nb := ni, nj, nb;
      x := new real[ni, nj]((i, j) => 0.0);
      y := new real[ni, nj]((i, j) => 0.0);
      ixs := new real[ni, nj]((i, j) => 0.0);
      iys := new real[ni, nj]((i, j) => 0.0);
      jxs := new real[ni, nj]((i, j) => 0.0);
      jys := new real[ni, nj]((i, j) => 0.0);
      s := new real[ni, nj]((i, j) => 0.0);
      dx := new real[ni, nj]((i, j) => 0.0);
    }
  }

  /** struct EulerEq: the interface fluxes of the two sweeps */
  class EulerEq {
    const ni: nat
    const nj: nat
    const nb: nat
    /** fluxes at (i + 1/2, j); only [0, NI-2NB+1) x [0, NJ-2NB) x [0, NF) is used */
    const arrFi: array3<real>
    /** fluxes at (i, j + 1/2); only [0, NI-2NB) x [0, NJ-2NB+1) x [0, NF) is used */
    const arrFj: array3<real>

    ghost predicate Valid()
    {
      && arrFi.Length0 == ni && arrFi.Length1 == nj && arrFi.Length2 == NF
      && arrFj.Length0 == ni && arrFj.Length1 == nj && arrFj.Length2 == NF
      && arrFi != arrFj
    }

    /** EulerEq::new: both arrays zero */
    constructor (ni: nat, nj: nat, nb: nat)
      ensures this.ni == ni && this.nj == nj && this.nb == nb && Valid()
      ensures fresh(arrFi) && fresh(arrFj)
      ensures forall i, j, k :: 0 <= i < ni && 0 <= j < nj && 0 <= k < NF ==>
        arrFi[i, j, k] == 0.0 && arrFj[i, j, k] == 0.0
    {
      this.ni, this.nj, this.nb := ni, nj, nb;
      arrFi := new real[ni, nj, NF]((i, j, k) => 0.0);
      arrFj := new real[ni, nj, NF]((i, j, k) => 0.0);
    }
  }

  /** struct IdealGas: the whole simulation state.  The settings and boundary
      structs of the source are empty and have no counterpart here. */
  class IdealGas {
    const ni: nat
    const nj: nat
    const nb: nat
    const coord: GenStructCoord
    const basic: BasicVarHD
    const eq: EulerEq
    const eos: IdealEoS
    /** conserved variables of stage 0; only [0, NI-2NB) x [0, NJ-2NB) x [0, NF) is used */
    const arrQ0: array3<real>
    /** stage-1 scratch; same used region */
    const arrQ1: array3<real>
    /** stage-2 scratch; same used region */
    const arrQ2: array3<real>

    ghost predicate Valid()
    {
      && coord.Valid() && basic.Valid() && eq.Valid()
      && coord.ni == ni && coord.nj == nj && coord.nb == nb
      && basic.ni == ni && basic.nj == nj && basic.nb == nb
      && eq.ni == ni && eq.nj == nj && eq.nb == nb
      && arrQ0.Length0 == ni && arrQ0.Length1 == nj && arrQ0.Length2 == NF
      && arrQ1.Length0 == ni && arrQ1.Length1 == nj && arrQ1.Length2 == NF
      && arrQ2.Length0 == ni && arrQ2.Length1 == nj && arrQ2.Length2 == NF
      && arrQ0 != arrQ1 && arrQ0 != arrQ2 && arrQ1 != arrQ2
      && arrQ0 != eq.arrFi && arrQ0 != eq.arrFj && arrQ1 != eq.arrFi
      && arrQ1 != eq.arrFj && arrQ2 != eq.arrFi && arrQ2 != eq.arrFj
      && BasicApart(basic, coord)
    }

    /** IdealGas::new: every component zero, gamma stored unchanged */
    constructor (ni: nat, nj: nat, nb: nat, gamma: real)
      ensures this.ni == ni && this.nj == nj && this.nb == nb && Valid()
      ensures eos == IdealEoS(gamma)
      ensures fresh(coord) && fresh(basic) && fresh(eq) && fresh(arrQ0) && fresh(arrQ1) && fresh(arrQ2)
      ensures forall i, j, k :: 0 <= i < ni && 0 <= j < nj && 0 <= k < NF ==>
        arrQ0[i, j, k] == 0.0 && arrQ1[i, j, k] == 0.0 && arrQ2[i, j, k] == 0.0
        && eq.arrFi[i, j, k] == 0.0 && eq.arrFj[i, j, k] == 0.0
    ensures forall i, j :: 0 <= i < ni && 0 <= j < nj ==>
        && basic.rho[i, j] == 0.0 && basic.u[i, j] == 0.0 && basic.v[i, j] == 0.0 && basic.e[i, j] == 0.0
        && coord.x[i, j] == 0.0 && coord.y[i, j] == 0.0 && coord.ixs[i, j] == 0.0 && coord.iys[i, j] == 0.0
        && coord.jxs[i, j] == 0.0 && coord.jys[i, j] == 0.0 && coord.s[i, j] == 0.0 && coord.dx[i, j] == 0.0
    {
      this.ni, this.nj, this.nb := ni, nj, nb;
      coord := new GenStructCoord(ni, nj, nb);
      basic := new BasicVarHD(ni, nj, nb);
      eq := new EulerEq(ni, nj, nb);
      eos := IdealEoS(gamma);
      arrQ0 := new real[ni, nj, NF]((i, j, k) => 0.0);
      arrQ1 := new real[ni, nj, NF]((i, j, k) => 0.0);
      arrQ2 := new real[ni, nj, NF]((i, j, k) => 0.0);
    }
  }

  /** No array of the basic state is an array of the coordinate struct. */
  ghost predicate BasicApart(basic: BasicVarHD, coord: GenStructCoord)
  {
    {basic.rho, basic.u, basic.v, basic.e}
      !! {coord.x, coord.y, coord.ixs, coord.iys, coord.jxs, coord.jys, coord.s, coord.dx}
  }
}
