/** The right-hand side of the semi-discrete equations (src/fluid2d/marching/eq.rs):
    the numerical fluxes at the i-interfaces and the j-interfaces, and their
    differences in every interior cell.

    The i-interface (i, j) lies between cells (NB+i-1, NB+j) and (NB+i, NB+j); the
    j-interface (i, j) between cells (NB+i, NB+j-1) and (NB+i, NB+j).  The fluxes are
    specified on values: `FluxI` and `FluxJ` take the basic state and the grid arrays
    as fields and read the grid only inside the regions calc_metrices_dx fills. */
module Eq {
  import opened F64
  import opened Fluid2d
  import opened Eos
  import opened Conserved
  import opened FluxScheme
  import Coordinate

  /** the reconstructions calc_rhs knows */
  datatype Recon = MusclMinmodBasic | Mp5Basic

  /** the match of calc_rhs; None is its panic */
  function ParseRecon(name: string): (r: Option<Recon>)
    ensures r == Some(MusclMinmodBasic) <==> name == "MUSCL_minmod_basic"
    ensures r == Some(Mp5Basic) <==> name == "MP5_basic"
    ensures r.None? <==> name != "MUSCL_minmod_basic" && name != "MP5_basic"
  {
    if name == "MUSCL_minmod_basic" then Some(MusclMinmodBasic)
    else if name == "MP5_basic" then Some(Mp5Basic)
    else None
  }

  /** the ghost width the stencil of a reconstruction needs: four cells for MUSCL, six
      for MP5 */
  predicate StencilOk(recon: Recon, nb: nat)
  {
    match recon
    case MusclMinmodBasic => nb >= 2
    case Mp5Basic => nb >= 3
  }

  /** the grid arrays calc_rhs reads, as values */
  datatype Geometry = Geometry(s: Field, ixs: Field, iys: Field, jxs: Field, jys: Field)
  {
    ghost predicate Shaped(ni: nat, nj: nat)
    {
      IsField(s, ni, nj) && IsField(ixs, ni, nj) && IsField(iys, ni, nj)
        && IsField(jxs, ni, nj) && IsField(jys, ni, nj)
    }
  }

  function GeomOf(c: GenStructCoord): (g: Geometry)
    requires c.Valid()
    reads c.s, c.ixs, c.iys, c.jxs, c.jys
    ensures g.Shaped(c.ni, c.nj)
  {
    Geometry(Snap(c.s), Snap(c.ixs), Snap(c.iys), Snap(c.jxs), Snap(c.jys))
  }

  /** what every flux of calc_rhs needs of its arguments */
  ghost predicate Inputs(recon: Recon, b: BasicField, g: Geometry, ni: nat, nj: nat, nb: nat)
  {
    b.Shaped(ni, nj) && g.Shaped(ni, nj) && StencilOk(recon, nb) && SizesOk(ni, nj, nb)
  }

  // ---------------------------------------------------------------------------
  // the i-sweep

  /** the reconstructed left and right states at i-interface (i, j) */
  function CellsI(recon: Recon, b: BasicField, ni: nat, nj: nat, nb: nat, i: nat, j: nat): (lr: (Cell, Cell))
    requires b.Shaped(ni, nj) && StencilOk(recon, nb) && SizesOk(ni, nj, nb)
    requires i < ni - 2 * nb + 1 && j < nj - 2 * nb
  {
    var q := nb + j;
    match recon
    case MusclMinmodBasic =>
      ReconstByBasicMuscl(b.At(nb + i - 2, q), b.At(nb + i - 1, q), b.At(nb + i, q), b.At(nb + i + 1, q))
    case Mp5Basic =>
      ReconstByBasicMp5(b.At(nb + i - 3, q), b.At(nb + i - 2, q), b.At(nb + i - 1, q),
                        b.At(nb + i, q), b.At(nb + i + 1, q), b.At(nb + i + 2, q))
  }

  /** the inverse Jacobian at i-interface (i, j): the mean of the two vertices on it */
  function AreaI(g: Geometry, ni: nat, nj: nat, nb: nat, i: nat, j: nat): real
    requires g.Shaped(ni, nj) && SizesOk(ni, nj, nb) && nb >= 2
    requires i < ni - 2 * nb + 1 && j < nj - 2 * nb
  {
    0.5 * (g.s[nb + i - 1][nb + j - 1] + g.s[nb + i - 1][nb + j])
  }

  /** the metrics (ixs, iys) at i-interface (i, j): the mean of the two cell points beside it */
  function MetricI(g: Geometry, ni: nat, nj: nat, nb: nat, i: nat, j: nat): (real, real)
    requires g.Shaped(ni, nj) && SizesOk(ni, nj, nb) && nb >= 2
    requires i < ni - 2 * nb + 1 && j < nj - 2 * nb
  {
    (0.5 * (g.ixs[i][j + 1] + g.ixs[i + 1][j + 1]), 0.5 * (g.iys[i][j + 1] + g.iys[i + 1][j + 1]))
  }

  /** the Roe flux at i-interface (i, j) */
  function FluxI(eos: IdealEoS, sqrt: SqrtFn, recon: Recon, b: BasicField, g: Geometry,
                 ni: nat, nj: nat, nb: nat, i: nat, j: nat): (f: seq<real>)
    requires Inputs(recon, b, g, ni, nj, nb) && i < ni - 2 * nb + 1 && j < nj - 2 * nb
    ensures |f| == NF
  {
    var lr := CellsI(recon, b, ni, nj, nb, i, j);
    var m := MetricI(g, ni, nj, nb, i, j);
    RoeFdsFlux(eos, sqrt, lr.0, lr.1, m.0, m.1, AreaI(g, ni, nj, nb, i, j))
  }

  // ---------------------------------------------------------------------------
  // the j-sweep

  /** the reconstructed left and right states at j-interface (i, j) */
  function CellsJ(recon: Recon, b: BasicField, ni: nat, nj: nat, nb: nat, i: nat, j: nat): (lr: (Cell, Cell))
    requires b.Shaped(ni, nj) && StencilOk(recon, nb) && SizesOk(ni, nj, nb)
    requires i < ni - 2 * nb && j < nj - 2 * nb + 1
  {
    var p := nb + i;
    match recon
    case MusclMinmodBasic =>
      ReconstByBasicMuscl(b.At(p, nb + j - 2), b.At(p, nb + j - 1), b.At(p, nb + j), b.At(p, nb + j + 1))
    case Mp5Basic =>
      ReconstByBasicMp5(b.At(p, nb + j - 3), b.At(p, nb + j - 2), b.At(p, nb + j - 1),
                        b.At(p, nb + j), b.At(p, nb + j + 1), b.At(p, nb + j + 2))
  }

  /** the inverse Jacobian at j-interface (i, j) */
  function AreaJ(g: Geometry, ni: nat, nj: nat, nb: nat, i: nat, j: nat): real
    requires g.Shaped(ni, nj) && SizesOk(ni, nj, nb) && nb >= 2
    requires i < ni - 2 * nb && j < nj - 2 * nb + 1
  {
    0.5 * (g.s[nb + i - 1][nb + j - 1] + g.s[nb + i][nb + j - 1])
  }

  /** the metrics (jxs, jys) at j-interface (i, j) */
  function MetricJ(g: Geometry, ni: nat, nj: nat, nb: nat, i: nat, j: nat): (real, real)
    requires g.Shaped(ni, nj) && SizesOk(ni, nj, nb) && nb >= 2
    requires i < ni - 2 * nb && j < nj - 2 * nb + 1
  {
    (0.5 * (g.jxs[i + 1][j] + g.jxs[i + 1][j + 1]), 0.5 * (g.jys[i + 1][j] + g.jys[i + 1][j + 1]))
  }

  /** the Roe flux at j-interface (i, j) */
  function FluxJ(eos: IdealEoS, sqrt: SqrtFn, recon: Recon, b: BasicField, g: Geometry,
                 ni: nat, nj: nat, nb: nat, i: nat, j: nat): (f: seq<real>)
    requires Inputs(recon, b, g, ni, nj, nb) && i < ni - 2 * nb && j < nj - 2 * nb + 1
    ensures |f| == NF
  {
    var lr := CellsJ(recon, b, ni, nj, nb, i, j);
    var m := MetricJ(g, ni, nj, nb, i, j);
    RoeFdsFlux(eos, sqrt, lr.0, lr.1, m.0, m.1, AreaJ(g, ni, nj, nb, i, j))
  }

  /** interface fluxes of one sweep, as a value: f[i][j][k] */
  type Flux3 = seq<seq<seq<real>>>

  ghost predicate IsFlux3(f: Flux3, n0: nat, n1: nat)
  {
    |f| == n0 && forall i :: 0 <= i < n0 ==> |f[i]| == n1 && forall j :: 0 <= j < n1 ==> |f[i][j]| == NF
  }

  /** f holds the flux of every i-interface.  The trigger keeps the flux itself out of
      sight until a proof names it. */
  ghost predicate FillsI(f: Flux3, eos: IdealEoS, sqrt: SqrtFn, recon: Recon, b: BasicField, g: Geometry,
                         ni: nat, nj: nat, nb: nat)
    requires Inputs(recon, b, g, ni, nj, nb)
  {
    && IsFlux3(f, ni - 2 * nb + 1, nj - 2 * nb)
    && forall i, j {:trigger FluxI(eos, sqrt, recon, b, g, ni, nj, nb, i, j)} ::
         0 <= i < ni - 2 * nb + 1 && 0 <= j < nj - 2 * nb ==> f[i][j] == FluxI(eos, sqrt, recon, b, g, ni, nj, nb, i, j)
  }

  /** f holds the flux of every j-interface */
  ghost predicate FillsJ(f: Flux3, eos: IdealEoS, sqrt: SqrtFn, recon: Recon, b: BasicField, g: Geometry,
                         ni: nat, nj: nat, nb: nat)
    requires Inputs(recon, b, g, ni, nj, nb)
  {
    && IsFlux3(f, ni - 2 * nb, nj - 2 * nb + 1)
    && forall i, j {:trigger FluxJ(eos, sqrt, recon, b, g, ni, nj, nb, i, j)} ::
         0 <= i < ni - 2 * nb && 0 <= j < nj - 2 * nb + 1 ==> f[i][j] == FluxJ(eos, sqrt, recon, b, g, ni, nj, nb, i, j)
  }

  /** every i-interface flux: what arr_fi holds after the first loop nest */
  function FluxFieldI(eos: IdealEoS, sqrt: SqrtFn, recon: Recon, b: BasicField, g: Geometry,
                      ni: nat, nj: nat, nb: nat): (f: Flux3)
    requires Inputs(recon, b, g, ni, nj, nb)
    ensures FillsI(f, eos, sqrt, recon, b, g, ni, nj, nb)
  {
    seq(ni - 2 * nb + 1, i requires 0 <= i < ni - 2 * nb + 1 =>
      seq(nj - 2 * nb, j requires 0 <= j < nj - 2 * nb => FluxI(eos, sqrt, recon, b, g, ni, nj, nb, i, j)))
  }

  /** every j-interface flux: what arr_fj holds after the second loop nest */
  function FluxFieldJ(eos: IdealEoS, sqrt: SqrtFn, recon: Recon, b: BasicField, g: Geometry,
                      ni: nat, nj: nat, nb: nat): (f: Flux3)
    requires Inputs(recon, b, g, ni, nj, nb)
    ensures FillsJ(f, eos, sqrt, recon, b, g, ni, nj, nb)
  {
    seq(ni - 2 * nb, i requires 0 <= i < ni - 2 * nb =>
      seq(nj - 2 * nb + 1, j requires 0 <= j < nj - 2 * nb + 1 => FluxJ(eos, sqrt, recon, b, g, ni, nj, nb, i, j)))
  }

  /** component k of the flux balance of interior cell (i, j): in through its low faces,
      out through its high faces */
  function Diff(fi: Flux3, fj: Flux3, mi: nat, mj: nat, i: nat, j: nat, k: nat): real
    requires IsFlux3(fi, mi + 1, mj) && IsFlux3(fj, mi, mj + 1) && i < mi && j < mj && k < NF
  {
    fi[i][j][k] - fi[i + 1][j][k] + fj[i][j][k] - fj[i][j + 1][k]
  }

  /** the flux balances of a whole interior */
  function Balance(fi: Flux3, fj: Flux3, mi: nat, mj: nat): (q: Flux3)
    requires IsFlux3(fi, mi + 1, mj) && IsFlux3(fj, mi, mj + 1)
    ensures IsFlux3(q, mi, mj)
    ensures forall i, j, k :: 0 <= i < mi && 0 <= j < mj && 0 <= k < NF ==> q[i][j][k] == Diff(fi, fj, mi, mj, i, j, k)
  {
    seq(mi, i requires 0 <= i < mi =>
      seq(mj, j requires 0 <= j < mj =>
        seq(NF, k requires 0 <= k < NF => Diff(fi, fj, mi, mj, i, j, k))))
  }

  /** component k of the right-hand side calc_rhs leaves in arr_q for interior cell (i, j) */
  function RhsAt(eos: IdealEoS, sqrt: SqrtFn, recon: Recon, b: BasicField, g: Geometry,
                 ni: nat, nj: nat, nb: nat, i: nat, j: nat, k: nat): real
    requires Inputs(recon, b, g, ni, nj, nb) && i < ni - 2 * nb && j < nj - 2 * nb && k < NF
  {
    FluxI(eos, sqrt, recon, b, g, ni, nj, nb, i, j)[k] - FluxI(eos, sqrt, recon, b, g, ni, nj, nb, i + 1, j)[k]
      + FluxJ(eos, sqrt, recon, b, g, ni, nj, nb, i, j)[k] - FluxJ(eos, sqrt, recon, b, g, ni, nj, nb, i, j + 1)[k]
  }

  /** The right-hand side is the flux balance of the two flux fields. */
  lemma RhsIsBalance(eos: IdealEoS, sqrt: SqrtFn, recon: Recon, b: BasicField, g: Geometry,
                     ni: nat, nj: nat, nb: nat)
    requires Inputs(recon, b, g, ni, nj, nb)
    ensures forall i, j, k :: 0 <= i < ni - 2 * nb && 0 <= j < nj - 2 * nb && 0 <= k < NF ==>
      RhsAt(eos, sqrt, recon, b, g, ni, nj, nb, i, j, k)
        == Balance(FluxFieldI(eos, sqrt, recon, b, g, ni, nj, nb), FluxFieldJ(eos, sqrt, recon, b, g, ni, nj, nb),
                   ni - 2 * nb, nj - 2 * nb)[i][j][k]
  {
  }

  lemma FluxFieldsExist(eos: IdealEoS, sqrt: SqrtFn, recon: Recon, b: BasicField, g: Geometry,
                        ni: nat, nj: nat, nb: nat)
    requires Inputs(recon, b, g, ni, nj, nb)
    ensures exists f :: FillsI(f, eos, sqrt, recon, b, g, ni, nj, nb)
    ensures exists f :: FillsJ(f, eos, sqrt, recon, b, g, ni, nj, nb)
  {
    var fi := FluxFieldI(eos, sqrt, recon, b, g, ni, nj, nb);
    var fj := FluxFieldJ(eos, sqrt, recon, b, g, ni, nj, nb);
    assert FillsI(fi, eos, sqrt, recon, b, g, ni, nj, nb);
    assert FillsJ(fj, eos, sqrt, recon, b, g, ni, nj, nb);
  }

  // ---------------------------------------------------------------------------
  // calc_rhs

  /** the objects calc_rhs works on: same sizes, a non-empty interior, and an output
      array distinct from the two flux arrays */
  ghost predicate Ready(eq: EulerEq, basic: BasicVarHD, coord: GenStructCoord, arrQ: array3<real>)
  {
    && eq.Valid() && basic.Valid() && coord.Valid()
    && basic.ni == eq.ni && basic.nj == eq.nj && basic.nb == eq.nb
    && coord.ni == eq.ni && coord.nj == eq.nj && coord.nb == eq.nb
    && SizesOk(eq.ni, eq.nj, eq.nb)
    && arrQ.Length0 == eq.ni && arrQ.Length1 == eq.nj && arrQ.Length2 == NF
    && arrQ != eq.arrFi && arrQ != eq.arrFj
  }

  /** calc_rhs: the i-sweep into arr_fi, the j-sweep into arr_fj, then their differences
      into arr_q.  An unknown reconstruction or flux scheme name is the source's panic,
      which happens at the first interface, before anything is written (ok = false). */
  method CalcRhs(eq: EulerEq, reconName: string, fluxName: string, basic: BasicVarHD,
                 coord: GenStructCoord, eos: IdealEoS, sqrt: SqrtFn, arrQ: array3<real>)
    returns (ok: bool)
    requires Ready(eq, basic, coord, arrQ)
    requires ParseRecon(reconName).Some? ==> StencilOk(ParseRecon(reconName).value, eq.nb)
    modifies eq.arrFi, eq.arrFj, arrQ
    ensures ok <==> ParseRecon(reconName).Some? && fluxName == "Roe_FDS"
    ensures !ok ==> unchanged(eq.arrFi, eq.arrFj, arrQ)
    ensures ok ==> HoldsFluxI(eq.arrFi, eos, sqrt, ParseRecon(reconName).value, basic.Values(), GeomOf(coord),
                              eq.ni, eq.nj, eq.nb)
    ensures ok ==> HoldsFluxJ(eq.arrFj, eos, sqrt, ParseRecon(reconName).value, basic.Values(), GeomOf(coord),
                              eq.ni, eq.nj, eq.nb)
    ensures ok ==> HoldsRhs(arrQ, eos, sqrt, ParseRecon(reconName).value, basic.Values(), GeomOf(coord),
                            eq.ni, eq.nj, eq.nb)
    ensures ok ==> forall i, j, k :: 0 <= i < eq.ni && 0 <= j < eq.nj && 0 <= k < NF ==>
      !(i < eq.ni - 2 * eq.nb + 1 && j < eq.nj - 2 * eq.nb) ==> eq.arrFi[i, j, k] == old(eq.arrFi[i, j, k])
    ensures ok ==> forall i, j, k :: 0 <= i < eq.ni && 0 <= j < eq.nj && 0 <= k < NF ==>
      !(i < eq.ni - 2 * eq.nb && j < eq.nj - 2 * eq.nb + 1) ==> eq.arrFj[i, j, k] == old(eq.arrFj[i, j, k])
    ensures ok ==> forall i, j, k :: 0 <= i < eq.ni && 0 <= j < eq.nj && 0 <= k < NF ==>
      !(i < eq.ni - 2 * eq.nb && j < eq.nj - 2 * eq.nb) ==> arrQ[i, j, k] == old(arrQ[i, j, k])
  {
    var recon := ParseRecon(reconName);
    if recon.None? || fluxName != "Roe_FDS" {
      return false;
    }
    ghost var b, g := basic.Values(), GeomOf(coord);
    CalcRhsWith(eq, recon.value, fluxName, basic, coord, eos, sqrt, arrQ, b, g);
    ok := true;
  }

  /** calc_rhs once the scheme names are known to be valid; b and g are the basic
      variables and the geometry it reads, which it leaves as they are */
  method CalcRhsWith(eq: EulerEq, recon: Recon, fluxName: string, basic: BasicVarHD, coord: GenStructCoord,
                     eos: IdealEoS, sqrt: SqrtFn, arrQ: array3<real>, ghost b: BasicField, ghost g: Geometry)
    requires Ready(eq, basic, coord, arrQ) && StencilOk(recon, eq.nb) && fluxName == "Roe_FDS"
    requires basic.Values() == b && GeomOf(coord) == g
    modifies eq.arrFi, eq.arrFj, arrQ
    ensures basic.Values() == b && GeomOf(coord) == g
    ensures HoldsFluxI(eq.arrFi, eos, sqrt, recon, b, g, eq.ni, eq.nj, eq.nb)
    ensures HoldsFluxJ(eq.arrFj, eos, sqrt, recon, b, g, eq.ni, eq.nj, eq.nb)
    ensures HoldsRhs(arrQ, eos, sqrt, recon, b, g, eq.ni, eq.nj, eq.nb)
    ensures forall i, j, k :: 0 <= i < eq.ni && 0 <= j < eq.nj && 0 <= k < NF ==>
      !(i < eq.ni - 2 * eq.nb + 1 && j < eq.nj - 2 * eq.nb) ==> eq.arrFi[i, j, k] == old(eq.arrFi[i, j, k])
    ensures forall i, j, k :: 0 <= i < eq.ni && 0 <= j < eq.nj && 0 <= k < NF ==>
      !(i < eq.ni - 2 * eq.nb && j < eq.nj - 2 * eq.nb + 1) ==> eq.arrFj[i, j, k] == old(eq.arrFj[i, j, k])
    ensures forall i, j, k :: 0 <= i < eq.ni && 0 <= j < eq.nj && 0 <= k < NF ==>
      !(i < eq.ni - 2 * eq.nb && j < eq.nj - 2 * eq.nb) ==> arrQ[i, j, k] == old(arrQ[i, j, k])
  {
    FillFluxI(eq, recon, fluxName, basic, coord, eos, sqrt, b, g);
    FillFluxJ(eq, recon, fluxName, basic, coord, eos, sqrt, b, g);
    Differences(eq, arrQ);
    DifferencedRhs(arrQ, eq.arrFi, eq.arrFj, eos, sqrt, recon, b, g, eq.ni, eq.nj, eq.nb);
  }

  /** the i-sweep of calc_rhs: arr_fi receives the i-interface fluxes of (b, g) */
  method FillFluxI(eq: EulerEq, recon: Recon, fluxName: string, basic: BasicVarHD, coord: GenStructCoord,
                   eos: IdealEoS, sqrt: SqrtFn, ghost b: BasicField, ghost g: Geometry)
    requires eq.Valid() && basic.Valid() && coord.Valid() && SizesOk(eq.ni, eq.nj, eq.nb)
    requires basic.ni == eq.ni && basic.nj == eq.nj && basic.nb == eq.nb
    requires coord.ni == eq.ni && coord.nj == eq.nj && coord.nb == eq.nb
    requires StencilOk(recon, eq.nb) && fluxName == "Roe_FDS"
    requires basic.Values() == b && GeomOf(coord) == g
    modifies eq.arrFi
    ensures basic.Values() == b && GeomOf(coord) == g
    ensures HoldsFluxI(eq.arrFi, eos, sqrt, recon, b, g, eq.ni, eq.nj, eq.nb)
    ensures forall i, j, k :: 0 <= i < eq.ni && 0 <= j < eq.nj && 0 <= k < NF ==>
      !(i < eq.ni - 2 * eq.nb + 1 && j < eq.nj - 2 * eq.nb) ==> eq.arrFi[i, j, k] == old(eq.arrFi[i, j, k])
  {
    FluxFieldsExist(eos, sqrt, recon, b, g, eq.ni, eq.nj, eq.nb);
    ghost var f :| FillsI(f, eos, sqrt, recon, b, g, eq.ni, eq.nj, eq.nb);
    SweepI(eq, recon, fluxName, basic, coord, eos, sqrt, f);
    assert basic.Values() == b && GeomOf(coord) == g;
    SweptI(eq.arrFi, eos, sqrt, recon, b, g, eq.ni, eq.nj, eq.nb, f);
  }

  /** the j-sweep of calc_rhs: arr_fj receives the j-interface fluxes of (b, g) */
  method FillFluxJ(eq: EulerEq, recon: Recon, fluxName: string, basic: BasicVarHD, coord: GenStructCoord,
                   eos: IdealEoS, sqrt: SqrtFn, ghost b: BasicField, ghost g: Geometry)
    requires eq.Valid() && basic.Valid() && coord.Valid() && SizesOk(eq.ni, eq.nj, eq.nb)
    requires basic.ni == eq.ni && basic.nj == eq.nj && basic.nb == eq.nb
    requires coord.ni == eq.ni && coord.nj == eq.nj && coord.nb == eq.nb
    requires StencilOk(recon, eq.nb) && fluxName == "Roe_FDS"
    requires basic.Values() == b && GeomOf(coord) == g
    modifies eq.arrFj
    ensures basic.Values() == b && GeomOf(coord) == g
    ensures HoldsFluxJ(eq.arrFj, eos, sqrt, recon, b, g, eq.ni, eq.nj, eq.nb)
    ensures forall i, j, k :: 0 <= i < eq.ni && 0 <= j < eq.nj && 0 <= k < NF ==>
      !(i < eq.ni - 2 * eq.nb && j < eq.nj - 2 * eq.nb + 1) ==> eq.arrFj[i, j, k] == old(eq.arrFj[i, j, k])
  {
    FluxFieldsExist(eos, sqrt, recon, b, g, eq.ni, eq.nj, eq.nb);
    ghost var f :| FillsJ(f, eos, sqrt, recon, b, g, eq.ni, eq.nj, eq.nb);
    SweepJ(eq, recon, fluxName, basic, coord, eos, sqrt, f);
    assert basic.Values() == b && GeomOf(coord) == g;
    SweptJ(eq.arrFj, eos, sqrt, recon, b, g, eq.ni, eq.nj, eq.nb, f);
  }

  /** what the i-sweep leaves, read back through the flux field it fills */
  lemma SweptI(a: array3<real>, eos: IdealEoS, sqrt: SqrtFn, recon: Recon, b: BasicField, g: Geometry,
               ni: nat, nj: nat, nb: nat, f: Flux3)
    requires a.Length0 == ni && a.Length1 == nj && a.Length2 == NF && Inputs(recon, b, g, ni, nj, nb)
    requires FillsI(f, eos, sqrt, recon, b, g, ni, nj, nb)
    requires forall i, j, k :: 0 <= i < ni - 2 * nb + 1 && 0 <= j < nj - 2 * nb && 0 <= k < NF ==>
      a[i, j, k] == f[i][j][k]
    ensures HoldsFluxI(a, eos, sqrt, recon, b, g, ni, nj, nb)
  {
  }

  /** what the j-sweep leaves, read back through the flux field it fills */
  lemma SweptJ(a: array3<real>, eos: IdealEoS, sqrt: SqrtFn, recon: Recon, b: BasicField, g: Geometry,
               ni: nat, nj: nat, nb: nat, f: Flux3)
    requires a.Length0 == ni && a.Length1 == nj && a.Length2 == NF && Inputs(recon, b, g, ni, nj, nb)
    requires FillsJ(f, eos, sqrt, recon, b, g, ni, nj, nb)
    requires forall i, j, k :: 0 <= i < ni - 2 * nb && 0 <= j < nj - 2 * nb + 1 && 0 <= k < NF ==>
      a[i, j, k] == f[i][j][k]
    ensures HoldsFluxJ(a, eos, sqrt, recon, b, g, ni, nj, nb)
  {
  }

  /** the differencing of the two filled flux arrays is the right-hand side */
  lemma DifferencedRhs(a: array3<real>, fi: array3<real>, fj: array3<real>, eos: IdealEoS, sqrt: SqrtFn,
                       recon: Recon, b: BasicField, g: Geometry, ni: nat, nj: nat, nb: nat)
    requires a.Length0 == ni && a.Length1 == nj && a.Length2 == NF
    requires HoldsFluxI(fi, eos, sqrt, recon, b, g, ni, nj, nb) && HoldsFluxJ(fj, eos, sqrt, recon, b, g, ni, nj, nb)
    requires forall i, j, k :: 0 <= i < ni - 2 * nb && 0 <= j < nj - 2 * nb && 0 <= k < NF ==>
      a[i, j, k] == fi[i, j, k] - fi[i + 1, j, k] + fj[i, j, k] - fj[i, j + 1, k]
    ensures HoldsRhs(a, eos, sqrt, recon, b, g, ni, nj, nb)
  {
  }

  /** a holds the i-interface fluxes of (b, g) on its first NI-2NB+1 x NJ-2NB cells */
  ghost predicate HoldsFluxI(a: array3<real>, eos: IdealEoS, sqrt: SqrtFn, recon: Recon, b: BasicField, g: Geometry,
                             ni: nat, nj: nat, nb: nat)
    reads a
  {
    && Inputs(recon, b, g, ni, nj, nb) && a.Length0 == ni && a.Length1 == nj && a.Length2 == NF
    && forall i, j, k :: 0 <= i < ni - 2 * nb + 1 && 0 <= j < nj - 2 * nb && 0 <= k < NF ==>
         a[i, j, k] == FluxI(eos, sqrt, recon, b, g, ni, nj, nb, i, j)[k]
  }

  /** a holds the j-interface fluxes of (b, g) on its first NI-2NB x NJ-2NB+1 cells */
  ghost predicate HoldsFluxJ(a: array3<real>, eos: IdealEoS, sqrt: SqrtFn, recon: Recon, b: BasicField, g: Geometry,
                             ni: nat, nj: nat, nb: nat)
    reads a
  {
    && Inputs(recon, b, g, ni, nj, nb) && a.Length0 == ni && a.Length1 == nj && a.Length2 == NF
    && forall i, j, k :: 0 <= i < ni - 2 * nb && 0 <= j < nj - 2 * nb + 1 && 0 <= k < NF ==>
         a[i, j, k] == FluxJ(eos, sqrt, recon, b, g, ni, nj, nb, i, j)[k]
  }

  /** a holds the right-hand side of (b, g) on its first NI-2NB x NJ-2NB cells */
  ghost predicate HoldsRhs(a: array3<real>, eos: IdealEoS, sqrt: SqrtFn, recon: Recon, b: BasicField, g: Geometry,
                           ni: nat, nj: nat, nb: nat)
    reads a
  {
    && Inputs(recon, b, g, ni, nj, nb) && a.Length0 == ni && a.Length1 == nj && a.Length2 == NF
    && forall i, j, k :: 0 <= i < ni - 2 * nb && 0 <= j < nj - 2 * nb && 0 <= k < NF ==>
         a[i, j, k] == RhsAt(eos, sqrt, recon, b, g, ni, nj, nb, i, j, k)
  }

  /** the first loop nest of calc_rhs; f is the flux field it fills in */
  method SweepI(eq: EulerEq, recon: Recon, fluxName: string, basic: BasicVarHD, coord: GenStructCoord,
                eos: IdealEoS, sqrt: SqrtFn, ghost f: Flux3)
    requires eq.Valid() && basic.Valid() && coord.Valid() && SizesOk(eq.ni, eq.nj, eq.nb)
    requires basic.ni == eq.ni && basic.nj == eq.nj && basic.nb == eq.nb
    requires coord.ni == eq.ni && coord.nj == eq.nj && coord.nb == eq.nb
    requires StencilOk(recon, eq.nb) && fluxName == "Roe_FDS"
    requires Inputs(recon, basic.Values(), GeomOf(coord), eq.ni, eq.nj, eq.nb)
    requires FillsI(f, eos, sqrt, recon, basic.Values(), GeomOf(coord), eq.ni, eq.nj, eq.nb)
    modifies eq.arrFi
    ensures forall i, j, k :: 0 <= i < eq.ni - 2 * eq.nb + 1 && 0 <= j < eq.nj - 2 * eq.nb && 0 <= k < NF ==>
      eq.arrFi[i, j, k] == f[i][j][k]
    ensures forall i, j, k :: 0 <= i < eq.ni && 0 <= j < eq.nj && 0 <= k < NF ==>
      !(i < eq.ni - 2 * eq.nb + 1 && j < eq.nj - 2 * eq.nb) ==> eq.arrFi[i, j, k] == old(eq.arrFi[i, j, k])
  {
    var ni, nj, nb := eq.ni, eq.nj, eq.nb;
    for i := 0 to ni - 2 * nb + 1
      invariant forall p, q, k :: 0 <= p < i && 0 <= q < nj - 2 * nb && 0 <= k < NF ==>
        eq.arrFi[p, q, k] == f[p][q][k]
      invariant forall p, q, k :: 0 <= p < ni && 0 <= q < nj && 0 <= k < NF ==>
        !(p < i && q < nj - 2 * nb) ==> eq.arrFi[p, q, k] == old(eq.arrFi[p, q, k])
    {
      for j := 0 to nj - 2 * nb
        invariant forall p, q, k :: 0 <= p < i && 0 <= q < nj - 2 * nb && 0 <= k < NF ==>
          eq.arrFi[p, q, k] == f[p][q][k]
        invariant forall q, k :: 0 <= q < j && 0 <= k < NF ==> eq.arrFi[i, q, k] == f[i][q][k]
        invariant forall p, q, k :: 0 <= p < ni && 0 <= q < nj && 0 <= k < NF ==>
          !(p < i && q < nj - 2 * nb) && !(p == i && q < j) ==> eq.arrFi[p, q, k] == old(eq.arrFi[p, q, k])
      {
        var fc := InterfaceI(recon, fluxName, basic, coord, eos, sqrt, i, j, f);
        StoreFlux(eq.arrFi, i, j, fc);
      }
    }
  }

  /** the body of the first loop nest: reconstruction and flux at i-interface (i, j) */
  method InterfaceI(recon: Recon, fluxName: string, basic: BasicVarHD, coord: GenStructCoord,
                    eos: IdealEoS, sqrt: SqrtFn, i: nat, j: nat, ghost f: Flux3) returns (fc: seq<real>)
    requires basic.Valid() && coord.Valid() && basic.ni == coord.ni && basic.nj == coord.nj && basic.nb == coord.nb
    requires SizesOk(coord.ni, coord.nj, coord.nb) && StencilOk(recon, coord.nb) && fluxName == "Roe_FDS"
    requires i < coord.ni - 2 * coord.nb + 1 && j < coord.nj - 2 * coord.nb
    requires Inputs(recon, basic.Values(), GeomOf(coord), coord.ni, coord.nj, coord.nb)
    requires FillsI(f, eos, sqrt, recon, basic.Values(), GeomOf(coord), coord.ni, coord.nj, coord.nb)
    ensures |fc| == NF && fc == f[i][j]
  {
    var sA, ixsA, iysA := GeometryI(coord, i, j);
    var lr := StatesI(recon, basic, i, j);
    var r := CalcNumFlux(fluxName, eos, sqrt, lr.0, lr.1, ixsA, iysA, sA);
    fc := r.value;
    FluxIOf(eos, sqrt, recon, basic.Values(), GeomOf(coord), coord.ni, coord.nj, coord.nb, i, j, lr, ixsA, iysA, sA);
  }

  /** the area and metrics calc_rhs averages onto i-interface (i, j) */
  method GeometryI(coord: GenStructCoord, i: nat, j: nat) returns (sA: real, ixsA: real, iysA: real)
    requires coord.Valid() && SizesOk(coord.ni, coord.nj, coord.nb) && coord.nb >= 2
    requires i < coord.ni - 2 * coord.nb + 1 && j < coord.nj - 2 * coord.nb
    ensures sA == AreaI(GeomOf(coord), coord.ni, coord.nj, coord.nb, i, j)
    ensures (ixsA, iysA) == MetricI(GeomOf(coord), coord.ni, coord.nj, coord.nb, i, j)
  {
    var nb := coord.nb;
    sA := 0.5 * (coord.s[nb + i - 1, nb + j - 1] + coord.s[nb + i - 1, nb + j]);
    ixsA := 0.5 * (coord.ixs[i, j + 1] + coord.ixs[i + 1, j + 1]);
    iysA := 0.5 * (coord.iys[i, j + 1] + coord.iys[i + 1, j + 1]);
  }

  /** the reconstruction calc_rhs applies at i-interface (i, j) */
  method StatesI(recon: Recon, basic: BasicVarHD, i: nat, j: nat) returns (lr: (Cell, Cell))
    requires basic.Valid() && SizesOk(basic.ni, basic.nj, basic.nb) && StencilOk(recon, basic.nb)
    requires i < basic.ni - 2 * basic.nb + 1 && j < basic.nj - 2 * basic.nb
    ensures lr == CellsI(recon, basic.Values(), basic.ni, basic.nj, basic.nb, i, j)
  {
    var nb := basic.nb;
    ghost var v := basic.Values();
    CellsIUnfold(recon, v, basic.ni, basic.nj, nb, i, j);
    match recon
    case MusclMinmodBasic =>
      var c0, c1 := CellAt(basic, nb + i - 2, nb + j), CellAt(basic, nb + i - 1, nb + j);
      var c2, c3 := CellAt(basic, nb + i, nb + j), CellAt(basic, nb + i + 1, nb + j);
      lr := ReconstByBasicMuscl(c0, c1, c2, c3);
    case Mp5Basic =>
      var c0, c1 := CellAt(basic, nb + i - 3, nb + j), CellAt(basic, nb + i - 2, nb + j);
      var c2, c3 := CellAt(basic, nb + i - 1, nb + j), CellAt(basic, nb + i, nb + j);
      var c4, c5 := CellAt(basic, nb + i + 1, nb + j), CellAt(basic, nb + i + 2, nb + j);
      lr := ReconstByBasicMp5(c0, c1, c2, c3, c4, c5);
  }

  /** the stencil of CellsI, cell by cell */
  lemma CellsIUnfold(recon: Recon, b: BasicField, ni: nat, nj: nat, nb: nat, i: nat, j: nat)
    requires b.Shaped(ni, nj) && StencilOk(recon, nb) && SizesOk(ni, nj, nb)
    requires i < ni - 2 * nb + 1 && j < nj - 2 * nb
    ensures recon.MusclMinmodBasic? ==>
      CellsI(recon, b, ni, nj, nb, i, j) ==
        ReconstByBasicMuscl(b.At(nb + i - 2, nb + j), b.At(nb + i - 1, nb + j), b.At(nb + i, nb + j), b.At(nb + i + 1, nb + j))
    ensures recon.Mp5Basic? ==>
      CellsI(recon, b, ni, nj, nb, i, j) ==
        ReconstByBasicMp5(b.At(nb + i - 3, nb + j), b.At(nb + i - 2, nb + j), b.At(nb + i - 1, nb + j),
                          b.At(nb + i, nb + j), b.At(nb + i + 1, nb + j), b.At(nb + i + 2, nb + j))
  {
  }

  lemma FluxIOf(eos: IdealEoS, sqrt: SqrtFn, recon: Recon, b: BasicField, g: Geometry, ni: nat, nj: nat,
                nb: nat, i: nat, j: nat, lr: (Cell, Cell), ixs: real, iys: real, s: real)
    requires Inputs(recon, b, g, ni, nj, nb) && i < ni - 2 * nb + 1 && j < nj - 2 * nb
    requires lr == CellsI(recon, b, ni, nj, nb, i, j) && (ixs, iys) == MetricI(g, ni, nj, nb, i, j)
    requires s == AreaI(g, ni, nj, nb, i, j)
    ensures FluxI(eos, sqrt, recon, b, g, ni, nj, nb, i, j) == RoeFdsFlux(eos, sqrt, lr.0, lr.1, ixs, iys, s)
  {
  }

  /** the second loop nest of calc_rhs; f is the flux field it fills in */
  method SweepJ(eq: EulerEq, recon: Recon, fluxName: string, basic: BasicVarHD, coord: GenStructCoord,
                eos: IdealEoS, sqrt: SqrtFn, ghost f: Flux3)
    requires eq.Valid() && basic.Valid() && coord.Valid() && SizesOk(eq.ni, eq.nj, eq.nb)
    requires basic.ni == eq.ni && basic.nj == eq.nj && basic.nb == eq.nb
    requires coord.ni == eq.ni && coord.nj == eq.nj && coord.nb == eq.nb
    requires StencilOk(recon, eq.nb) && fluxName == "Roe_FDS"
    requires Inputs(recon, basic.Values(), GeomOf(coord), eq.ni, eq.nj, eq.nb)
    requires FillsJ(f, eos, sqrt, recon, basic.Values(), GeomOf(coord), eq.ni, eq.nj, eq.nb)
    modifies eq.arrFj
    ensures forall i, j, k :: 0 <= i < eq.ni - 2 * eq.nb && 0 <= j < eq.nj - 2 * eq.nb + 1 && 0 <= k < NF ==>
      eq.arrFj[i, j, k] == f[i][j][k]
    ensures forall i, j, k :: 0 <= i < eq.ni && 0 <= j < eq.nj && 0 <= k < NF ==>
      !(i < eq.ni - 2 * eq.nb && j < eq.nj - 2 * eq.nb + 1) ==> eq.arrFj[i, j, k] == old(eq.arrFj[i, j, k])
  {
    var ni, nj, nb := eq.ni, eq.nj, eq.nb;
    for i := 0 to ni - 2 * nb
      invariant forall p, q, k :: 0 <= p < i && 0 <= q < nj - 2 * nb + 1 && 0 <= k < NF ==>
        eq.arrFj[p, q, k] == f[p][q][k]
      invariant forall p, q, k :: 0 <= p < ni && 0 <= q < nj && 0 <= k < NF ==>
        !(p < i && q < nj - 2 * nb + 1) ==> eq.arrFj[p, q, k] == old(eq.arrFj[p, q, k])
    {
      for j := 0 to nj - 2 * nb + 1
        invariant forall p, q, k :: 0 <= p < i && 0 <= q < nj - 2 * nb + 1 && 0 <= k < NF ==>
          eq.arrFj[p, q, k] == f[p][q][k]
        invariant forall q, k :: 0 <= q < j && 0 <= k < NF ==> eq.arrFj[i, q, k] == f[i][q][k]
        invariant forall p, q, k :: 0 <= p < ni && 0 <= q < nj && 0 <= k < NF ==>
          !(p < i && q < nj - 2 * nb + 1) && !(p == i && q < j) ==> eq.arrFj[p, q, k] == old(eq.arrFj[p, q, k])
      {
        var fc := InterfaceJ(recon, fluxName, basic, coord, eos, sqrt, i, j, f);
        StoreFlux(eq.arrFj, i, j, fc);
      }
    }
  }

  /** the body of the second loop nest: reconstruction and flux at j-interface (i, j) */
  method InterfaceJ(recon: Recon, fluxName: string, basic: BasicVarHD, coord: GenStructCoord,
                    eos: IdealEoS, sqrt: SqrtFn, i: nat, j: nat, ghost f: Flux3) returns (fc: seq<real>)
    requires basic.Valid() && coord.Valid() && basic.ni == coord.ni && basic.nj == coord.nj && basic.nb == coord.nb
    requires SizesOk(coord.ni, coord.nj, coord.nb) && StencilOk(recon, coord.nb) && fluxName == "Roe_FDS"
    requires i < coord.ni - 2 * coord.nb && j < coord.nj - 2 * coord.nb + 1
    requires Inputs(recon, basic.Values(), GeomOf(coord), coord.ni, coord.nj, coord.nb)
    requires FillsJ(f, eos, sqrt, recon, basic.Values(), GeomOf(coord), coord.ni, coord.nj, coord.nb)
    ensures |fc| == NF && fc == f[i][j]
  {
    var sA, jxsA, jysA := GeometryJ(coord, i, j);
    var lr := StatesJ(recon, basic, i, j);
    var r := CalcNumFlux(fluxName, eos, sqrt, lr.0, lr.1, jxsA, jysA, sA);
    fc := r.value;
    FluxJOf(eos, sqrt, recon, basic.Values(), GeomOf(coord), coord.ni, coord.nj, coord.nb, i, j, lr, jxsA, jysA, sA);
  }

  /** the area and metrics calc_rhs averages onto j-interface (i, j) */
  method GeometryJ(coord: GenStructCoord, i: nat, j: nat) returns (sA: real, jxsA: real, jysA: real)
    requires coord.Valid() && SizesOk(coord.ni, coord.nj, coord.nb) && coord.nb >= 2
    requires i < coord.ni - 2 * coord.nb && j < coord.nj - 2 * coord.nb + 1
    ensures sA == AreaJ(GeomOf(coord), coord.ni, coord.nj, coord.nb, i, j)
    ensures (jxsA, jysA) == MetricJ(GeomOf(coord), coord.ni, coord.nj, coord.nb, i, j)
  {
    var nb := coord.nb;
    sA := 0.5 * (coord.s[nb + i - 1, nb + j - 1] + coord.s[nb + i, nb + j - 1]);
    jxsA := 0.5 * (coord.jxs[i + 1, j] + coord.jxs[i + 1, j + 1]);
    jysA := 0.5 * (coord.jys[i + 1, j] + coord.jys[i + 1, j + 1]);
  }

  /** the reconstruction calc_rhs applies at j-interface (i, j) */
  method StatesJ(recon: Recon, basic: BasicVarHD, i: nat, j: nat) returns (lr: (Cell, Cell))
    requires basic.Valid() && SizesOk(basic.ni, basic.nj, basic.nb) && StencilOk(recon, basic.nb)
    requires i < basic.ni - 2 * basic.nb && j < basic.nj - 2 * basic.nb + 1
    ensures lr == CellsJ(recon, basic.Values(), basic.ni, basic.nj, basic.nb, i, j)
  {
    var nb := basic.nb;
    ghost var v := basic.Values();
    CellsJUnfold(recon, v, basic.ni, basic.nj, nb, i, j);
    match recon
    case MusclMinmodBasic =>
      var c0, c1 := CellAt(basic, nb + i, nb + j - 2), CellAt(basic, nb + i, nb + j - 1);
      var c2, c3 := CellAt(basic, nb + i, nb + j), CellAt(basic, nb + i, nb + j + 1);
      lr := ReconstByBasicMuscl(c0, c1, c2, c3);
    case Mp5Basic =>
      var c0, c1 := CellAt(basic, nb + i, nb + j - 3), CellAt(basic, nb + i, nb + j - 2);
      var c2, c3 := CellAt(basic, nb + i, nb + j - 1), CellAt(basic, nb + i, nb + j);
      var c4, c5 := CellAt(basic, nb + i, nb + j + 1), CellAt(basic, nb + i, nb + j + 2);
      lr := ReconstByBasicMp5(c0, c1, c2, c3, c4, c5);
  }
  /** the stencil of CellsJ, cell by cell */
  lemma CellsJUnfold(recon: Recon, b: BasicField, ni: nat, nj: nat, nb: nat, i: nat, j: nat)
    requires b.Shaped(ni, nj) && StencilOk(recon, nb) && SizesOk(ni, nj, nb)
    requires i < ni - 2 * nb && j < nj - 2 * nb + 1
    ensures recon.MusclMinmodBasic? ==>
      CellsJ(recon, b, ni, nj, nb, i, j) ==
        ReconstByBasicMuscl(b.At(nb + i, nb + j - 2), b.At(nb + i, nb + j - 1), b.At(nb + i, nb + j), b.At(nb + i, nb + j + 1))
    ensures recon.Mp5Basic? ==>
      CellsJ(recon, b, ni, nj, nb, i, j) ==
        ReconstByBasicMp5(b.At(nb + i, nb + j - 3), b.At(nb + i, nb + j - 2), b.At(nb + i, nb + j - 1),
                          b.At(nb + i, nb + j), b.At(nb + i, nb + j + 1), b.At(nb + i, nb + j + 2))
  {
  }


  lemma FluxJOf(eos: IdealEoS, sqrt: SqrtFn, recon: Recon, b: BasicField, g: Geometry, ni: nat, nj: nat,
                nb: nat, i: nat, j: nat, lr: (Cell, Cell), jxs: real, jys: real, s: real)
    requires Inputs(recon, b, g, ni, nj, nb) && i < ni - 2 * nb && j < nj - 2 * nb + 1
    requires lr == CellsJ(recon, b, ni, nj, nb, i, j) && (jxs, jys) == MetricJ(g, ni, nj, nb, i, j)
    requires s == AreaJ(g, ni, nj, nb, i, j)
    ensures FluxJ(eos, sqrt, recon, b, g, ni, nj, nb, i, j) == RoeFdsFlux(eos, sqrt, lr.0, lr.1, jxs, jys, s)
  {
  }

  /** the four basic variables of cell (i, j), read from the arrays */
  function CellAt(b: BasicVarHD, i: nat, j: nat): (c: Cell)
    requires b.Valid() && i < b.ni && j < b.nj
    reads b.rho, b.u, b.v, b.e
    ensures c == b.Values().At(i, j)
  {
    Cell(b.rho[i, j], b.u[i, j], b.v[i, j], b.e[i, j])
  }

  /** the flux vector f written into slot (i, j) of a flux array */
  method StoreFlux(a: array3<real>, i: nat, j: nat, f: seq<real>)
    requires i < a.Length0 && j < a.Length1 && a.Length2 == NF && |f| == NF
    modifies a
    ensures forall k :: 0 <= k < NF ==> a[i, j, k] == f[k]
    ensures forall p, q, k :: 0 <= p < a.Length0 && 0 <= q < a.Length1 && 0 <= k < NF && (p != i || q != j) ==>
      a[p, q, k] == old(a[p, q, k])
  {
    for k := 0 to NF
      invariant forall k' :: 0 <= k' < k ==> a[i, j, k'] == f[k']
      invariant forall p, q, k' :: 0 <= p < a.Length0 && 0 <= q < a.Length1 && 0 <= k' < NF ==>
        (p != i || q != j || k' >= k) ==> a[p, q, k'] == old(a[p, q, k'])
    {
      a[i, j, k] := f[k];
    }
  }

  /** the last loop nest of calc_rhs */
  method Differences(eq: EulerEq, arrQ: array3<real>)
    requires eq.Valid() && arrQ.Length0 == eq.ni && arrQ.Length1 == eq.nj && arrQ.Length2 == NF
    requires arrQ != eq.arrFi && arrQ != eq.arrFj && SizesOk(eq.ni, eq.nj, eq.nb) && eq.nb >= 1
    modifies arrQ
    ensures forall i, j, k :: 0 <= i < eq.ni - 2 * eq.nb && 0 <= j < eq.nj - 2 * eq.nb && 0 <= k < NF ==>
      arrQ[i, j, k] == eq.arrFi[i, j, k] - eq.arrFi[i + 1, j, k] + eq.arrFj[i, j, k] - eq.arrFj[i, j + 1, k]
    ensures forall i, j, k :: 0 <= i < eq.ni && 0 <= j < eq.nj && 0 <= k < NF ==>
      !(i < eq.ni - 2 * eq.nb && j < eq.nj - 2 * eq.nb) ==> arrQ[i, j, k] == old(arrQ[i, j, k])
  {
    var ni, nj, nb := eq.ni, eq.nj, eq.nb;
    for i := 0 to ni - 2 * nb
      invariant forall p, q, k :: 0 <= p < i && 0 <= q < nj - 2 * nb && 0 <= k < NF ==>
        arrQ[p, q, k] == eq.arrFi[p, q, k] - eq.arrFi[p + 1, q, k] + eq.arrFj[p, q, k] - eq.arrFj[p, q + 1, k]
      invariant forall p, q, k :: 0 <= p < ni && 0 <= q < nj && 0 <= k < NF && !(p < i && q < nj - 2 * nb) ==>
        arrQ[p, q, k] == old(arrQ[p, q, k])
    {
      DifferencesRow(arrQ, eq.arrFi, eq.arrFj, i, nj - 2 * nb);
    }
  }

  /** one pass of the outer loop of the differencing: row i of the increment, cells 0 .. mj-1 */
  method DifferencesRow(a: array3<real>, fi: array3<real>, fj: array3<real>, i: nat, mj: nat)
    requires a != fi && a != fj && a.Length2 == NF && fi.Length2 == NF && fj.Length2 == NF
    requires i < a.Length0 && i + 1 < fi.Length0 && i < fj.Length0
    requires mj <= a.Length1 && mj <= fi.Length1 && mj < fj.Length1
    modifies a
    ensures forall q, k :: 0 <= q < mj && 0 <= k < NF ==>
      a[i, q, k] == fi[i, q, k] - fi[i + 1, q, k] + fj[i, q, k] - fj[i, q + 1, k]
    ensures forall p, q, k :: 0 <= p < a.Length0 && 0 <= q < a.Length1 && 0 <= k < NF && (p != i || q >= mj) ==>
      a[p, q, k] == old(a[p, q, k])
  {
    for j := 0 to mj
      invariant forall q, k :: 0 <= q < j && 0 <= k < NF ==>
        a[i, q, k] == fi[i, q, k] - fi[i + 1, q, k] + fj[i, q, k] - fj[i, q + 1, k]
      invariant forall p, q, k :: 0 <= p < a.Length0 && 0 <= q < a.Length1 && 0 <= k < NF && (p != i || q >= j) ==>
        a[p, q, k] == old(a[p, q, k])
    {
      DifferencesCell(a, fi, fj, i, j);
    }
  }

  /** the innermost loop of the differencing: the NF components of cell (i, j) */
  method DifferencesCell(a: array3<real>, fi: array3<real>, fj: array3<real>, i: nat, j: nat)
    requires a != fi && a != fj && a.Length2 == NF && fi.Length2 == NF && fj.Length2 == NF
    requires i < a.Length0 && i + 1 < fi.Length0 && i < fj.Length0
    requires j < a.Length1 && j < fi.Length1 && j + 1 < fj.Length1
    modifies a
    ensures forall k :: 0 <= k < NF ==> a[i, j, k] == fi[i, j, k] - fi[i + 1, j, k] + fj[i, j, k] - fj[i, j + 1, k]
    ensures forall p, q, k :: 0 <= p < a.Length0 && 0 <= q < a.Length1 && 0 <= k < NF && (p != i || q != j) ==>
      a[p, q, k] == old(a[p, q, k])
  {
    for k := 0 to NF
      invariant forall k' :: 0 <= k' < k ==> a[i, j, k'] == fi[i, j, k'] - fi[i + 1, j, k'] + fj[i, j, k'] - fj[i, j + 1, k']
      invariant forall p, q, k' :: 0 <= p < a.Length0 && 0 <= q < a.Length1 && 0 <= k' < NF && (p != i || q != j || k' >= k) ==>
        a[p, q, k'] == old(a[p, q, k'])
    {
      a[i, j, k] := fi[i, j, k] - fi[i + 1, j, k] + fj[i, j, k] - fj[i, j + 1, k];
    }
  }


  // ---------------------------------------------------------------------------
  // properties of the right-hand side

  /** sum of f[i][j][k] over j < n */
  function SumJ(f: Flux3, n0: nat, n1: nat, i: nat, k: nat, n: nat): real
    requires IsFlux3(f, n0, n1) && i < n0 && n <= n1 && k < NF
  {
    if n == 0 then 0.0 else SumJ(f, n0, n1, i, k, n - 1) + f[i][n - 1][k]
  }

  /** sum of f[i][j][k] over i < m */
  function SumI(f: Flux3, n0: nat, n1: nat, j: nat, k: nat, m: nat): real
    requires IsFlux3(f, n0, n1) && j < n1 && m <= n0 && k < NF
  {
    if m == 0 then 0.0 else SumI(f, n0, n1, j, k, m - 1) + f[m - 1][j][k]
  }

  /** sum of component k of q over the first m rows of an n0 x n1 interior */
  function Total(q: Flux3, n0: nat, n1: nat, k: nat, m: nat): real
    requires IsFlux3(q, n0, n1) && m <= n0 && k < NF
  {
    if m == 0 then 0.0 else Total(q, n0, n1, k, m - 1) + SumJ(q, n0, n1, m - 1, k, n1)
  }

  /** Along one row of cells the balances telescope to the i-fluxes of the row's two
      faces and the j-fluxes at its two ends. */
  lemma {:induction false} RowTelescope(q: Flux3, fi: Flux3, fj: Flux3, mi: nat, mj: nat, i: nat, k: nat, n: nat)
    requires IsFlux3(q, mi, mj) && IsFlux3(fi, mi + 1, mj) && IsFlux3(fj, mi, mj + 1)
    requires i < mi && n <= mj && k < NF
    requires forall j :: 0 <= j < mj ==> q[i][j][k] == Diff(fi, fj, mi, mj, i, j, k)
    ensures SumJ(q, mi, mj, i, k, n)
      == SumJ(fi, mi + 1, mj, i, k, n) - SumJ(fi, mi + 1, mj, i + 1, k, n) + fj[i][0][k] - fj[i][n][k]
  {
    if n > 0 {
      RowTelescope(q, fi, fj, mi, mj, i, k, n - 1);
    }
  }

  /** Discrete conservation: summed over the first m rows of cells, the balances leave
      only the fluxes through the boundary of those rows. */
  lemma {:induction false} Telescope(q: Flux3, fi: Flux3, fj: Flux3, mi: nat, mj: nat, k: nat, m: nat)
    requires IsFlux3(q, mi, mj) && IsFlux3(fi, mi + 1, mj) && IsFlux3(fj, mi, mj + 1)
    requires m <= mi && k < NF
    requires forall i, j :: 0 <= i < mi && 0 <= j < mj ==> q[i][j][k] == Diff(fi, fj, mi, mj, i, j, k)
    ensures Total(q, mi, mj, k, m)
      == SumJ(fi, mi + 1, mj, 0, k, mj) - SumJ(fi, mi + 1, mj, m, k, mj)
         + SumI(fj, mi, mj + 1, 0, k, m) - SumI(fj, mi, mj + 1, mj, k, m)
  {
    if m > 0 {
      Telescope(q, fi, fj, mi, mj, k, m - 1);
      RowTelescope(q, fi, fj, mi, mj, m - 1, k, mj);
    }
  }

  /** The right-hand side of calc_rhs is conservative: for the flux fields fi and fj of
      the two sweeps, its sum over the whole interior is the flux entering through the
      low faces minus the flux leaving through the high faces, in both directions. */
  lemma Conservation(eos: IdealEoS, sqrt: SqrtFn, recon: Recon, b: BasicField, g: Geometry,
                     ni: nat, nj: nat, nb: nat, fi: Flux3, fj: Flux3, k: nat)
    requires Inputs(recon, b, g, ni, nj, nb) && k < NF
    requires FillsI(fi, eos, sqrt, recon, b, g, ni, nj, nb) && FillsJ(fj, eos, sqrt, recon, b, g, ni, nj, nb)
    ensures var mi, mj := ni - 2 * nb, nj - 2 * nb;
      Total(Balance(fi, fj, mi, mj), mi, mj, k, mi)
        == SumJ(fi, mi + 1, mj, 0, k, mj) - SumJ(fi, mi + 1, mj, mi, k, mj)
           + SumI(fj, mi, mj + 1, 0, k, mi) - SumI(fj, mi, mj + 1, mj, k, mi)
  {
    var mi, mj := ni - 2 * nb, nj - 2 * nb;
    Telescope(Balance(fi, fj, mi, mj), fi, fj, mi, mj, k, mi);
  }

  /** every cell of the basic state holds c */
  ghost predicate Uniform(b: BasicField, c: Cell, ni: nat, nj: nat)
    requires b.Shaped(ni, nj)
  {
    forall p, q :: 0 <= p < ni && 0 <= q < nj ==> b.At(p, q) == c
  }

  /** the metric arrays hold the same four values in the whole region calc_metrices_dx fills */
  ghost predicate ConstantMetrics(g: Geometry, ni: nat, nj: nat, nb: nat, ix: real, iy: real, jx: real, jy: real)
    requires g.Shaped(ni, nj) && nb >= 1
  {
    forall p, q :: 0 <= p < ni - 2 * nb + 2 && 0 <= q < nj - 2 * nb + 2 ==>
      g.ixs[p][q] == ix && g.iys[p][q] == iy && g.jxs[p][q] == jx && g.jys[p][q] == jy
  }

  /** Free-stream preservation: a uniform state on a grid with constant metrics has the
      physical flux at every interface and a zero right-hand side. */
  lemma FreeStream(eos: IdealEoS, sqrt: SqrtFn, recon: Recon, b: BasicField, g: Geometry,
                   ni: nat, nj: nat, nb: nat, c: Cell, ix: real, iy: real, jx: real, jy: real)
    requires Inputs(recon, b, g, ni, nj, nb)
    requires Uniform(b, c, ni, nj) && ConstantMetrics(g, ni, nj, nb, ix, iy, jx, jy)
    ensures forall i, j :: 0 <= i < ni - 2 * nb + 1 && 0 <= j < nj - 2 * nb ==>
      FluxI(eos, sqrt, recon, b, g, ni, nj, nb, i, j) == CalcFluxConv(eos, c, ix, iy)
    ensures forall i, j :: 0 <= i < ni - 2 * nb && 0 <= j < nj - 2 * nb + 1 ==>
      FluxJ(eos, sqrt, recon, b, g, ni, nj, nb, i, j) == CalcFluxConv(eos, c, jx, jy)
    ensures forall i, j, k :: 0 <= i < ni - 2 * nb && 0 <= j < nj - 2 * nb && 0 <= k < NF ==>
      RhsAt(eos, sqrt, recon, b, g, ni, nj, nb, i, j, k) == 0.0
  {
    UniformFluxI(eos, sqrt, recon, b, g, ni, nj, nb, c, ix, iy, jx, jy);
    UniformFluxJ(eos, sqrt, recon, b, g, ni, nj, nb, c, ix, iy, jx, jy);
  }

  /** the i-interface half of FreeStream */
  lemma UniformFluxI(eos: IdealEoS, sqrt: SqrtFn, recon: Recon, b: BasicField, g: Geometry,
                     ni: nat, nj: nat, nb: nat, c: Cell, ix: real, iy: real, jx: real, jy: real)
    requires Inputs(recon, b, g, ni, nj, nb)
    requires Uniform(b, c, ni, nj) && ConstantMetrics(g, ni, nj, nb, ix, iy, jx, jy)
    ensures forall i, j :: 0 <= i < ni - 2 * nb + 1 && 0 <= j < nj - 2 * nb ==>
      FluxI(eos, sqrt, recon, b, g, ni, nj, nb, i, j) == CalcFluxConv(eos, c, ix, iy)
  {
    forall i, j | 0 <= i < ni - 2 * nb + 1 && 0 <= j < nj - 2 * nb
      ensures FluxI(eos, sqrt, recon, b, g, ni, nj, nb, i, j) == CalcFluxConv(eos, c, ix, iy)
    {
      assert CellsI(recon, b, ni, nj, nb, i, j) == (c, c);
      assert MetricI(g, ni, nj, nb, i, j) == (ix, iy);
      RoeFdsConsistent(eos, sqrt, c, ix, iy, AreaI(g, ni, nj, nb, i, j));
    }
  }

  /** the j-interface half of FreeStream */
  lemma UniformFluxJ(eos: IdealEoS, sqrt: SqrtFn, recon: Recon, b: BasicField, g: Geometry,
                     ni: nat, nj: nat, nb: nat, c: Cell, ix: real, iy: real, jx: real, jy: real)
    requires Inputs(recon, b, g, ni, nj, nb)
    requires Uniform(b, c, ni, nj) && ConstantMetrics(g, ni, nj, nb, ix, iy, jx, jy)
    ensures forall i, j :: 0 <= i < ni - 2 * nb && 0 <= j < nj - 2 * nb + 1 ==>
      FluxJ(eos, sqrt, recon, b, g, ni, nj, nb, i, j) == CalcFluxConv(eos, c, jx, jy)
  {
    forall i, j | 0 <= i < ni - 2 * nb && 0 <= j < nj - 2 * nb + 1
      ensures FluxJ(eos, sqrt, recon, b, g, ni, nj, nb, i, j) == CalcFluxConv(eos, c, jx, jy)
    {
      assert CellsJ(recon, b, ni, nj, nb, i, j) == (c, c);
      assert MetricJ(g, ni, nj, nb, i, j) == (jx, jy);
      RoeFdsConsistent(eos, sqrt, c, jx, jy, AreaJ(g, ni, nj, nb, i, j));
    }
  }

  /** the metric arrays hold the metrics of the grid x, y where calc_metrices_dx writes them */
  ghost predicate MetricsOf(g: Geometry, x: Field, y: Field, ni: nat, nj: nat, nb: nat)
    requires g.Shaped(ni, nj) && Coordinate.Points(x, y, ni, nj, nb)
  {
    forall p, q :: 0 <= p < ni - 2 * nb + 2 && 0 <= q < nj - 2 * nb + 2 ==>
      Coordinate.MetricsAt(x, y, ni, nj, nb, p, q) == Coordinate.Metrics(g.ixs[p][q], g.iys[p][q], g.jxs[p][q], g.jys[p][q])
  }

  /** On a Cartesian grid with spacings hx, hy, a uniform state is a steady solution of
      the semi-discrete equations. */
  lemma CartesianFreeStream(eos: IdealEoS, sqrt: SqrtFn, recon: Recon, b: BasicField, g: Geometry,
                            ni: nat, nj: nat, nb: nat, x: Field, y: Field, x0: real, y0: real,
                            hx: real, hy: real, c: Cell)
    requires Inputs(recon, b, g, ni, nj, nb) && Coordinate.Points(x, y, ni, nj, nb)
    requires forall p, q :: 0 <= p < ni && 0 <= q < nj ==>
      x[p][q] == x0 + (p as real) * hx && y[p][q] == y0 + (q as real) * hy
    requires MetricsOf(g, x, y, ni, nj, nb) && Uniform(b, c, ni, nj)
    ensures forall i, j, k :: 0 <= i < ni - 2 * nb && 0 <= j < nj - 2 * nb && 0 <= k < NF ==>
      RhsAt(eos, sqrt, recon, b, g, ni, nj, nb, i, j, k) == 0.0
  {
    forall p, q | 0 <= p < ni - 2 * nb + 2 && 0 <= q < nj - 2 * nb + 2
      ensures g.ixs[p][q] == hy && g.iys[p][q] == 0.0 && g.jxs[p][q] == 0.0 && g.jys[p][q] == hx
    {
      Coordinate.CartesianMetrics(x, y, ni, nj, nb, x0, y0, hx, hy, p, q);
    }
    FreeStream(eos, sqrt, recon, b, g, ni, nj, nb, c, hy, 0.0, 0.0, hx);
  }

  /** the two geometries agree wherever calc_metrices_dx writes: the inverse Jacobian on
      [0, NI-1) x [0, NJ-1), the metrics on [0, NI-2NB+2) x [0, NJ-2NB+2) */
  ghost predicate AgreeOnRegions(g: Geometry, h: Geometry, ni: nat, nj: nat, nb: nat)
    requires g.Shaped(ni, nj) && h.Shaped(ni, nj) && nb >= 1
  {
    && (forall p, q :: 0 <= p < ni - 1 && 0 <= q < nj - 1 ==> g.s[p][q] == h.s[p][q])
    && (forall p, q :: 0 <= p < ni - 2 * nb + 2 && 0 <= q < nj - 2 * nb + 2 ==>
          g.ixs[p][q] == h.ixs[p][q] && g.iys[p][q] == h.iys[p][q]
          && g.jxs[p][q] == h.jxs[p][q] && g.jys[p][q] == h.jys[p][q])
  }

  /** calc_rhs reads the grid only inside the regions calc_metrices_dx fills: whatever
      the arrays hold elsewhere, every interface flux, and so the right-hand side, is the
      same. */
  lemma ReadsFilledRegions(eos: IdealEoS, sqrt: SqrtFn, recon: Recon, b: BasicField, g: Geometry, h: Geometry,
                           ni: nat, nj: nat, nb: nat)
    requires Inputs(recon, b, g, ni, nj, nb) && Inputs(recon, b, h, ni, nj, nb)
    requires AgreeOnRegions(g, h, ni, nj, nb)
    ensures forall i, j :: 0 <= i < ni - 2 * nb + 1 && 0 <= j < nj - 2 * nb ==>
      FluxI(eos, sqrt, recon, b, g, ni, nj, nb, i, j) == FluxI(eos, sqrt, recon, b, h, ni, nj, nb, i, j)
    ensures forall i, j :: 0 <= i < ni - 2 * nb && 0 <= j < nj - 2 * nb + 1 ==>
      FluxJ(eos, sqrt, recon, b, g, ni, nj, nb, i, j) == FluxJ(eos, sqrt, recon, b, h, ni, nj, nb, i, j)
  {
    forall i, j | 0 <= i < ni - 2 * nb + 1 && 0 <= j < nj - 2 * nb
      ensures FluxI(eos, sqrt, recon, b, g, ni, nj, nb, i, j) == FluxI(eos, sqrt, recon, b, h, ni, nj, nb, i, j)
    {
      FaceIAgrees(eos, sqrt, recon, b, g, h, ni, nj, nb, i, j);
    }
    forall i, j | 0 <= i < ni - 2 * nb && 0 <= j < nj - 2 * nb + 1
      ensures FluxJ(eos, sqrt, recon, b, g, ni, nj, nb, i, j) == FluxJ(eos, sqrt, recon, b, h, ni, nj, nb, i, j)
    {
      FaceJAgrees(eos, sqrt, recon, b, g, h, ni, nj, nb, i, j);
    }
  }

  lemma FaceIAgrees(eos: IdealEoS, sqrt: SqrtFn, recon: Recon, b: BasicField, g: Geometry, h: Geometry,
                    ni: nat, nj: nat, nb: nat, i: nat, j: nat)
    requires Inputs(recon, b, g, ni, nj, nb) && Inputs(recon, b, h, ni, nj, nb)
    requires AgreeOnRegions(g, h, ni, nj, nb) && i < ni - 2 * nb + 1 && j < nj - 2 * nb
    ensures FluxI(eos, sqrt, recon, b, g, ni, nj, nb, i, j) == FluxI(eos, sqrt, recon, b, h, ni, nj, nb, i, j)
  {
    GridIAgrees(g, h, ni, nj, nb, i, j);
    FluxISameGrid(eos, sqrt, recon, b, g, h, ni, nj, nb, i, j);
  }

  lemma FaceJAgrees(eos: IdealEoS, sqrt: SqrtFn, recon: Recon, b: BasicField, g: Geometry, h: Geometry,
                    ni: nat, nj: nat, nb: nat, i: nat, j: nat)
    requires Inputs(recon, b, g, ni, nj, nb) && Inputs(recon, b, h, ni, nj, nb)
    requires AgreeOnRegions(g, h, ni, nj, nb) && i < ni - 2 * nb && j < nj - 2 * nb + 1
    ensures FluxJ(eos, sqrt, recon, b, g, ni, nj, nb, i, j) == FluxJ(eos, sqrt, recon, b, h, ni, nj, nb, i, j)
  {
    GridJAgrees(g, h, ni, nj, nb, i, j);
    FluxJSameGrid(eos, sqrt, recon, b, g, h, ni, nj, nb, i, j);
  }

  /** grids that agree on the filled regions give i-interface (i, j) the same metrics and area */
  lemma GridIAgrees(g: Geometry, h: Geometry, ni: nat, nj: nat, nb: nat, i: nat, j: nat)
    requires g.Shaped(ni, nj) && h.Shaped(ni, nj) && SizesOk(ni, nj, nb) && nb >= 2
    requires AgreeOnRegions(g, h, ni, nj, nb) && i < ni - 2 * nb + 1 && j < nj - 2 * nb
    ensures MetricI(g, ni, nj, nb, i, j) == MetricI(h, ni, nj, nb, i, j)
    ensures AreaI(g, ni, nj, nb, i, j) == AreaI(h, ni, nj, nb, i, j)
  {
    assert g.s[nb + i - 1][nb + j - 1] == h.s[nb + i - 1][nb + j - 1];
    assert g.s[nb + i - 1][nb + j] == h.s[nb + i - 1][nb + j];
    assert g.ixs[i][j + 1] == h.ixs[i][j + 1] && g.iys[i][j + 1] == h.iys[i][j + 1];
    assert g.ixs[i + 1][j + 1] == h.ixs[i + 1][j + 1] && g.iys[i + 1][j + 1] == h.iys[i + 1][j + 1];
  }

  /** ... and j-interface (i, j) */
  lemma GridJAgrees(g: Geometry, h: Geometry, ni: nat, nj: nat, nb: nat, i: nat, j: nat)
    requires g.Shaped(ni, nj) && h.Shaped(ni, nj) && SizesOk(ni, nj, nb) && nb >= 2
    requires AgreeOnRegions(g, h, ni, nj, nb) && i < ni - 2 * nb && j < nj - 2 * nb + 1
    ensures MetricJ(g, ni, nj, nb, i, j) == MetricJ(h, ni, nj, nb, i, j)
    ensures AreaJ(g, ni, nj, nb, i, j) == AreaJ(h, ni, nj, nb, i, j)
  {
    assert g.s[nb + i - 1][nb + j - 1] == h.s[nb + i - 1][nb + j - 1];
    assert g.s[nb + i][nb + j - 1] == h.s[nb + i][nb + j - 1];
    assert g.jxs[i + 1][j] == h.jxs[i + 1][j] && g.jys[i + 1][j] == h.jys[i + 1][j];
    assert g.jxs[i + 1][j + 1] == h.jxs[i + 1][j + 1] && g.jys[i + 1][j + 1] == h.jys[i + 1][j + 1];
  }

  /** the i-interface flux depends on the grid only through the interface's metrics and area */
  lemma FluxISameGrid(eos: IdealEoS, sqrt: SqrtFn, recon: Recon, b: BasicField, g: Geometry, h: Geometry,
                    ni: nat, nj: nat, nb: nat, i: nat, j: nat)
    requires Inputs(recon, b, g, ni, nj, nb) && Inputs(recon, b, h, ni, nj, nb)
    requires i < ni - 2 * nb + 1 && j < nj - 2 * nb
    requires MetricI(g, ni, nj, nb, i, j) == MetricI(h, ni, nj, nb, i, j)
    requires AreaI(g, ni, nj, nb, i, j) == AreaI(h, ni, nj, nb, i, j)
    ensures FluxI(eos, sqrt, recon, b, g, ni, nj, nb, i, j) == FluxI(eos, sqrt, recon, b, h, ni, nj, nb, i, j)
  {
  }

  /** the j-interface flux depends on the grid only through the interface's metrics and area */
  lemma FluxJSameGrid(eos: IdealEoS, sqrt: SqrtFn, recon: Recon, b: BasicField, g: Geometry, h: Geometry,
                    ni: nat, nj: nat, nb: nat, i: nat, j: nat)
    requires Inputs(recon, b, g, ni, nj, nb) && Inputs(recon, b, h, ni, nj, nb)
    requires i < ni - 2 * nb && j < nj - 2 * nb + 1
    requires MetricJ(g, ni, nj, nb, i, j) == MetricJ(h, ni, nj, nb, i, j)
    requires AreaJ(g, ni, nj, nb, i, j) == AreaJ(h, ni, nj, nb, i, j)
    ensures FluxJ(eos, sqrt, recon, b, g, ni, nj, nb, i, j) == FluxJ(eos, sqrt, recon, b, h, ni, nj, nb, i, j)
  {
  }
}
