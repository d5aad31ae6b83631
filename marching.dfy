/** Time marching (src/fluid2d/marching.rs): the CFL time step and one step of the
    third-order strong-stability-preserving Runge-Kutta scheme.

    Interior cell (i, j), 0 <= i < NI-2NB, 0 <= j < NJ-2NB, is basic cell (NB+i, NB+j)
    and entry [i][j] of arr_q0, arr_q1 and arr_q2.  The step is specified on values by
    `Ssprk3`: the conserved state q0 of the basic state, three stages each made of a
    right-hand side, a stage update, the conversion back to basic variables in the
    interior and the periodic boundary copy. */
module Marching {
  import opened F64
  import opened Fluid2d
  import opened Eos
  import opened Conserved
  import opened Eq
  import opened Bc

  // ---------------------------------------------------------------------------
  // calc_cfl

  /** the starting value of nu in calc_cfl */
  const NuInit: real := 1.0e10

  /** The denominator of calc_cfl at interior cell (i, j): speed of sound plus
      speed of the flow. */
  function WaveSpeed(eos: IdealEoS, sqrt: SqrtFn, c: Cell): real
  {
    CalcCs(eos, sqrt, c.rho, c.u, c.v, c.e) + sqrt(c.u * c.u + c.v * c.v)
  }

  /** dx / (cs + |velocity|) at interior cell (i, j).  None where the wave speed is zero:
      the f64 quotient is then an infinity or NaN, which f64::min passes over. */
  function CellBound(eos: IdealEoS, sqrt: SqrtFn, b: BasicField, dx: Field,
                     ni: nat, nj: nat, nb: nat, i: nat, j: nat): (t: Option<real>)
    requires b.Shaped(ni, nj) && IsField(dx, ni, nj) && i < ni - 2 * nb && j < nj - 2 * nb
    ensures t.Some? <==> WaveSpeed(eos, sqrt, b.At(nb + i, nb + j)) != 0.0
  {
    var w := WaveSpeed(eos, sqrt, b.At(nb + i, nb + j));
    if w == 0.0 then None else Some(Div(dx[i][j], w))
  }

  /** the time-step bound of every interior cell, row i and column j of the interior */
  function Bounds(eos: IdealEoS, sqrt: SqrtFn, b: BasicField, dx: Field, ni: nat, nj: nat, nb: nat)
    : (g: seq<seq<Option<real>>>)
    requires b.Shaped(ni, nj) && IsField(dx, ni, nj) && ni >= 2 * nb && nj >= 2 * nb
    ensures IsBounds(g, eos, sqrt, b, dx, ni, nj, nb)
  {
    seq(ni - 2 * nb, i requires 0 <= i < ni - 2 * nb =>
      seq(nj - 2 * nb, j requires 0 <= j < nj - 2 * nb => CellBound(eos, sqrt, b, dx, ni, nj, nb, i, j)))
  }

  /** g holds the bound of every interior cell */
  ghost predicate IsBounds(g: seq<seq<Option<real>>>, eos: IdealEoS, sqrt: SqrtFn, b: BasicField, dx: Field,
                           ni: nat, nj: nat, nb: nat)
    requires b.Shaped(ni, nj) && IsField(dx, ni, nj) && ni >= 2 * nb && nj >= 2 * nb
  {
    && Rect(g, ni - 2 * nb, nj - 2 * nb)
    && forall i, j {:trigger CellBound(eos, sqrt, b, dx, ni, nj, nb, i, j)} ::
         0 <= i < ni - 2 * nb && 0 <= j < nj - 2 * nb ==> g[i][j] == CellBound(eos, sqrt, b, dx, ni, nj, nb, i, j)
  }

  /** g has m rows of n entries */
  ghost predicate Rect(g: seq<seq<Option<real>>>, m: nat, n: nat)
  {
    |g| == m && forall i :: 0 <= i < m ==> |g[i]| == n
  }

  /** nu.min(tmp) */
  function Lower(nu: real, t: Option<real>): real
  {
    match t
    case None => nu
    case Some(x) => Min(nu, x)
  }

  /** nu after the entries g[i][0] .. g[i][n-1] of one row, starting from nu0 */
  function RowNu(g: seq<seq<Option<real>>>, nu0: real, i: nat, n: nat): real
    requires i < |g| && n <= |g[i]|
  {
    if n == 0 then nu0 else Lower(RowNu(g, nu0, i, n - 1), g[i][n - 1])
  }

  /** nu after the first m rows of g, each of width w */
  function GridNu(g: seq<seq<Option<real>>>, w: nat, m: nat): real
    requires m <= |g| && forall i :: 0 <= i < |g| ==> |g[i]| == w
  {
    if m == 0 then NuInit else RowNu(g, GridNu(g, w, m - 1), m - 1, w)
  }

  /** nu of calc_cfl over the interior */
  function CflNu(eos: IdealEoS, sqrt: SqrtFn, b: BasicField, dx: Field, ni: nat, nj: nat, nb: nat): real
    requires b.Shaped(ni, nj) && IsField(dx, ni, nj) && ni >= 2 * nb && nj >= 2 * nb
  {
    GridNu(Bounds(eos, sqrt, b, dx, ni, nj, nb), nj - 2 * nb, ni - 2 * nb)
  }

  /** A row pass lowers nu to at most every bound of the row, and ends on nu0 or on one
      of those bounds. */
  lemma {:induction false} RowNuIsMinimum(g: seq<seq<Option<real>>>, nu0: real, i: nat, n: nat)
    requires i < |g| && n <= |g[i]|
    ensures RowNu(g, nu0, i, n) <= nu0
    ensures forall j :: 0 <= j < n && g[i][j].Some? ==> RowNu(g, nu0, i, n) <= g[i][j].value
    ensures RowNu(g, nu0, i, n) == nu0 || exists j :: 0 <= j < n && g[i][j] == Some(RowNu(g, nu0, i, n))
  {
    if n > 0 {
      RowNuIsMinimum(g, nu0, i, n - 1);
    }
  }

  /** The nu of the first m rows is min(1e10, every bound present in them), and it is
      attained: it is 1e10 or one of those bounds. */
  lemma {:induction false} GridNuIsMinimum(g: seq<seq<Option<real>>>, w: nat, m: nat)
    requires m <= |g| && forall i :: 0 <= i < |g| ==> |g[i]| == w
    ensures GridNu(g, w, m) <= NuInit
    ensures forall i, j :: 0 <= i < m && 0 <= j < w && g[i][j].Some? ==> GridNu(g, w, m) <= g[i][j].value
    ensures GridNu(g, w, m) == NuInit || exists i, j :: 0 <= i < m && 0 <= j < w && g[i][j] == Some(GridNu(g, w, m))
  {
    if m > 0 {
      GridNuIsMinimum(g, w, m - 1);
      RowNuIsMinimum(g, GridNu(g, w, m - 1), m - 1, w);
    }
  }

  /** dt = cfl_coeff * nu */
  function TimeStep(cflCoeff: real, nu: real): real
  {
    cflCoeff * nu
  }

  /** The time step is linear in cfl_coeff. */
  lemma TimeStepLinear(a: real, c1: real, c2: real, nu: real)
    ensures TimeStep(a * c1 + c2, nu) == a * TimeStep(c1, nu) + TimeStep(c2, nu)
  {
  }

  /** calc_cfl's nu is at most 1e10 and at most the bound of interior cell (i, j) when
      that bound is finite. */
  lemma CflNuBounds(eos: IdealEoS, sqrt: SqrtFn, b: BasicField, dx: Field, ni: nat, nj: nat, nb: nat,
                    i: nat, j: nat)
    requires b.Shaped(ni, nj) && IsField(dx, ni, nj) && ni >= 2 * nb && nj >= 2 * nb
    requires i < ni - 2 * nb && j < nj - 2 * nb
    ensures CflNu(eos, sqrt, b, dx, ni, nj, nb) <= NuInit
    ensures CellBound(eos, sqrt, b, dx, ni, nj, nb, i, j).Some? ==>
      CflNu(eos, sqrt, b, dx, ni, nj, nb) <= CellBound(eos, sqrt, b, dx, ni, nj, nb, i, j).value
  {
    var g := Bounds(eos, sqrt, b, dx, ni, nj, nb);
    GridNuIsMinimum(g, nj - 2 * nb, ni - 2 * nb);
    assert g[i][j] == CellBound(eos, sqrt, b, dx, ni, nj, nb, i, j);
  }

  /** The CFL condition the time step meets: for cfl_coeff >= 0, dt is at most 1e10 times
      cfl_coeff, and in every interior cell with a non-zero wave speed w,
      dt * w <= cfl_coeff * dx. */
  lemma CflCondition(eos: IdealEoS, sqrt: SqrtFn, b: BasicField, dx: Field, ni: nat, nj: nat, nb: nat,
                     cfl: real, i: nat, j: nat)
    requires b.Shaped(ni, nj) && IsField(dx, ni, nj) && ni >= 2 * nb && nj >= 2 * nb && cfl >= 0.0
    requires i < ni - 2 * nb && j < nj - 2 * nb
    ensures TimeStep(cfl, CflNu(eos, sqrt, b, dx, ni, nj, nb)) <= cfl * NuInit
    ensures WaveSpeed(eos, sqrt, b.At(nb + i, nb + j)) > 0.0 ==>
      TimeStep(cfl, CflNu(eos, sqrt, b, dx, ni, nj, nb)) * WaveSpeed(eos, sqrt, b.At(nb + i, nb + j))
        <= cfl * dx[i][j]
  {
    CflNuBounds(eos, sqrt, b, dx, ni, nj, nb, i, j);
    MulMonotone(cfl, CflNu(eos, sqrt, b, dx, ni, nj, nb), NuInit);
    if WaveSpeed(eos, sqrt, b.At(nb + i, nb + j)) > 0.0 {
      ScaledBound(cfl, CflNu(eos, sqrt, b, dx, ni, nj, nb), dx[i][j], WaveSpeed(eos, sqrt, b.At(nb + i, nb + j)));
    }
  }

  /** nu <= d / w gives cfl * nu * w <= cfl * d */
  lemma ScaledBound(cfl: real, nu: real, d: real, w: real)
    requires cfl >= 0.0 && w > 0.0 && nu <= Div(d, w)
    ensures TimeStep(cfl, nu) * w <= cfl * d
  {
    var t := Div(d, w);
    MulMonotone(cfl, nu, t);
    MulMonotone(w, cfl * nu, cfl * t);
    assert w * (cfl * t) == cfl * d;
  }

  lemma MulMonotone(c: real, x: real, y: real)
    requires c >= 0.0 && x <= y
    ensures c * x <= c * y
  {
    assert c * y - c * x == c * (y - x);
  }

  // ---------------------------------------------------------------------------
  // the stage formulas

  /** the three stages of march_ssprk3 */
  datatype Stage = First | Second | Third

  /** One component of a stage update: q0 is the state at the start of the step, q the
      previous stage and r its right-hand side. */
  function StageValue(st: Stage, q0: real, q: real, r: real, dt: real): real
  {
    match st
    case First => q0 + dt * r
    case Second => 0.75 * q0 + 0.25 * (q + dt * r)
    case Third => q0 / 3.0 + 2.0 / 3.0 * (q + dt * r)
  }

  /** Consistency of the stage weights: with a zero right-hand side every stage reproduces
      the state it starts from. */
  lemma ZeroRhsKeepsStage(st: Stage, q0: real, dt: real)
    ensures StageValue(st, q0, q0, 0.0, dt) == q0
  {
  }

  /** Strong stability: stages 2 and 3 are convex combinations of q0 and the forward Euler
      step q + dt r, so neither exceeds the larger of their magnitudes. */
  lemma StagesAreConvex(q0: real, q: real, r: real, dt: real)
    ensures Abs(StageValue(Second, q0, q, r, dt)) <= Max(Abs(q0), Abs(q + dt * r))
    ensures Abs(StageValue(Third, q0, q, r, dt)) <= Max(Abs(q0), Abs(q + dt * r))
  {
    var e := q + dt * r;
    var m := Max(Abs(q0), Abs(e));
    assert -m <= q0 <= m && -m <= e <= m;
  }

  /** Third order: on the linear equation q' = lam q a step multiplies q0 by
      1 + z + z^2/2 + z^3/6 with z = lam dt, the Taylor polynomial of exp(z). */
  lemma {:induction false} ThirdOrderOnLinear(q0: real, lam: real, dt: real)
    ensures var q1 := StageValue(First, q0, q0, lam * q0, dt);
            var q2 := StageValue(Second, q0, q1, lam * q1, dt);
            var z := lam * dt;
            StageValue(Third, q0, q2, lam * q2, dt) == q0 * (1.0 + z + z * z / 2.0 + z * z * z / 6.0)
  {
    var z := lam * dt;
    var q1 := StageValue(First, q0, q0, lam * q0, dt);
    assert q1 == q0 * (1.0 + z);
    var q2 := StageValue(Second, q0, q1, lam * q1, dt);
    assert q2 == 0.75 * q0 + 0.25 * q1 * (1.0 + z);
    assert q2 == q0 * (1.0 + z / 2.0 + z * z / 4.0);
    var q3 := StageValue(Third, q0, q2, lam * q2, dt);
    assert q3 == q0 / 3.0 + 2.0 / 3.0 * q2 * (1.0 + z);
  }

  /** a stage update of the whole interior */
  function StageField(st: Stage, q0: Flux3, q: Flux3, r: Flux3, dt: real, mi: nat, mj: nat): (t: Flux3)
    requires IsFlux3(q0, mi, mj) && IsFlux3(q, mi, mj) && IsFlux3(r, mi, mj)
    ensures IsFlux3(t, mi, mj)
    ensures forall i, j, k :: 0 <= i < mi && 0 <= j < mj && 0 <= k < NF ==>
      t[i][j][k] == StageValue(st, q0[i][j][k], q[i][j][k], r[i][j][k], dt)
  {
    seq(mi, i requires 0 <= i < mi =>
      seq(mj, j requires 0 <= j < mj =>
        seq(NF, k requires 0 <= k < NF => StageValue(st, q0[i][j][k], q[i][j][k], r[i][j][k], dt))))
  }

  /** Two interior fields that agree everywhere are equal. */
  lemma Flux3Ext(f: Flux3, h: Flux3, mi: nat, mj: nat)
    requires IsFlux3(f, mi, mj) && IsFlux3(h, mi, mj)
    requires forall i, j, k :: 0 <= i < mi && 0 <= j < mj && 0 <= k < NF ==> f[i][j][k] == h[i][j][k]
    ensures f == h
  {
    forall i | 0 <= i < mi
      ensures f[i] == h[i]
    {
      forall j | 0 <= j < mj
        ensures f[i][j] == h[i][j]
      {
        assert |f[i][j]| == |h[i][j]| == NF;
      }
    }
  }

  /** With a zero right-hand side a stage started from q0 is q0. */
  lemma ZeroRhsKeepsField(st: Stage, q0: Flux3, r: Flux3, dt: real, mi: nat, mj: nat)
    requires IsFlux3(q0, mi, mj) && IsFlux3(r, mi, mj)
    requires forall i, j, k :: 0 <= i < mi && 0 <= j < mj && 0 <= k < NF ==> r[i][j][k] == 0.0
    ensures StageField(st, q0, q0, r, dt, mi, mj) == q0
  {
    var t := StageField(st, q0, q0, r, dt, mi, mj);
    forall i, j, k | 0 <= i < mi && 0 <= j < mj && 0 <= k < NF
      ensures t[i][j][k] == q0[i][j][k]
    {
      ZeroRhsKeepsStage(st, q0[i][j][k], dt);
    }
    Flux3Ext(t, q0, mi, mj);
  }

  // ---------------------------------------------------------------------------
  // conversion between basic and conserved variables

  /** s_a of interior cell (i, j): the mean inverse Jacobian of its four vertices */
  function CellArea(s: Field, ni: nat, nj: nat, nb: nat, i: nat, j: nat): real
    requires IsField(s, ni, nj) && nb >= 1 && i < ni - 2 * nb && j < nj - 2 * nb
  {
    0.25 * (s[nb + i - 1][nb + j - 1] + s[nb + i][nb + j - 1] + s[nb + i - 1][nb + j] + s[nb + i][nb + j])
  }

  /** the conserved variables of the interior: what the first loop of march_ssprk3 leaves
      in arr_q0 */
  function ConservedOf(b: BasicField, s: Field, ni: nat, nj: nat, nb: nat): (q: Flux3)
    requires b.Shaped(ni, nj) && IsField(s, ni, nj) && nb >= 1 && SizesOk(ni, nj, nb)
    ensures IsFlux3(q, ni - 2 * nb, nj - 2 * nb)
    ensures forall i, j :: 0 <= i < ni - 2 * nb && 0 <= j < nj - 2 * nb ==>
      q[i][j] == CalcConservative(b.At(nb + i, nb + j), CellArea(s, ni, nj, nb, i, j))
  {
    seq(ni - 2 * nb, i requires 0 <= i < ni - 2 * nb => ConservedRow(b, s, ni, nj, nb, i))
  }

  function ConservedRow(b: BasicField, s: Field, ni: nat, nj: nat, nb: nat, i: nat): (row: seq<seq<real>>)
    requires b.Shaped(ni, nj) && IsField(s, ni, nj) && nb >= 1 && SizesOk(ni, nj, nb) && i < ni - 2 * nb
    ensures |row| == nj - 2 * nb
    ensures forall j :: 0 <= j < nj - 2 * nb ==>
      row[j] == CalcConservative(b.At(nb + i, nb + j), CellArea(s, ni, nj, nb, i, j))
  {
    seq(nj - 2 * nb, j requires 0 <= j < nj - 2 * nb =>
      CalcConservative(b.At(nb + i, nb + j), CellArea(s, ni, nj, nb, i, j)))
  }

  /** cell (p, m) after a stage loop: calc_basic of the stage value in the interior, the
      old contents in the ghost cells */
  function NewCell(b: BasicField, q: Flux3, s: Field, ni: nat, nj: nat, nb: nat, p: nat, m: nat): Cell
    requires b.Shaped(ni, nj) && IsField(s, ni, nj) && nb >= 1 && SizesOk(ni, nj, nb)
    requires IsFlux3(q, ni - 2 * nb, nj - 2 * nb) && p < ni && m < nj
  {
    if nb <= p < ni - nb && nb <= m < nj - nb then CalcBasic(q[p - nb][m - nb], CellArea(s, ni, nj, nb, p - nb, m - nb))
    else b.At(p, m)
  }

  /** the basic state after a stage loop */
  function WithInterior(b: BasicField, q: Flux3, s: Field, ni: nat, nj: nat, nb: nat): (c: BasicField)
    requires b.Shaped(ni, nj) && IsField(s, ni, nj) && nb >= 1 && SizesOk(ni, nj, nb)
    requires IsFlux3(q, ni - 2 * nb, nj - 2 * nb)
    ensures c.Shaped(ni, nj)
    ensures forall p, m :: 0 <= p < ni && 0 <= m < nj ==> c.At(p, m) == NewCell(b, q, s, ni, nj, nb, p, m)
  {
    BasicField(
      seq(ni, p requires 0 <= p < ni => seq(nj, m requires 0 <= m < nj => NewCell(b, q, s, ni, nj, nb, p, m).rho)),
      seq(ni, p requires 0 <= p < ni => seq(nj, m requires 0 <= m < nj => NewCell(b, q, s, ni, nj, nb, p, m).u)),
      seq(ni, p requires 0 <= p < ni => seq(nj, m requires 0 <= m < nj => NewCell(b, q, s, ni, nj, nb, p, m).v)),
      seq(ni, p requires 0 <= p < ni => seq(nj, m requires 0 <= m < nj => NewCell(b, q, s, ni, nj, nb, p, m).e)))
  }

  /** Two basic states of the same shape that agree in every cell are equal. */
  lemma BasicExt(x: BasicField, y: BasicField, ni: nat, nj: nat)
    requires x.Shaped(ni, nj) && y.Shaped(ni, nj)
    requires forall p, m :: 0 <= p < ni && 0 <= m < nj ==> x.At(p, m) == y.At(p, m)
    ensures x == y
  {
    forall p, m | 0 <= p < ni && 0 <= m < nj
      ensures x.rho[p][m] == y.rho[p][m] && x.u[p][m] == y.u[p][m]
      ensures x.v[p][m] == y.v[p][m] && x.e[p][m] == y.e[p][m]
    {
      assert x.At(p, m) == y.At(p, m);
    }
    FieldExt(x.rho, y.rho, ni, nj);
    FieldExt(x.u, y.u, ni, nj);
    FieldExt(x.v, y.v, ni, nj);
    FieldExt(x.e, y.e, ni, nj);
  }

  /** interior cell (i, j) has a non-zero density and a non-zero s_a */
  predicate Convertible(b: BasicField, s: Field, ni: nat, nj: nat, nb: nat, i: nat, j: nat)
    requires b.Shaped(ni, nj) && IsField(s, ni, nj) && nb >= 1 && i < ni - 2 * nb && j < nj - 2 * nb
  {
    b.At(nb + i, nb + j).rho != 0.0 && CellArea(s, ni, nj, nb, i, j) != 0.0
  }

  /** The same s_a converts both ways: writing back the conserved variables of a state
      with non-zero density and area in every interior cell gives the state itself. */
  lemma ConversionRoundTrip(b: BasicField, s: Field, ni: nat, nj: nat, nb: nat)
    requires b.Shaped(ni, nj) && IsField(s, ni, nj) && nb >= 1 && SizesOk(ni, nj, nb)
    requires forall i, j :: 0 <= i < ni - 2 * nb && 0 <= j < nj - 2 * nb ==> Convertible(b, s, ni, nj, nb, i, j)
    ensures WithInterior(b, ConservedOf(b, s, ni, nj, nb), s, ni, nj, nb) == b
  {
    var q := ConservedOf(b, s, ni, nj, nb);
    var c := WithInterior(b, q, s, ni, nj, nb);
    forall p, m | 0 <= p < ni && 0 <= m < nj
      ensures c.At(p, m) == b.At(p, m)
    {
      if nb <= p < ni - nb && nb <= m < nj - nb {
        var i, j := p - nb, m - nb;
        assert p == nb + i && m == nb + j;
        assert Convertible(b, s, ni, nj, nb, i, j);
        BasicRoundTrip(b.At(nb + i, nb + j), CellArea(s, ni, nj, nb, i, j));
      }
    }
    BasicExt(c, b, ni, nj);
  }

  /** The periodic copy keeps the shape of the basic state. */
  lemma PeriodicShaped(b: BasicField, ni: nat, nj: nat, nb: nat)
    requires b.Shaped(ni, nj) && ni >= 2 * nb
    ensures PeriodicBasic(b, ni, nb).Shaped(ni, nj)
    ensures forall p, m :: 0 <= p < ni && 0 <= m < nj ==>
      PeriodicBasic(b, ni, nb).At(p, m) == b.At(SourceRow(ni, nb, p), m)
  {
  }

  /** The periodic copy leaves a uniform state as it is. */
  lemma PeriodicUniform(b: BasicField, c: Cell, ni: nat, nj: nat, nb: nat)
    requires b.Shaped(ni, nj) && ni >= 2 * nb && Uniform(b, c, ni, nj)
    ensures PeriodicBasic(b, ni, nb) == b
  {
    PeriodicShaped(b, ni, nj, nb);
    BasicExt(PeriodicBasic(b, ni, nb), b, ni, nj);
  }

  // ---------------------------------------------------------------------------
  // one SSP-RK3 step on values

  /** b holds the right-hand side of calc_rhs for basic state b in every interior cell */
  ghost predicate IsRhs(r: Flux3, eos: IdealEoS, sqrt: SqrtFn, recon: Recon, b: BasicField, g: Geometry,
                        ni: nat, nj: nat, nb: nat)
    requires Inputs(recon, b, g, ni, nj, nb)
  {
    && IsFlux3(r, ni - 2 * nb, nj - 2 * nb)
    && forall i, j, k {:trigger RhsAt(eos, sqrt, recon, b, g, ni, nj, nb, i, j, k)} ::
         0 <= i < ni - 2 * nb && 0 <= j < nj - 2 * nb && 0 <= k < NF ==>
           r[i][j][k] == RhsAt(eos, sqrt, recon, b, g, ni, nj, nb, i, j, k)
  }

  /** the right-hand side calc_rhs writes into its output array */
  function RhsField(eos: IdealEoS, sqrt: SqrtFn, recon: Recon, b: BasicField, g: Geometry,
                    ni: nat, nj: nat, nb: nat): (r: Flux3)
    requires Inputs(recon, b, g, ni, nj, nb)
    ensures IsRhs(r, eos, sqrt, recon, b, g, ni, nj, nb)
  {
    RhsIsBalance(eos, sqrt, recon, b, g, ni, nj, nb);
    Balance(FluxFieldI(eos, sqrt, recon, b, g, ni, nj, nb), FluxFieldJ(eos, sqrt, recon, b, g, ni, nj, nb),
            ni - 2 * nb, nj - 2 * nb)
  }

  /** The right-hand side is a function of the basic state and the grid. */
  lemma RhsUnique(r: Flux3, r': Flux3, eos: IdealEoS, sqrt: SqrtFn, recon: Recon, b: BasicField, g: Geometry,
                  ni: nat, nj: nat, nb: nat)
    requires Inputs(recon, b, g, ni, nj, nb)
    requires IsRhs(r, eos, sqrt, recon, b, g, ni, nj, nb) && IsRhs(r', eos, sqrt, recon, b, g, ni, nj, nb)
    ensures r == r'
  {
    forall i, j, k | 0 <= i < ni - 2 * nb && 0 <= j < nj - 2 * nb && 0 <= k < NF
      ensures r[i][j][k] == r'[i][j][k]
    {
      assert r[i][j][k] == RhsAt(eos, sqrt, recon, b, g, ni, nj, nb, i, j, k);
    }
    Flux3Ext(r, r', ni - 2 * nb, nj - 2 * nb);
  }

  /** the states march_ssprk3 passes through: the conserved state q0 of the start, and for
      each stage its right-hand side, its conserved stage value and the basic state after
      it */
  datatype Stages = Stages(q0: Flux3, r1: Flux3, q1: Flux3, b1: BasicField, r2: Flux3, q2: Flux3, b2: BasicField,
                           r3: Flux3, q3: Flux3, b3: BasicField)

  /** one stage after its right-hand side: the update, calc_basic into the interior,
      then the periodic copy */
  function Advance(b: BasicField, t: Flux3, s: Field, ni: nat, nj: nat, nb: nat): (c: BasicField)
    requires b.Shaped(ni, nj) && IsField(s, ni, nj) && nb >= 1 && SizesOk(ni, nj, nb)
    requires IsFlux3(t, ni - 2 * nb, nj - 2 * nb)
    ensures c.Shaped(ni, nj)
  {
    PeriodicShaped(WithInterior(b, t, s, ni, nj, nb), ni, nj, nb);
    PeriodicBasic(WithInterior(b, t, s, ni, nj, nb), ni, nb)
  }

  /** march_ssprk3 on values: q0 from the basic state b0; stage k takes the right-hand
      side of the current basic state, updates the conserved variables and converts them
      back into the interior, and the periodic copy fills the ghost rows. */
  function Ssprk3(eos: IdealEoS, sqrt: SqrtFn, recon: Recon, b0: BasicField, g: Geometry,
                  ni: nat, nj: nat, nb: nat, dt: real): (st: Stages)
    requires Inputs(recon, b0, g, ni, nj, nb)
    ensures var mi, mj := ni - 2 * nb, nj - 2 * nb;
      && IsFlux3(st.q0, mi, mj) && IsFlux3(st.q1, mi, mj) && IsFlux3(st.q2, mi, mj)
      && IsFlux3(st.q3, mi, mj) && IsFlux3(st.r3, mi, mj)
      && st.b1.Shaped(ni, nj) && st.b2.Shaped(ni, nj) && st.b3.Shaped(ni, nj)
  {
    var mi, mj := ni - 2 * nb, nj - 2 * nb;
    var q0 := ConservedOf(b0, g.s, ni, nj, nb);
    var r1 := RhsField(eos, sqrt, recon, b0, g, ni, nj, nb);
    var q1 := StageField(First, q0, q0, r1, dt, mi, mj);
    var b1 := Advance(b0, q1, g.s, ni, nj, nb);
    var r2 := RhsField(eos, sqrt, recon, b1, g, ni, nj, nb);
    var q2 := StageField(Second, q0, q1, r2, dt, mi, mj);
    var b2 := Advance(b1, q2, g.s, ni, nj, nb);
    var r3 := RhsField(eos, sqrt, recon, b2, g, ni, nj, nb);
    var q3 := StageField(Third, q0, q2, r3, dt, mi, mj);
    Stages(q0, r1, q1, b1, r2, q2, b2, r3, q3, Advance(b2, q3, g.s, ni, nj, nb))
  }

  /** one stage of a run: r is the right-hand side of the basic state b, qn the stage
      value made of q0, the previous stage q and r, and bn the basic state after it */
  ghost predicate IsStage(st: Stage, eos: IdealEoS, sqrt: SqrtFn, recon: Recon, g: Geometry,
                          ni: nat, nj: nat, nb: nat, dt: real,
                          q0: Flux3, q: Flux3, b: BasicField, r: Flux3, qn: Flux3, bn: BasicField)
    requires Inputs(recon, b, g, ni, nj, nb)
    requires IsFlux3(q0, ni - 2 * nb, nj - 2 * nb) && IsFlux3(q, ni - 2 * nb, nj - 2 * nb)
  {
    && IsRhs(r, eos, sqrt, recon, b, g, ni, nj, nb)
    && qn == StageField(st, q0, q, r, dt, ni - 2 * nb, nj - 2 * nb)
    && bn == Advance(b, qn, g.s, ni, nj, nb)
  }

  /** st is a run of march_ssprk3 from b0: q0 is the conserved state of b0 and the three
      stages follow each other */
  ghost predicate IsStep(st: Stages, eos: IdealEoS, sqrt: SqrtFn, recon: Recon, b0: BasicField, g: Geometry,
                         ni: nat, nj: nat, nb: nat, dt: real)
    requires Inputs(recon, b0, g, ni, nj, nb)
  {
    && st.q0 == ConservedOf(b0, g.s, ni, nj, nb)
    && IsStage(First, eos, sqrt, recon, g, ni, nj, nb, dt, st.q0, st.q0, b0, st.r1, st.q1, st.b1)
    && IsStage(Second, eos, sqrt, recon, g, ni, nj, nb, dt, st.q0, st.q1, st.b1, st.r2, st.q2, st.b2)
    && IsStage(Third, eos, sqrt, recon, g, ni, nj, nb, dt, st.q0, st.q2, st.b2, st.r3, st.q3, st.b3)
  }

  /** The step is determined by its start: a run of the three stages is Ssprk3 of b0, and
      Ssprk3 of b0 is such a run. */
  lemma StepIsSsprk3(st: Stages, eos: IdealEoS, sqrt: SqrtFn, recon: Recon, b0: BasicField, g: Geometry,
                     ni: nat, nj: nat, nb: nat, dt: real)
    requires Inputs(recon, b0, g, ni, nj, nb)
    ensures IsStep(Ssprk3(eos, sqrt, recon, b0, g, ni, nj, nb, dt), eos, sqrt, recon, b0, g, ni, nj, nb, dt)
    ensures IsStep(st, eos, sqrt, recon, b0, g, ni, nj, nb, dt) ==> st == Ssprk3(eos, sqrt, recon, b0, g, ni, nj, nb, dt)
  {
    var s := Ssprk3(eos, sqrt, recon, b0, g, ni, nj, nb, dt);
    if IsStep(st, eos, sqrt, recon, b0, g, ni, nj, nb, dt) {
      RhsUnique(st.r1, s.r1, eos, sqrt, recon, b0, g, ni, nj, nb);
      RhsUnique(st.r2, s.r2, eos, sqrt, recon, st.b1, g, ni, nj, nb);
      RhsUnique(st.r3, s.r3, eos, sqrt, recon, st.b2, g, ni, nj, nb);
    }
  }

  /** Free-stream preservation of the whole step: a uniform state with non-zero density,
      on a grid with constant metrics and non-zero cell areas, is left exactly as it is,
      and so are its conserved variables. */
  lemma UniformIsSteady(eos: IdealEoS, sqrt: SqrtFn, recon: Recon, b0: BasicField, g: Geometry,
                        ni: nat, nj: nat, nb: nat, dt: real, c: Cell, ix: real, iy: real, jx: real, jy: real)
    requires Inputs(recon, b0, g, ni, nj, nb) && Uniform(b0, c, ni, nj) && c.rho != 0.0
    requires ConstantMetrics(g, ni, nj, nb, ix, iy, jx, jy)
    requires forall i, j :: 0 <= i < ni - 2 * nb && 0 <= j < nj - 2 * nb ==> CellArea(g.s, ni, nj, nb, i, j) != 0.0
    ensures Ssprk3(eos, sqrt, recon, b0, g, ni, nj, nb, dt).b3 == b0
    ensures Ssprk3(eos, sqrt, recon, b0, g, ni, nj, nb, dt).q3 == Ssprk3(eos, sqrt, recon, b0, g, ni, nj, nb, dt).q0
  {
    UniformRhsZero(eos, sqrt, recon, b0, g, ni, nj, nb, c, ix, iy, jx, jy);
    ConversionRoundTrip(b0, g.s, ni, nj, nb);
    PeriodicUniform(b0, c, ni, nj, nb);
    FixedPoint(eos, sqrt, recon, b0, g, ni, nj, nb, dt);
  }

  /** A state whose right-hand side vanishes and which one stage with a zero right-hand
      side reproduces is a fixed point of the whole step: the coefficient pairs of every
      stage sum to one. */
  lemma FixedPoint(eos: IdealEoS, sqrt: SqrtFn, recon: Recon, b0: BasicField, g: Geometry,
                   ni: nat, nj: nat, nb: nat, dt: real)
    requires Inputs(recon, b0, g, ni, nj, nb)
    requires forall i, j, k :: 0 <= i < ni - 2 * nb && 0 <= j < nj - 2 * nb && 0 <= k < NF ==>
      RhsField(eos, sqrt, recon, b0, g, ni, nj, nb)[i][j][k] == 0.0
    requires Advance(b0, ConservedOf(b0, g.s, ni, nj, nb), g.s, ni, nj, nb) == b0
    ensures Ssprk3(eos, sqrt, recon, b0, g, ni, nj, nb, dt).b3 == b0
    ensures Ssprk3(eos, sqrt, recon, b0, g, ni, nj, nb, dt).q3 == Ssprk3(eos, sqrt, recon, b0, g, ni, nj, nb, dt).q0
  {
    var mi, mj := ni - 2 * nb, nj - 2 * nb;
    var q0 := ConservedOf(b0, g.s, ni, nj, nb);
    var r := RhsField(eos, sqrt, recon, b0, g, ni, nj, nb);
    ZeroRhsKeepsField(First, q0, r, dt, mi, mj);
    ZeroRhsKeepsField(Second, q0, r, dt, mi, mj);
    ZeroRhsKeepsField(Third, q0, r, dt, mi, mj);
  }

  /** a uniform state on a grid with constant metrics has a zero right-hand side */
  lemma UniformRhsZero(eos: IdealEoS, sqrt: SqrtFn, recon: Recon, b0: BasicField, g: Geometry,
                       ni: nat, nj: nat, nb: nat, c: Cell, ix: real, iy: real, jx: real, jy: real)
    requires Inputs(recon, b0, g, ni, nj, nb) && Uniform(b0, c, ni, nj)
    requires ConstantMetrics(g, ni, nj, nb, ix, iy, jx, jy)
    ensures forall i, j, k :: 0 <= i < ni - 2 * nb && 0 <= j < nj - 2 * nb && 0 <= k < NF ==>
      RhsField(eos, sqrt, recon, b0, g, ni, nj, nb)[i][j][k] == 0.0
  {
    var r := RhsField(eos, sqrt, recon, b0, g, ni, nj, nb);
    FreeStream(eos, sqrt, recon, b0, g, ni, nj, nb, c, ix, iy, jx, jy);
    forall i, j, k | 0 <= i < ni - 2 * nb && 0 <= j < nj - 2 * nb && 0 <= k < NF
      ensures r[i][j][k] == 0.0
    {
      assert r[i][j][k] == RhsAt(eos, sqrt, recon, b0, g, ni, nj, nb, i, j, k);
    }
  }

  // ---------------------------------------------------------------------------
  // the methods of Marching for IdealGas

  /** calc_cfl: cfl_coeff times the smallest time-step bound of the interior cells,
      starting from 1e10.  calc_cfl takes &self and changes nothing, so its two loops run
      over the current contents of the basic arrays and of dx. */
  method CalcCfl(gas: IdealGas, sqrt: SqrtFn, cflCoeff: real) returns (dt: real)
    requires gas.basic.Valid() && SizesOk(gas.basic.ni, gas.basic.nj, gas.basic.nb)
    requires gas.coord.dx.Length0 == gas.basic.ni && gas.coord.dx.Length1 == gas.basic.nj
    ensures dt == TimeStep(cflCoeff, CflNu(gas.eos, sqrt, gas.basic.Values(), Snap(gas.coord.dx),
                                          gas.basic.ni, gas.basic.nj, gas.basic.nb))
  {
    var b, dx := gas.basic.Values(), Snap(gas.coord.dx);
    var nu := CflGrid(gas.eos, sqrt, b, dx, gas.basic.ni, gas.basic.nj, gas.basic.nb);
    dt := TimeStep(cflCoeff, nu);
  }

  /** the two loops of calc_cfl: nu after every interior cell */
  method CflGrid(eos: IdealEoS, sqrt: SqrtFn, b: BasicField, dx: Field, ni: nat, nj: nat, nb: nat)
    returns (nu: real)
    requires b.Shaped(ni, nj) && IsField(dx, ni, nj) && SizesOk(ni, nj, nb)
    ensures nu == CflNu(eos, sqrt, b, dx, ni, nj, nb)
  {
    ghost var g := Bounds(eos, sqrt, b, dx, ni, nj, nb);
    nu := CflLoops(eos, sqrt, b, dx, ni, nj, nb, g);
  }

  /** the outer loop of calc_cfl, g being the bounds of the interior cells */
  method CflLoops(eos: IdealEoS, sqrt: SqrtFn, b: BasicField, dx: Field, ni: nat, nj: nat, nb: nat,
                  ghost g: seq<seq<Option<real>>>) returns (nu: real)
    requires b.Shaped(ni, nj) && IsField(dx, ni, nj) && SizesOk(ni, nj, nb)
    requires IsBounds(g, eos, sqrt, b, dx, ni, nj, nb)
    ensures nu == GridNu(g, nj - 2 * nb, ni - 2 * nb)
  {
    nu := NuInit;
    for i := 0 to ni - 2 * nb
      invariant nu == GridNu(g, nj - 2 * nb, i)
    {
      nu := CflRow(eos, sqrt, b, dx, ni, nj, nb, g, nu, i);
    }
  }

  /** the inner loop of calc_cfl over row i of the interior, starting from nu0 */
  method CflRow(eos: IdealEoS, sqrt: SqrtFn, b: BasicField, dx: Field, ni: nat, nj: nat, nb: nat,
                ghost g: seq<seq<Option<real>>>, nu0: real, i: nat) returns (nu: real)
    requires b.Shaped(ni, nj) && IsField(dx, ni, nj) && SizesOk(ni, nj, nb) && i < ni - 2 * nb
    requires IsBounds(g, eos, sqrt, b, dx, ni, nj, nb)
    ensures nu == RowNu(g, nu0, i, nj - 2 * nb)
  {
    nu := nu0;
    for j := 0 to nj - 2 * nb
      invariant nu == RowNu(g, nu0, i, j)
    {
      var w := WaveSpeed(eos, sqrt, b.At(nb + i, nb + j));
      var tmp := if w == 0.0 then None else Some(Div(dx[i][j], w));
      assert tmp == CellBound(eos, sqrt, b, dx, ni, nj, nb, i, j);
      nu := Lower(nu, tmp);
    }
  }

  /** an NI x NJ x NF array of the gas */
  ghost predicate Dims(gas: IdealGas, a: array3<real>)
  {
    a.Length0 == gas.ni && a.Length1 == gas.nj && a.Length2 == NF
  }

  /** the first loop of march_ssprk3: the conserved variables of every interior cell into
      arr_q0, with s_a as the area */
  method Conserve(gas: IdealGas)
    requires gas.Valid() && SizesOk(gas.ni, gas.nj, gas.nb) && gas.nb >= 1
    modifies gas.arrQ0
    ensures forall i, j, k :: 0 <= i < gas.ni - 2 * gas.nb && 0 <= j < gas.nj - 2 * gas.nb && 0 <= k < NF ==>
      gas.arrQ0[i, j, k] == ConservedOf(gas.basic.Values(), Snap(gas.coord.s), gas.ni, gas.nj, gas.nb)[i][j][k]
    ensures forall i, j, k :: 0 <= i < gas.ni && 0 <= j < gas.nj && 0 <= k < NF ==>
      !(i < gas.ni - 2 * gas.nb && j < gas.nj - 2 * gas.nb) ==> gas.arrQ0[i, j, k] == old(gas.arrQ0[i, j, k])
  {
    var ni, nj, nb := gas.ni, gas.nj, gas.nb;
    ghost var q := ConservedOf(gas.basic.Values(), Snap(gas.coord.s), ni, nj, nb);
    for i := 0 to ni - 2 * nb
      invariant forall p, m, k :: 0 <= p < i && 0 <= m < nj - 2 * nb && 0 <= k < NF ==> gas.arrQ0[p, m, k] == q[p][m][k]
      invariant forall p, m, k :: 0 <= p < ni && 0 <= m < nj && 0 <= k < NF ==>
        !(p < i && m < nj - 2 * nb) ==> gas.arrQ0[p, m, k] == old(gas.arrQ0[p, m, k])
    {
      ConserveRow(gas.basic, gas.coord.s, gas.arrQ0, q, i);
    }
  }

  /** one pass of the outer loop of calc_conservative: row i of the interior of a, from
      the basic variables b and the cell areas sa */
  method ConserveRow(b: BasicVarHD, sa: array2<real>, a: array3<real>, ghost q: Flux3, i: nat)
    requires b.Valid() && SizesOk(b.ni, b.nj, b.nb) && b.nb >= 1 && AreaApart(b, sa) && DimsOf(b, a)
    requires q == ConservedOf(b.Values(), Snap(sa), b.ni, b.nj, b.nb)
    requires i < b.ni - 2 * b.nb
    modifies a
    ensures forall m, k :: 0 <= m < b.nj - 2 * b.nb && 0 <= k < NF ==> a[i, m, k] == q[i][m][k]
    ensures forall p, m, k :: 0 <= p < b.ni && 0 <= m < b.nj && 0 <= k < NF ==>
      (p != i || m >= b.nj - 2 * b.nb) ==> a[p, m, k] == old(a[p, m, k])
  {
    for j := 0 to b.nj - 2 * b.nb
      invariant forall m, k :: 0 <= m < j && 0 <= k < NF ==> a[i, m, k] == q[i][m][k]
      invariant forall p, m, k :: 0 <= p < b.ni && 0 <= m < b.nj && 0 <= k < NF ==>
        (p != i || m >= j) ==> a[p, m, k] == old(a[p, m, k])
    {
      ConserveCell(b, sa, a, q, i, j);
    }
  }

  /** calc_conservative of basic cell (NB+i, NB+j) into a[i][j] */
  method ConserveCell(b: BasicVarHD, sa: array2<real>, a: array3<real>, ghost q: Flux3, i: nat, j: nat)
    requires b.Valid() && SizesOk(b.ni, b.nj, b.nb) && b.nb >= 1 && AreaApart(b, sa) && DimsOf(b, a)
    requires q == ConservedOf(b.Values(), Snap(sa), b.ni, b.nj, b.nb)
    requires i < b.ni - 2 * b.nb && j < b.nj - 2 * b.nb
    modifies a
    ensures forall k :: 0 <= k < NF ==> a[i, j, k] == q[i][j][k]
    ensures forall p, m, k :: 0 <= p < b.ni && 0 <= m < b.nj && 0 <= k < NF ==>
      (p != i || m != j) ==> a[p, m, k] == old(a[p, m, k])
  {
    var w := ConservedCellOf(b, sa, q, i, j);
    StoreFlux(a, i, j, w);
  }

  /** the value calc_conservative computes for basic cell (NB+i, NB+j) */
  method ConservedCellOf(b: BasicVarHD, sa: array2<real>, ghost q: Flux3, i: nat, j: nat) returns (w: seq<real>)
    requires b.Valid() && SizesOk(b.ni, b.nj, b.nb) && b.nb >= 1 && AreaApart(b, sa)
    requires q == ConservedOf(b.Values(), Snap(sa), b.ni, b.nj, b.nb)
    requires i < b.ni - 2 * b.nb && j < b.nj - 2 * b.nb
    ensures w == q[i][j] && |w| == NF
  {
    var nb := b.nb;
    var area := 0.25 * (sa[nb + i - 1, nb + j - 1] + sa[nb + i, nb + j - 1] + sa[nb + i - 1, nb + j] + sa[nb + i, nb + j]);
    var c := Cell(b.rho[nb + i, nb + j], b.u[nb + i, nb + j], b.v[nb + i, nb + j], b.e[nb + i, nb + j]);
    w := CalcConservative(c, area);
    assert c == b.Values().At(nb + i, nb + j);
    assert area == CellArea(Snap(sa), b.ni, b.nj, nb, i, j);
  }

  /** calc_rhs of the current basic state into arrQ (arr_q1 or arr_q2); r is that
      right-hand side as a value */
  method RhsStage(gas: IdealGas, recon: Recon, reconName: string, fluxName: string, sqrt: SqrtFn,
                  arrQ: array3<real>, ghost b0: BasicField, ghost g: Geometry)
    returns (ghost r: Flux3)
    requires gas.Valid() && SizesOk(gas.ni, gas.nj, gas.nb)
    requires ParseRecon(reconName) == Some(recon) && StencilOk(recon, gas.nb) && fluxName == "Roe_FDS"
    requires arrQ == gas.arrQ1 || arrQ == gas.arrQ2
    requires gas.basic.Values() == b0 && GeomOf(gas.coord) == g
    modifies gas.eq.arrFi, gas.eq.arrFj, arrQ
    ensures IsRhs(r, gas.eos, sqrt, recon, b0, g, gas.ni, gas.nj, gas.nb)
    ensures gas.basic.Values() == b0 && GeomOf(gas.coord) == g
    ensures forall i, j, k :: 0 <= i < gas.ni - 2 * gas.nb && 0 <= j < gas.nj - 2 * gas.nb && 0 <= k < NF ==>
      arrQ[i, j, k] == r[i][j][k]
    ensures forall i, j, k :: 0 <= i < gas.ni && 0 <= j < gas.nj && 0 <= k < NF ==>
      !(i < gas.ni - 2 * gas.nb && j < gas.nj - 2 * gas.nb) ==> arrQ[i, j, k] == old(arrQ[i, j, k])
  {
    var ok := CalcRhs(gas.eq, reconName, fluxName, gas.basic, gas.coord, gas.eos, sqrt, arrQ);
    r := RhsField(gas.eos, sqrt, recon, b0, g, gas.ni, gas.nj, gas.nb);
  }


  /** march_ssprk3: one SSP-RK3 step of size dt.  The three names are checked first: an
      unknown boundary, reconstruction or flux scheme name is the source's panic, modelled
      as ok = false with nothing written.  Otherwise st is the run of the three stages
      from the starting state b0 on the geometry g (which StepIsSsprk3 shows is Ssprk3
      of b0), and the basic variables end as its final state. */
  method MarchSsprk3(gas: IdealGas, dt: real, bcName: string, reconName: string, fluxName: string,
                     sqrt: SqrtFn) returns (ok: bool, ghost st: Stages, ghost b0: BasicField, ghost g: Geometry)
    requires gas.Valid() && SizesOk(gas.ni, gas.nj, gas.nb)
    requires ParseRecon(reconName).Some? ==> StencilOk(ParseRecon(reconName).value, gas.nb)
    modifies gas.arrQ0, gas.arrQ1, gas.arrQ2, gas.eq.arrFi, gas.eq.arrFj
    modifies gas.basic.rho, gas.basic.u, gas.basic.v, gas.basic.e
    ensures ok <==> ParseRecon(reconName).Some? && fluxName == "Roe_FDS" && bcName == "periodical_in_i"
    ensures b0 == old(gas.basic.Values()) && g == GeomOf(gas.coord)
    ensures !ok ==> unchanged(gas.arrQ0, gas.arrQ1, gas.arrQ2, gas.eq.arrFi, gas.eq.arrFj)
    ensures !ok ==> unchanged(gas.basic.rho, gas.basic.u, gas.basic.v, gas.basic.e)
    ensures ok ==> IsStep(st, gas.eos, sqrt, ParseRecon(reconName).value, b0, g, gas.ni, gas.nj, gas.nb, dt)
    ensures ok ==> gas.basic.Values() == st.b3
  {
    b0, g := gas.basic.Values(), GeomOf(gas.coord);
    if ParseRecon(reconName).None? || fluxName != "Roe_FDS" || bcName != "periodical_in_i" {
      ghost var none := BasicField([], [], [], []);
      return false, Stages([], [], [], none, [], [], none, [], [], none), b0, g;
    }
    st := RunSteps(gas, dt, bcName, reconName, fluxName, sqrt, b0, g);
    ok := true;
  }

  /** the three stages of march_ssprk3 once the names are known to be valid, from the
      basic state b0 on the geometry g */
  method RunSteps(gas: IdealGas, dt: real, bcName: string, reconName: string, fluxName: string,
                  sqrt: SqrtFn, ghost b0: BasicField, ghost g: Geometry) returns (ghost st: Stages)
    requires gas.Valid() && SizesOk(gas.ni, gas.nj, gas.nb)
    requires ParseRecon(reconName).Some? && StencilOk(ParseRecon(reconName).value, gas.nb)
    requires fluxName == "Roe_FDS" && bcName == "periodical_in_i"
    requires gas.basic.Values() == b0 && GeomOf(gas.coord) == g
    modifies gas.arrQ0, gas.arrQ1, gas.arrQ2, gas.eq.arrFi, gas.eq.arrFj
    modifies gas.basic.rho, gas.basic.u, gas.basic.v, gas.basic.e
    ensures IsStep(st, gas.eos, sqrt, ParseRecon(reconName).value, b0, g, gas.ni, gas.nj, gas.nb, dt)
    ensures gas.basic.Values() == st.b3 && GeomOf(gas.coord) == g
  {
    Conserve(gas);
    ghost var q0 := ConservedOf(b0, g.s, gas.ni, gas.nj, gas.nb);
    ghost var r1, q1 := RunStage(gas, First, ParseRecon(reconName).value, reconName, fluxName, bcName, sqrt, dt,
                                 gas.arrQ1, gas.arrQ0, gas.arrQ1, b0, g, q0, q0);
    ghost var b1 := gas.basic.Values();
    ghost var r2, q2 := RunStage(gas, Second, ParseRecon(reconName).value, reconName, fluxName, bcName, sqrt, dt,
                                 gas.arrQ2, gas.arrQ1, gas.arrQ2, b1, g, q0, q1);
    ghost var b2 := gas.basic.Values();
    ghost var r3, q3 := RunStage(gas, Third, ParseRecon(reconName).value, reconName, fluxName, bcName, sqrt, dt,
                                 gas.arrQ0, gas.arrQ2, gas.arrQ1, b2, g, q0, q2);
    st := Stages(q0, r1, q1, b1, r2, q2, b2, r3, q3, gas.basic.Values());
  }

  /** one stage of march_ssprk3: calc_rhs of the current basic state b0 into ar (r is
      that right-hand side), then the update of the interior into dst with calc_basic and
      the periodic copy.  arr_q0 holds q0 and aq holds the previous stage q. */
  method RunStage(gas: IdealGas, st: Stage, recon: Recon, reconName: string, fluxName: string, bcName: string,
                  sqrt: SqrtFn, dt: real, dst: array3<real>, aq: array3<real>, ar: array3<real>,
                  ghost b0: BasicField, ghost g: Geometry, ghost q0: Flux3, ghost q: Flux3)
    returns (ghost r: Flux3, ghost qn: Flux3)
    requires gas.Valid() && SizesOk(gas.ni, gas.nj, gas.nb)
    requires ParseRecon(reconName) == Some(recon) && StencilOk(recon, gas.nb)
    requires fluxName == "Roe_FDS" && bcName == "periodical_in_i"
    requires ar == gas.arrQ1 || ar == gas.arrQ2
    requires dst == ar || dst == gas.arrQ0
    requires (aq == gas.arrQ0 || aq == gas.arrQ1 || aq == gas.arrQ2) && aq != ar
    requires gas.basic.Values() == b0 && GeomOf(gas.coord) == g
    requires IsFlux3(q0, gas.ni - 2 * gas.nb, gas.nj - 2 * gas.nb) && IsFlux3(q, gas.ni - 2 * gas.nb, gas.nj - 2 * gas.nb)
    requires forall i, j, k :: 0 <= i < gas.ni - 2 * gas.nb && 0 <= j < gas.nj - 2 * gas.nb && 0 <= k < NF ==>
      gas.arrQ0[i, j, k] == q0[i][j][k] && aq[i, j, k] == q[i][j][k]
    modifies gas.eq.arrFi, gas.eq.arrFj, ar, dst, gas.basic.rho, gas.basic.u, gas.basic.v, gas.basic.e
    ensures IsFlux3(qn, gas.ni - 2 * gas.nb, gas.nj - 2 * gas.nb)
    ensures forall i, j, k :: 0 <= i < gas.ni - 2 * gas.nb && 0 <= j < gas.nj - 2 * gas.nb && 0 <= k < NF ==>
      dst[i, j, k] == qn[i][j][k]
    ensures GeomOf(gas.coord) == g
    ensures IsStage(st, gas.eos, sqrt, recon, g, gas.ni, gas.nj, gas.nb, dt, q0, q, b0, r, qn, gas.basic.Values())
  {
    r := RhsStage(gas, recon, reconName, fluxName, sqrt, ar, b0, g);
    qn := StageField(st, q0, q, r, dt, gas.ni - 2 * gas.nb, gas.nj - 2 * gas.nb);
    StepStage(gas.basic, gas.coord, st, bcName, dst, gas.arrQ0, aq, ar, dt, q0, q, r);
  }

  /** the part of a stage after calc_rhs: the update into dst with calc_basic, then the
      periodic copy of the ghost rows */
  method StepStage(b: BasicVarHD, c: GenStructCoord, st: Stage, bcName: string, dst: array3<real>,
                   a0: array3<real>, aq: array3<real>, ar: array3<real>, dt: real,
                   ghost q0: Flux3, ghost q: Flux3, ghost r: Flux3)
    requires b.Valid() && c.Valid() && c.ni == b.ni && c.nj == b.nj && BasicApart(b, c)
    requires SizesOk(b.ni, b.nj, b.nb) && b.nb >= 1 && bcName == "periodical_in_i"
    requires DimsOf(b, dst) && DimsOf(b, a0) && DimsOf(b, aq) && DimsOf(b, ar)
    requires var mi, mj := b.ni - 2 * b.nb, b.nj - 2 * b.nb;
      IsFlux3(q0, mi, mj) && IsFlux3(q, mi, mj) && IsFlux3(r, mi, mj)
    requires forall i, j, k :: 0 <= i < b.ni - 2 * b.nb && 0 <= j < b.nj - 2 * b.nb && 0 <= k < NF ==>
      a0[i, j, k] == q0[i][j][k] && aq[i, j, k] == q[i][j][k] && ar[i, j, k] == r[i][j][k]
    modifies dst, b.rho, b.u, b.v, b.e
    ensures forall i, j, k :: 0 <= i < b.ni - 2 * b.nb && 0 <= j < b.nj - 2 * b.nb && 0 <= k < NF ==>
      dst[i, j, k] == StageField(st, q0, q, r, dt, b.ni - 2 * b.nb, b.nj - 2 * b.nb)[i][j][k]
    ensures b.Values()
      == Advance(old(b.Values()), StageField(st, q0, q, r, dt, b.ni - 2 * b.nb, b.nj - 2 * b.nb),
                 GeomOf(c).s, b.ni, b.nj, b.nb)
    ensures GeomOf(c) == old(GeomOf(c))
  {
    UpdateStage(b, c.s, st, dst, a0, aq, ar, dt, q0, q, r);
    var bcOk := ReflectBc(bcName, b);
  }

  /** the four basic variables at (p, m) are those of c */
  ghost predicate CellIs(b: BasicVarHD, p: nat, m: nat, c: Cell)
    requires b.Valid() && p < b.ni && m < b.nj
    reads b.rho, b.u, b.v, b.e
  {
    b.rho[p, m] == c.rho && b.u[p, m] == c.u && b.v[p, m] == c.v && b.e[p, m] == c.e
  }

  /** arrays holding the cells of w hold w */
  lemma ValuesAre(b: BasicVarHD, w: BasicField)
    requires b.Valid() && w.Shaped(b.ni, b.nj)
    requires forall p, m :: 0 <= p < b.ni && 0 <= m < b.nj ==> CellIs(b, p, m, w.At(p, m))
    ensures b.Values() == w
  {
    var v := b.Values();
    forall p, m | 0 <= p < b.ni && 0 <= m < b.nj
      ensures v.At(p, m) == w.At(p, m)
    {
      assert CellIs(b, p, m, w.At(p, m));
    }
    BasicExt(v, w, b.ni, b.nj);
  }

  /** an NI x NJ x NF array matching the sizes of the basic state */
  ghost predicate DimsOf(b: BasicVarHD, a: array3<real>)
  {
    a.Length0 == b.ni && a.Length1 == b.nj && a.Length2 == NF
  }

  /** the area array sa is NI x NJ and none of the basic arrays */
  ghost predicate AreaApart(b: BasicVarHD, sa: array2<real>)
  {
    && sa.Length0 == b.ni && sa.Length1 == b.nj
    && sa != b.rho && sa != b.u && sa != b.v && sa != b.e
  }

  /** calc_basic of the stage value t[i][j] over the area of interior cell (i, j) */
  function CellTarget(t: Flux3, s: Field, ni: nat, nj: nat, nb: nat, i: nat, j: nat): Cell
    requires SizesOk(ni, nj, nb) && IsFlux3(t, ni - 2 * nb, nj - 2 * nb) && IsField(s, ni, nj) && nb >= 1
    requires i < ni - 2 * nb && j < nj - 2 * nb
  {
    CalcBasic(t[i][j], CellArea(s, ni, nj, nb, i, j))
  }

  /** cells[i][j] is what a stage loop writes into basic cell (NB+i, NB+j) */
  ghost predicate Targets(cells: seq<seq<Cell>>, t: Flux3, s: Field, ni: nat, nj: nat, nb: nat)
    requires SizesOk(ni, nj, nb) && IsFlux3(t, ni - 2 * nb, nj - 2 * nb) && IsField(s, ni, nj) && nb >= 1
  {
    && |cells| == ni - 2 * nb && (forall i :: 0 <= i < ni - 2 * nb ==> |cells[i]| == nj - 2 * nb)
    && forall i, j {:trigger CellTarget(t, s, ni, nj, nb, i, j)} :: 0 <= i < ni - 2 * nb && 0 <= j < nj - 2 * nb ==>
      cells[i][j] == CellTarget(t, s, ni, nj, nb, i, j)
  }

  /** the targets of every interior cell */
  ghost function TargetGrid(t: Flux3, s: Field, ni: nat, nj: nat, nb: nat): (cells: seq<seq<Cell>>)
    requires SizesOk(ni, nj, nb) && IsFlux3(t, ni - 2 * nb, nj - 2 * nb) && IsField(s, ni, nj) && nb >= 1
    ensures Targets(cells, t, s, ni, nj, nb)
  {
    seq(ni - 2 * nb, i requires 0 <= i < ni - 2 * nb =>
      seq(nj - 2 * nb, j requires 0 <= j < nj - 2 * nb => CellTarget(t, s, ni, nj, nb, i, j)))
  }

  /** Basic arrays holding the targets in the interior and the cells of b0 elsewhere hold
      the basic state after a stage loop. */
  lemma ValuesAfterStage(b: BasicVarHD, b0: BasicField, t: Flux3, s: Field, cells: seq<seq<Cell>>)
    requires b.Valid() && SizesOk(b.ni, b.nj, b.nb) && b.nb >= 1 && b0.Shaped(b.ni, b.nj) && IsField(s, b.ni, b.nj)
    requires IsFlux3(t, b.ni - 2 * b.nb, b.nj - 2 * b.nb) && Targets(cells, t, s, b.ni, b.nj, b.nb)
    requires forall p, m :: 0 <= p < b.ni - 2 * b.nb && 0 <= m < b.nj - 2 * b.nb ==>
      CellIs(b, b.nb + p, b.nb + m, cells[p][m])
    requires forall p, m :: 0 <= p < b.ni && 0 <= m < b.nj ==>
      !(b.nb <= p < b.ni - b.nb && b.nb <= m < b.nj - b.nb) ==> CellIs(b, p, m, b0.At(p, m))
    ensures b.Values() == WithInterior(b0, t, s, b.ni, b.nj, b.nb)
  {
    var ni, nj, nb := b.ni, b.nj, b.nb;
    var w := WithInterior(b0, t, s, ni, nj, nb);
    forall p, m | 0 <= p < ni && 0 <= m < nj
      ensures CellIs(b, p, m, w.At(p, m))
    {
      if nb <= p < ni - nb && nb <= m < nj - nb {
        var i, j := p - nb, m - nb;
        assert p == nb + i && m == nb + j;
        assert CellIs(b, nb + i, nb + j, cells[i][j]);
        assert cells[i][j] == CellTarget(t, s, ni, nj, nb, i, j);
      }
    }
    ValuesAre(b, w);
  }

  /** One stage loop of march_ssprk3: dst[i][j] takes the stage value of a0, aq and ar
      (arr_q1 = q0 + dt q1; arr_q2 = 3/4 q0 + 1/4 (q1 + dt q2); arr_q0 = q0/3 + 2/3 (q2 + dt q1)),
      then calc_basic of it with s_a goes into basic cell (NB+i, NB+j).  dst may be one of
      a0, aq, ar: each entry is read before it is written.  sa is the area array of the
      grid (coord.s). */
  method UpdateStage(b: BasicVarHD, sa: array2<real>, st: Stage, dst: array3<real>, a0: array3<real>,
                     aq: array3<real>, ar: array3<real>, dt: real, ghost q0: Flux3, ghost q: Flux3, ghost r: Flux3)
    requires b.Valid() && SizesOk(b.ni, b.nj, b.nb) && b.nb >= 1 && AreaApart(b, sa)
    requires DimsOf(b, dst) && DimsOf(b, a0) && DimsOf(b, aq) && DimsOf(b, ar)
    requires var mi, mj := b.ni - 2 * b.nb, b.nj - 2 * b.nb;
      IsFlux3(q0, mi, mj) && IsFlux3(q, mi, mj) && IsFlux3(r, mi, mj)
    requires forall i, j, k :: 0 <= i < b.ni - 2 * b.nb && 0 <= j < b.nj - 2 * b.nb && 0 <= k < NF ==>
      a0[i, j, k] == q0[i][j][k] && aq[i, j, k] == q[i][j][k] && ar[i, j, k] == r[i][j][k]
    modifies dst, b.rho, b.u, b.v, b.e
    ensures var t := StageField(st, q0, q, r, dt, b.ni - 2 * b.nb, b.nj - 2 * b.nb);
      forall i, j, k :: 0 <= i < b.ni - 2 * b.nb && 0 <= j < b.nj - 2 * b.nb && 0 <= k < NF ==>
        dst[i, j, k] == t[i][j][k]
    ensures forall i, j, k :: 0 <= i < b.ni && 0 <= j < b.nj && 0 <= k < NF ==>
      !(i < b.ni - 2 * b.nb && j < b.nj - 2 * b.nb) ==> dst[i, j, k] == old(dst[i, j, k])
    ensures b.Values()
      == WithInterior(old(b.Values()), StageField(st, q0, q, r, dt, b.ni - 2 * b.nb, b.nj - 2 * b.nb),
                      Snap(sa), b.ni, b.nj, b.nb)
  {
    var ni, nj, nb := b.ni, b.nj, b.nb;
    ghost var t := StageField(st, q0, q, r, dt, ni - 2 * nb, nj - 2 * nb);
    ghost var s := Snap(sa);
    ghost var b0 := b.Values();
    ghost var cells := TargetGrid(t, s, ni, nj, nb);
    StageLoop(b, sa, st, dst, a0, aq, ar, dt, t, s, cells);
    forall p, m | 0 <= p < ni && 0 <= m < nj && !(nb <= p < ni - nb && nb <= m < nj - nb)
      ensures CellIs(b, p, m, b0.At(p, m))
    {
    }
    ValuesAfterStage(b, b0, t, s, cells);
  }

  /** the two loops of a stage, with the stage values t and their basic cells given */
  method StageLoop(b: BasicVarHD, sa: array2<real>, st: Stage, dst: array3<real>, a0: array3<real>,
                   aq: array3<real>, ar: array3<real>, dt: real,
                   ghost t: Flux3, ghost s: Field, ghost cells: seq<seq<Cell>>)
    requires b.Valid() && SizesOk(b.ni, b.nj, b.nb) && b.nb >= 1 && AreaApart(b, sa)
    requires DimsOf(b, dst) && DimsOf(b, a0) && DimsOf(b, aq) && DimsOf(b, ar)
    requires IsFlux3(t, b.ni - 2 * b.nb, b.nj - 2 * b.nb)
    requires s == Snap(sa) && Targets(cells, t, s, b.ni, b.nj, b.nb)
    requires forall i, j, k :: 0 <= i < b.ni - 2 * b.nb && 0 <= j < b.nj - 2 * b.nb && 0 <= k < NF ==>
      StageValue(st, a0[i, j, k], aq[i, j, k], ar[i, j, k], dt) == t[i][j][k]
    modifies dst, b.rho, b.u, b.v, b.e
    ensures forall i, j, k :: 0 <= i < b.ni - 2 * b.nb && 0 <= j < b.nj - 2 * b.nb && 0 <= k < NF ==>
      dst[i, j, k] == t[i][j][k]
    ensures forall i, j, k :: 0 <= i < b.ni && 0 <= j < b.nj && 0 <= k < NF ==>
      !(i < b.ni - 2 * b.nb && j < b.nj - 2 * b.nb) ==> dst[i, j, k] == old(dst[i, j, k])
    ensures forall p, m :: 0 <= p < b.ni - 2 * b.nb && 0 <= m < b.nj - 2 * b.nb ==>
      CellIs(b, b.nb + p, b.nb + m, cells[p][m])
    ensures forall p, m :: 0 <= p < b.ni && 0 <= m < b.nj ==>
      !(b.nb <= p < b.ni - b.nb && b.nb <= m < b.nj - b.nb) ==>
        && b.rho[p, m] == old(b.rho[p, m]) && b.u[p, m] == old(b.u[p, m])
        && b.v[p, m] == old(b.v[p, m]) && b.e[p, m] == old(b.e[p, m])
  {
    var ni, nj, nb := b.ni, b.nj, b.nb;
    ghost var mi, mj := ni - 2 * nb, nj - 2 * nb;
    for i := 0 to ni - 2 * nb
      invariant forall p, m, k :: 0 <= p < i && 0 <= m < mj && 0 <= k < NF ==> dst[p, m, k] == t[p][m][k]
      invariant forall p, m, k :: 0 <= p < ni && 0 <= m < nj && 0 <= k < NF ==>
        !(p < i && m < mj) ==> dst[p, m, k] == old(dst[p, m, k])
      invariant forall p, m, k :: i <= p < mi && 0 <= m < mj && 0 <= k < NF ==>
        StageValue(st, a0[p, m, k], aq[p, m, k], ar[p, m, k], dt) == t[p][m][k]
      invariant forall p, m :: 0 <= p < i && 0 <= m < mj ==> CellIs(b, nb + p, nb + m, cells[p][m])
      invariant forall p, m :: 0 <= p < ni && 0 <= m < nj ==>
        !(nb <= p < nb + i && nb <= m < nj - nb) ==>
          && b.rho[p, m] == old(b.rho[p, m]) && b.u[p, m] == old(b.u[p, m])
          && b.v[p, m] == old(b.v[p, m]) && b.e[p, m] == old(b.e[p, m])
    {
      UpdateRow(b, sa, st, dst, a0, aq, ar, dt, t, s, cells, i);
    }
  }

  /** one pass of the outer loop of a stage: row i of the interior */
  method UpdateRow(b: BasicVarHD, sa: array2<real>, st: Stage, dst: array3<real>, a0: array3<real>,
                   aq: array3<real>, ar: array3<real>, dt: real,
                   ghost t: Flux3, ghost s: Field, ghost cells: seq<seq<Cell>>, i: nat)
    requires b.Valid() && SizesOk(b.ni, b.nj, b.nb) && b.nb >= 1 && AreaApart(b, sa) && i < b.ni - 2 * b.nb
    requires DimsOf(b, dst) && DimsOf(b, a0) && DimsOf(b, aq) && DimsOf(b, ar)
    requires IsFlux3(t, b.ni - 2 * b.nb, b.nj - 2 * b.nb)
    requires s == Snap(sa) && Targets(cells, t, s, b.ni, b.nj, b.nb)
    requires forall m, k :: 0 <= m < b.nj - 2 * b.nb && 0 <= k < NF ==>
      StageValue(st, a0[i, m, k], aq[i, m, k], ar[i, m, k], dt) == t[i][m][k]
    modifies dst, b.rho, b.u, b.v, b.e
    ensures forall m, k :: 0 <= m < b.nj - 2 * b.nb && 0 <= k < NF ==> dst[i, m, k] == t[i][m][k]
    ensures forall p, m, k :: 0 <= p < b.ni && 0 <= m < b.nj && 0 <= k < NF ==>
      !(p == i && m < b.nj - 2 * b.nb) ==> dst[p, m, k] == old(dst[p, m, k])
    ensures forall p, m, k :: 0 <= p < b.ni && 0 <= m < b.nj && 0 <= k < NF ==> p != i ==>
      a0[p, m, k] == old(a0[p, m, k]) && aq[p, m, k] == old(aq[p, m, k]) && ar[p, m, k] == old(ar[p, m, k])
    ensures forall m :: 0 <= m < b.nj - 2 * b.nb ==> CellIs(b, b.nb + i, b.nb + m, cells[i][m])
    ensures forall p, m :: 0 <= p < b.ni && 0 <= m < b.nj ==>
      !(p == b.nb + i && b.nb <= m < b.nj - b.nb) ==>
        && b.rho[p, m] == old(b.rho[p, m]) && b.u[p, m] == old(b.u[p, m])
        && b.v[p, m] == old(b.v[p, m]) && b.e[p, m] == old(b.e[p, m])
  {
    var ni, nj, nb := b.ni, b.nj, b.nb;
    for j := 0 to nj - 2 * nb
      invariant forall m, k :: 0 <= m < j && 0 <= k < NF ==> dst[i, m, k] == t[i][m][k]
      invariant forall p, m, k :: 0 <= p < ni && 0 <= m < nj && 0 <= k < NF ==>
        !(p == i && m < j) ==> dst[p, m, k] == old(dst[p, m, k])
      invariant forall m, k :: j <= m < nj - 2 * nb && 0 <= k < NF ==>
        StageValue(st, a0[i, m, k], aq[i, m, k], ar[i, m, k], dt) == t[i][m][k]
      invariant forall m :: 0 <= m < j ==> CellIs(b, nb + i, nb + m, cells[i][m])
      invariant forall p, m :: 0 <= p < ni && 0 <= m < nj ==>
        !(p == nb + i && nb <= m < nb + j) ==>
          && b.rho[p, m] == old(b.rho[p, m]) && b.u[p, m] == old(b.u[p, m])
          && b.v[p, m] == old(b.v[p, m]) && b.e[p, m] == old(b.e[p, m])
    {
      UpdateCell(b, sa, st, dst, a0, aq, ar, dt, t, s, cells[i][j], i, j);
    }
  }

  /** one pass of the inner loops of a stage: the stage value of interior cell (i, j)
      into dst[i][j], then calc_basic of it (the cell c) into basic cell (NB+i, NB+j) */
  method UpdateCell(b: BasicVarHD, sa: array2<real>, st: Stage, dst: array3<real>, a0: array3<real>,
                    aq: array3<real>, ar: array3<real>, dt: real,
                    ghost t: Flux3, ghost s: Field, ghost c: Cell, i: nat, j: nat)
    requires b.Valid() && SizesOk(b.ni, b.nj, b.nb) && b.nb >= 1 && AreaApart(b, sa)
    requires i < b.ni - 2 * b.nb && j < b.nj - 2 * b.nb
    requires DimsOf(b, dst) && DimsOf(b, a0) && DimsOf(b, aq) && DimsOf(b, ar)
    requires IsFlux3(t, b.ni - 2 * b.nb, b.nj - 2 * b.nb)
    requires s == Snap(sa) && c == CellTarget(t, s, b.ni, b.nj, b.nb, i, j)
    requires forall k :: 0 <= k < NF ==> StageValue(st, a0[i, j, k], aq[i, j, k], ar[i, j, k], dt) == t[i][j][k]
    modifies dst, b.rho, b.u, b.v, b.e
    ensures forall k :: 0 <= k < NF ==> dst[i, j, k] == t[i][j][k]
    ensures forall p, m, k :: 0 <= p < b.ni && 0 <= m < b.nj && 0 <= k < NF ==>
      (p != i || m != j) ==> dst[p, m, k] == old(dst[p, m, k])
    ensures CellIs(b, b.nb + i, b.nb + j, c)
    ensures forall p, m :: 0 <= p < b.ni && 0 <= m < b.nj ==>
      (p != b.nb + i || m != b.nb + j) ==>
        && b.rho[p, m] == old(b.rho[p, m]) && b.u[p, m] == old(b.u[p, m])
        && b.v[p, m] == old(b.v[p, m]) && b.e[p, m] == old(b.e[p, m])
  {
    StoreStage(st, dst, a0, aq, ar, dt, i, j);
    assert forall k :: 0 <= k < NF ==> dst[i, j, k] == t[i][j][k];
    var nb := b.nb;
    var area := 0.25 * (sa[nb + i - 1, nb + j - 1] + sa[nb + i, nb + j - 1] + sa[nb + i - 1, nb + j] + sa[nb + i, nb + j]);
    var v := [dst[i, j, 0], dst[i, j, 1], dst[i, j, 2], dst[i, j, 3]];
    assert v == t[i][j];
    assert area == CellArea(s, b.ni, b.nj, nb, i, j);
    var cell := CalcBasic(v, area);
    assert cell == c;
    StoreCell(b, nb + i, nb + j, cell);
  }

  /** the NF assignments of the stage value into dst[i][j]; each entry of the inputs is
      read before dst's entry is written, so dst may be one of them */
  method StoreStage(st: Stage, dst: array3<real>, a0: array3<real>, aq: array3<real>, ar: array3<real>,
                    dt: real, i: nat, j: nat)
    requires dst.Length2 == NF && a0.Length2 == NF && aq.Length2 == NF && ar.Length2 == NF
    requires i < dst.Length0 && i < a0.Length0 && i < aq.Length0 && i < ar.Length0
    requires j < dst.Length1 && j < a0.Length1 && j < aq.Length1 && j < ar.Length1
    modifies dst
    ensures forall k :: 0 <= k < NF ==>
      dst[i, j, k] == StageValue(st, old(a0[i, j, k]), old(aq[i, j, k]), old(ar[i, j, k]), dt)
    ensures forall p, m, k :: 0 <= p < dst.Length0 && 0 <= m < dst.Length1 && 0 <= k < NF ==>
      (p != i || m != j) ==> dst[p, m, k] == old(dst[p, m, k])
  {
    for k := 0 to NF
      invariant forall k' :: 0 <= k' < k ==>
        dst[i, j, k'] == StageValue(st, old(a0[i, j, k']), old(aq[i, j, k']), old(ar[i, j, k']), dt)
      invariant forall k' :: k <= k' < NF ==>
        a0[i, j, k'] == old(a0[i, j, k']) && aq[i, j, k'] == old(aq[i, j, k']) && ar[i, j, k'] == old(ar[i, j, k'])
      invariant forall p, m, k' :: 0 <= p < dst.Length0 && 0 <= m < dst.Length1 && 0 <= k' < NF ==>
        (p != i || m != j) ==> dst[p, m, k'] == old(dst[p, m, k'])
    {
      dst[i, j, k] := StageValue(st, a0[i, j, k], aq[i, j, k], ar[i, j, k], dt);
    }
  }

  /** the four assignments of calc_basic's result into basic cell (p, m) */
  method StoreCell(b: BasicVarHD, p: nat, m: nat, c: Cell)
    requires b.Valid() && p < b.ni && m < b.nj
    modifies b.rho, b.u, b.v, b.e
    ensures CellIs(b, p, m, c)
    ensures forall p', m' :: 0 <= p' < b.ni && 0 <= m' < b.nj && (p' != p || m' != m) ==>
      && b.rho[p', m'] == old(b.rho[p', m']) && b.u[p', m'] == old(b.u[p', m'])
      && b.v[p', m'] == old(b.v[p', m']) && b.e[p', m'] == old(b.e[p', m'])
  {
    b.rho[p, m] := c.rho;
    b.u[p, m] := c.u;
    b.v[p, m] := c.v;
    b.e[p, m] := c.e;
  }

}
