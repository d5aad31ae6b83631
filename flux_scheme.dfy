/** Interface reconstruction and the Roe flux-difference-splitting scheme
    (src/fluid2d/marching/eq/euler/flux_scheme.rs). */
module FluxScheme {
  import opened F64
  import opened Fluid2d
  import opened Fnd
  import opened Eos
  import opened Conserved

  /** the k-th basic variable of a cell: rho, u, v, e for k = 0, 1, 2, 3 */
  function Var(c: Cell, k: nat): real
    requires k < NF
  {
    if k == 0 then c.rho else if k == 1 then c.u else if k == 2 then c.v else c.e
  }

  /** reconst_by_basic_muscl: MUSCL-minmod on each basic variable over the cells
      c0, c1 | c2, c3 around the interface; the left and the right state. */
  function ReconstByBasicMuscl(c0: Cell, c1: Cell, c2: Cell, c3: Cell): (lr: (Cell, Cell))
    ensures c0 == c1 == c2 == c3 ==> lr == (c1, c1)
  {
    var rho := MusclMinmod(c0.rho, c1.rho, c2.rho, c3.rho);
    var u := MusclMinmod(c0.u, c1.u, c2.u, c3.u);
    var v := MusclMinmod(c0.v, c1.v, c2.v, c3.v);
    var e := MusclMinmod(c0.e, c1.e, c2.e, c3.e);
    (Cell(rho.0, u.0, v.0, e.0), Cell(rho.1, u.1, v.1, e.1))
  }

  /** Each reconstructed variable is the scalar scheme on that variable's own stencil,
      so it depends on nothing else. */
  lemma MusclPerVariable(c0: Cell, c1: Cell, c2: Cell, c3: Cell, k: nat)
    requires k < NF
    ensures Var(ReconstByBasicMuscl(c0, c1, c2, c3).0, k)
              == MusclMinmod(Var(c0, k), Var(c1, k), Var(c2, k), Var(c3, k)).0
    ensures Var(ReconstByBasicMuscl(c0, c1, c2, c3).1, k)
              == MusclMinmod(Var(c0, k), Var(c1, k), Var(c2, k), Var(c3, k)).1
  {
  }

  /** reconst_by_basic_mp5: MP5 on each basic variable over c0, c1, c2 | c3, c4, c5 */
  function ReconstByBasicMp5(c0: Cell, c1: Cell, c2: Cell, c3: Cell, c4: Cell, c5: Cell): (lr: (Cell, Cell))
    ensures c0 == c1 == c2 == c3 == c4 == c5 ==> lr == (c2, c2)
  {
    var rho := Mp5(c0.rho, c1.rho, c2.rho, c3.rho, c4.rho, c5.rho);
    var u := Mp5(c0.u, c1.u, c2.u, c3.u, c4.u, c5.u);
    var v := Mp5(c0.v, c1.v, c2.v, c3.v, c4.v, c5.v);
    var e := Mp5(c0.e, c1.e, c2.e, c3.e, c4.e, c5.e);
    (Cell(rho.0, u.0, v.0, e.0), Cell(rho.1, u.1, v.1, e.1))
  }

  lemma Mp5PerVariable(c0: Cell, c1: Cell, c2: Cell, c3: Cell, c4: Cell, c5: Cell, k: nat)
    requires k < NF
    ensures Var(ReconstByBasicMp5(c0, c1, c2, c3, c4, c5).0, k)
              == Mp5(Var(c0, k), Var(c1, k), Var(c2, k), Var(c3, k), Var(c4, k), Var(c5, k)).0
    ensures Var(ReconstByBasicMp5(c0, c1, c2, c3, c4, c5).1, k)
              == Mp5(Var(c0, k), Var(c1, k), Var(c2, k), Var(c3, k), Var(c4, k), Var(c5, k)).1
  {
  }

  /** the Roe-averaged velocity or enthalpy, weighted by the square roots of the densities */
  function RoeMean(sl: real, sr: real, xl: real, xr: real): (m: real)
    ensures sl >= 0.0 && sr >= 0.0 && sl + sr != 0.0 ==> Min(xl, xr) <= m <= Max(xl, xr)
  {
    RoeMeanBetween(sl, sr, xl, xr);
    Div(sl * xl + sr * xr, sl + sr)
  }

  lemma RoeMeanBetween(sl: real, sr: real, xl: real, xr: real)
    ensures sl >= 0.0 && sr >= 0.0 && sl + sr != 0.0 ==>
      Min(xl, xr) <= Div(sl * xl + sr * xr, sl + sr) <= Max(xl, xr)
  {
    if sl >= 0.0 && sr >= 0.0 && sl + sr != 0.0 {
      var m := Div(sl * xl + sr * xr, sl + sr);
      var lo := Min(xl, xr);
      var hi := Max(xl, xr);
      assert m * (sl + sr) == sl * xl + sr * xr;
      assert (m - lo) * (sl + sr) == sl * (xl - lo) + sr * (xr - lo);
      assert (hi - m) * (sl + sr) == sl * (hi - xl) + sr * (hi - xr);
      assert sl * (xl - lo) >= 0.0 && sr * (xr - lo) >= 0.0;
      assert sl * (hi - xl) >= 0.0 && sr * (hi - xr) >= 0.0;
    }
  }

  /** roe_average: the Roe-averaged state of the left and right states.  For positive
      densities its density is their geometric mean, and its velocity components and its
      total enthalpy lie between the left and the right ones. */
  function RoeAverage(eos: IdealEoS, sqrt: SqrtFn, l: Cell, r: Cell): (a: Cell)
    ensures IsSqrt(sqrt) && l.rho >= 0.0 && r.rho >= 0.0 ==>
      a.rho >= 0.0 && a.rho * a.rho == l.rho * r.rho
    ensures IsSqrt(sqrt) && l.rho > 0.0 && r.rho > 0.0 ==>
      Min(l.u, r.u) <= a.u <= Max(l.u, r.u) && Min(l.v, r.v) <= a.v <= Max(l.v, r.v)
    ensures IsSqrt(sqrt) && l.rho > 0.0 && r.rho > 0.0 && eos.gamma != 0.0 ==>
      var hl := Enthalpy(eos, l.rho, l.u, l.v, l.e);
      var hr := Enthalpy(eos, r.rho, r.u, r.v, r.e);
      Min(hl, hr) <= Enthalpy(eos, a.rho, a.u, a.v, a.e) <= Max(hl, hr)
  {
    var hl := Enthalpy(eos, l.rho, l.u, l.v, l.e);
    var hr := Enthalpy(eos, r.rho, r.u, r.v, r.e);
    var sl := sqrt(l.rho);
    var sr := sqrt(r.rho);
    var rhoA := sl * sr;
    var uA := RoeMean(sl, sr, l.u, r.u);
    var vA := RoeMean(sl, sr, l.v, r.v);
    var hA := RoeMean(sl, sr, hl, hr);
    var eA := CalcE(eos, rhoA, uA, vA, hA);
    RoeAverageFacts(eos, sqrt, l, r, Cell(rhoA, uA, vA, eA), hl, hr, hA);
    Cell(rhoA, uA, vA, eA)
  }

  /** the properties of roe_average's result a, given the intermediate values it is
      built from */
  lemma RoeAverageFacts(eos: IdealEoS, sqrt: SqrtFn, l: Cell, r: Cell, a: Cell, hl: real, hr: real, hA: real)
    requires hl == Enthalpy(eos, l.rho, l.u, l.v, l.e) && hr == Enthalpy(eos, r.rho, r.u, r.v, r.e)
    requires a.rho == sqrt(l.rho) * sqrt(r.rho)
    requires a.u == RoeMean(sqrt(l.rho), sqrt(r.rho), l.u, r.u)
    requires a.v == RoeMean(sqrt(l.rho), sqrt(r.rho), l.v, r.v)
    requires hA == RoeMean(sqrt(l.rho), sqrt(r.rho), hl, hr)
    requires a.e == CalcE(eos, a.rho, a.u, a.v, hA)
    ensures IsSqrt(sqrt) && l.rho >= 0.0 && r.rho >= 0.0 ==>
      a.rho >= 0.0 && a.rho * a.rho == l.rho * r.rho
    ensures IsSqrt(sqrt) && l.rho > 0.0 && r.rho > 0.0 ==>
      Min(l.u, r.u) <= a.u <= Max(l.u, r.u) && Min(l.v, r.v) <= a.v <= Max(l.v, r.v)
    ensures IsSqrt(sqrt) && l.rho > 0.0 && r.rho > 0.0 && eos.gamma != 0.0 ==>
      Min(hl, hr) <= Enthalpy(eos, a.rho, a.u, a.v, a.e) <= Max(hl, hr)
  {
    RootsOfDensities(sqrt, l.rho, r.rho);
    if IsSqrt(sqrt) && l.rho > 0.0 && r.rho > 0.0 && eos.gamma != 0.0 {
      assert a.rho != 0.0;
      EnthalpyOfCalcE(eos, a.rho, a.u, a.v, hA);
      assert Enthalpy(eos, a.rho, a.u, a.v, a.e) == hA;
      assert Min(hl, hr) <= hA <= Max(hl, hr);
    }
  }

  /** the square roots of two densities: their product squares to the product of the
      densities, and both are positive for positive densities */
  lemma RootsOfDensities(sqrt: SqrtFn, x: real, y: real)
    ensures IsSqrt(sqrt) && x >= 0.0 && y >= 0.0 ==>
      sqrt(x) * sqrt(y) >= 0.0 && (sqrt(x) * sqrt(y)) * (sqrt(x) * sqrt(y)) == x * y
    ensures IsSqrt(sqrt) && x > 0.0 && y > 0.0 ==> sqrt(x) > 0.0 && sqrt(y) > 0.0 && sqrt(x) * sqrt(y) != 0.0
  {
    if IsSqrt(sqrt) && x >= 0.0 && y >= 0.0 {
      var a, b := sqrt(x), sqrt(y);
      assert a >= 0.0 && a * a == x && b >= 0.0 && b * b == y;
      assert (a * b) * (a * b) == (a * a) * (b * b);
      if x > 0.0 && y > 0.0 {
        SqrtPositive(sqrt, x);
        SqrtPositive(sqrt, y);
      }
    }
  }

  /** Swapping the left and right states leaves the Roe average unchanged. */
  lemma RoeAverageSymmetric(eos: IdealEoS, sqrt: SqrtFn, l: Cell, r: Cell)
    ensures RoeAverage(eos, sqrt, r, l) == RoeAverage(eos, sqrt, l, r)
  {
    var sl := sqrt(l.rho);
    var sr := sqrt(r.rho);
    var hl := Enthalpy(eos, l.rho, l.u, l.v, l.e);
    var hr := Enthalpy(eos, r.rho, r.u, r.v, r.e);
    RoeMeanSymmetric(sl, sr, l.u, r.u);
    RoeMeanSymmetric(sl, sr, l.v, r.v);
    RoeMeanSymmetric(sl, sr, hl, hr);
  }

  lemma RoeMeanSymmetric(sl: real, sr: real, xl: real, xr: real)
    ensures RoeMean(sr, sl, xr, xl) == RoeMean(sl, sr, xl, xr)
  {
    assert sr * xr + sl * xl == sl * xl + sr * xr;
    assert sr + sl == sl + sr;
  }

  /** A weighted mean of equal values is that value. */
  lemma RoeMeanEqual(s: real, x: real)
    requires s != 0.0
    ensures RoeMean(s, s, x, x) == x
  {
    var m := Div(s * x + s * x, s + s);
    assert s + s != 0.0;
    assert m * (s + s) == (s + s) * x;
    ZeroProduct(m - x, s + s);
  }

  /** The Roe average of a physical state with itself is that state. */
  lemma RoeAverageSame(eos: IdealEoS, sqrt: SqrtFn, c: Cell)
    requires IsSqrt(sqrt) && c.rho > 0.0 && eos.gamma != 0.0
    ensures RoeAverage(eos, sqrt, c, c) == c
  {
    var s := sqrt(c.rho);
    SqrtPositive(sqrt, c.rho);
    var h := Enthalpy(eos, c.rho, c.u, c.v, c.e);
    RoeMeanEqual(s, c.u);
    RoeMeanEqual(s, c.v);
    RoeMeanEqual(s, h);
    CalcEOfEnthalpy(eos, c.rho, c.u, c.v, c.e);
  }

  /** the part of the Roe dissipation of component i that comes from characteristic j and
      conserved components k < n: the sum of R[i][j] |lam_j| Rinv[j][k] dq[k] */
  function InnerSum(eig: Eigen, dq: seq<real>, i: nat, j: nat, n: nat): real
    requires |eig.lam| == NF && IsMat(eig.r) && IsMat(eig.rinv) && |dq| == NF
    requires i < NF && j < NF && n <= NF
  {
    if n == 0 then 0.0
    else InnerSum(eig, dq, i, j, n - 1)
         + eig.r[i][j] * Abs(eig.lam[j]) * eig.rinv[j][n - 1] * dq[n - 1]
  }

  /** the Roe dissipation of component i from the characteristics j < m */
  function OuterSum(eig: Eigen, dq: seq<real>, i: nat, m: nat): real
    requires |eig.lam| == NF && IsMat(eig.r) && IsMat(eig.rinv) && |dq| == NF
    requires i < NF && m <= NF
  {
    if m == 0 then 0.0 else OuterSum(eig, dq, i, m - 1) + InnerSum(eig, dq, i, m - 1, NF)
  }

  /** the difference of two vectors of NF components */
  function Jump(ql: seq<real>, qr: seq<real>): (dq: seq<real>)
    requires |ql| == NF && |qr| == NF
    ensures |dq| == NF && forall k :: 0 <= k < NF ==> ql[k] + dq[k] == qr[k]
  {
    seq(NF, k requires 0 <= k < NF => qr[k] - ql[k])
  }

  /** the Roe flux from the physical fluxes, the eigen-decomposition at the Roe average
      and the conserved jump: (F_l + F_r - R |Lam| Rinv dq) / 2 */
  function RoeCombine(fl: seq<real>, fr: seq<real>, eig: Eigen, dq: seq<real>): (fc: seq<real>)
    requires |fl| == NF && |fr| == NF && |dq| == NF
    requires |eig.lam| == NF && IsMat(eig.r) && IsMat(eig.rinv)
    ensures |fc| == NF
  {
    seq(NF, i requires 0 <= i < NF => 0.5 * (fr[i] + fl[i] - OuterSum(eig, dq, i, NF)))
  }

  /** the flux roe_fds returns: ix = ixs / s and iy = iys / s go to calc_eigen at the Roe
      average, the unscaled (ixs, iys) to the physical fluxes and s to the conserved jump */
  function RoeFdsFlux(eos: IdealEoS, sqrt: SqrtFn, l: Cell, r: Cell, ixs: real, iys: real,
                      s: real): (fc: seq<real>)
    ensures |fc| == NF
  {
    var a := RoeAverage(eos, sqrt, l, r);
    RoeCombine(CalcFluxConv(eos, l, ixs, iys), CalcFluxConv(eos, r, ixs, iys),
               CalcEigen(eos, sqrt, a.rho, a.u, a.v, a.e, Div(ixs, s), Div(iys, s)),
               Jump(CalcConservative(l, s), CalcConservative(r, s)))
  }

  /** roe_fds: the Roe flux of the interface between l and r */
  method RoeFds(eos: IdealEoS, sqrt: SqrtFn, l: Cell, r: Cell, ixs: real, iys: real, s: real)
    returns (fc: seq<real>)
    ensures fc == RoeFdsFlux(eos, sqrt, l, r, ixs, iys, s)
  {
    var ix := Div(ixs, s);
    var iy := Div(iys, s);
    var a := RoeAverage(eos, sqrt, l, r);
    var ql := CalcConservative(l, s);
    var qr := CalcConservative(r, s);
    var fl := CalcFluxConv(eos, l, ixs, iys);
    var fr := CalcFluxConv(eos, r, ixs, iys);
    var eig := CalcEigen(eos, sqrt, a.rho, a.u, a.v, a.e, ix, iy);
    fc := Accumulate(fl, fr, eig, ql, qr);
  }

  /** the triple loop of roe_fds: starts each component at F_l + F_r, subtracts the
      dissipation terms one by one and halves the sum */
  method Accumulate(fl: seq<real>, fr: seq<real>, eig: Eigen, ql: seq<real>, qr: seq<real>)
    returns (fc: seq<real>)
    requires |fl| == NF && |fr| == NF && |ql| == NF && |qr| == NF
    requires |eig.lam| == NF && IsMat(eig.r) && IsMat(eig.rinv)
    ensures fc == RoeCombine(fl, fr, eig, Jump(ql, qr))
  {
    ghost var dq := Jump(ql, qr);
    fc := [0.0, 0.0, 0.0, 0.0];
    for i := 0 to NF
      invariant |fc| == NF
      invariant forall i' :: 0 <= i' < i ==> fc[i'] == RoeCombine(fl, fr, eig, dq)[i']
    {
      fc := fc[i := fr[i] + fl[i]];
      for j := 0 to NF
        invariant |fc| == NF
        invariant forall i' :: 0 <= i' < i ==> fc[i'] == RoeCombine(fl, fr, eig, dq)[i']
        invariant fc[i] == fr[i] + fl[i] - OuterSum(eig, dq, i, j)
      {
        for k := 0 to NF
          invariant |fc| == NF
          invariant forall i' :: 0 <= i' < i ==> fc[i'] == RoeCombine(fl, fr, eig, dq)[i']
          invariant fc[i] == fr[i] + fl[i] - OuterSum(eig, dq, i, j) - InnerSum(eig, dq, i, j, k)
        {
          fc := fc[i := fc[i] - eig.r[i][j] * Abs(eig.lam[j]) * eig.rinv[j][k] * (qr[k] - ql[k])];
        }
      }
      fc := fc[i := fc[i] * 0.5];
    }
  }

  /** With no jump, the dissipation vanishes. */
  lemma {:induction false} InnerSumZero(eig: Eigen, dq: seq<real>, i: nat, j: nat, n: nat)
    requires |eig.lam| == NF && IsMat(eig.r) && IsMat(eig.rinv) && |dq| == NF
    requires i < NF && j < NF && n <= NF
    requires forall k :: 0 <= k < NF ==> dq[k] == 0.0
    ensures InnerSum(eig, dq, i, j, n) == 0.0
  {
    if n > 0 {
      InnerSumZero(eig, dq, i, j, n - 1);
    }
  }

  lemma {:induction false} OuterSumZero(eig: Eigen, dq: seq<real>, i: nat, m: nat)
    requires |eig.lam| == NF && IsMat(eig.r) && IsMat(eig.rinv) && |dq| == NF
    requires i < NF && m <= NF
    requires forall k :: 0 <= k < NF ==> dq[k] == 0.0
    ensures OuterSum(eig, dq, i, m) == 0.0
  {
    if m > 0 {
      OuterSumZero(eig, dq, i, m - 1);
      InnerSumZero(eig, dq, i, m - 1, NF);
    }
  }

  /** Consistency: with identical left and right states the Roe flux is the physical flux. */
  lemma RoeFdsConsistent(eos: IdealEoS, sqrt: SqrtFn, c: Cell, ixs: real, iys: real, s: real)
    ensures RoeFdsFlux(eos, sqrt, c, c, ixs, iys, s) == CalcFluxConv(eos, c, ixs, iys)
  {
    var f := CalcFluxConv(eos, c, ixs, iys);
    var a := RoeAverage(eos, sqrt, c, c);
    var eig := CalcEigen(eos, sqrt, a.rho, a.u, a.v, a.e, Div(ixs, s), Div(iys, s));
    var dq := Jump(CalcConservative(c, s), CalcConservative(c, s));
    forall i | 0 <= i < NF
      ensures RoeCombine(f, f, eig, dq)[i] == f[i]
    {
      OuterSumZero(eig, dq, i, NF);
    }
  }

  /** the flux schemes calc_num_flux knows */
  datatype Scheme = RoeFdsScheme

  /** the scheme a name selects; None is calc_num_flux's panic */
  function ParseScheme(name: string): (r: Option<Scheme>)
    ensures r.Some? <==> name == "Roe_FDS"
  {
    if name == "Roe_FDS" then Some(RoeFdsScheme) else None
  }

  /** calc_num_flux: the numerical flux of the scheme the name selects */
  method CalcNumFlux(name: string, eos: IdealEoS, sqrt: SqrtFn, l: Cell, r: Cell,
                     ixs: real, iys: real, s: real) returns (fc: Option<seq<real>>)
    ensures fc.Some? <==> name == "Roe_FDS"
    ensures fc.Some? ==> fc.value == RoeFdsFlux(eos, sqrt, l, r, ixs, iys, s)
  {
    match ParseScheme(name)
    case None =>
      fc := None;
    case Some(RoeFdsScheme) =>
      var f := RoeFds(eos, sqrt, l, r, ixs, iys, s);
      fc := Some(f);
  }
}
