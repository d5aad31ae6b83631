/** The ideal-gas equation of state (src/fluid2d/eos.rs).

    The quantity the source calls "temperature" is the specific internal
    energy e/rho - |q|^2/2; with it p = (gamma - 1) rho T and
    cs^2 = gamma (gamma - 1) T.  Quotients go through `Div`, whose value at a
    zero divisor stands for f64's infinity or NaN, so every identity below is
    proved under hypotheses that keep each divisor non-zero. */
module Eos {
  import opened F64
  import opened Fluid2d

  /** half the squared speed */
  function Ke(u: real, v: real): (k: real)
    ensures k >= 0.0
  {
    0.5 * (u * u + v * v)
  }

  /** calc_temp: the specific internal energy */
  function CalcTemp(eos: IdealEoS, rho: real, u: real, v: real, e: real): (temp: real)
    ensures rho != 0.0 ==> e == rho * (temp + Ke(u, v))
  {
    Div(e, rho) - 0.5 * (u * u + v * v)
  }

  /** calc_p: the pressure, (gamma - 1) times the internal energy per volume */
  function CalcP(eos: IdealEoS, rho: real, u: real, v: real, e: real): (p: real)
    ensures rho != 0.0 ==> p == (eos.gamma - 1.0) * rho * CalcTemp(eos, rho, u, v, e)
  {
    (eos.gamma - 1.0) * (e - 0.5 * rho * (u * u + v * v))
  }

  /** the argument of the square root in calc_cs */
  function CsRadicand(eos: IdealEoS, rho: real, u: real, v: real, e: real): real
  {
    eos.gamma * (eos.gamma - 1.0) * CalcTemp(eos, rho, u, v, e)
  }

  /** calc_cs: the sound speed */
  function CalcCs(eos: IdealEoS, sqrt: SqrtFn, rho: real, u: real, v: real, e: real): (cs: real)
    ensures IsSqrt(sqrt) && CsRadicand(eos, rho, u, v, e) >= 0.0 ==>
      cs >= 0.0 && cs * cs == eos.gamma * (eos.gamma - 1.0) * CalcTemp(eos, rho, u, v, e)
  {
    sqrt(eos.gamma * (eos.gamma - 1.0) * (Div(e, rho) - 0.5 * (u * u + v * v)))
  }

  /** calc_e: total energy per volume from the total specific enthalpy h */
  function CalcE(eos: IdealEoS, rho: real, u: real, v: real, h: real): (e: real)
    ensures eos.gamma != 0.0 ==> eos.gamma * e == rho * (h + (eos.gamma - 1.0) * Ke(u, v))
  {
    Div(rho * (h + (eos.gamma - 1.0) * 0.5 * (u * u + v * v)), eos.gamma)
  }

  /** total specific enthalpy (e + p) / rho, as calc_eigen and roe_average form it */
  function Enthalpy(eos: IdealEoS, rho: real, u: real, v: real, e: real): (h: real)
    ensures rho != 0.0 ==> h == eos.gamma * CalcTemp(eos, rho, u, v, e) + Ke(u, v)
  {
    Div(e + CalcP(eos, rho, u, v, e), rho)
  }

  /** calc_rho_e: density and total energy per volume from pressure, temperature, velocity */
  function CalcRhoE(eos: IdealEoS, p: real, temp: real, u: real, v: real): (re: (real, real))
    ensures temp != 0.0 && eos.gamma != 1.0 ==> re.0 * temp * (eos.gamma - 1.0) == p
    ensures re.1 == re.0 * (temp + Ke(u, v))
  {
    var rho := Div(Div(p, temp), eos.gamma - 1.0);
    (rho, rho * (temp + 0.5 * (u * u + v * v)))
  }

  /** calc_e_wp: total energy per volume from density, velocity, pressure */
  function CalcEWp(eos: IdealEoS, rho: real, u: real, v: real, p: real): (e: real)
    ensures eos.gamma != 1.0 ==> (eos.gamma - 1.0) * (e - rho * Ke(u, v)) == p
  {
    Div(p, eos.gamma - 1.0) + 0.5 * rho * (u * u + v * v)
  }

  /** calc_e_wp inverts calc_p in both directions. */
  lemma EWpRoundTrip(eos: IdealEoS, rho: real, u: real, v: real, p: real, e: real)
    requires eos.gamma != 1.0
    ensures CalcP(eos, rho, u, v, CalcEWp(eos, rho, u, v, p)) == p
    ensures CalcEWp(eos, rho, u, v, CalcP(eos, rho, u, v, e)) == e
  {
    PressureOfEWp(eos, rho, u, v, p);
    EWpOfPressure(eos, rho, u, v, e);
  }

  lemma PressureOfEWp(eos: IdealEoS, rho: real, u: real, v: real, p: real)
    requires eos.gamma != 1.0
    ensures CalcP(eos, rho, u, v, CalcEWp(eos, rho, u, v, p)) == p
  {
    var g1 := eos.gamma - 1.0;
    var m := 0.5 * rho * (u * u + v * v);
    var ep := CalcEWp(eos, rho, u, v, p);
    assert ep - m == Div(p, g1);
    MulLeft(g1, ep - m, Div(p, g1));
    ScaleRoundTrip(g1, p);
    assert CalcP(eos, rho, u, v, ep) == g1 * (ep - m);
  }

  lemma EWpOfPressure(eos: IdealEoS, rho: real, u: real, v: real, e: real)
    requires eos.gamma != 1.0
    ensures CalcEWp(eos, rho, u, v, CalcP(eos, rho, u, v, e)) == e
  {
    var g1 := eos.gamma - 1.0;
    var m := 0.5 * rho * (u * u + v * v);
    var pe := CalcP(eos, rho, u, v, e);
    assert pe == g1 * (e - m);
    var d := Div(pe, g1);
    assert d * g1 == pe;
    assert (d - (e - m)) * g1 == 0.0;
    ZeroProduct(d - (e - m), g1);
    assert CalcEWp(eos, rho, u, v, pe) == d + m;
  }

  /** multiplying by a non-zero g and dividing by it cancel, in either order */
  lemma ScaleRoundTrip(g: real, x: real)
    requires g != 0.0
    ensures g * Div(x, g) == x && Div(g * x, g) == x
  {
    assert (Div(g * x, g) - x) * g == 0.0;
  }

  /** calc_rho_e is the inverse of (calc_p, calc_temp): from (p, T) back to (p, T) and
      from a state (rho, e) with non-zero temperature back to (rho, e). */
  lemma RhoERoundTrip(eos: IdealEoS, p: real, temp: real, u: real, v: real)
    requires p != 0.0 && temp != 0.0 && eos.gamma != 1.0
    ensures var (rho, e) := CalcRhoE(eos, p, temp, u, v);
      CalcTemp(eos, rho, u, v, e) == temp && CalcP(eos, rho, u, v, e) == p
  {
    var (rho, e) := CalcRhoE(eos, p, temp, u, v);
    assert rho * temp * (eos.gamma - 1.0) == p;
    assert rho != 0.0;
    var k := Ke(u, v);
    assert e == rho * (temp + k);
    assert Div(e, rho) * rho == e;
    assert Div(e, rho) == temp + k by {
      assert (Div(e, rho) - (temp + k)) * rho == 0.0;
    }
  }

  /** ... and from a state back to itself. */
  lemma StateRoundTrip(eos: IdealEoS, rho: real, u: real, v: real, e: real)
    requires rho != 0.0 && eos.gamma != 1.0 && CalcTemp(eos, rho, u, v, e) != 0.0
    ensures CalcRhoE(eos, CalcP(eos, rho, u, v, e), CalcTemp(eos, rho, u, v, e), u, v) == (rho, e)
  {
    var g1 := eos.gamma - 1.0;
    var t := CalcTemp(eos, rho, u, v, e);
    var p := CalcP(eos, rho, u, v, e);
    assert p == g1 * rho * t;
    assert Div(p, t) == g1 * rho by {
      assert Div(p, t) * t == g1 * rho * t;
      assert (Div(p, t) - g1 * rho) * t == 0.0;
    }
    assert Div(g1 * rho, g1) == rho by {
      assert (Div(g1 * rho, g1) - rho) * g1 == 0.0;
    }
    var re := CalcRhoE(eos, p, t, u, v);
    assert re.0 == rho;
    assert re.1 == rho * (t + Ke(u, v));
    assert re.1 == e;
  }

  /** Enthalpy identity: with e = calc_e(h), (e + p) / rho gives h back, and calc_e
      applied to the enthalpy of a state gives its energy back. */
  lemma EnthalpyRoundTrip(eos: IdealEoS, rho: real, u: real, v: real, h: real, e: real)
    requires rho != 0.0 && eos.gamma != 0.0
    ensures Enthalpy(eos, rho, u, v, CalcE(eos, rho, u, v, h)) == h
    ensures CalcE(eos, rho, u, v, Enthalpy(eos, rho, u, v, e)) == e
  {
    EnthalpyOfCalcE(eos, rho, u, v, h);
    CalcEOfEnthalpy(eos, rho, u, v, e);
  }

  lemma EnthalpyOfCalcE(eos: IdealEoS, rho: real, u: real, v: real, h: real)
    requires rho != 0.0 && eos.gamma != 0.0
    ensures Enthalpy(eos, rho, u, v, CalcE(eos, rho, u, v, h)) == h
  {
    var g := eos.gamma;
    var k := Ke(u, v);
    var e1 := CalcE(eos, rho, u, v, h);
    assert g * e1 == rho * (h + (g - 1.0) * k);
    var p1 := CalcP(eos, rho, u, v, e1);
    assert p1 == (g - 1.0) * e1 - (g - 1.0) * rho * k;
    assert e1 + p1 == g * e1 - (g - 1.0) * rho * k;
    assert e1 + p1 == rho * h;
    assert Div(rho * h, rho) == h by {
      assert (Div(rho * h, rho) - h) * rho == 0.0;
    }
  }

  lemma CalcEOfEnthalpy(eos: IdealEoS, rho: real, u: real, v: real, e: real)
    requires rho != 0.0 && eos.gamma != 0.0
    ensures CalcE(eos, rho, u, v, Enthalpy(eos, rho, u, v, e)) == e
  {
    var g := eos.gamma;
    var k := Ke(u, v);
    var h2 := Enthalpy(eos, rho, u, v, e);
    var t := CalcTemp(eos, rho, u, v, e);
    assert h2 == g * t + k;
    assert rho * (h2 + (g - 1.0) * k) == g * e by {
      assert e == rho * (t + k);
      assert rho * (h2 + (g - 1.0) * k) == g * (rho * (t + k));
    }
    var e2 := CalcE(eos, rho, u, v, h2);
    assert g * e2 == g * e;
  }

  /** The sound speed squared is gamma (gamma - 1) T whenever the radicand is non-negative. */
  lemma SoundSpeedSquared(eos: IdealEoS, sqrt: SqrtFn, rho: real, u: real, v: real, e: real)
    requires IsSqrt(sqrt) && CsRadicand(eos, rho, u, v, e) >= 0.0
    ensures var cs := CalcCs(eos, sqrt, rho, u, v, e);
      cs >= 0.0 && cs * cs == eos.gamma * (eos.gamma - 1.0) * CalcTemp(eos, rho, u, v, e)
  {
  }

  /** The enthalpy of calc_eigen is cs^2 / (gamma - 1) + |q|^2 / 2. */
  lemma EnthalpyFromSoundSpeed(eos: IdealEoS, sqrt: SqrtFn, rho: real, u: real, v: real, e: real)
    requires IsSqrt(sqrt) && rho != 0.0 && eos.gamma != 1.0 && CsRadicand(eos, rho, u, v, e) >= 0.0
    ensures var cs := CalcCs(eos, sqrt, rho, u, v, e);
      Enthalpy(eos, rho, u, v, e) == Div(cs * cs, eos.gamma - 1.0) + Ke(u, v)
  {
    var cs := CalcCs(eos, sqrt, rho, u, v, e);
    var g1 := eos.gamma - 1.0;
    var t := CalcTemp(eos, rho, u, v, e);
    assert cs * cs == eos.gamma * g1 * t;
    assert Div(cs * cs, g1) == eos.gamma * t by {
      assert (Div(cs * cs, g1) - eos.gamma * t) * g1 == 0.0;
    }
    assert Enthalpy(eos, rho, u, v, e) == eos.gamma * t + Ke(u, v);
  }

  /** a 4 x 4 matrix */
  type Mat = seq<seq<real>>

  predicate IsMat(m: Mat)
  {
    |m| == NF && forall i :: 0 <= i < NF ==> |m[i]| == NF
  }

  /** the dot product of two vectors of length 4 */
  function Dot4(a0: real, a1: real, a2: real, a3: real, b0: real, b1: real, b2: real, b3: real): real
  {
    a0 * b0 + a1 * b1 + a2 * b2 + a3 * b3
  }

  /** the matrix product of two 4 x 4 matrices */
  function MatMul(a: Mat, b: Mat): (c: Mat)
    requires IsMat(a) && IsMat(b)
    ensures IsMat(c)
    ensures forall i, j :: 0 <= i < NF && 0 <= j < NF ==>
      c[i][j] == Dot4(a[i][0], a[i][1], a[i][2], a[i][3], b[0][j], b[1][j], b[2][j], b[3][j])
  {
    seq(NF, i requires 0 <= i < NF =>
      seq(NF, j requires 0 <= j < NF =>
        Dot4(a[i][0], a[i][1], a[i][2], a[i][3], b[0][j], b[1][j], b[2][j], b[3][j])))
  }

  const Identity: Mat := [[1.0, 0.0, 0.0, 0.0], [0.0, 1.0, 0.0, 0.0], [0.0, 0.0, 1.0, 0.0], [0.0, 0.0, 0.0, 1.0]]

  /** eigenvalues (diagonal of the eigenvalue matrix) and the right eigenvectors with their
      stated inverse */
  datatype Eigen = Eigen(lam: seq<real>, r: Mat, rinv: Mat)

  /** mat_r of calc_eigen in terms of its intermediate quantities: unit normal (nx, ny),
      sound speed c, enthalpy h, normal velocity ub and k = |q|^2 / 2 */
  function RightEigen(u: real, v: real, nx: real, ny: real, c: real, h: real, k: real, ub: real): (r: Mat)
    ensures IsMat(r)
  {
    [ [1.0, 1.0, 1.0, 0.0],
      [u - nx * c, u, u + nx * c, -ny],
      [v - ny * c, v, v + ny * c, nx],
      [h - c * ub, k, h + c * ub, -(ny * u - nx * v)] ]
  }

  /** mat_rinv of calc_eigen; nxw, nyw, ubw stand for nx / c, ny / c, ub / c */
  function LeftEigen(u: real, v: real, nx: real, ny: real, b1: real, b2: real,
                     nxw: real, nyw: real, ubw: real): (l: Mat)
    ensures IsMat(l)
  {
    [ [0.5 * (b1 + ubw), -0.5 * (nxw + b2 * u), -0.5 * (nyw + b2 * v), 0.5 * b2],
      [1.0 - b1, b2 * u, b2 * v, -b2],
      [0.5 * (b1 - ubw), 0.5 * (nxw - b2 * u), 0.5 * (nyw - b2 * v), 0.5 * b2],
      [ny * u - nx * v, -ny, nx, 0.0] ]
  }

  /** calc_eigen: eigen-decomposition of the flux Jacobian in direction (ix, iy) */
  function CalcEigen(eos: IdealEoS, sqrt: SqrtFn, rho: real, u: real, v: real, e: real,
                     ix: real, iy: real): (eig: Eigen)
    ensures |eig.lam| == NF && IsMat(eig.r) && IsMat(eig.rinv)
    ensures eig.lam[1] == eig.lam[3] == ix * u + iy * v
    ensures eig.lam[0] + eig.lam[2] == 2.0 * eig.lam[1]
  {
    EigenFrom(eos.gamma, u, v, ix, iy, CalcCs(eos, sqrt, rho, u, v, e), Enthalpy(eos, rho, u, v, e),
              sqrt(ix * ix + iy * iy))
  }

  /** the body of calc_eigen once the sound speed cs, the enthalpy h and the length sqr of
      (ix, iy) are known */
  function EigenFrom(gamma: real, u: real, v: real, ix: real, iy: real, cs: real, h: real,
                     sqr: real): Eigen
  {
    var ixb := Div(ix, sqr);
    var iyb := Div(iy, sqr);
    var bigu := ix * u + iy * v;
    var bigub := Div(bigu, sqr);
    var b1 := Div(Div(Ke(u, v) * (gamma - 1.0), cs), cs);
    var b2 := Div(Div(gamma - 1.0, cs), cs);
    Eigen([bigu - cs * sqr, bigu, bigu + cs * sqr, bigu],
          RightEigen(u, v, ixb, iyb, cs, h, Ke(u, v), bigub),
          LeftEigen(u, v, ixb, iyb, b1, b2, Div(ixb, cs), Div(iyb, cs), Div(bigub, cs)))
  }

  /** The eigenvalues are ordered: lam0 <= lam1 <= lam2. */
  lemma EigenvaluesOrdered(eos: IdealEoS, sqrt: SqrtFn, rho: real, u: real, v: real, e: real,
                           ix: real, iy: real)
    requires IsSqrt(sqrt) && CsRadicand(eos, rho, u, v, e) >= 0.0
    ensures var lam := CalcEigen(eos, sqrt, rho, u, v, e, ix, iy).lam;
      lam[0] <= lam[1] <= lam[2]
  {
    var cs := CalcCs(eos, sqrt, rho, u, v, e);
    var sqr := sqrt(ix * ix + iy * iy);
    assert cs >= 0.0;
    assert sqr >= 0.0;
    assert cs * sqr >= 0.0;
  }

  /** The hypotheses under which mat_rinv inverts mat_r, on the intermediate quantities:
      a unit normal, nxw = nx / c etc., ub the normal velocity, b1 = k b2 and h b2 = 1 + b1
      (that is, h = c^2 / (gamma - 1) + k with b2 = (gamma - 1) / c^2). */
  predicate EigenHyp(u: real, v: real, nx: real, ny: real, c: real, h: real, k: real,
                     ub: real, b1: real, b2: real, nxw: real, nyw: real, ubw: real)
  {
    && nx * nx + ny * ny == 1.0
    && nxw * c == nx && nyw * c == ny && ubw * c == ub
    && ub == nx * u + ny * v && k == 0.5 * (u * u + v * v)
    && b1 == k * b2 && h * b2 == 1.0 + b1
  }

  /** The algebra behind mat_r * mat_rinv = I, on the intermediate quantities. */
  lemma EigenInverseAlgebra(u: real, v: real, nx: real, ny: real, c: real, h: real, k: real,
                  ub: real, b1: real, b2: real, nxw: real, nyw: real, ubw: real)
    requires EigenHyp(u, v, nx, ny, c, h, k, ub, b1, b2, nxw, nyw, ubw)
    ensures MatMul(RightEigen(u, v, nx, ny, c, h, k, ub), LeftEigen(u, v, nx, ny, b1, b2, nxw, nyw, ubw))
      == Identity
  {
    var m := MatMul(RightEigen(u, v, nx, ny, c, h, k, ub), LeftEigen(u, v, nx, ny, b1, b2, nxw, nyw, ubw));
    EigenRow1(u, v, nx, ny, c, h, k, ub, b1, b2, nxw, nyw, ubw);
    EigenRow2(u, v, nx, ny, c, h, k, ub, b1, b2, nxw, nyw, ubw);
    EigenRow3(u, v, nx, ny, c, h, k, ub, b1, b2, nxw, nyw, ubw);
    assert m[0] == Identity[0];
    assert m == Identity;
  }

  lemma MulLeft(z: real, x: real, y: real)
    requires x == y
    ensures z * x == z * y
  {
  }

  /** Lagrange's identity in two dimensions */
  lemma Lagrange(nx: real, ny: real, u: real, v: real)
    ensures (nx * u + ny * v) * (nx * u + ny * v) + (ny * u - nx * v) * (ny * u - nx * v)
         == (nx * nx + ny * ny) * (u * u + v * v)
  {
  }

  lemma UnitScale(nx: real, ny: real, u: real)
    requires nx * nx + ny * ny == 1.0
    ensures nx * nx * u + ny * ny * u == u
  {
  }

  lemma EigenRow1(u: real, v: real, nx: real, ny: real, c: real, h: real, k: real,
                  ub: real, b1: real, b2: real, nxw: real, nyw: real, ubw: real)
    requires EigenHyp(u, v, nx, ny, c, h, k, ub, b1, b2, nxw, nyw, ubw)
    ensures MatMul(RightEigen(u, v, nx, ny, c, h, k, ub), LeftEigen(u, v, nx, ny, b1, b2, nxw, nyw, ubw))[1]
      == Identity[1]
  {
    var m := MatMul(RightEigen(u, v, nx, ny, c, h, k, ub), LeftEigen(u, v, nx, ny, b1, b2, nxw, nyw, ubw));
    EigenRow1Expanded(u, v, nx, ny, c, h, k, ub, b1, b2, nxw, nyw, ubw);
    VelocityRowCol0(u, nx, c, b1, ubw, -ny, ny * u - nx * v);
    VelocityRowCol(u, nx, c, b2, nxw, u, -ny, -ny);
    VelocityRowCol(u, nx, c, b2, nyw, v, -ny, nx);
    VelocityRowCol3(u, nx, c, b2, -ny);
    EigenRow1Values(u, v, nx, ny, c, h, k, ub, b1, b2, nxw, nyw, ubw);
    assert m[1][0] == 0.0 && m[1][1] == 1.0 && m[1][2] == 0.0 && m[1][3] == 0.0;
  }

  lemma EigenRow2(u: real, v: real, nx: real, ny: real, c: real, h: real, k: real,
                  ub: real, b1: real, b2: real, nxw: real, nyw: real, ubw: real)
    requires EigenHyp(u, v, nx, ny, c, h, k, ub, b1, b2, nxw, nyw, ubw)
    ensures MatMul(RightEigen(u, v, nx, ny, c, h, k, ub), LeftEigen(u, v, nx, ny, b1, b2, nxw, nyw, ubw))[2]
      == Identity[2]
  {
    var m := MatMul(RightEigen(u, v, nx, ny, c, h, k, ub), LeftEigen(u, v, nx, ny, b1, b2, nxw, nyw, ubw));
    EigenRow2Expanded(u, v, nx, ny, c, h, k, ub, b1, b2, nxw, nyw, ubw);
    VelocityRowCol0(v, ny, c, b1, ubw, nx, ny * u - nx * v);
    VelocityRowCol(v, ny, c, b2, nxw, u, nx, -ny);
    VelocityRowCol(v, ny, c, b2, nyw, v, nx, nx);
    VelocityRowCol3(v, ny, c, b2, nx);
    EigenRow2Values(u, v, nx, ny, c, h, k, ub, b1, b2, nxw, nyw, ubw);
    assert m[2][0] == 0.0 && m[2][1] == 0.0 && m[2][2] == 1.0 && m[2][3] == 0.0;
  }

  /** row 1 of mat_r * mat_rinv, entry by entry */
  lemma EigenRow1Expanded(u: real, v: real, nx: real, ny: real, c: real, h: real, k: real,
                  ub: real, b1: real, b2: real, nxw: real, nyw: real, ubw: real)
    ensures MatMul(RightEigen(u, v, nx, ny, c, h, k, ub), LeftEigen(u, v, nx, ny, b1, b2, nxw, nyw, ubw))[1][0]
      == Dot4(u - nx * c, u, u + nx * c, -ny,
           0.5 * (b1 + ubw), 1.0 - b1, 0.5 * (b1 - ubw), ny * u - nx * v)
    ensures MatMul(RightEigen(u, v, nx, ny, c, h, k, ub), LeftEigen(u, v, nx, ny, b1, b2, nxw, nyw, ubw))[1][1]
      == Dot4(u - nx * c, u, u + nx * c, -ny,
           -0.5 * (nxw + b2 * u), b2 * u, 0.5 * (nxw - b2 * u), -ny)
    ensures MatMul(RightEigen(u, v, nx, ny, c, h, k, ub), LeftEigen(u, v, nx, ny, b1, b2, nxw, nyw, ubw))[1][2]
      == Dot4(u - nx * c, u, u + nx * c, -ny,
           -0.5 * (nyw + b2 * v), b2 * v, 0.5 * (nyw - b2 * v), nx)
    ensures MatMul(RightEigen(u, v, nx, ny, c, h, k, ub), LeftEigen(u, v, nx, ny, b1, b2, nxw, nyw, ubw))[1][3]
      == Dot4(u - nx * c, u, u + nx * c, -ny,
           0.5 * b2, -b2, 0.5 * b2, 0.0)
  {
    var r := RightEigen(u, v, nx, ny, c, h, k, ub);
    var l := LeftEigen(u, v, nx, ny, b1, b2, nxw, nyw, ubw);
    assert r[1] == [u - nx * c, u, u + nx * c, -ny];
    assert l[0] == [0.5 * (b1 + ubw), -0.5 * (nxw + b2 * u), -0.5 * (nyw + b2 * v), 0.5 * b2];
    assert l[1] == [1.0 - b1, b2 * u, b2 * v, -b2];
    assert l[2] == [0.5 * (b1 - ubw), 0.5 * (nxw - b2 * u), 0.5 * (nyw - b2 * v), 0.5 * b2];
    assert l[3] == [ny * u - nx * v, -ny, nx, 0.0];
  }

  /** row 2 of mat_r * mat_rinv, entry by entry */
  lemma EigenRow2Expanded(u: real, v: real, nx: real, ny: real, c: real, h: real, k: real,
                  ub: real, b1: real, b2: real, nxw: real, nyw: real, ubw: real)
    ensures MatMul(RightEigen(u, v, nx, ny, c, h, k, ub), LeftEigen(u, v, nx, ny, b1, b2, nxw, nyw, ubw))[2][0]
      == Dot4(v - ny * c, v, v + ny * c, nx,
           0.5 * (b1 + ubw), 1.0 - b1, 0.5 * (b1 - ubw), ny * u - nx * v)
    ensures MatMul(RightEigen(u, v, nx, ny, c, h, k, ub), LeftEigen(u, v, nx, ny, b1, b2, nxw, nyw, ubw))[2][1]
      == Dot4(v - ny * c, v, v + ny * c, nx,
           -0.5 * (nxw + b2 * u), b2 * u, 0.5 * (nxw - b2 * u), -ny)
    ensures MatMul(RightEigen(u, v, nx, ny, c, h, k, ub), LeftEigen(u, v, nx, ny, b1, b2, nxw, nyw, ubw))[2][2]
      == Dot4(v - ny * c, v, v + ny * c, nx,
           -0.5 * (nyw + b2 * v), b2 * v, 0.5 * (nyw - b2 * v), nx)
    ensures MatMul(RightEigen(u, v, nx, ny, c, h, k, ub), LeftEigen(u, v, nx, ny, b1, b2, nxw, nyw, ubw))[2][3]
      == Dot4(v - ny * c, v, v + ny * c, nx,
           0.5 * b2, -b2, 0.5 * b2, 0.0)
  {
    var r := RightEigen(u, v, nx, ny, c, h, k, ub);
    var l := LeftEigen(u, v, nx, ny, b1, b2, nxw, nyw, ubw);
    assert r[2] == [v - ny * c, v, v + ny * c, nx];
    assert l[0] == [0.5 * (b1 + ubw), -0.5 * (nxw + b2 * u), -0.5 * (nyw + b2 * v), 0.5 * b2];
    assert l[1] == [1.0 - b1, b2 * u, b2 * v, -b2];
    assert l[2] == [0.5 * (b1 - ubw), 0.5 * (nxw - b2 * u), 0.5 * (nyw - b2 * v), 0.5 * b2];
    assert l[3] == [ny * u - nx * v, -ny, nx, 0.0];
  }

  /** a row (w - d, w, w + d, p3) times a column (x, y, z, t), regrouped */
  lemma RowDot(p0: real, p1: real, p2: real, p3: real, x: real, y: real, z: real, t: real, w: real, d: real)
    requires p0 == w - d && p1 == w && p2 == w + d
    ensures Dot4(p0, p1, p2, p3, x, y, z, t) == w * (x + y + z) + d * (z - x) + p3 * t
  {
    assert Dot4(p0, p1, p2, p3, x, y, z, t) == p0 * x + p1 * y + p2 * z + p3 * t;
  }
  /** rows 1 and 2 (velocity rows, w = u or v along a = nx or ny) of mat_r times a column
      of mat_rinv, multiplied out */
  lemma VelocityRowCol0(w: real, a: real, c: real, b1: real, ubw: real, s: real, t: real)
    ensures Dot4(w - a * c, w, w + a * c, s, 0.5 * (b1 + ubw), 1.0 - b1, 0.5 * (b1 - ubw), t)
      == w - a * (c * ubw) + s * t
  {
    RowDot(w - a * c, w, w + a * c, s, 0.5 * (b1 + ubw), 1.0 - b1, 0.5 * (b1 - ubw), t, w, a * c);
    assert 0.5 * (b1 + ubw) + (1.0 - b1) + 0.5 * (b1 - ubw) == 1.0;
    assert 0.5 * (b1 - ubw) - 0.5 * (b1 + ubw) == -ubw;
    assert (a * c) * (-ubw) == -(a * (c * ubw));
  }
  lemma VelocityRowCol(w: real, a: real, c: real, b2: real, q: real, p: real, s: real, t: real)
    ensures Dot4(w - a * c, w, w + a * c, s, -0.5 * (q + b2 * p), b2 * p, 0.5 * (q - b2 * p), t)
      == a * (c * q) + s * t
  {
    RowDot(w - a * c, w, w + a * c, s, -0.5 * (q + b2 * p), b2 * p, 0.5 * (q - b2 * p), t, w, a * c);
    assert -0.5 * (q + b2 * p) + b2 * p + 0.5 * (q - b2 * p) == 0.0;
    assert 0.5 * (q - b2 * p) - -0.5 * (q + b2 * p) == q;
    assert (a * c) * q == a * (c * q);
  }
  lemma VelocityRowCol3(w: real, a: real, c: real, b2: real, s: real)
    ensures Dot4(w - a * c, w, w + a * c, s, 0.5 * b2, -b2, 0.5 * b2, 0.0) == 0.0
  {
    RowDot(w - a * c, w, w + a * c, s, 0.5 * b2, -b2, 0.5 * b2, 0.0, w, a * c);
    assert 0.5 * b2 + -b2 + 0.5 * b2 == 0.0;
  }

  lemma EigenRow1Values(u: real, v: real, nx: real, ny: real, c: real, h: real, k: real,
                  ub: real, b1: real, b2: real, nxw: real, nyw: real, ubw: real)
    requires EigenHyp(u, v, nx, ny, c, h, k, ub, b1, b2, nxw, nyw, ubw)
    ensures u - nx * (c * ubw) + (-ny) * (ny * u - nx * v) == 0.0
    ensures nx * (c * nxw) + (-ny) * (-ny) == 1.0
    ensures nx * (c * nyw) + (-ny) * nx == 0.0
  {
    MulLeft(nx, c * ubw, nx * u + ny * v);
    UnitScale(nx, ny, u);
    MulLeft(nx, c * nxw, nx);
    MulLeft(nx, c * nyw, ny);
  }

  lemma EigenRow2Values(u: real, v: real, nx: real, ny: real, c: real, h: real, k: real,
                  ub: real, b1: real, b2: real, nxw: real, nyw: real, ubw: real)
    requires EigenHyp(u, v, nx, ny, c, h, k, ub, b1, b2, nxw, nyw, ubw)
    ensures v - ny * (c * ubw) + nx * (ny * u - nx * v) == 0.0
    ensures ny * (c * nxw) + nx * (-ny) == 0.0
    ensures ny * (c * nyw) + nx * nx == 1.0
  {
    MulLeft(ny, c * ubw, nx * u + ny * v);
    UnitScale(nx, ny, v);
    MulLeft(ny, c * nxw, nx);
    MulLeft(ny, c * nyw, ny);
  }

  lemma EigenRow3(u: real, v: real, nx: real, ny: real, c: real, h: real, k: real,
                  ub: real, b1: real, b2: real, nxw: real, nyw: real, ubw: real)
    requires EigenHyp(u, v, nx, ny, c, h, k, ub, b1, b2, nxw, nyw, ubw)
    ensures MatMul(RightEigen(u, v, nx, ny, c, h, k, ub), LeftEigen(u, v, nx, ny, b1, b2, nxw, nyw, ubw))[3]
      == Identity[3]
  {
    var m := MatMul(RightEigen(u, v, nx, ny, c, h, k, ub), LeftEigen(u, v, nx, ny, b1, b2, nxw, nyw, ubw));
    EigenRow3Col0(u, v, nx, ny, c, h, k, ub, b1, b2, nxw, nyw, ubw);
    EigenRow3Col12(u, v, nx, ny, c, h, k, ub, b1, b2, nxw, nyw, ubw);
    assert m[3][3] == h * b2 - k * b2;
    assert m[3][0] == 0.0 && m[3][1] == 0.0 && m[3][2] == 0.0 && m[3][3] == 1.0;
  }

  /** the last row of mat_r * mat_rinv, multiplied out */
  lemma EigenRow3Expanded(u: real, v: real, nx: real, ny: real, c: real, h: real, k: real,
                  ub: real, b1: real, b2: real, nxw: real, nyw: real, ubw: real)
    ensures var m := MatMul(RightEigen(u, v, nx, ny, c, h, k, ub), LeftEigen(u, v, nx, ny, b1, b2, nxw, nyw, ubw));
      && m[3][0] == h * b1 + k - k * b1 - ub * (c * ubw) - (ny * u - nx * v) * (ny * u - nx * v)
      && m[3][1] == -(h * b2) * u + k * b2 * u + ny * (ny * u - nx * v) + ub * (c * nxw)
      && m[3][2] == -(h * b2) * v + k * b2 * v - nx * (ny * u - nx * v) + ub * (c * nyw)
  {
    EigenRow3Entry0(u, v, nx, ny, c, h, k, ub, b1, b2, nxw, nyw, ubw);
    EigenRow3Entry1(u, v, nx, ny, c, h, k, ub, b1, b2, nxw, nyw, ubw);
    EigenRow3Entry2(u, v, nx, ny, c, h, k, ub, b1, b2, nxw, nyw, ubw);
  }

  lemma EigenRow3Entry0(u: real, v: real, nx: real, ny: real, c: real, h: real, k: real,
                  ub: real, b1: real, b2: real, nxw: real, nyw: real, ubw: real)
    ensures MatMul(RightEigen(u, v, nx, ny, c, h, k, ub), LeftEigen(u, v, nx, ny, b1, b2, nxw, nyw, ubw))[3][0]
      == h * b1 + k - k * b1 - ub * (c * ubw) - (ny * u - nx * v) * (ny * u - nx * v)
  {
    var r := RightEigen(u, v, nx, ny, c, h, k, ub);
    var l := LeftEigen(u, v, nx, ny, b1, b2, nxw, nyw, ubw);
    assert MatMul(r, l)[3][0] == r[3][0] * l[0][0] + r[3][1] * l[1][0] + r[3][2] * l[2][0] + r[3][3] * l[3][0];
    ExpandRow3(u, v, nx, ny, c, h, k, ub, b1, b2, nxw, nyw, ubw);
  }

  lemma EigenRow3Entry1(u: real, v: real, nx: real, ny: real, c: real, h: real, k: real,
                  ub: real, b1: real, b2: real, nxw: real, nyw: real, ubw: real)
    ensures MatMul(RightEigen(u, v, nx, ny, c, h, k, ub), LeftEigen(u, v, nx, ny, b1, b2, nxw, nyw, ubw))[3][1]
      == -(h * b2) * u + k * b2 * u + ny * (ny * u - nx * v) + ub * (c * nxw)
  {
    var r := RightEigen(u, v, nx, ny, c, h, k, ub);
    var l := LeftEigen(u, v, nx, ny, b1, b2, nxw, nyw, ubw);
    assert MatMul(r, l)[3][1] == r[3][0] * l[0][1] + r[3][1] * l[1][1] + r[3][2] * l[2][1] + r[3][3] * l[3][1];
    ExpandRow3(u, v, nx, ny, c, h, k, ub, b1, b2, nxw, nyw, ubw);
  }

  lemma EigenRow3Entry2(u: real, v: real, nx: real, ny: real, c: real, h: real, k: real,
                  ub: real, b1: real, b2: real, nxw: real, nyw: real, ubw: real)
    ensures MatMul(RightEigen(u, v, nx, ny, c, h, k, ub), LeftEigen(u, v, nx, ny, b1, b2, nxw, nyw, ubw))[3][2]
      == -(h * b2) * v + k * b2 * v - nx * (ny * u - nx * v) + ub * (c * nyw)
  {
    var r := RightEigen(u, v, nx, ny, c, h, k, ub);
    var l := LeftEigen(u, v, nx, ny, b1, b2, nxw, nyw, ubw);
    assert MatMul(r, l)[3][2] == r[3][0] * l[0][2] + r[3][1] * l[1][2] + r[3][2] * l[2][2] + r[3][3] * l[3][2];
    ExpandRow3(u, v, nx, ny, c, h, k, ub, b1, b2, nxw, nyw, ubw);
  }

  lemma ExpandRow3(u: real, v: real, nx: real, ny: real, c: real, h: real, k: real,
                  ub: real, b1: real, b2: real, nxw: real, nyw: real, ubw: real)
    ensures (h - c * ub) * (0.5 * (b1 + ubw)) + k * (1.0 - b1) + (h + c * ub) * (0.5 * (b1 - ubw))
            + (-(ny * u - nx * v)) * (ny * u - nx * v)
         == h * b1 + k - k * b1 - ub * (c * ubw) - (ny * u - nx * v) * (ny * u - nx * v)
    ensures (h - c * ub) * (-0.5 * (nxw + b2 * u)) + k * (b2 * u) + (h + c * ub) * (0.5 * (nxw - b2 * u))
            + (-(ny * u - nx * v)) * (-ny)
         == -(h * b2) * u + k * b2 * u + ny * (ny * u - nx * v) + ub * (c * nxw)
    ensures (h - c * ub) * (-0.5 * (nyw + b2 * v)) + k * (b2 * v) + (h + c * ub) * (0.5 * (nyw - b2 * v))
            + (-(ny * u - nx * v)) * nx
         == -(h * b2) * v + k * b2 * v - nx * (ny * u - nx * v) + ub * (c * nyw)
  {
  }

  lemma EigenRow3Col0(u: real, v: real, nx: real, ny: real, c: real, h: real, k: real,
                  ub: real, b1: real, b2: real, nxw: real, nyw: real, ubw: real)
    requires EigenHyp(u, v, nx, ny, c, h, k, ub, b1, b2, nxw, nyw, ubw)
    ensures MatMul(RightEigen(u, v, nx, ny, c, h, k, ub), LeftEigen(u, v, nx, ny, b1, b2, nxw, nyw, ubw))[3][0] == 0.0
  {
    EigenRow3Expanded(u, v, nx, ny, c, h, k, ub, b1, b2, nxw, nyw, ubw);
    EigenRow3Value0(u, v, nx, ny, c, h, k, ub, b1, b2, nxw, nyw, ubw);
  }

  lemma EigenRow3Col12(u: real, v: real, nx: real, ny: real, c: real, h: real, k: real,
                  ub: real, b1: real, b2: real, nxw: real, nyw: real, ubw: real)
    requires EigenHyp(u, v, nx, ny, c, h, k, ub, b1, b2, nxw, nyw, ubw)
    ensures MatMul(RightEigen(u, v, nx, ny, c, h, k, ub), LeftEigen(u, v, nx, ny, b1, b2, nxw, nyw, ubw))[3][1] == 0.0
    ensures MatMul(RightEigen(u, v, nx, ny, c, h, k, ub), LeftEigen(u, v, nx, ny, b1, b2, nxw, nyw, ubw))[3][2] == 0.0
  {
    EigenRow3Expanded(u, v, nx, ny, c, h, k, ub, b1, b2, nxw, nyw, ubw);
    EigenRow3Value12(u, v, nx, ny, c, h, k, ub, b1, b2, nxw, nyw, ubw);
  }

  lemma EigenRow3Value0(u: real, v: real, nx: real, ny: real, c: real, h: real, k: real,
                  ub: real, b1: real, b2: real, nxw: real, nyw: real, ubw: real)
    requires EigenHyp(u, v, nx, ny, c, h, k, ub, b1, b2, nxw, nyw, ubw)
    ensures h * b1 + k - k * b1 - ub * (c * ubw) - (ny * u - nx * v) * (ny * u - nx * v) == 0.0
  {
    // h b1 = h (k b2) = k (h b2) = k (1 + b1)
    assert h * b1 == k + k * b1 by {
      MulLeft(h, b1, k * b2);
      MulLeft(k, h * b2, 1.0 + b1);
    }
    // the normal and tangential velocities make up the speed
    assert ub * (c * ubw) == ub * ub by {
      MulLeft(ub, c * ubw, ub);
    }
    assert ub * ub + (ny * u - nx * v) * (ny * u - nx * v) == u * u + v * v by {
      Lagrange(nx, ny, u, v);
      MulLeft(u * u + v * v, nx * nx + ny * ny, 1.0);
    }
  }

  lemma EigenRow3Value12(u: real, v: real, nx: real, ny: real, c: real, h: real, k: real,
                  ub: real, b1: real, b2: real, nxw: real, nyw: real, ubw: real)
    requires EigenHyp(u, v, nx, ny, c, h, k, ub, b1, b2, nxw, nyw, ubw)
    ensures -(h * b2) * u + k * b2 * u + ny * (ny * u - nx * v) + ub * (c * nxw) == 0.0
    ensures -(h * b2) * v + k * b2 * v - nx * (ny * u - nx * v) + ub * (c * nyw) == 0.0
  {
    MulLeft(ub, c * nxw, nx);
    MulLeft(ub, c * nyw, ny);
    MulLeft(u, h * b2, 1.0 + b1);
    MulLeft(v, h * b2, 1.0 + b1);
    MulLeft(nx, ub, nx * u + ny * v);
    MulLeft(ny, ub, nx * u + ny * v);
    UnitScale(nx, ny, u);
    UnitScale(nx, ny, v);
  }

  lemma ZeroProduct(x: real, z: real)
    requires z != 0.0 && x * z == 0.0
    ensures x == 0.0
  {
  }

  lemma InvSquare(x: real, c: real)
    requires c != 0.0
    ensures Div(Div(x, c), c) * c * c == x
  {
    assert Div(Div(x, c), c) * c == Div(x, c);
  }

  /** A direction (ix, iy) scaled by 1 / s, with s^2 = ix^2 + iy^2, is a unit vector. */
  lemma UnitNormal(a: real, b: real, ix: real, iy: real, s: real)
    requires s * s == ix * ix + iy * iy && s != 0.0
    requires a * s == ix && b * s == iy
    ensures a * a + b * b == 1.0
  {
    assert (a * a + b * b - 1.0) * s * s == (a * s) * (a * s) + (b * s) * (b * s) - s * s;
    assert (a * s) * (a * s) == ix * ix;
    assert (b * s) * (b * s) == iy * iy;
    assert (a * a + b * b - 1.0) * s * s == 0.0;
    assert (a * a + b * b - 1.0) * s == 0.0;
  }

  /** ... and the normal velocity scales with it. */
  lemma NormalVelocity(a: real, b: real, ix: real, iy: real, s: real, u: real, v: real, w: real)
    requires s != 0.0 && a * s == ix && b * s == iy && w * s == ix * u + iy * v
    ensures w == a * u + b * v
  {
    assert (w - (a * u + b * v)) * s == 0.0;
    ZeroProduct(w - (a * u + b * v), s);
  }

  /** b1 = k b2 for b2 = (gamma - 1) / cs^2 and b1 = k (gamma - 1) / cs^2 */
  lemma SoundRatio(gamma: real, k: real, cs: real, b1: real, b2: real)
    requires cs != 0.0
    requires b2 * cs * cs == gamma - 1.0 && b1 * cs * cs == k * (gamma - 1.0)
    ensures b1 == k * b2
  {
    assert (b1 - k * b2) * cs * cs == 0.0;
    assert (b1 - k * b2) * cs == 0.0;
  }

  /** h b2 = 1 + b1 when h = gamma T + k and cs^2 = gamma (gamma - 1) T */
  lemma EnthalpyRatio(gamma: real, t: real, k: real, h: real, cs: real, b1: real, b2: real)
    requires cs * cs == gamma * (gamma - 1.0) * t && cs != 0.0 && h == gamma * t + k
    requires b2 * cs * cs == gamma - 1.0 && b1 * cs * cs == k * (gamma - 1.0)
    ensures h * b2 == 1.0 + b1
  {
    assert (h * b2 - 1.0 - b1) * cs * cs == h * (gamma - 1.0) - cs * cs - k * (gamma - 1.0);
    assert (h * b2 - 1.0 - b1) * cs * cs == 0.0;
    ZeroProduct((h * b2 - 1.0 - b1) * cs, cs);
    ZeroProduct(h * b2 - 1.0 - b1, cs);
  }

  /** The eigenvector matrices that calc_eigen builds from its intermediate quantities
      are inverse to each other. */
  lemma EigenInverseAt(gamma: real, u: real, v: real, ix: real, iy: real, cs: real, t: real,
                       h: real, sqr: real)
    requires sqr * sqr == ix * ix + iy * iy && sqr != 0.0 && cs != 0.0
    requires cs * cs == gamma * (gamma - 1.0) * t && h == gamma * t + Ke(u, v)
    ensures var eig := EigenFrom(gamma, u, v, ix, iy, cs, h, sqr);
      MatMul(eig.r, eig.rinv) == Identity
  {
    var ixb := Div(ix, sqr);
    var iyb := Div(iy, sqr);
    var bigub := Div(ix * u + iy * v, sqr);
    var b1 := Div(Div(Ke(u, v) * (gamma - 1.0), cs), cs);
    var b2 := Div(Div(gamma - 1.0, cs), cs);
    EigenHypHolds(gamma, u, v, ix, iy, cs, t, h, sqr);
    EigenInverseAlgebra(u, v, ixb, iyb, cs, h, Ke(u, v), bigub, b1, b2, Div(ixb, cs), Div(iyb, cs), Div(bigub, cs));
  }

  /** The quantities calc_eigen computes from a state satisfy the hypotheses of the
      inverse algebra. */
  lemma EigenHypHolds(gamma: real, u: real, v: real, ix: real, iy: real, cs: real, t: real,
                      h: real, sqr: real)
    requires sqr * sqr == ix * ix + iy * iy && sqr != 0.0 && cs != 0.0
    requires cs * cs == gamma * (gamma - 1.0) * t && h == gamma * t + Ke(u, v)
    ensures EigenHyp(u, v, Div(ix, sqr), Div(iy, sqr), cs, h, Ke(u, v), Div(ix * u + iy * v, sqr),
                     Div(Div(Ke(u, v) * (gamma - 1.0), cs), cs), Div(Div(gamma - 1.0, cs), cs),
                     Div(Div(ix, sqr), cs), Div(Div(iy, sqr), cs), Div(Div(ix * u + iy * v, sqr), cs))
  {
    UnitNormal(Div(ix, sqr), Div(iy, sqr), ix, iy, sqr);
    NormalVelocity(Div(ix, sqr), Div(iy, sqr), ix, iy, sqr, u, v, Div(ix * u + iy * v, sqr));
    ThermoRatios(gamma, t, h, cs, Ke(u, v));
  }

  /** b1 = k b2 and h b2 = 1 + b1 for the coefficients b1, b2 of calc_eigen */
  lemma ThermoRatios(gamma: real, t: real, h: real, cs: real, k: real)
    requires cs != 0.0 && cs * cs == gamma * (gamma - 1.0) * t && h == gamma * t + k
    ensures Div(Div(k * (gamma - 1.0), cs), cs) == k * Div(Div(gamma - 1.0, cs), cs)
    ensures h * Div(Div(gamma - 1.0, cs), cs) == 1.0 + Div(Div(k * (gamma - 1.0), cs), cs)
  {
    var b1 := Div(Div(k * (gamma - 1.0), cs), cs);
    var b2 := Div(Div(gamma - 1.0, cs), cs);
    InvSquare(gamma - 1.0, cs);
    InvSquare(k * (gamma - 1.0), cs);
    SoundRatio(gamma, k, cs, b1, b2);
    EnthalpyRatio(gamma, t, k, h, cs, b1, b2);
  }

  /** mat_rinv is the inverse of mat_r for a physical state (positive radicand, non-zero
      density) and a non-zero direction (ix, iy). */
  lemma EigenInverse(eos: IdealEoS, sqrt: SqrtFn, rho: real, u: real, v: real, e: real,
                     ix: real, iy: real)
    requires IsSqrt(sqrt) && rho != 0.0 && CsRadicand(eos, rho, u, v, e) > 0.0
    requires ix * ix + iy * iy != 0.0
    ensures var eig := CalcEigen(eos, sqrt, rho, u, v, e, ix, iy);
      MatMul(eig.r, eig.rinv) == Identity
  {
    var cs := CalcCs(eos, sqrt, rho, u, v, e);
    var t := CalcTemp(eos, rho, u, v, e);
    var h := Enthalpy(eos, rho, u, v, e);
    var k := Ke(u, v);
    var sqr := sqrt(ix * ix + iy * iy);
    SqrtPositive(sqrt, ix * ix + iy * iy);
    SqrtPositive(sqrt, CsRadicand(eos, rho, u, v, e));
    assert cs * cs == eos.gamma * (eos.gamma - 1.0) * t;
    assert h == eos.gamma * t + k;
    EigenInverseAt(eos.gamma, u, v, ix, iy, cs, t, h, sqr);
  }
}
