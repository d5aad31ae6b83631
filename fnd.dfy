/** Scalar building blocks of the reconstructions (src/fluid2d/marching/eq/fnd.rs):
    the minmod limiters, the median, MUSCL-minmod, MP5 and two central
    differences.  Each `&mut` pair of return slots of the source is a pair here. */
module Fnd {
  import opened F64

  /** minmod(x, y): 0 unless x and y have the same strict sign, else the one nearer 0. */
  function Minmod(x: real, y: real): (r: real)
    ensures (x <= 0.0 && 0.0 <= y) || (y <= 0.0 && 0.0 <= x) ==> r == 0.0
    ensures x > 0.0 && y > 0.0 ==> r == Min(x, y)
    ensures x < 0.0 && y < 0.0 ==> r == Max(x, y)
  {
    // signum(x) * max(min(|x|, signum(x) * y), 0), with signum(x) = +1 or -1 written out
    if x >= 0.0 then Max(Min(x, y), 0.0) else -Max(Min(-x, -y), 0.0)
  }

  /** The case split above is the source's one-line formula. */
  lemma MinmodFormula(x: real, y: real)
    ensures Minmod(x, y) == Signum(x) * Max(Min(Abs(x), Signum(x) * y), 0.0)
  {
    if x >= 0.0 {
      assert Signum(x) == 1.0 && Abs(x) == x;
    } else {
      assert Signum(x) == -1.0 && Abs(x) == -x;
    }
  }

  /** The limiter never enlarges: |minmod(x, y)| <= |x|, |y|, and it keeps the sign of both. */
  lemma MinmodBounds(x: real, y: real)
    ensures Abs(Minmod(x, y)) <= Abs(x) && Abs(Minmod(x, y)) <= Abs(y)
    ensures Minmod(x, y) * x >= 0.0 && Minmod(x, y) * y >= 0.0
  {
  }

  /** minmod is symmetric and odd: minmod(y, x) == minmod(x, y), minmod(-x, -y) == -minmod(x, y). */
  lemma MinmodSymmetry(x: real, y: real)
    ensures Minmod(y, x) == Minmod(x, y)
    ensures Minmod(-x, -y) == -Minmod(x, y)
  {
  }

  /** minmod of four: 0 unless all four have the same strict sign, else the one nearest 0. */
  function Minmod4(x1: real, x2: real, x3: real, x4: real): (r: real)
    ensures x1 > 0.0 && x2 > 0.0 && x3 > 0.0 && x4 > 0.0 ==> r == Min(Min(Min(x1, x2), x3), x4)
    ensures x1 < 0.0 && x2 < 0.0 && x3 < 0.0 && x4 < 0.0 ==> r == Max(Max(Max(x1, x2), x3), x4)
    ensures (!(x1 > 0.0 && x2 > 0.0 && x3 > 0.0 && x4 > 0.0)
             && !(x1 < 0.0 && x2 < 0.0 && x3 < 0.0 && x4 < 0.0)) ==> r == 0.0
  {
    // the factor 0.5 (s1 + s2) |0.5 (s1 + s3) 0.5 (s1 + s4)| of the signs s1..s4 is s1
    // when the four signs agree and 0 otherwise
    Minmod4Factor(Signum(x1), Signum(x2), Signum(x3), Signum(x4))
    * Min(Min(Min(Abs(x1), Abs(x2)), Abs(x3)), Abs(x4))
  }

  /** the sign factor of minmod4, evaluated on the four values +1 or -1 that signs take */
  function Minmod4Factor(s1: real, s2: real, s3: real, s4: real): real
  {
    if s1 == s2 && s1 == s3 && s1 == s4 then s1 else 0.0
  }

  /** On signs, the sign factor is the source's product of half sums. */
  lemma Minmod4FactorFormula(s1: real, s2: real, s3: real, s4: real)
    requires s1 == 1.0 || s1 == -1.0
    requires s2 == 1.0 || s2 == -1.0
    requires s3 == 1.0 || s3 == -1.0
    requires s4 == 1.0 || s4 == -1.0
    ensures Minmod4Factor(s1, s2, s3, s4)
         == 0.5 * (s1 + s2) * Abs(0.5 * (s1 + s3) * 0.5 * (s1 + s4))
  {
  }

  /** The sample of the source's unit test: minmod4(1, 2, 3, 2) is 1. */
  lemma Minmod4Sample()
    ensures Minmod4(1.0, 2.0, 3.0, 2.0) == 1.0
  {
  }

  /** r is the middle one of x, y, z: one of the three, with two of them at most r and two at least r. */
  ghost predicate IsMedian(r: real, x: real, y: real, z: real)
  {
    && (r == x || r == y || r == z)
    && (if x <= r then 1 else 0) + (if y <= r then 1 else 0) + (if z <= r then 1 else 0) >= 2
    && (if x >= r then 1 else 0) + (if y >= r then 1 else 0) + (if z >= r then 1 else 0) >= 2
  }

  /** median(x, y, z) = x + minmod(y - x, z - x) is the middle value of the three. */
  function Median(x: real, y: real, z: real): (r: real)
    ensures IsMedian(r, x, y, z)
  {
    x + Minmod(y - x, z - x)
  }

  /** When lo <= hi, the median of x, lo and hi lies in [lo, hi] (it clips x to that interval). */
  lemma MedianClips(x: real, lo: real, hi: real)
    requires lo <= hi
    ensures lo <= Median(x, lo, hi) <= hi
    ensures lo <= x <= hi ==> Median(x, lo, hi) == x
  {
  }

  /** MUSCL-minmod with kappa = 1/3 and compression b = (3 - kappa) / (1 - kappa) = 4:
      the left state at the interface between q and qp and the right state
      there, from the stencil qm, q, qp, q2p. */
  function MusclMinmod(qm: real, q: real, qp: real, q2p: real): (res: (real, real))
    ensures qm == q == qp == q2p ==> res == (q, q)
  {
    var k := 1.0 / 3.0;
    var b := 4.0;  // (3 - k) / (1 - k)
    // left state
    var dpL := qp - q;
    var dmL := q - qm;
    var ddpL := Minmod(dpL, b * dmL);
    var ddmL := Minmod(dmL, b * dpL);
    var qL := q + 0.25 * ((1.0 - k) * ddmL + (1.0 + k) * ddpL);
    // right state
    var dpR := q2p - qp;
    var dmR := qp - q;
    var ddpR := Minmod(dpR, b * dmR);
    var ddmR := Minmod(dmR, b * dpR);
    var qR := qp - 0.25 * ((1.0 - k) * ddpR + (1.0 + k) * ddmR);
    (qL, qR)
  }

  /** At a local extremum the slopes are limited to 0: the left state is q itself
      (and the right state is qp when qp is the extremum). */
  lemma MusclAtExtremum(qm: real, q: real, qp: real, q2p: real)
    ensures (q >= qm && q >= qp) || (q <= qm && q <= qp) ==> MusclMinmod(qm, q, qp, q2p).0 == q
    ensures (qp >= q && qp >= q2p) || (qp <= q && qp <= q2p) ==> MusclMinmod(qm, q, qp, q2p).1 == qp
  {
    if (q >= qm && q >= qp) || (q <= qm && q <= qp) {
      assert Minmod(qp - q, 4.0 * (q - qm)) == 0.0;
      assert Minmod(q - qm, 4.0 * (qp - q)) == 0.0;
    }
    if (qp >= q && qp >= q2p) || (qp <= q && qp <= q2p) {
      assert Minmod(q2p - qp, 4.0 * (qp - q)) == 0.0;
      assert Minmod(qp - q, 4.0 * (q2p - qp)) == 0.0;
    }
  }

  /** With b = 4 both states stay between the two cells next to the interface
      wherever the data is monotone. */
  lemma MusclMonotone(qm: real, q: real, qp: real, q2p: real)
    ensures qm <= q <= qp ==> q <= MusclMinmod(qm, q, qp, q2p).0 <= qp
    ensures qm >= q >= qp ==> qp <= MusclMinmod(qm, q, qp, q2p).0 <= q
    ensures q <= qp <= q2p ==> q <= MusclMinmod(qm, q, qp, q2p).1 <= qp
    ensures q >= qp >= q2p ==> qp <= MusclMinmod(qm, q, qp, q2p).1 <= q
  {
  }

  /** Mirroring the stencil swaps the two states: the right state is the left-state
      formula applied to q2p, qp, q, qm. */
  lemma MusclMirror(qm: real, q: real, qp: real, q2p: real)
    ensures MusclMinmod(q2p, qp, q, qm) == (MusclMinmod(qm, q, qp, q2p).1, MusclMinmod(qm, q, qp, q2p).0)
  {
    var b := 4.0;
    MinmodSymmetry(qp - q2p, b * (q - qp));
    MinmodSymmetry(q - qp, b * (qp - q2p));
    MinmodSymmetry(qm - q, b * (q - qp));
    MinmodSymmetry(q - qp, b * (qm - q));
    assert -(qp - q2p) == q2p - qp && -(b * (q - qp)) == b * (qp - q);
    assert -(q - qp) == qp - q && -(b * (qp - q2p)) == b * (q2p - qp);
    assert -(qm - q) == q - qm && -(b * (q - qp)) == b * (qp - q);
    assert -(b * (qm - q)) == b * (q - qm);
  }

  /** alpha of the MP5 limiter */
  const Alpha: real := 2.0
  /** threshold of the MP5 clipping test */
  const ClipThreshold: real := 1.0e-10

  /** the unlimited fifth-order interpolation of the left state */
  function Mp5Raw(q2m: real, qm: real, q: real, qp: real, q2p: real): real
  {
    (2.0 * q2m - 13.0 * qm + 47.0 * q + 27.0 * qp - 3.0 * q2p) / 60.0
  }

  /** the monotonicity-preserving bound q + minmod(qp - q, alpha (q - qm)) */
  function Mp5Qmp(qm: real, q: real, qp: real): real
  {
    q + Minmod(qp - q, Alpha * (q - qm))
  }

  /** true when the raw value leaves the monotone range and the limiter is applied */
  predicate Mp5Triggered(q2m: real, qm: real, q: real, qp: real, q2p: real)
  {
    var raw := Mp5Raw(q2m, qm, q, qp, q2p);
    (raw - q) * (raw - Mp5Qmp(qm, q, qp)) > ClipThreshold
  }

  /** the interval [qmin, qmax] the limiter clips to */
  function Mp5Bounds(q2m: real, qm: real, q: real, qp: real, q2p: real): (b: (real, real))
    ensures b.0 <= q <= b.1
  {
    var dm := q2m + q - 2.0 * qm;
    var d := qm + qp - 2.0 * q;
    var dp := q + q2p - 2.0 * qp;
    var dMm := Minmod4(4.0 * dm - d, 4.0 * d - dm, dm, d);
    var dMp := Minmod4(4.0 * d - dp, 4.0 * dp - d, d, dp);
    var qUl := q + Alpha * (q - qm);
    var qMd := 0.5 * (q + qp) - 0.5 * dMp;
    var qLc := q + 0.5 * (q - qm) + 4.0 / 3.0 * dMm;
    ClipInterval(q, qp, qMd, qUl, qLc)
  }

  /** qmin = max(min(q, qp, qMd), min(q, qUl, qLc)) and qmax = min(max(q, qp, qMd), max(q, qUl, qLc)):
      both inner minima are at most q and both inner maxima at least q. */
  function ClipInterval(q: real, qp: real, qMd: real, qUl: real, qLc: real): (b: (real, real))
    ensures b.0 <= q <= b.1
  {
    var qmin := Max(Min(Min(q, qp), qMd), Min(Min(q, qUl), qLc));
    var qmax := Min(Max(Max(q, qp), qMd), Max(Max(q, qUl), qLc));
    (qmin, qmax)
  }

  /** MP5 left state: the raw interpolation, replaced by its median with the two
      bounds when the clipping test fires. */
  function Mp5Sub(q2m: real, qm: real, q: real, qp: real, q2p: real): (qL: real)
    ensures !Mp5Triggered(q2m, qm, q, qp, q2p) ==> qL == Mp5Raw(q2m, qm, q, qp, q2p)
    ensures Mp5Triggered(q2m, qm, q, qp, q2p) ==>
      var b := Mp5Bounds(q2m, qm, q, qp, q2p);
      b.0 <= qL <= b.1 && IsMedian(qL, Mp5Raw(q2m, qm, q, qp, q2p), b.0, b.1)
  {
    var raw := Mp5Raw(q2m, qm, q, qp, q2p);
    if Mp5Triggered(q2m, qm, q, qp, q2p) then
      var b := Mp5Bounds(q2m, qm, q, qp, q2p);
      MedianClips(raw, b.0, b.1);
      Median(raw, b.0, b.1)
    else
      raw
  }

  /** On a constant stencil the weights 2 - 13 + 47 + 27 - 3 = 60 give q back, the
      clipping test evaluates to 0 and the left state is q. */
  lemma Mp5SubConstant(q: real)
    ensures !Mp5Triggered(q, q, q, q, q)
    ensures Mp5Sub(q, q, q, q, q) == q
  {
    assert Mp5Raw(q, q, q, q, q) == q;
  }

  /** MP5: left state from q2m .. q2p, right state from the mirrored stencil q3p .. qm. */
  function Mp5(q2m: real, qm: real, q: real, qp: real, q2p: real, q3p: real): (res: (real, real))
    ensures q2m == qm == q == qp == q2p == q3p ==> res == (q, q)
  {
    Mp5SubConstant(q);
    (Mp5Sub(q2m, qm, q, qp, q2p), Mp5Sub(q3p, q2p, qp, q, qm))
  }

  /** Mirroring the six-point stencil swaps the two MP5 states. */
  lemma Mp5Mirror(q2m: real, qm: real, q: real, qp: real, q2p: real, q3p: real)
    ensures Mp5(q3p, q2p, qp, q, qm, q2m) == (Mp5(q2m, qm, q, qp, q2p, q3p).1, Mp5(q2m, qm, q, qp, q2p, q3p).0)
  {
  }

  /** first derivative at i = 1.5 from the values at i = 0, 1, 2, 3; on equally spaced
      values it is their common difference */
  function CentralDiff3(q0: real, q1: real, q2: real, q3: real): (d: real)
    ensures q1 - q0 == q2 - q1 == q3 - q2 ==> d == q1 - q0
  {
    q0 / 24.0 - 9.0 / 8.0 * q1 + 9.0 / 8.0 * q2 - q3 / 24.0
  }

  /** first derivative at i = 2 from the values at i = 0, 1, 3, 4; on equally spaced
      values it is their common difference */
  function CentralDiff4(q0: real, q1: real, q3: real, q4: real): (d: real)
    ensures q1 - q0 == q4 - q3 && q3 - q1 == 2.0 * (q1 - q0) ==> d == q1 - q0
  {
    q0 / 12.0 - 2.0 / 3.0 * q1 + 2.0 / 3.0 * q3 - q4 / 12.0
  }

  /** the polynomial a + b t + c t^2 + d t^3 + f t^4 */
  function Poly(a: real, b: real, c: real, d: real, f: real, t: real): real
  {
    a + b * t + c * t * t + d * t * t * t + f * t * t * t * t
  }

  /** central_diff3 returns the exact first derivative b at i = 1.5 of every cubic
      (so 0 on a constant stencil and 1 on q_k = k). */
  lemma CentralDiff3Exact(a: real, b: real, c: real, d: real)
    ensures CentralDiff3(Poly(a, b, c, d, 0.0, -1.5), Poly(a, b, c, d, 0.0, -0.5),
                         Poly(a, b, c, d, 0.0, 0.5), Poly(a, b, c, d, 0.0, 1.5)) == b
    ensures CentralDiff3(a, a, a, a) == 0.0
    ensures CentralDiff3(0.0, 1.0, 2.0, 3.0) == 1.0
  {
  }

  /** central_diff4 returns the exact first derivative b at i = 2 of every quartic
      (so 0 on a constant stencil and 1 on q_k = k). */
  lemma CentralDiff4Exact(a: real, b: real, c: real, d: real, f: real)
    ensures CentralDiff4(Poly(a, b, c, d, f, -2.0), Poly(a, b, c, d, f, -1.0),
                         Poly(a, b, c, d, f, 1.0), Poly(a, b, c, d, f, 2.0)) == b
    ensures CentralDiff4(a, a, a, a) == 0.0
    ensures CentralDiff4(0.0, 1.0, 3.0, 4.0) == 1.0
  {
  }
}
