/** The grid of the solver (src/fluid2d/coordinate.rs): the metrics divided by the
    Jacobian, the inverse Jacobian and the CFL length scale, all computed from the
    grid-point coordinates, and the reading of the grid file.

    The coordinates are read as values (`Snap(c.x)`, `Snap(c.y)`); every array of the
    struct is written in place only inside the region the source fills, and keeps its
    old contents elsewhere. */
module Coordinate {
  import opened F64
  import opened Fluid2d
  import BasicVar

  /** what calc_metrices_dx needs of the sizes: every loop bound is a natural number
      and every stencil it reads lies in the arrays */
  predicate CoordSizes(ni: nat, nj: nat, nb: nat)
  {
    nb >= 2 && ni >= 2 * nb && nj >= 2 * nb
  }

  /** the grid-point coordinates as values */
  ghost predicate Points(x: Field, y: Field, ni: nat, nj: nat, nb: nat)
  {
    IsField(x, ni, nj) && IsField(y, ni, nj) && CoordSizes(ni, nj, nb)
  }

  /** the four metrics divided by the Jacobian at one cell point */
  datatype Metrics = Metrics(ixs: real, iys: real, jxs: real, jys: real)

  /** The metrics at entry (i, j), which belong to grid point (NB-1+i, NB-1+j): second
      order central differences, ixs = y_eta, iys = -x_eta, jxs = -y_xi, jys = x_xi. */
  function MetricsAt(x: Field, y: Field, ni: nat, nj: nat, nb: nat, i: nat, j: nat): (m: Metrics)
    requires Points(x, y, ni, nj, nb) && i < ni - 2 * nb + 2 && j < nj - 2 * nb + 2
  {
    Metrics(0.5 * (y[nb - 1 + i][nb + j] - y[nb - 1 + i][nb - 2 + j]),
            -0.5 * (x[nb - 1 + i][nb + j] - x[nb - 1 + i][nb - 2 + j]),
            -0.5 * (y[nb + i][nb - 1 + j] - y[nb - 2 + i][nb - 1 + j]),
            0.5 * (x[nb + i][nb - 1 + j] - x[nb - 2 + i][nb - 1 + j]))
  }

  /** The inverse Jacobian at cell vertex (i + 1/2, j + 1/2): half the cross product of
      the two diagonals of the cell with corners (i, j) and (i + 1, j + 1). */
  function AreaAt(x: Field, y: Field, ni: nat, nj: nat, i: nat, j: nat): real
    requires IsField(x, ni, nj) && IsField(y, ni, nj) && i + 1 < ni && j + 1 < nj
  {
    ((x[1 + i][1 + j] - x[i][j]) * (y[i][1 + j] - y[1 + i][j])
      - (y[1 + i][1 + j] - y[i][j]) * (x[i][1 + j] - x[1 + i][j])) * 0.5
  }

  /** the squared length of the vector (dx, dy) */
  function Sq2(dx: real, dy: real): (d: real)
    ensures d >= 0.0
  {
    SumOfSquares(dx, dy);
    dx * dx + dy * dy
  }

  /** the squared distance from grid point (a, b) to grid point (p, q) */
  function Dist2(x: Field, y: Field, ni: nat, nj: nat, a: nat, b: nat, p: nat, q: nat): (d: real)
    requires IsField(x, ni, nj) && IsField(y, ni, nj) && a < ni && b < nj && p < ni && q < nj
  {
    Sq2(x[p][q] - x[a][b], y[p][q] - y[a][b])
  }

  /** The square of the CFL length at entry (i, j), which belongs to interior point
      (NB+i, NB+j): the least squared distance to its four neighbours, taken in the
      order +i, +j, -i, -j. */
  function DxSquared(x: Field, y: Field, ni: nat, nj: nat, nb: nat, i: nat, j: nat): (d: real)
    requires Points(x, y, ni, nj, nb) && i < ni - 2 * nb && j < nj - 2 * nb
  {
    var a, b := nb + i, nb + j;
    Min(Min(Min(Dist2(x, y, ni, nj, a, b, a + 1, b), Dist2(x, y, ni, nj, a, b, a, b + 1)),
            Dist2(x, y, ni, nj, a, b, a - 1, b)),
        Dist2(x, y, ni, nj, a, b, a, b - 1))
  }

  /** the shoelace formula for the signed area of the polygon (x0, y0) ... (x3, y3) */
  function Shoelace(x0: real, y0: real, x1: real, y1: real, x2: real, y2: real, x3: real, y3: real): real
  {
    0.5 * ((x0 * y1 - x1 * y0) + (x1 * y2 - x2 * y1) + (x2 * y3 - x3 * y2) + (x3 * y0 - x0 * y3))
  }

  // ---------------------------------------------------------------------------
  // calc_metrices_dx

  /** the four metric arrays hold at (i, j) the metrics of the grid x, y */
  ghost predicate MetricsHold(c: GenStructCoord, x: Field, y: Field, i: nat, j: nat)
    requires c.Valid() && Points(x, y, c.ni, c.nj, c.nb)
    requires i < c.ni - 2 * c.nb + 2 && j < c.nj - 2 * c.nb + 2
    reads c.ixs, c.iys, c.jxs, c.jys
  {
    var m := MetricsAt(x, y, c.ni, c.nj, c.nb, i, j);
    c.ixs[i, j] == m.ixs && c.iys[i, j] == m.iys && c.jxs[i, j] == m.jxs && c.jys[i, j] == m.jys
  }

  /** calc_metrices_dx: the three loops in the order of the source */
  method CalcMetricesDx(c: GenStructCoord, sqrt: SqrtFn)
    requires c.Valid() && CoordSizes(c.ni, c.nj, c.nb)
    modifies c.ixs, c.iys, c.jxs, c.jys, c.s, c.dx
    ensures forall i, j :: 0 <= i < c.ni && 0 <= j < c.nj ==>
      if i < c.ni - 2 * c.nb + 2 && j < c.nj - 2 * c.nb + 2 then MetricsHold(c, Snap(c.x), Snap(c.y), i, j)
      else (c.ixs[i, j] == old(c.ixs[i, j]) && c.iys[i, j] == old(c.iys[i, j])
        && c.jxs[i, j] == old(c.jxs[i, j]) && c.jys[i, j] == old(c.jys[i, j]))
    ensures forall i, j :: 0 <= i < c.ni && 0 <= j < c.nj ==>
      c.s[i, j] == if i < c.ni - 1 && j < c.nj - 1 then AreaAt(Snap(c.x), Snap(c.y), c.ni, c.nj, i, j)
                   else old(c.s[i, j])
    ensures forall i, j :: 0 <= i < c.ni && 0 <= j < c.nj ==>
      c.dx[i, j] == if i < c.ni - 2 * c.nb && j < c.nj - 2 * c.nb
                    then sqrt(DxSquared(Snap(c.x), Snap(c.y), c.ni, c.nj, c.nb, i, j))
                    else old(c.dx[i, j])
  {
    CalcMetrices(c);
    CalcArea(c);
    CalcDx(c, sqrt);
  }

  /** the first loop of calc_metrices_dx */
  method CalcMetrices(c: GenStructCoord)
    requires c.Valid() && CoordSizes(c.ni, c.nj, c.nb)
    modifies c.ixs, c.iys, c.jxs, c.jys
    ensures forall i, j :: 0 <= i < c.ni && 0 <= j < c.nj ==>
      if i < c.ni - 2 * c.nb + 2 && j < c.nj - 2 * c.nb + 2 then MetricsHold(c, Snap(c.x), Snap(c.y), i, j)
      else (c.ixs[i, j] == old(c.ixs[i, j]) && c.iys[i, j] == old(c.iys[i, j])
        && c.jxs[i, j] == old(c.jxs[i, j]) && c.jys[i, j] == old(c.jys[i, j]))
  {
    var ni, nj, nb := c.ni, c.nj, c.nb;
    var mi, mj := ni - 2 * nb + 2, nj - 2 * nb + 2;
    ghost var x, y := Snap(c.x), Snap(c.y);
    for i := 0 to mi
      invariant forall p, q :: 0 <= p < ni && 0 <= q < nj ==>
        if p < i && q < mj then MetricsHold(c, x, y, p, q)
        else (c.ixs[p, q] == old(c.ixs[p, q]) && c.iys[p, q] == old(c.iys[p, q])
          && c.jxs[p, q] == old(c.jxs[p, q]) && c.jys[p, q] == old(c.jys[p, q]))
    {
      MetricsRow(c, x, y, i);
    }
  }

  /** one pass of the inner loop of the first loop: row i of the metric arrays */
  method MetricsRow(c: GenStructCoord, ghost x: Field, ghost y: Field, i: nat)
    requires c.Valid() && CoordSizes(c.ni, c.nj, c.nb) && i < c.ni - 2 * c.nb + 2
    requires x == Snap(c.x) && y == Snap(c.y)
    modifies c.ixs, c.iys, c.jxs, c.jys
    ensures forall p, q :: 0 <= p < c.ni && 0 <= q < c.nj ==>
      if p == i && q < c.nj - 2 * c.nb + 2 then MetricsHold(c, x, y, p, q)
      else (c.ixs[p, q] == old(c.ixs[p, q]) && c.iys[p, q] == old(c.iys[p, q])
        && c.jxs[p, q] == old(c.jxs[p, q]) && c.jys[p, q] == old(c.jys[p, q]))
  {
    var ni, nj, nb := c.ni, c.nj, c.nb;
    for j := 0 to nj - 2 * nb + 2
      invariant forall q :: 0 <= q < j ==>
        var m := MetricsAt(x, y, ni, nj, nb, i, q);
        c.ixs[i, q] == m.ixs && c.iys[i, q] == m.iys && c.jxs[i, q] == m.jxs && c.jys[i, q] == m.jys
      invariant forall p, q :: 0 <= p < ni && 0 <= q < nj && (p != i || q >= j) ==>
        (c.ixs[p, q] == old(c.ixs[p, q]) && c.iys[p, q] == old(c.iys[p, q])
        && c.jxs[p, q] == old(c.jxs[p, q]) && c.jys[p, q] == old(c.jys[p, q]))
    {
      var m := MetricsOf(c, x, y, i, j);
      StoreMetrics(c, i, j, m);
    }
  }

  /** the four metric values one pass of the inner loop computes, read from the node arrays */
  method MetricsOf(c: GenStructCoord, ghost x: Field, ghost y: Field, i: nat, j: nat) returns (m: Metrics)
    requires c.Valid() && CoordSizes(c.ni, c.nj, c.nb) && i < c.ni - 2 * c.nb + 2 && j < c.nj - 2 * c.nb + 2
    requires x == Snap(c.x) && y == Snap(c.y)
    ensures m == MetricsAt(x, y, c.ni, c.nj, c.nb, i, j)
  {
    var nb := c.nb;
    var ixs := 0.5 * (c.y[nb - 1 + i, nb + j] - c.y[nb - 1 + i, nb - 2 + j]);
    var iys := -0.5 * (c.x[nb - 1 + i, nb + j] - c.x[nb - 1 + i, nb - 2 + j]);
    var jxs := -0.5 * (c.y[nb + i, nb - 1 + j] - c.y[nb - 2 + i, nb - 1 + j]);
    var jys := 0.5 * (c.x[nb + i, nb - 1 + j] - c.x[nb - 2 + i, nb - 1 + j]);
    m := Metrics(ixs, iys, jxs, jys);
  }

  /** the four assignments of one pass: entry (i, j) of each metric array */
  method StoreMetrics(c: GenStructCoord, i: nat, j: nat, m: Metrics)
    requires c.Valid() && i < c.ni && j < c.nj
    modifies c.ixs, c.iys, c.jxs, c.jys
    ensures c.ixs[i, j] == m.ixs && c.iys[i, j] == m.iys && c.jxs[i, j] == m.jxs && c.jys[i, j] == m.jys
    ensures forall p, q :: 0 <= p < c.ni && 0 <= q < c.nj && (p != i || q != j) ==>
      (c.ixs[p, q] == old(c.ixs[p, q]) && c.iys[p, q] == old(c.iys[p, q])
      && c.jxs[p, q] == old(c.jxs[p, q]) && c.jys[p, q] == old(c.jys[p, q]))
  {
    c.ixs[i, j] := m.ixs;
    c.iys[i, j] := m.iys;
    c.jxs[i, j] := m.jxs;
    c.jys[i, j] := m.jys;
  }

  /** the second loop of calc_metrices_dx */
  method CalcArea(c: GenStructCoord)
    requires c.Valid() && CoordSizes(c.ni, c.nj, c.nb)
    modifies c.s
    ensures forall i, j :: 0 <= i < c.ni && 0 <= j < c.nj ==>
      c.s[i, j] == if i < c.ni - 1 && j < c.nj - 1 then AreaAt(Snap(c.x), Snap(c.y), c.ni, c.nj, i, j)
                   else old(c.s[i, j])
  {
    var ni, nj := c.ni, c.nj;
    ghost var x, y := Snap(c.x), Snap(c.y);
    for i := 0 to ni - 1
      invariant forall p, q :: 0 <= p < ni && 0 <= q < nj ==>
        c.s[p, q] == if p < i && q < nj - 1 then AreaAt(x, y, ni, nj, p, q) else old(c.s[p, q])
    {
      for j := 0 to nj - 1
        invariant forall p, q :: 0 <= p < ni && 0 <= q < nj ==>
          c.s[p, q] == if (p < i && q < nj - 1) || (p == i && q < j) then AreaAt(x, y, ni, nj, p, q)
                       else old(c.s[p, q])
      {
        c.s[i, j] := ((c.x[1 + i, 1 + j] - c.x[i, j]) * (c.y[i, 1 + j] - c.y[1 + i, j])
          - (c.y[1 + i, 1 + j] - c.y[i, j]) * (c.x[i, 1 + j] - c.x[1 + i, j])) * 0.5;
      }
    }
  }

  /** the third loop of calc_metrices_dx: the four squared neighbour distances folded
      with min into dx[i][j], then its square root */
  method CalcDx(c: GenStructCoord, sqrt: SqrtFn)
    requires c.Valid() && CoordSizes(c.ni, c.nj, c.nb)
    modifies c.dx
    ensures forall i, j :: 0 <= i < c.ni && 0 <= j < c.nj ==>
      c.dx[i, j] == if i < c.ni - 2 * c.nb && j < c.nj - 2 * c.nb
                    then sqrt(DxSquared(Snap(c.x), Snap(c.y), c.ni, c.nj, c.nb, i, j))
                    else old(c.dx[i, j])
  {
    var ni, nj, nb := c.ni, c.nj, c.nb;
    ghost var x, y := Snap(c.x), Snap(c.y);
    for i := 0 to ni - 2 * nb
      invariant forall p, q :: 0 <= p < ni && 0 <= q < nj ==>
        c.dx[p, q] == if p < i && q < nj - 2 * nb then sqrt(DxSquared(x, y, ni, nj, nb, p, q))
                      else old(c.dx[p, q])
    {
      DxRow(c, sqrt, x, y, i);
    }
  }

  /** one pass of the outer loop of the third loop: row i of dx */
  method DxRow(c: GenStructCoord, sqrt: SqrtFn, ghost x: Field, ghost y: Field, i: nat)
    requires c.Valid() && CoordSizes(c.ni, c.nj, c.nb) && i < c.ni - 2 * c.nb
    requires x == Snap(c.x) && y == Snap(c.y)
    modifies c.dx
    ensures forall q :: 0 <= q < c.nj - 2 * c.nb ==> c.dx[i, q] == sqrt(DxSquared(x, y, c.ni, c.nj, c.nb, i, q))
    ensures forall p, q :: 0 <= p < c.ni && 0 <= q < c.nj && (p != i || q >= c.nj - 2 * c.nb) ==>
      c.dx[p, q] == old(c.dx[p, q])
  {
    for j := 0 to c.nj - 2 * c.nb
      invariant forall q :: 0 <= q < j ==> c.dx[i, q] == sqrt(DxSquared(x, y, c.ni, c.nj, c.nb, i, q))
      invariant forall p, q :: 0 <= p < c.ni && 0 <= q < c.nj && (p != i || q >= j) ==>
        c.dx[p, q] == old(c.dx[p, q])
    {
      var d := DxOf(c, x, y, i, j);
      Store(c.dx, i, j, sqrt(d));
    }
  }

  /** one assignment into a 2D array */
  method Store(a: array2<real>, i: nat, j: nat, v: real)
    requires i < a.Length0 && j < a.Length1
    modifies a
    ensures a[i, j] == v
    ensures forall p, q :: 0 <= p < a.Length0 && 0 <= q < a.Length1 && (p != i || q != j) ==> a[p, q] == old(a[p, q])
  {
    a[i, j] := v;
  }

  /** the squared spacing one pass of the inner loop folds from the four neighbours */
  method DxOf(c: GenStructCoord, ghost x: Field, ghost y: Field, i: nat, j: nat) returns (d: real)
    requires c.Valid() && CoordSizes(c.ni, c.nj, c.nb) && i < c.ni - 2 * c.nb && j < c.nj - 2 * c.nb
    requires x == Snap(c.x) && y == Snap(c.y)
    ensures d == DxSquared(x, y, c.ni, c.nj, c.nb, i, j)
  {
    var ni, nj, nb := c.ni, c.nj, c.nb;
    var a, b := nb + i, nb + j;
    var dx1 := c.x[a + 1, b] - c.x[a, b];
    var dy1 := c.y[a + 1, b] - c.y[a, b];
    d := Sq2(dx1, dy1);
    assert d == Dist2(x, y, ni, nj, a, b, a + 1, b);
    dx1 := c.x[a, b + 1] - c.x[a, b];
    dy1 := c.y[a, b + 1] - c.y[a, b];
    var dd := Sq2(dx1, dy1);
    assert dd == Dist2(x, y, ni, nj, a, b, a, b + 1);
    d := Min(d, dd);
    dx1 := c.x[a - 1, b] - c.x[a, b];
    dy1 := c.y[a - 1, b] - c.y[a, b];
    dd := Sq2(dx1, dy1);
    assert dd == Dist2(x, y, ni, nj, a, b, a - 1, b);
    d := Min(d, dd);
    dx1 := c.x[a, b - 1] - c.x[a, b];
    dy1 := c.y[a, b - 1] - c.y[a, b];
    dd := Sq2(dx1, dy1);
    assert dd == Dist2(x, y, ni, nj, a, b, a, b - 1);
    d := Min(d, dd);
  }


  // ---------------------------------------------------------------------------
  // properties of the grid quantities

  /** On a Cartesian grid with spacings hx, hy every cell has the metrics (hy, 0, 0, hx). */
  lemma CartesianMetrics(x: Field, y: Field, ni: nat, nj: nat, nb: nat, x0: real, y0: real,
                         hx: real, hy: real, i: nat, j: nat)
    requires Points(x, y, ni, nj, nb) && i < ni - 2 * nb + 2 && j < nj - 2 * nb + 2
    requires forall p, q :: 0 <= p < ni && 0 <= q < nj ==>
      x[p][q] == x0 + (p as real) * hx && y[p][q] == y0 + (q as real) * hy
    ensures MetricsAt(x, y, ni, nj, nb, i, j) == Metrics(hy, 0.0, 0.0, hx)
  {
    var a, b := nb - 1 + i, nb - 1 + j;
    assert y[a][b + 1] == y0 + ((b + 1) as real) * hy && y[a][b - 1] == y0 + ((b - 1) as real) * hy;
    CentralDifference(y0, hy, b);
    assert x[a + 1][b] == x0 + ((a + 1) as real) * hx && x[a - 1][b] == x0 + ((a - 1) as real) * hx;
    CentralDifference(x0, hx, a);
    assert x[a][b + 1] == x[a][b - 1] && y[a + 1][b] == y[a - 1][b];
  }

  /** On the uniform line z0 + k h the points k + 1 and k - 1 lie 2h apart. */
  lemma CentralDifference(z0: real, h: real, k: nat)
    requires k >= 1
    ensures (z0 + ((k + 1) as real) * h) - (z0 + ((k - 1) as real) * h) == 2.0 * h
  {
  }

  /** On a Cartesian grid every cell has the inverse Jacobian hx hy. */
  lemma CartesianArea(x: Field, y: Field, ni: nat, nj: nat, x0: real, y0: real,
                      hx: real, hy: real, i: nat, j: nat)
    requires IsField(x, ni, nj) && IsField(y, ni, nj) && i + 1 < ni && j + 1 < nj
    requires forall p, q :: 0 <= p < ni && 0 <= q < nj ==>
      x[p][q] == x0 + (p as real) * hx && y[p][q] == y0 + (q as real) * hy
    ensures AreaAt(x, y, ni, nj, i, j) == hx * hy
  {
    assert x[1 + i][1 + j] - x[i][j] == hx;
    assert y[i][1 + j] - y[1 + i][j] == hy;
    assert y[1 + i][1 + j] - y[i][j] == hy;
    assert x[i][1 + j] - x[1 + i][j] == -hx;
  }

  /** The inverse Jacobian is the signed area of the cell (i, j), (i+1, j), (i+1, j+1),
      (i, j+1), counter-clockwise positive. */
  lemma AreaIsShoelace(x: Field, y: Field, ni: nat, nj: nat, i: nat, j: nat)
    requires IsField(x, ni, nj) && IsField(y, ni, nj) && i + 1 < ni && j + 1 < nj
    ensures AreaAt(x, y, ni, nj, i, j)
         == Shoelace(x[i][j], y[i][j], x[i + 1][j], y[i + 1][j],
                     x[i + 1][j + 1], y[i + 1][j + 1], x[i][j + 1], y[i][j + 1])
  {
    DiagonalCross(x[i][j], y[i][j], x[i + 1][j], y[i + 1][j],
                  x[i + 1][j + 1], y[i + 1][j + 1], x[i][j + 1], y[i][j + 1]);
  }

  lemma DiagonalCross(x0: real, y0: real, x1: real, y1: real, x2: real, y2: real, x3: real, y3: real)
    ensures ((x2 - x0) * (y3 - y1) - (y2 - y0) * (x3 - x1)) * 0.5
         == Shoelace(x0, y0, x1, y1, x2, y2, x3, y3)
  {
  }

  /** Shifting the whole grid changes none of the metrics. */
  lemma MetricsTranslation(x: Field, y: Field, x': Field, y': Field, ni: nat, nj: nat, nb: nat,
                           tx: real, ty: real, i: nat, j: nat)
    requires Points(x, y, ni, nj, nb) && Points(x', y', ni, nj, nb)
    requires i < ni - 2 * nb + 2 && j < nj - 2 * nb + 2
    requires forall p, q :: 0 <= p < ni && 0 <= q < nj ==> x'[p][q] == x[p][q] + tx && y'[p][q] == y[p][q] + ty
    ensures MetricsAt(x', y', ni, nj, nb, i, j) == MetricsAt(x, y, ni, nj, nb, i, j)
  {
  }

  /** The discrete geometric conservation law: the central i-difference of ixs and the
      central j-difference of jxs cancel, and so do those of iys and jys (the central
      differences commute). */
  lemma MetricIdentity(x: Field, y: Field, ni: nat, nj: nat, nb: nat, i: nat, j: nat)
    requires Points(x, y, ni, nj, nb)
    requires 1 <= i && i + 1 < ni - 2 * nb + 2 && 1 <= j && j + 1 < nj - 2 * nb + 2
    ensures MetricsAt(x, y, ni, nj, nb, i + 1, j).ixs - MetricsAt(x, y, ni, nj, nb, i - 1, j).ixs
          + MetricsAt(x, y, ni, nj, nb, i, j + 1).jxs - MetricsAt(x, y, ni, nj, nb, i, j - 1).jxs == 0.0
    ensures MetricsAt(x, y, ni, nj, nb, i + 1, j).iys - MetricsAt(x, y, ni, nj, nb, i - 1, j).iys
          + MetricsAt(x, y, ni, nj, nb, i, j + 1).jys - MetricsAt(x, y, ni, nj, nb, i, j - 1).jys == 0.0
  {
  }

  /** The CFL length is the distance to the nearest of the four neighbours: its square
      is one of the four squared distances and no larger than any of them. */
  lemma DxIsNearest(sqrt: SqrtFn, x: Field, y: Field, ni: nat, nj: nat, nb: nat, i: nat, j: nat)
    requires IsSqrt(sqrt) && Points(x, y, ni, nj, nb) && i < ni - 2 * nb && j < nj - 2 * nb
    ensures var a, b, d := nb + i, nb + j, sqrt(DxSquared(x, y, ni, nj, nb, i, j));
      && d >= 0.0 && d * d == DxSquared(x, y, ni, nj, nb, i, j)
      && d <= sqrt(Dist2(x, y, ni, nj, a, b, a + 1, b)) && d <= sqrt(Dist2(x, y, ni, nj, a, b, a, b + 1))
      && d <= sqrt(Dist2(x, y, ni, nj, a, b, a - 1, b)) && d <= sqrt(Dist2(x, y, ni, nj, a, b, a, b - 1))
  {
    var a, b, d2 := nb + i, nb + j, DxSquared(x, y, ni, nj, nb, i, j);
    SqrtMonotone(sqrt, d2, Dist2(x, y, ni, nj, a, b, a + 1, b));
    SqrtMonotone(sqrt, d2, Dist2(x, y, ni, nj, a, b, a, b + 1));
    SqrtMonotone(sqrt, d2, Dist2(x, y, ni, nj, a, b, a - 1, b));
    SqrtMonotone(sqrt, d2, Dist2(x, y, ni, nj, a, b, a, b - 1));
  }

  /** DxSquared is attained by one of the four neighbours. */
  lemma DxAttained(x: Field, y: Field, ni: nat, nj: nat, nb: nat, i: nat, j: nat)
    requires Points(x, y, ni, nj, nb) && i < ni - 2 * nb && j < nj - 2 * nb
    ensures var a, b, d := nb + i, nb + j, DxSquared(x, y, ni, nj, nb, i, j);
      || d == Dist2(x, y, ni, nj, a, b, a + 1, b) || d == Dist2(x, y, ni, nj, a, b, a, b + 1)
      || d == Dist2(x, y, ni, nj, a, b, a - 1, b) || d == Dist2(x, y, ni, nj, a, b, a, b - 1)
  {
  }

  // ---------------------------------------------------------------------------
  // input

  /** input: reads x and then y from the values of the grid file; a line past the two
      channels is the source's panic (ok = false) */
  method Input(c: GenStructCoord, vals: seq<real>) returns (ok: bool)
    requires c.Valid() && c.ni > 0 && c.nj > 0
    modifies c.x, c.y
    ensures ok <==> |vals| <= BasicVar.Lines(c.ni, c.nj, 2)
    ensures forall k, i, j :: 0 <= k < 2 && 0 <= i < c.ni && 0 <= j < c.nj ==>
      [c.x, c.y][k][i, j] == if BasicVar.LineOf(c.ni, c.nj, k, i, j) < |vals|
                             then vals[BasicVar.LineOf(c.ni, c.nj, k, i, j)]
                             else old([c.x, c.y][k][i, j])
  {
    ok := BasicVar.Load([c.x, c.y], c.ni, c.nj, vals);
  }
}
