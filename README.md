# fluid2d: a Dafny model of a 2D compressible Euler solver

This project models the core of `fluid2d_rust_static`, a finite-volume solver for the
two-dimensional Euler equations of an ideal gas on a general structured grid. One
Dafny module stands for each Rust source file:

- `Fluid2d` (fluid2d.rs): the state structs `BasicVarHD`, `GenStructCoord`, `EulerEq` and
  `IdealGas` as classes over `array2`/`array3` fields, with their zero constructors. It
  also holds `IdealEoS` as a datatype and the value views (`Field`, `BasicField`, `Snap`)
  that contracts are stated over.
- `Fnd` (fnd.rs): the limiters minmod, minmod4 and median, MUSCL-minmod, MP5 and the
  central differences, as pure functions that return pairs.
- `Eos` (eos.rs): the ideal-gas relations and `calc_eigen`, the eigen-decomposition of
  the flux Jacobian.
- `Conserved` (conserved.rs): the conversions between basic and conserved variables,
  and the convective flux.
- `FluxScheme` (flux_scheme.rs): per-variable reconstruction, the Roe average and the
  Roe flux-difference-splitting flux. The flux is computed by the source's triple loop
  (`Accumulate`) and proved equal to a reference sum (`RoeCombine`).
- `Coordinate` (coordinate.rs): `calc_metrices_dx` as three loop nests over the grid
  arrays, and the line decoding of the grid file.
- `Eq` (eq.rs): `calc_rhs`. The i-sweep and j-sweep fill `arr_fi` and `arr_fj` with the
  interface fluxes, and the differencing loop writes `arr_q`.
- `Bc` (bc.rs): `reflect_bc` and the in-place periodic copy of the ghost rows.
- `Marching` (marching.rs): `calc_cfl` and one SSP-RK3 step, `march_ssprk3`, over the
  arrays of `IdealGas`.
- `BasicVar` (basic_var.rs): the integer arithmetic of the data files. This covers the
  line layout `output` writes, the line decoding of `input`, and the h/m/s split.

Modelling choices:

- Every `f64` is a `real`. Division is the total `F64.Div`. It agrees with `/` whenever
  the divisor is non-zero, and every identity about it is stated under non-zero
  hypotheses.
- `sqrt` is a parameter `sqrt: real -> real`. Lemmas that need its laws require
  `IsSqrt(sqrt)`: `sqrt(x) >= 0` and `sqrt(x) * sqrt(x) == x` for `x >= 0`.
- Rust's `signum` gives 1 at +0.0, so `Signum(x)` is 1 for `x >= 0` and -1 otherwise.
- Each string that selects a scheme becomes a closed datatype (`Recon`, `Scheme`,
  `BcType`), parsed to an `Option`. `None` stands for the `panic!`.
- In the methods, an unknown name returns `ok == false` with nothing written.
- Methods that do what the source does with loops keep the loops, with invariants. Each
  is proved against a specification function on values: `MetricsAt`, `AreaAt`,
  `DxSquared`, `FluxFieldI`, `Balance`, `CflNu`, `PeriodicBasic` or `Ssprk3`. The
  properties the source promises are lemmas about those functions.

## Model

| member | source | states |
|---|---|---|
| `Fluid2d.BasicVarHD.constructor` | src/fluid2d.rs:113-120 | the four basic arrays are fresh, NI x NJ and all zero |
| `Fluid2d.GenStructCoord.constructor` | src/fluid2d.rs:159-170 | the coordinate, metric, area and dx arrays are fresh, NI x NJ and all zero |
| `Fluid2d.EulerEq.constructor` | src/fluid2d.rs:190-195 | both interface-flux arrays are fresh, NI x NJ x NF and all zero |
| `Fluid2d.IdealGas.constructor` | src/fluid2d.rs:55-66 | every array of the gas is zero: coordinates, metrics, areas, dx, the basic state, both flux arrays and the three NI x NJ x NF stage arrays; the equation of state holds gamma unchanged (IdealEoS::new, src/fluid2d.rs:211-215) |
| `Fnd.Minmod` | src/fluid2d/marching/eq/fnd.rs:3-5 | 0 when x and y have opposite signs or one is 0; otherwise the argument nearer 0 (the minimum of two positives, the maximum of two negatives) |
| `Fnd.MinmodFormula` | src/fluid2d/marching/eq/fnd.rs:3-5 | that case split is the source's formula signum(x) max(min(abs x, signum(x) y), 0), with signum(0) = 1 |
| `Fnd.MinmodBounds` | src/fluid2d/marching/eq/fnd.rs:3-5 | abs minmod(x, y) is at most abs x and at most abs y, and its sign never opposes x or y |
| `Fnd.MinmodSymmetry` | src/fluid2d/marching/eq/fnd.rs:3-5 | minmod is symmetric in its arguments and odd |
| `Fnd.Minmod4` | src/fluid2d/marching/eq/fnd.rs:9-14 | 0 unless all four arguments share a strict sign; then the argument nearest 0 |
| `Fnd.Minmod4FactorFormula` | src/fluid2d/marching/eq/fnd.rs:10-12 | on signs of value +1 or -1, the product of half sums is s1 when all four agree and 0 otherwise |
| `Fnd.Minmod4Sample` | src/fluid2d/marching/eq/fnd.rs:80-83 | minmod4(1, 2, 3, 2) = 1, the value the unit test prints |
| `Fnd.Median` | src/fluid2d/marching/eq/fnd.rs:16-20 | x + minmod(y - x, z - x) is the middle value of x, y and z: one of them, with two at most it and two at least it |
| `Fnd.MedianClips` | src/fluid2d/marching/eq/fnd.rs:18-20 | for lo <= hi the median of x, lo, hi lies in [lo, hi], and it is x when x already does |
| `Fnd.MusclMinmod` | src/fluid2d/marching/eq/fnd.rs:23-39 | a constant stencil reconstructs to (q, q) |
| `Fnd.MusclAtExtremum` | src/fluid2d/marching/eq/fnd.rs:28-38 | at a local extremum of q the left state is q; at one of qp the right state is qp |
| `Fnd.MusclMonotone` | src/fluid2d/marching/eq/fnd.rs:25-38 | with b = 4, on monotone data both states stay between the two cells beside the interface, in both orientations |
| `Fnd.MusclMirror` | src/fluid2d/marching/eq/fnd.rs:23-39 | mirroring the stencil swaps the left and right states |
| `Fnd.Mp5Bounds` | src/fluid2d/marching/eq/fnd.rs:48-57 | the clipping interval [qmin, qmax] contains q |
| `Fnd.ClipInterval` | src/fluid2d/marching/eq/fnd.rs:56-57 | max(min(q, qp, qMd), min(q, qUl, qLc)) <= q <= min(max(q, qp, qMd), max(q, qUl, qLc)) |
| `Fnd.Mp5Sub` | src/fluid2d/marching/eq/fnd.rs:42-60 | untriggered, the raw fifth-order value; triggered, the median of the raw value with qmin and qmax, so inside [qmin, qmax] |
| `Fnd.Mp5SubConstant` | src/fluid2d/marching/eq/fnd.rs:45-47 | on a constant stencil the test does not trigger and the result is q |
| `Fnd.Mp5` | src/fluid2d/marching/eq/fnd.rs:62-66 | a constant stencil reconstructs to (q, q) |
| `Fnd.Mp5Mirror` | src/fluid2d/marching/eq/fnd.rs:62-66 | the right state is the left-state rule on the mirrored stencil, so mirroring swaps the two states |
| `Fnd.CentralDiff3` | src/fluid2d/marching/eq/fnd.rs:68-72 | on equally spaced values q0, q1, q2, q3 the result is their common difference (the exact slope of linear data) |
| `Fnd.CentralDiff4` | src/fluid2d/marching/eq/fnd.rs:74-78 | on equally spaced values at i = 0, 1, 3, 4 the result is the common step (the exact slope of linear data) |
| `Fnd.CentralDiff3Exact` | src/fluid2d/marching/eq/fnd.rs:68-72 | the exact first derivative at i = 1.5 of every cubic, so 0 on a constant stencil and 1 on q_k = k |
| `Fnd.CentralDiff4Exact` | src/fluid2d/marching/eq/fnd.rs:74-78 | the exact first derivative at i = 2 of every quartic, so 0 on a constant stencil and 1 on q_k = k |
| `Eos.CalcTemp` | src/fluid2d/eos.rs:33-35 | for rho != 0, e = rho (T + (u^2 + v^2) / 2) |
| `Eos.CalcP` | src/fluid2d/eos.rs:28-30 | for rho != 0, p = (gamma - 1) rho T |
| `Eos.CalcCs` | src/fluid2d/eos.rs:38-40 | for a non-negative radicand, cs >= 0 and cs^2 = gamma (gamma - 1) T |
| `Eos.CalcE` | src/fluid2d/eos.rs:44-46 | for gamma != 0, gamma e = rho (h + (gamma - 1) (u^2 + v^2) / 2) |
| `Eos.Enthalpy` | src/fluid2d/eos.rs:66-68 | for rho != 0, (e + p) / rho = gamma T + (u^2 + v^2) / 2 |
| `Eos.CalcRhoE` | src/fluid2d/eos.rs:50-54 | rho T (gamma - 1) = p for T != 0 and gamma != 1, and e = rho (T + (u^2 + v^2) / 2) |
| `Eos.CalcEWp` | src/fluid2d/eos.rs:57-59 | for gamma != 1, (gamma - 1) times the internal energy per volume e - rho (u^2 + v^2) / 2 is p |
| `Eos.EWpRoundTrip` | src/fluid2d/eos.rs:57-59 | for gamma != 1, calc_e_wp and calc_p invert each other in both directions |
| `Eos.RhoERoundTrip` | src/fluid2d/eos.rs:50-54 | for p, T != 0 and gamma != 1, calc_rho_e(p, T) has temperature T and pressure p |
| `Eos.StateRoundTrip` | src/fluid2d/eos.rs:50-54 | for rho != 0, T != 0 and gamma != 1, calc_rho_e of a state's own (p, T) gives back its (rho, e) |
| `Eos.EnthalpyRoundTrip` | src/fluid2d/eos.rs:44-46 | for rho != 0 and gamma != 0: with e = calc_e(h), (e + p) / rho = h; and calc_e of a state's enthalpy is its e |
| `Eos.SoundSpeedSquared` | src/fluid2d/eos.rs:38-40 | cs^2 = gamma (gamma - 1) calc_temp whenever the radicand is non-negative |
| `Eos.EnthalpyFromSoundSpeed` | src/fluid2d/eos.rs:66-68 | the enthalpy of calc_eigen is cs^2 / (gamma - 1) + (u^2 + v^2) / 2 |
| `Eos.CalcEigen` | src/fluid2d/eos.rs:62-115 | lam1 = lam3 = ix u + iy v, and lam0 + lam2 = 2 lam1 |
| `Eos.EigenvaluesOrdered` | src/fluid2d/eos.rs:77-80 | lam0 <= lam1 <= lam2, since cs sqrt(ix^2 + iy^2) >= 0 |
| `Eos.UnitNormal` | src/fluid2d/eos.rs:69-71 | (ix / sqr, iy / sqr) is a unit vector |
| `Eos.NormalVelocity` | src/fluid2d/eos.rs:72-73 | bigu / sqr is the velocity along the unit normal |
| `Eos.ThermoRatios` | src/fluid2d/eos.rs:74-75 | b1 = (u^2 + v^2) / 2 b2 and h b2 = 1 + b1 |
| `Eos.EigenHypHolds` | src/fluid2d/eos.rs:66-75 | the intermediate quantities of calc_eigen satisfy the hypotheses of the inverse |
| `Eos.EigenInverseAlgebra` | src/fluid2d/eos.rs:81-114 | under those hypotheses mat_r times mat_rinv is the identity |
| `Eos.EigenInverseAt` | src/fluid2d/eos.rs:65-114 | the matrices built from cs, h and sqr are mutually inverse when sqr^2 = ix^2 + iy^2 != 0 and cs^2 = gamma (gamma - 1) T != 0 |
| `Eos.EigenInverse` | src/fluid2d/eos.rs:81-114 | for rho != 0, a positive radicand and (ix, iy) != 0, mat_rinv is the inverse of mat_r |
| `Conserved.CalcConservative` | src/fluid2d/marching/eq/euler/conserved.rs:8-14 | q = (rho s, rho u s, rho v s, e s) |
| `Conserved.FluxWithPressure` | src/fluid2d/marching/eq/euler/conserved.rs:20-28 | with U = ixs u + iys v: mass flux rho U, momentum fluxes rho u U + ixs p and rho v U + iys p, energy flux (e + p) U |
| `Conserved.CalcFluxConv` | src/fluid2d/marching/eq/euler/conserved.rs:20-28 | a flux of NF components (its values are those of FluxWithPressure at p = calc_p) |
| `Conserved.FluxZeroNormal` | src/fluid2d/marching/eq/euler/conserved.rs:22-27 | ixs = iys = 0 carries no flux |
| `Conserved.CalcBasic` | src/fluid2d/marching/eq/euler/conserved.rs:35-40 | for s != 0 the density and energy times s are q0 and q3; for q0 != 0 as well, rho u s and rho v s are q1 and q2 (the inverse relations; the round trips are `BasicRoundTrip` and `ConservativeRoundTrip`) |
| `Conserved.BasicRoundTrip` | src/fluid2d/marching/eq/euler/conserved.rs:35-40 | calc_basic(calc_conservative(c, s), s) = c for rho != 0 and s != 0 |
| `Conserved.ConservativeRoundTrip` | src/fluid2d/marching/eq/euler/conserved.rs:8-14 | calc_conservative(calc_basic(q, s), s) = q for q0 != 0 and s != 0 |
| `Conserved.ConservativeLinear` | src/fluid2d/marching/eq/euler/conserved.rs:10-13 | each component is its value at s = 1 times s |
| `FluxScheme.ReconstByBasicMuscl` | src/fluid2d/marching/eq/euler/flux_scheme.rs:24-35 | a uniform stencil of cells reconstructs to that cell on both sides |
| `FluxScheme.MusclPerVariable` | src/fluid2d/marching/eq/euler/flux_scheme.rs:31-34 | each reconstructed variable is scalar MUSCL-minmod on that variable's own stencil |
| `FluxScheme.ReconstByBasicMp5` | src/fluid2d/marching/eq/euler/flux_scheme.rs:42-53 | a uniform stencil of cells reconstructs to that cell on both sides |
| `FluxScheme.Mp5PerVariable` | src/fluid2d/marching/eq/euler/flux_scheme.rs:49-52 | each reconstructed variable is scalar MP5 on that variable's own stencil |
| `FluxScheme.RoeAverage` | src/fluid2d/marching/eq/euler/flux_scheme.rs:57-72 | for non-negative densities the averaged density is their geometric mean (rho_a >= 0, rho_a^2 = rho_l rho_r); for positive densities u_a and v_a lie between the left and right velocities, and with gamma != 0 the averaged state's total enthalpy lies between h_l and h_r |
| `FluxScheme.RoeMean` | src/fluid2d/marching/eq/euler/flux_scheme.rs:68-70 | for non-negative weights that do not both vanish, the weighted mean lies between the two values |
| `FluxScheme.RoeAverageSymmetric` | src/fluid2d/marching/eq/euler/flux_scheme.rs:57-72 | swapping the left and right states leaves the Roe average unchanged |
| `FluxScheme.RoeAverageSame` | src/fluid2d/marching/eq/euler/flux_scheme.rs:57-72 | for rho > 0 and gamma != 0, the Roe average of a state with itself is that state (e through the enthalpy identity) |
| `FluxScheme.Jump` | src/fluid2d/marching/eq/euler/flux_scheme.rs:102 | ql + dq = qr componentwise |
| `FluxScheme.Accumulate` | src/fluid2d/marching/eq/euler/flux_scheme.rs:98-106 | the triple loop with its -= and final scaling gives 1/2 (F_l + F_r) - 1/2 sum_j sum_k R[i][j] abs(lam_j) Rinv[j][k] (q_r - q_l)[k] |
| `FluxScheme.RoeFds` | src/fluid2d/marching/eq/euler/flux_scheme.rs:74-106 | the flux is that sum, with calc_eigen at the Roe average in direction (ixs / s, iys / s), physical fluxes with the unscaled ixs, iys, and the conserved jump over s |
| `FluxScheme.InnerSumZero` | src/fluid2d/marching/eq/euler/flux_scheme.rs:101-103 | with no jump one characteristic contributes no dissipation |
| `FluxScheme.OuterSumZero` | src/fluid2d/marching/eq/euler/flux_scheme.rs:100-104 | with no jump the whole dissipation vanishes |
| `FluxScheme.RoeFdsConsistent` | src/fluid2d/marching/eq/euler/flux_scheme.rs:74-106 | with identical left and right states the Roe flux is calc_flux_conv(ixs, iys) |
| `FluxScheme.ParseScheme` | src/fluid2d/marching/eq/euler/flux_scheme.rs:13-16 | a scheme is selected exactly for "Roe_FDS" |
| `FluxScheme.CalcNumFlux` | src/fluid2d/marching/eq/euler/flux_scheme.rs:10-17 | "Roe_FDS" gives the Roe flux; every other name is the failure |
| `Coordinate.CalcMetricesDx` | src/fluid2d/coordinate.rs:13-59 | ixs, iys, jxs, jys hold the central-difference metrics on [0, NI-2NB+2) x [0, NJ-2NB+2); s holds the vertex areas on [0, NI-1) x [0, NJ-1); dx holds sqrt of the nearest squared neighbour distance on [0, NI-2NB) x [0, NJ-2NB); every other entry keeps its value |
| `Coordinate.CalcMetrices` | src/fluid2d/coordinate.rs:18-25 | the metric arrays hold MetricsAt on their used region and nothing else changes |
| `Coordinate.MetricsRow` | src/fluid2d/coordinate.rs:19-24 | row i of the metric arrays holds MetricsAt and every other entry keeps its value |
| `Coordinate.MetricsOf` | src/fluid2d/coordinate.rs:20-23 | the four stencil values are MetricsAt of the grid at (i, j) |
| `Coordinate.CalcArea` | src/fluid2d/coordinate.rs:29-33 | s holds AreaAt on [0, NI-1) x [0, NJ-1) and keeps every other entry |
| `Coordinate.CalcDx` | src/fluid2d/coordinate.rs:39-58 | dx holds sqrt(DxSquared) on [0, NI-2NB) x [0, NJ-2NB) and keeps every other entry |
| `Coordinate.DxRow` | src/fluid2d/coordinate.rs:40-57 | row i of dx holds sqrt(DxSquared) and nothing else changes |
| `Coordinate.DxOf` | src/fluid2d/coordinate.rs:41-55 | the three successive min updates give DxSquared, the minimum of the four squared neighbour distances |
| `Coordinate.CartesianMetrics` | src/fluid2d/coordinate.rs:20-23 | on a Cartesian grid with spacings hx, hy the metrics are (hy, 0, 0, hx) |
| `Coordinate.CartesianArea` | src/fluid2d/coordinate.rs:31 | on a Cartesian grid every vertex area is hx hy |
| `Coordinate.AreaIsShoelace` | src/fluid2d/coordinate.rs:31 | half the cross product of the diagonals is the shoelace area of the quadrilateral (i..i+1, j..j+1) |
| `Coordinate.MetricsTranslation` | src/fluid2d/coordinate.rs:20-23 | translating the grid changes no metric |
| `Coordinate.MetricIdentity` | src/fluid2d/coordinate.rs:20-23 | the central differences of (ixs, jxs) and of (iys, jys) cancel: the discrete geometric conservation law |
| `Coordinate.DxIsNearest` | src/fluid2d/coordinate.rs:41-56 | dx >= 0, dx^2 = DxSquared, and dx is at most the distance to each of the four neighbours |
| `Coordinate.DxAttained` | src/fluid2d/coordinate.rs:41-55 | DxSquared is the squared distance to one of the four neighbours |
| `Coordinate.Input` | src/fluid2d/coordinate.rs:62-79 | with the corrected decoding `DecodeLine` (rows of NJ, see Findings), line LineOf(k, i, j) goes to x (k = 0) or y (k = 1) at (i, j); a line past the two channels is the failure, and unread slots keep their values |
| `BasicVar.LineOfInjective` | src/fluid2d/basic_var.rs:42-61 | two slots of the output layout share a line only if they are the same slot |
| `BasicVar.DivDiv` | src/fluid2d/basic_var.rs:20 | n / NI / NJ = n / (NI NJ) |
| `BasicVar.DecodeAsWritten` | src/fluid2d/basic_var.rs:20-23 | the decoding as written recomposes n with row length NI: c NI NJ + i NI + j = n, j < NI |
| `BasicVar.DecodeLine` | src/fluid2d/basic_var.rs:20-23 | the decoding with row length NJ inverts the layout: LineOf(c, i, j) = n, i < NI, j < NJ |
| `BasicVar.DecodeLineOf` | src/fluid2d/basic_var.rs:42-45 | DecodeLine of the line output writes for (c, i, j) is (c, i, j) |
| `BasicVar.DecodeAsWrittenSquare` | src/fluid2d/basic_var.rs:22-23 | for NI = NJ the decoding as written agrees with DecodeLine |
| `BasicVar.DecodeAsWrittenMisplaces` | src/fluid2d/basic_var.rs:22-23 | for NI != NJ some rho value is read back into a different slot |
| `BasicVar.DecodeAsWrittenExample` | src/fluid2d/basic_var.rs:22-25 | NI = 2, NJ = 3: line 2 holds rho(0, 2) but is decoded to (0, 1, 0) |
| `BasicVar.DecodeAsWrittenOutOfRange` | src/fluid2d/basic_var.rs:22-25 | NI = 2, NJ = 3: line 4 holds rho(1, 1) but is decoded to row 2, past the last row |
| `BasicVar.Load` | src/fluid2d/basic_var.rs:14-33 | the line loop with the corrected decoding: line n goes to the slot `DecodeLine` gives (rows of NJ, where the source uses rows of NI, see Findings); a line past the channels is the failure; slots of unread lines keep their values |
| `BasicVar.Input` | src/fluid2d/basic_var.rs:14-33 | with the corrected decoding, rho, u, v, e at (i, j) hold line LineOf(c, i, j) when it exists, so `Input` reads back what `Output` writes; more than 4 NI NJ lines is the failure |
| `BasicVar.Output` | src/fluid2d/basic_var.rs:42-61 | 4 NI NJ lines, and line LineOf(c, i, j) holds channel c at (i, j) |
| `BasicVar.WriteChannel` | src/fluid2d/basic_var.rs:42-46 | one double loop appends NI NJ lines and keeps every written slot on its line |
| `BasicVar.Hms` | src/fluid2d/basic_var.rs:64-73 | 3600 h + 60 m + s = t with m < 60 and s < 60 (for cpu_time and for rest_time) |
| `BasicVar.HmsUnique` | src/fluid2d/basic_var.rs:64-73 | that split is the only one with minutes and seconds below 60 |
| `Bc.ParseBc` | src/fluid2d/marching/bc.rs:11-14 | a boundary type is selected exactly for "periodical_in_i" |
| `Bc.ReflectBc` | src/fluid2d/marching/bc.rs:10-15 | "periodical_in_i" applies the periodic copy to the basic state; every other name is the failure with nothing changed |
| `Bc.BcPeriodicalInI` | src/fluid2d/marching/bc.rs:17-39 | every row r of the four fields takes the old row SourceRow(r): the sequential in-place copy, j-boundaries untouched |
| `Bc.CopyLowRows` | src/fluid2d/marching/bc.rs:21-28 | row i < NB takes old row NI-2NB+i; rows from NB up keep their values |
| `Bc.CopyHighRows` | src/fluid2d/marching/bc.rs:30-37 | row NI-NB+i takes row NB+i as the loop finds it, which is the original row SourceRow(NI-NB+i) (rows at or above NB are not touched by the first loop); rows below NI-NB keep their values |
| `Bc.CopyRow` | src/fluid2d/marching/bc.rs:22-27 | row dst of the four fields takes row src; every other row is unchanged |
| `Bc.SourceRow` | src/fluid2d/marching/bc.rs:21-37 | with NI >= 2NB every row is filled from a row in range |
| `Bc.PeriodicI` | src/fluid2d/marching/bc.rs:17-39 | row r of the result is old row SourceRow(r) |
| `Bc.InteriorKept` | src/fluid2d/marching/bc.rs:21-38 | rows NB .. NI-NB-1 are not touched |
| `Bc.HighRowSource` | src/fluid2d/marching/bc.rs:30-37 | row NI-NB+i ends with the contents of row NB+i after the first loop |
| `Bc.HighRowsFromBelow` | src/fluid2d/marching/bc.rs:30-37 | a high ghost row is filled from a row at or above NB |
| `Bc.FilledFromInterior` | src/fluid2d/marching/bc.rs:21-37 | with NI >= 3NB every ghost row is filled from an interior row |
| `Bc.Periodic` | src/fluid2d/marching/bc.rs:17-39 | with NI >= 3NB, rows r and r + NI - 2NB hold the same contents |
| `Bc.Idempotent` | src/fluid2d/marching/bc.rs:17-39 | with NI >= 3NB a second copy changes nothing |
| `Bc.SmallGridExample` | src/fluid2d/marching/bc.rs:21-28 | for NI = 5, NB = 2, ghost row 0 receives ghost row 1, so with NI < 3NB ghost rows are copied from ghost rows |
| `Eq.ParseRecon` | src/fluid2d/marching/eq.rs:52-80 | "MUSCL_minmod_basic" and "MP5_basic" select their reconstructions; every other name is the failure |
| `Eq.FluxI` | src/fluid2d/marching/eq.rs:32-82 | the i-interface flux has NF components; its requires admit every interface of the sweep, and all its stencil reads are in bounds, once NB >= 2 (MUSCL) or NB >= 3 (MP5) |
| `Eq.FluxJ` | src/fluid2d/marching/eq.rs:91-141 | the j-interface flux has NF components; its requires admit every interface of the sweep, and all its stencil reads are in bounds, once NB >= 2 (MUSCL) or NB >= 3 (MP5) |
| `Eq.FluxFieldI` | src/fluid2d/marching/eq.rs:30-84 | arr_fi holds FluxI at every i-interface of [0, NI-2NB+1) x [0, NJ-2NB) |
| `Eq.FluxFieldJ` | src/fluid2d/marching/eq.rs:89-143 | arr_fj holds FluxJ at every j-interface of [0, NI-2NB) x [0, NJ-2NB+1) |
| `Eq.Balance` | src/fluid2d/marching/eq.rs:147-155 | each interior cell gets inflow through its low faces minus outflow through its high faces |
| `Eq.RhsIsBalance` | src/fluid2d/marching/eq.rs:147-155 | the right-hand side at every interior cell is the balance of the two flux fields |
| `Eq.CalcRhs` | src/fluid2d/marching/eq.rs:24-156 | with known names, arr_fi, arr_fj and arr_q hold the fluxes and the right-hand side of the current state on their used regions, and everything else keeps its value; an unknown name is the failure with nothing written |
| `Eq.CalcRhsWith` | src/fluid2d/marching/eq.rs:28-155 | the two sweeps and the differencing of the state b on grid g, with the same regions |
| `Eq.FillFluxI` | src/fluid2d/marching/eq.rs:30-84 | arr_fi holds the i-interface fluxes of (b, g) and keeps every entry outside [0, NI-2NB+1) x [0, NJ-2NB) |
| `Eq.FillFluxJ` | src/fluid2d/marching/eq.rs:89-143 | arr_fj holds the j-interface fluxes of (b, g) and keeps every entry outside [0, NI-2NB) x [0, NJ-2NB+1) |
| `Eq.SweepI` | src/fluid2d/marching/eq.rs:30-84 | the i loop nest writes the flux field f on its region and nothing else |
| `Eq.SweepJ` | src/fluid2d/marching/eq.rs:89-143 | the j loop nest writes the flux field f on its region and nothing else |
| `Eq.InterfaceI` | src/fluid2d/marching/eq.rs:32-82 | the loop body at i-interface (i, j) computes the flux FluxI |
| `Eq.InterfaceJ` | src/fluid2d/marching/eq.rs:91-141 | the loop body at j-interface (i, j) computes the flux FluxJ |
| `Eq.GeometryI` | src/fluid2d/marching/eq.rs:35-40 | s_a is the mean of the two vertex areas on the interface, (ixs_a, iys_a) the mean of the metrics of the two cell points beside it |
| `Eq.GeometryJ` | src/fluid2d/marching/eq.rs:94-101 | the same for the j-interface with (jxs_a, jys_a) |
| `Eq.StatesI` | src/fluid2d/marching/eq.rs:52-80 | the left and right states of the selected reconstruction on the i-stencil |
| `Eq.StatesJ` | src/fluid2d/marching/eq.rs:111-139 | the left and right states of the selected reconstruction on the j-stencil |
| `Eq.CellsIUnfold` | src/fluid2d/marching/eq.rs:53-78 | the i-stencil is cells NB+i-2 .. NB+i+1 (MUSCL) or NB+i-3 .. NB+i+2 (MP5) of column NB+j |
| `Eq.CellsJUnfold` | src/fluid2d/marching/eq.rs:112-137 | the j-stencil is cells NB+j-2 .. NB+j+1 (MUSCL) or NB+j-3 .. NB+j+2 (MP5) of row NB+i |
| `Eq.FluxIOf` | src/fluid2d/marching/eq.rs:82 | the i-interface flux is the Roe flux of its reconstructed states with its averaged metrics and area |
| `Eq.FluxJOf` | src/fluid2d/marching/eq.rs:141 | the j-interface flux is the Roe flux of its reconstructed states with its averaged metrics and area |
| `Eq.Differences` | src/fluid2d/marching/eq.rs:147-155 | arr_q = fi[i] - fi[i+1] + fj[j] - fj[j+1] on the interior, every other entry unchanged |
| `Eq.DifferencesRow` | src/fluid2d/marching/eq.rs:148-154 | one row of the differencing, everything else unchanged |
| `Eq.DifferencesCell` | src/fluid2d/marching/eq.rs:149-153 | the NF components of one cell, everything else unchanged |
| `Eq.RowTelescope` | src/fluid2d/marching/eq.rs:150-152 | along row i, the first n balances sum to the i-fluxes through the row's low faces minus those through its high faces, plus fj[i][0] - fj[i][n] |
| `Eq.Telescope` | src/fluid2d/marching/eq.rs:147-155 | summed over the first m rows, the balances leave only the boundary-interface fluxes |
| `Eq.Conservation` | src/fluid2d/marching/eq.rs:147-155 | summed over the whole interior, the balances equal the flux in through the low i- and j-boundary faces minus the flux out through the high ones: discrete conservation |
| `Eq.UniformFluxI` | src/fluid2d/marching/eq.rs:30-84 | a uniform state with constant metrics has the physical flux at every i-interface |
| `Eq.UniformFluxJ` | src/fluid2d/marching/eq.rs:89-143 | a uniform state with constant metrics has the physical flux at every j-interface |
| `Eq.FreeStream` | src/fluid2d/marching/eq.rs:147-155 | for a uniform state on constant metrics every i-flux and every j-flux is the physical flux calc_flux_conv of that cell, and the right-hand side is zero everywhere |
| `Eq.CartesianFreeStream` | src/fluid2d/marching/eq.rs:147-155 | on a Cartesian grid whose metrics calc_metrices_dx computed, a uniform state has a zero right-hand side |
| `Eq.ReadsFilledRegions` | src/fluid2d/marching/eq.rs:35-101 | every flux depends on the grid only inside the regions calc_metrices_dx writes: two grids agreeing there give the same fluxes |
| `Eq.FaceIAgrees` | src/fluid2d/marching/eq.rs:35-40 | the same for one i-interface |
| `Eq.FaceJAgrees` | src/fluid2d/marching/eq.rs:94-101 | the same for one j-interface |
| `Eq.GridIAgrees` | src/fluid2d/marching/eq.rs:35-40 | grids that agree on the filled regions give an i-interface the same averaged area and metrics |
| `Eq.GridJAgrees` | src/fluid2d/marching/eq.rs:94-101 | grids that agree on the filled regions give a j-interface the same averaged area and metrics |
| `Marching.CellBound` | src/fluid2d/marching.rs:24-25 | dx / (cs + sqrt(u^2 + v^2)) exists exactly when the wave speed is non-zero |
| `Marching.Bounds` | src/fluid2d/marching.rs:22-28 | the grid of bounds holds CellBound of every interior cell |
| `Marching.RowNuIsMinimum` | src/fluid2d/marching.rs:23-27 | one row pass ends at most its start and at most every bound of the row, and on the start or on one of the bounds |
| `Marching.GridNuIsMinimum` | src/fluid2d/marching.rs:21-28 | nu is at most 1e10 and at most every interior bound, and is 1e10 or one of them: the minimum |
| `Marching.CflNuBounds` | src/fluid2d/marching.rs:21-29 | calc_cfl's nu is at most 1e10 and at most each finite cell bound |
| `Marching.CflCondition` | src/fluid2d/marching.rs:24-29 | for cfl_coeff >= 0, dt <= 1e10 cfl_coeff, and dt w <= cfl_coeff dx in every cell with wave speed w > 0 |
| `Marching.TimeStepLinear` | src/fluid2d/marching.rs:29 | dt is linear in cfl_coeff |
| `Marching.CalcCfl` | src/fluid2d/marching.rs:20-30 | dt is cfl_coeff times the minimum of 1e10 and every interior bound, for the current arrays |
| `Marching.CflGrid` | src/fluid2d/marching.rs:21-28 | the two loops compute the nu of the interior |
| `Marching.CflLoops` | src/fluid2d/marching.rs:22-28 | the outer loop folds the rows of bounds |
| `Marching.CflRow` | src/fluid2d/marching.rs:23-27 | the inner loop folds one row with nu.min |
| `Marching.ZeroRhsKeepsStage` | src/fluid2d/marching.rs:47-73 | with a zero right-hand side every stage reproduces its start: each coefficient pair sums to 1 |
| `Marching.StagesAreConvex` | src/fluid2d/marching.rs:60-73 | stages 2 and 3 are convex combinations, bounded by q0 and the forward Euler step |
| `Marching.ThirdOrderOnLinear` | src/fluid2d/marching.rs:43-79 | on q' = lam q one step multiplies q0 by 1 + z + z^2/2 + z^3/6 with z = lam dt |
| `Marching.ZeroRhsKeepsField` | src/fluid2d/marching.rs:47-73 | with a zero right-hand side a whole stage from q0 gives q0 |
| `Marching.ConservedOf` | src/fluid2d/marching.rs:36-41 | entry (i, j) is calc_conservative of basic cell (NB+i, NB+j) with the mean of its four vertex areas |
| `Marching.WithInterior` | src/fluid2d/marching.rs:44-52 | a stage loop writes only the interior cells, each with calc_basic of its stage value over the same s_a; ghost cells keep their values |
| `Marching.ConversionRoundTrip` | src/fluid2d/marching.rs:38-50 | with non-zero densities and areas, converting to conserved variables and back with the same s_a is the identity |
| `Marching.PeriodicUniform` | src/fluid2d/marching.rs:53 | the periodic copy leaves a uniform state as it is |
| `Marching.RhsField` | src/fluid2d/marching.rs:43 | the right-hand side calc_rhs writes, for every interior cell |
| `Marching.RhsUnique` | src/fluid2d/marching.rs:43 | the right-hand side is a function of the state and the grid |
| `Marching.Advance` | src/fluid2d/marching.rs:44-53 | a stage value converted into the interior and then the periodic copy gives a state of the same shape |
| `Marching.Ssprk3` | src/fluid2d/marching.rs:34-80 | every stage of the step has the interior or full-grid shape the arrays have |
| `Marching.StepIsSsprk3` | src/fluid2d/marching.rs:34-80 | Ssprk3 of b0 is a run of the three stages, and every run of them from b0 is Ssprk3 of b0 |
| `Marching.FixedPoint` | src/fluid2d/marching.rs:43-79 | a state with a zero right-hand side that the conversion round trip keeps is left unchanged by the step, conserved variables included |
| `Marching.UniformRhsZero` | src/fluid2d/marching.rs:43 | a uniform state on a grid with constant metrics has a zero right-hand side |
| `Marching.UniformIsSteady` | src/fluid2d/marching.rs:34-80 | a step from a uniform state with non-zero density, on constant metrics and non-zero areas, returns that state exactly |
| `Marching.Conserve` | src/fluid2d/marching.rs:36-41 | arr_q0 holds ConservedOf of the basic state on the interior; every other entry keeps its value |
| `Marching.ConserveRow` | src/fluid2d/marching.rs:37-40 | one row of that loop, everything else unchanged |
| `Marching.ConserveCell` | src/fluid2d/marching.rs:38-39 | one cell of that loop, everything else unchanged |
| `Marching.ConservedCellOf` | src/fluid2d/marching.rs:38-39 | the value computed for one cell is its ConservedOf entry |
| `Marching.RhsStage` | src/fluid2d/marching.rs:43 | calc_rhs writes the right-hand side of the current state into arr_q1 or arr_q2 and changes neither the state nor the grid |
| `Marching.RunStage` | src/fluid2d/marching.rs:44-53 | one stage: its right-hand side, stage value and new basic state are those Ssprk3 prescribes |
| `Marching.StepStage` | src/fluid2d/marching.rs:44-53 | the stage update into its array, calc_basic into the interior, then reflect_bc |
| `Marching.UpdateStage` | src/fluid2d/marching.rs:44-52 | the stage array holds StageField; basic holds WithInterior of it |
| `Marching.StageLoop` | src/fluid2d/marching.rs:44-52 | the two stage loops write the stage values and their cells and nothing else |
| `Marching.UpdateRow` | src/fluid2d/marching.rs:45-51 | one row of a stage, everything else unchanged |
| `Marching.UpdateCell` | src/fluid2d/marching.rs:46-50 | one cell of a stage: its NF stage values and its basic cell |
| `Marching.StoreStage` | src/fluid2d/marching.rs:46-48 | the NF updates stage 1 q0 + dt r, stage 2 3/4 q0 + 1/4 (q1 + dt r), stage 3 q0 / 3 + 2/3 (q2 + dt r) |
| `Marching.MarchSsprk3` | src/fluid2d/marching.rs:34-80 | with known names the basic state ends as the final state of the three-stage run from b0 (Ssprk3 of b0 by StepIsSsprk3); an unknown name is the failure with nothing written |
| `Marching.RunSteps` | src/fluid2d/marching.rs:42-79 | the three stages, with the boundary copy after each, form a run from b0 |

## Left out

- File and console I/O are not modelled. This covers opening, reading and writing files,
  `parse::<f64>`, `format!`/`write!` text layout and stdout. `Input`, `Output` and
  `Coordinate.Input` take or return the sequence of values that the lines hold.
- src/fluid2d/settings.rs, src/main.rs (the outer time loop, the timers, the static
  state) and `IdealGas::initialize` are not part of this model.
- IEEE-754 behaviour is not modelled: rounding, NaN and infinity. A division by zero
  yields 0 in `F64.Div`. Every identity that divides is stated under non-zero
  hypotheses.
- In `calc_cfl`, a cell with wave speed 0 gives an infinity or NaN quotient that
  `f64::min` passes over. It is modelled as a cell without a bound (`None`).
- The values of `sqrt` are left out beyond `sqrt(x) >= 0` and `sqrt(x)^2 = x` for
  `x >= 0`.
- Asymptotic properties are not stated: orders of accuracy, TVD/SSP stability in norm,
  and conservation up to round-off. Only the exact algebra behind them is proved:
  Taylor agreement on the linear equation, convex stages, exact telescoping and exact
  derivatives of polynomials.
- A `panic!` on an unknown scheme or boundary name is modelled as `ok == false` (or
  `None`) with nothing written. The source in `march_ssprk3` writes `arr_q0` and one
  stage before it reaches an unknown boundary name. The process then ends, so that
  partial state is not modelled.
- The methods require what the source's indexing needs:
  - a non-empty interior (`SizesOk`: NI > 2NB and NJ > 2NB);
  - NB >= 2 for MUSCL and NB >= 3 for MP5 (`StencilOk`);
  - NB >= 1 for the `s_a` reads of `march_ssprk3`.

  `SizesOk`'s bound is strict. The source also accepts the empty-interior grids
  NI = 2NB or NJ = 2NB. There the differencing, stage and `calc_cfl` loops do nothing,
  and `calc_cfl` keeps 1e10. `calc_rhs` writes only `arr_fi` when NI = 2NB and only
  `arr_fj` when NJ = 2NB. When both hold, an unknown reconstruction or flux name
  raises no panic. These grids are not modelled. With still smaller sizes the
  source's `usize` index arithmetic underflows or goes out of bounds and panics.
- The boundary condition is only the periodic copy in i, which is all the source has.
  The j-boundaries are Dirichlet: they are left as they are, and nothing is written
  for them.
- CalcFluxConv (Conserved.CalcFluxConv): its contract states only the length. The
  component values are stated on `Conserved.FluxWithPressure`, which it applies at
  `p = calc_p`, and are used through `FluxZeroNormal` and `RoeFdsConsistent`.
- MarchSsprk3 (Marching.MarchSsprk3): does not state the final contents of the scratch
  arrays `arr_q1` and `arr_q2`, nor the final `arr_q0`. It states the final basic
  state, the run of stages and the failure case.
- RunStage (Marching.RunStage): does not state that the right-hand-side array still
  holds `r` after the stage; later stages do not read it.
- BasicVar.Load, BasicVar.Input, Coordinate.Input: model the corrected decoding
  `DecodeLine` (rows of NJ). The source decodes with rows of NI
  (basic_var.rs:22-23, coordinate.rs:70-71). So for NI != NJ, the misplaced values
  and the out-of-bounds panic are not captured by these three. The as-written decoding
  is `BasicVar.DecodeAsWritten`, and its misplacement and out-of-range row are
  proved there (see Findings).
- Eq.FluxI and Eq.FluxJ: their own contracts state the length. Their values are given
  by `FluxIOf`/`FluxJOf` and the lemmas about them.

## Findings

| source | as written | input that shows it | evidently intended | confidence | as-written member | corrected member |
|---|---|---|---|---|---|---|
| src/fluid2d/basic_var.rs:22-23 | `input` decodes line n with row length NI: i = sub / NI, j = sub - NI i. `output` writes with row length NJ (the inner loop runs over j < NJ). The same decoding appears in src/fluid2d/coordinate.rs:70-71 | NI = 2, NJ = 3: line 2 holds rho(0, 2) but is read into rho(1, 0); line 4 holds rho(1, 1) but is read into row 2, past the last row (a panic) | i = sub / NJ, j = sub - NJ i, which inverts the layout of `output` for every shape | not executed | `BasicVar.DecodeAsWritten` (with `DecodeAsWrittenMisplaces`, `DecodeAsWrittenExample`, `DecodeAsWrittenOutOfRange`) | `BasicVar.DecodeLine` (with `DecodeLineOf`, used by `BasicVar.Load`, `BasicVar.Input` and `Coordinate.Input`) |
