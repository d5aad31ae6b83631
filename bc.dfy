/** The boundary condition (src/fluid2d/marching/bc.rs): the periodic copy of the ghost
    rows of the basic variables in the i-direction, and its dispatch by name.

    The copy is in place and sequential: the NB low ghost rows first, then the NB high
    ghost rows, each read row taken in its current state.  `SourceRow` says which old
    row ends up in each row; when NI >= 3 NB it is always an interior row, so the copy
    is periodic and idempotent (lemmas below). */
module Bc {
  import opened Fluid2d
  import BasicVar

  /** the periodic boundary types the solver knows */
  datatype BcType = PeriodicalInI

  /** the match of reflect_bc; None is its panic */
  function ParseBc(name: string): (r: Option<BcType>)
    ensures r.Some? <==> name == "periodical_in_i"
  {
    if name == "periodical_in_i" then Some(PeriodicalInI) else None
  }

  /** The old row whose contents row r holds after bc_periodical_in_i: a low ghost row
      r < NB gets row NI-2NB+r; a high ghost row NI-NB+i gets row NB+i, which the
      sequential copy has itself already overwritten when NB+i >= NI-NB, so the source
      is NB + i mod (NI-2NB); the interior rows keep their own contents. */
  function SourceRow(ni: nat, nb: nat, r: nat): (s: nat)
    requires ni >= 2 * nb && r < ni
    ensures s < ni
  {
    if r < nb then ni - 2 * nb + r
    else if r < ni - nb then r
    else if ni == 2 * nb then r
    else nb + (r - (ni - nb)) % (ni - 2 * nb)
  }

  /** one field after bc_periodical_in_i */
  function PeriodicI(f: Field, ni: nat, nb: nat): (g: Field)
    requires |f| == ni && ni >= 2 * nb
    ensures |g| == ni && forall r :: 0 <= r < ni ==> g[r] == f[SourceRow(ni, nb, r)]
  {
    seq(ni, r requires 0 <= r < ni => f[SourceRow(ni, nb, r)])
  }

  /** the basic state after bc_periodical_in_i */
  function PeriodicBasic(b: BasicField, ni: nat, nb: nat): BasicField
    requires |b.rho| == ni && |b.u| == ni && |b.v| == ni && |b.e| == ni && ni >= 2 * nb
  {
    BasicField(PeriodicI(b.rho, ni, nb), PeriodicI(b.u, ni, nb), PeriodicI(b.v, ni, nb), PeriodicI(b.e, ni, nb))
  }

  // ---------------------------------------------------------------------------
  // properties of the row map

  /** The interior rows NB .. NI-NB-1 are not touched. */
  lemma InteriorKept(ni: nat, nb: nat, r: nat)
    requires ni >= 2 * nb && nb <= r < ni - nb
    ensures SourceRow(ni, nb, r) == r
  {
  }

  /** With NI >= 3 NB every ghost row is filled from an interior row. */
  lemma FilledFromInterior(ni: nat, nb: nat, r: nat)
    requires ni >= 3 * nb && r < ni
    ensures nb <= SourceRow(ni, nb, r) < ni - nb
  {
  }

  /** With NI >= 3 NB the result is periodic with period NI - 2NB: rows r and r + NI - 2NB
      come from the same old row. */
  lemma Periodic(ni: nat, nb: nat, r: nat)
    requires ni >= 3 * nb && r + (ni - 2 * nb) < ni
    ensures SourceRow(ni, nb, r) == SourceRow(ni, nb, r + (ni - 2 * nb))
  {
    var p := ni - 2 * nb;
    if r >= nb {
      assert r + p >= ni - nb && r + p - (ni - nb) == r - nb < p;
      BasicVar.DivUnique(r - nb, p, 0, r - nb);
    }
  }

  /** With NI >= 3 NB a second copy changes nothing. */
  lemma Idempotent(f: Field, ni: nat, nb: nat)
    requires |f| == ni && ni >= 3 * nb
    ensures PeriodicI(PeriodicI(f, ni, nb), ni, nb) == PeriodicI(f, ni, nb)
  {
    var g := PeriodicI(f, ni, nb);
    forall r | 0 <= r < ni
      ensures PeriodicI(g, ni, nb)[r] == g[r]
    {
      FilledFromInterior(ni, nb, r);
      InteriorKept(ni, nb, SourceRow(ni, nb, r));
    }
  }

  /** The row map of the sequential copy, at one step of the second loop: row NI-NB+i
      reads row NB+i, which already holds its final contents. */
  lemma HighRowSource(ni: nat, nb: nat, i: nat)
    requires ni >= 2 * nb && i < nb
    ensures SourceRow(ni, nb, ni - nb + i) == SourceRow(ni, nb, nb + i)
  {
    var p := ni - 2 * nb;
    if ni > 2 * nb && nb + i >= ni - nb {
      assert nb + i - (ni - nb) == i - p;
      ModShiftDown(i, p);
    }
  }

  lemma ModShiftDown(a: nat, p: nat)
    requires 0 < p <= a
    ensures (a - p) % p == a % p
  {
    var q, m := (a - p) / p, (a - p) % p;
    assert a - p == q * p + m && 0 <= m < p;
    assert a == (q + 1) * p + m;
    BasicVar.DivUnique(a, p, q + 1, m);
  }

  /** With NI < 3 NB the first loop copies a ghost row: for NI = 5, NB = 2 row 0 gets
      the old ghost row 1. */
  lemma SmallGridExample()
    ensures SourceRow(5, 2, 0) == 1 && 1 < 2
  {
  }

  // ---------------------------------------------------------------------------
  // the copy

  /** reflect_bc: the periodic copy for "periodical_in_i"; any other name is the
      source's panic (ok = false, nothing written) */
  method ReflectBc(name: string, b: BasicVarHD) returns (ok: bool)
    requires b.Valid() && b.ni >= 2 * b.nb
    modifies b.rho, b.u, b.v, b.e
    ensures ok <==> name == "periodical_in_i"
    ensures ok ==> b.Values() == PeriodicBasic(old(b.Values()), b.ni, b.nb)
    ensures !ok ==> b.Values() == old(b.Values())
  {
    match ParseBc(name)
    case None =>
      ok := false;
    case Some(PeriodicalInI) =>
      ghost var b0 := b.Values();
      BcPeriodicalInI(b);
      ghost var b1 := b.Values();
      FieldExt(b1.rho, PeriodicI(b0.rho, b.ni, b.nb), b.ni, b.nj);
      FieldExt(b1.u, PeriodicI(b0.u, b.ni, b.nb), b.ni, b.nj);
      FieldExt(b1.v, PeriodicI(b0.v, b.ni, b.nb), b.ni, b.nj);
      FieldExt(b1.e, PeriodicI(b0.e, b.ni, b.nb), b.ni, b.nj);
      ok := true;
  }

  /** bc_periodical_in_i */
  method BcPeriodicalInI(b: BasicVarHD)
    requires b.Valid() && b.ni >= 2 * b.nb
    modifies b.rho, b.u, b.v, b.e
    ensures forall r, q :: 0 <= r < b.ni && 0 <= q < b.nj ==>
      && b.rho[r, q] == old(b.rho[SourceRow(b.ni, b.nb, r), q])
      && b.u[r, q] == old(b.u[SourceRow(b.ni, b.nb, r), q])
      && b.v[r, q] == old(b.v[SourceRow(b.ni, b.nb, r), q])
      && b.e[r, q] == old(b.e[SourceRow(b.ni, b.nb, r), q])
  {
    CopyLowRows(b);
    CopyHighRows(b);
    forall r | b.ni - b.nb <= r < b.ni
      ensures b.nb <= SourceRow(b.ni, b.nb, r)
    {
      HighRowsFromBelow(b.ni, b.nb, r);
    }
  }

  /** A high ghost row is filled from a row at or above NB, which the first loop leaves alone. */
  lemma HighRowsFromBelow(ni: nat, nb: nat, r: nat)
    requires ni >= 2 * nb && ni - nb <= r < ni
    ensures nb <= SourceRow(ni, nb, r)
  {
  }

  /** the first loop of bc_periodical_in_i: the low ghost rows r < NB take rows NI-2NB+r */
  method CopyLowRows(b: BasicVarHD)
    requires b.Valid() && b.ni >= 2 * b.nb
    modifies b.rho, b.u, b.v, b.e
    ensures forall r, q :: 0 <= r < b.nb && 0 <= q < b.nj ==>
      && b.rho[r, q] == old(b.rho[b.ni - 2 * b.nb + r, q]) && b.u[r, q] == old(b.u[b.ni - 2 * b.nb + r, q])
      && b.v[r, q] == old(b.v[b.ni - 2 * b.nb + r, q]) && b.e[r, q] == old(b.e[b.ni - 2 * b.nb + r, q])
    ensures forall r, q :: b.nb <= r < b.ni && 0 <= q < b.nj ==>
      && b.rho[r, q] == old(b.rho[r, q]) && b.u[r, q] == old(b.u[r, q])
      && b.v[r, q] == old(b.v[r, q]) && b.e[r, q] == old(b.e[r, q])
  {
    var ni, nj, nb := b.ni, b.nj, b.nb;
    for i := 0 to nb
      invariant forall r, q :: 0 <= r < i && 0 <= q < nj ==>
        && b.rho[r, q] == old(b.rho[ni - 2 * nb + r, q]) && b.u[r, q] == old(b.u[ni - 2 * nb + r, q])
        && b.v[r, q] == old(b.v[ni - 2 * nb + r, q]) && b.e[r, q] == old(b.e[ni - 2 * nb + r, q])
      invariant forall r, q :: i <= r < ni && 0 <= q < nj ==>
        && b.rho[r, q] == old(b.rho[r, q]) && b.u[r, q] == old(b.u[r, q])
        && b.v[r, q] == old(b.v[r, q]) && b.e[r, q] == old(b.e[r, q])
    {
      CopyRow(b, i, ni - 2 * nb + i);
    }
  }

  /** the second loop of bc_periodical_in_i: the high ghost rows, each from the row the
      sequential copy has left in row NB+i; rows below NI-NB are not touched */
  method CopyHighRows(b: BasicVarHD)
    requires b.Valid() && b.ni >= 2 * b.nb
    modifies b.rho, b.u, b.v, b.e
    ensures forall r, q :: 0 <= r < b.ni && 0 <= q < b.nj ==>
      && b.rho[r, q] == old(b.rho[if r < b.ni - b.nb then r else SourceRow(b.ni, b.nb, r), q])
      && b.u[r, q] == old(b.u[if r < b.ni - b.nb then r else SourceRow(b.ni, b.nb, r), q])
      && b.v[r, q] == old(b.v[if r < b.ni - b.nb then r else SourceRow(b.ni, b.nb, r), q])
      && b.e[r, q] == old(b.e[if r < b.ni - b.nb then r else SourceRow(b.ni, b.nb, r), q])
  {
    var ni, nj, nb := b.ni, b.nj, b.nb;
    for i := 0 to nb
      invariant forall r, q :: ni - nb <= r < ni - nb + i && 0 <= q < nj ==>
        && b.rho[r, q] == old(b.rho[SourceRow(ni, nb, r), q]) && b.u[r, q] == old(b.u[SourceRow(ni, nb, r), q])
        && b.v[r, q] == old(b.v[SourceRow(ni, nb, r), q]) && b.e[r, q] == old(b.e[SourceRow(ni, nb, r), q])
      invariant forall r, q :: 0 <= r < ni && (r < ni - nb || ni - nb + i <= r) && 0 <= q < nj ==>
        && b.rho[r, q] == old(b.rho[r, q]) && b.u[r, q] == old(b.u[r, q])
        && b.v[r, q] == old(b.v[r, q]) && b.e[r, q] == old(b.e[r, q])
    {
      HighRowSource(ni, nb, i);
      CopyRow(b, ni - nb + i, nb + i);
    }
  }


  /** one pass of an outer loop of bc_periodical_in_i: row dst of the four fields takes
      the contents of row src */
  method CopyRow(b: BasicVarHD, dst: nat, src: nat)
    requires b.Valid() && dst < b.ni && src < b.ni
    modifies b.rho, b.u, b.v, b.e
    ensures forall q :: 0 <= q < b.nj ==>
      && b.rho[dst, q] == old(b.rho[src, q]) && b.u[dst, q] == old(b.u[src, q])
      && b.v[dst, q] == old(b.v[src, q]) && b.e[dst, q] == old(b.e[src, q])
    ensures forall p, q :: 0 <= p < b.ni && p != dst && 0 <= q < b.nj ==>
      && b.rho[p, q] == old(b.rho[p, q]) && b.u[p, q] == old(b.u[p, q])
      && b.v[p, q] == old(b.v[p, q]) && b.e[p, q] == old(b.e[p, q])
  {
    for j := 0 to b.nj
      invariant forall q :: 0 <= q < j ==>
        && b.rho[dst, q] == old(b.rho[src, q]) && b.u[dst, q] == old(b.u[src, q])
        && b.v[dst, q] == old(b.v[src, q]) && b.e[dst, q] == old(b.e[src, q])
      invariant forall p, q :: 0 <= p < b.ni && 0 <= q < b.nj && (p != dst || q >= j) ==>
        && b.rho[p, q] == old(b.rho[p, q]) && b.u[p, q] == old(b.u[p, q])
        && b.v[p, q] == old(b.v[p, q]) && b.e[p, q] == old(b.e[p, q])
    {
      CopyCell(b, dst, src, j);
    }
  }

  /** the four assignments of one inner pass: cell (dst, j) takes the values at (src, j) */
  method CopyCell(b: BasicVarHD, dst: nat, src: nat, j: nat)
    requires b.Valid() && dst < b.ni && src < b.ni && j < b.nj
    modifies b.rho, b.u, b.v, b.e
    ensures b.rho[dst, j] == old(b.rho[src, j]) && b.u[dst, j] == old(b.u[src, j])
    ensures b.v[dst, j] == old(b.v[src, j]) && b.e[dst, j] == old(b.e[src, j])
    ensures forall p, q :: 0 <= p < b.ni && 0 <= q < b.nj && (p != dst || q != j) ==>
      && b.rho[p, q] == old(b.rho[p, q]) && b.u[p, q] == old(b.u[p, q])
      && b.v[p, q] == old(b.v[p, q]) && b.e[p, q] == old(b.e[p, q])
  {
    b.rho[dst, j] := b.rho[src, j];
    b.u[dst, j] := b.u[src, j];
    b.v[dst, j] := b.v[src, j];
    b.e[dst, j] := b.e[src, j];
  }
}
