/** The integer arithmetic of the data files (src/fluid2d/basic_var.rs): the
    order in which `output` writes the four basic fields, the line decoding of
    `input`, and the h/m/s split of the elapsed and remaining times.

    A data file is one value per line.  `output` writes channel c (rho, u, v,
    e for c = 0 .. 3) of cell (i, j) on line c NI NJ + i NJ + j.  Text
    formatting and parsing are not modelled: a file is the sequence of the
    values on its lines. */
module BasicVar {
  import opened Fluid2d

  /** the line that output writes channel c of cell (i, j) on */
  function LineOf(ni: nat, nj: nat, c: nat, i: nat, j: nat): nat
  {
    c * ni * nj + i * nj + j
  }

  /** the number of lines that m channels fill */
  function Lines(ni: nat, nj: nat, m: nat): nat
  {
    m * ni * nj
  }

  /** Two slots of the layout share a line only if they are the same slot. */
  lemma LineOfInjective(ni: nat, nj: nat, c: nat, i: nat, j: nat, c': nat, i': nat, j': nat)
    requires i < ni && j < nj && i' < ni && j' < nj
    requires LineOf(ni, nj, c, i, j) == LineOf(ni, nj, c', i', j')
    ensures c == c' && i == i' && j == j'
  {
    RowMajorBound(ni, nj, i, j);
    RowMajorBound(ni, nj, i', j');
    LineOfSplit(ni, nj, c, i, j);
    LineOfSplit(ni, nj, c', i', j');
    QuotRemInjective(ni * nj, c, i * nj + j, c', i' * nj + j');
    QuotRemInjective(nj, i, j, i', j');
  }

  /** the line of a slot is its channel times the channel size plus its place in the channel */
  lemma LineOfSplit(ni: nat, nj: nat, c: nat, i: nat, j: nat)
    ensures LineOf(ni, nj, c, i, j) == c * (ni * nj) + (i * nj + j)
  {
    assert c * ni * nj == c * (ni * nj);
  }

  lemma QuotRemInjective(d: int, q: int, r: int, q': int, r': int)
    requires 0 <= r < d && 0 <= r' < d && q * d + r == q' * d + r'
    ensures q == q' && r == r'
  {
    DivUnique(q * d + r, d, q, r);
    DivUnique(q' * d + r', d, q', r');
  }

  /** i nj + j is below ni nj */
  lemma RowMajorBound(ni: nat, nj: nat, i: nat, j: nat)
    requires i < ni && j < nj
    ensures i * nj + j < ni * nj
  {
    MulMono(i + 1, ni, nj);
  }

  lemma MulMono(a: nat, b: nat, n: nat)
    requires a <= b
    ensures a * n <= b * n
  {
  }

  /** Division with remainder has one answer. */
  lemma DivUnique(n: int, d: int, q: int, r: int)
    requires 0 <= r < d && n == q * d + r
    ensures n / d == q && n % d == r
  {
    var q' := n / d;
    var r' := n % d;
    assert n == q' * d + r';
    assert (q - q') * d == r' - r;
    if q > q' {
      MulMono(1, q - q', d);
    } else if q < q' {
      MulMono(1, q' - q, d);
    }
  }

  /** Dividing by a and then by b is dividing by a b. */
  lemma DivDiv(n: nat, a: nat, b: nat)
    requires a > 0 && b > 0
    ensures n / a / b == n / (a * b)
  {
    var q := n / (a * b);
    var r := n % (a * b);
    assert n == q * (a * b) + r;
    var r1 := r / a;
    var r0 := r % a;
    assert r == r1 * a + r0;
    assert n == (q * b + r1) * a + r0;
    DivUnique(n, a, q * b + r1, r0);
    assert r1 < b by {
      if r1 >= b {
        MulMono(b, r1, a);
      }
    }
    DivUnique(q * b + r1, b, q, r1);
  }

  /** the slot (channel, i, j) that input assigns to line n, as written: the row
      length is taken to be NI */
  function DecodeAsWritten(ni: nat, nj: nat, n: nat): (slot: (nat, nat, nat))
    requires ni > 0 && nj > 0
    ensures slot.0 * ni * nj + slot.1 * ni + slot.2 == n && slot.2 < ni
  {
    DivDiv(n, ni, nj);
    var c := n / ni / nj;
    AsWrittenInRange(ni, nj, n, c);
    var sub := n - ni * nj * c;
    var i := sub / ni;
    var j := sub - ni * i;
    (c, i, j)
  }

  /** the intermediate values of DecodeAsWritten are in range and recompose n */
  lemma AsWrittenInRange(ni: nat, nj: nat, n: nat, c: nat)
    requires ni > 0 && nj > 0 && c == n / (ni * nj)
    ensures 0 <= n - ni * nj * c
    ensures var sub := n - ni * nj * c;
      0 <= sub - ni * (sub / ni) < ni && c * ni * nj + (sub / ni) * ni + (sub - ni * (sub / ni)) == n
  {
    var sub := n - ni * nj * c;
    assert n == c * (ni * nj) + n % (ni * nj);
    assert ni * nj * c == c * (ni * nj) == c * ni * nj;
    assert sub == n % (ni * nj) >= 0;
    assert sub == (sub / ni) * ni + sub % ni;
  }

  /** the slot that line n holds in the layout output writes: the row length is NJ */
  function DecodeLine(ni: nat, nj: nat, n: nat): (slot: (nat, nat, nat))
    requires ni > 0 && nj > 0
    ensures LineOf(ni, nj, slot.0, slot.1, slot.2) == n && slot.1 < ni && slot.2 < nj
  {
    DivDiv(n, ni, nj);
    var c := n / ni / nj;
    var sub := n - ni * nj * c;
    var i := sub / nj;
    var j := sub - nj * i;
    DecodeInRange(ni, nj, n, c, sub, i);
    (c, i, j)
  }

  lemma DecodeInRange(ni: nat, nj: nat, n: nat, c: nat, sub: int, i: int)
    requires ni > 0 && nj > 0
    requires c == n / (ni * nj) && sub == n - ni * nj * c && i == sub / nj
    ensures 0 <= sub < ni * nj && 0 <= i < ni
  {
    assert sub == n % (ni * nj);
    assert sub == i * nj + sub % nj;
    if i >= ni {
      MulMono(ni, i, nj);
    }
  }

  /** DecodeLine inverts the layout output writes. */
  lemma DecodeLineOf(ni: nat, nj: nat, c: nat, i: nat, j: nat)
    requires i < ni && j < nj
    ensures DecodeLine(ni, nj, LineOf(ni, nj, c, i, j)) == (c, i, j)
  {
    var s := DecodeLine(ni, nj, LineOf(ni, nj, c, i, j));
    LineOfInjective(ni, nj, s.0, s.1, s.2, c, i, j);
  }

  /** As written, input decodes the layout of output correctly when NI = NJ ... */
  lemma DecodeAsWrittenSquare(n: nat, ni: nat)
    requires ni > 0
    ensures DecodeAsWritten(ni, ni, n) == DecodeLine(ni, ni, n)
  {
  }

  /** ... and for no other shape: with NI != NJ some cell's value is read back into a
      different slot (or past the end of a row of the array). */
  lemma DecodeAsWrittenMisplaces(ni: nat, nj: nat)
    requires ni > 0 && nj > 0 && ni != nj
    ensures exists i: nat, j: nat :: i < ni && j < nj && DecodeAsWritten(ni, nj, LineOf(ni, nj, 0, i, j)) != (0, i, j)
  {
    if ni < nj {
      var s := DecodeAsWritten(ni, nj, LineOf(ni, nj, 0, 0, ni));
      assert LineOf(ni, nj, 0, 0, ni) == ni;
      assert s != (0, 0, ni);
    } else {
      var s := DecodeAsWritten(ni, nj, LineOf(ni, nj, 0, 1, 0));
      assert LineOf(ni, nj, 0, 1, 0) == nj;
      assert s != (0, 1, 0);
    }
  }

  /** The smallest case, NI = 2 and NJ = 3: line 2 holds rho at cell (0, 2) but input
      stores it at (1, 0) ... */
  lemma DecodeAsWrittenExample()
    ensures LineOf(2, 3, 0, 0, 2) == 2 && DecodeAsWritten(2, 3, 2) == (0, 1, 0)
  {
    var s := DecodeAsWritten(2, 3, 2);
    assert s.0 == 0;
    assert s.1 * 2 + s.2 == 2 && s.2 < 2;
  }

  /** ... and line 4 holds rho at (1, 1) but is decoded to row 2, past the last row. */
  lemma DecodeAsWrittenOutOfRange()
    ensures LineOf(2, 3, 0, 1, 1) == 4 && DecodeAsWritten(2, 3, 4) == (0, 2, 0)
  {
    var t := DecodeAsWritten(2, 3, 4);
    assert t.0 == 0;
    assert t.1 * 2 + t.2 == 4 && t.2 < 2;
  }

  /** the arrays a data file holds, in file order */
  function Channels(b: BasicVarHD): (chans: seq<array2<real>>)
    ensures |chans| == NF
  {
    [b.rho, b.u, b.v, b.e]
  }

  ghost predicate Distinct(chans: seq<array2<real>>)
  {
    forall c, c' :: 0 <= c < c' < |chans| ==> chans[c] != chans[c']
  }

  /** the line loop of input: line n goes to the slot DecodeLine gives for it, and a line
      past the last channel is input's panic (ok = false); the lines before it have been
      stored by then. */
  method Load(chans: seq<array2<real>>, ni: nat, nj: nat, vals: seq<real>) returns (ok: bool)
    requires ni > 0 && nj > 0 && Distinct(chans)
    requires forall c :: 0 <= c < |chans| ==> chans[c].Length0 == ni && chans[c].Length1 == nj
    modifies set c | 0 <= c < |chans| :: chans[c]
    ensures ok <==> |vals| <= Lines(ni, nj, |chans|)
    ensures forall c, i, j :: 0 <= c < |chans| && 0 <= i < ni && 0 <= j < nj ==>
      chans[c][i, j] == if LineOf(ni, nj, c, i, j) < |vals| then vals[LineOf(ni, nj, c, i, j)]
                        else old(chans[c][i, j])
  {
    ok := true;
    var n := 0;
    while n < |vals|
      invariant 0 <= n <= |vals| && n <= Lines(ni, nj, |chans|)
      invariant forall c, i, j :: 0 <= c < |chans| && 0 <= i < ni && 0 <= j < nj ==>
        chans[c][i, j] == if LineOf(ni, nj, c, i, j) < n then vals[LineOf(ni, nj, c, i, j)]
                          else old(chans[c][i, j])
    {
      var c := n / ni / nj;
      var sub := n - ni * nj * c;
      var i := sub / nj;
      var j := sub - nj * i;
      DecodeFacts(ni, nj, n, c, sub, i, j);
      LinesBelow(ni, nj, |chans|, n, c, i, j);
      if c >= |chans| {
        ok := false;
        RowsBelow(ni, nj, |chans|);
        return;
      }
      LinesBelow(ni, nj, c + 1, n, c, i, j);
      chans[c][i, j] := vals[n];
      forall c', i', j' | 0 <= c' < |chans| && 0 <= i' < ni && 0 <= j' < nj
        ensures LineOf(ni, nj, c', i', j') == n ==> c' == c && i' == i && j' == j
      {
        if LineOf(ni, nj, c', i', j') == n {
          LineOfInjective(ni, nj, c', i', j', c, i, j);
        }
      }
      n := n + 1;
    }
    RowsBelow(ni, nj, |chans|);
  }

  /** The lines of channels below m lie below line m NI NJ. */
  lemma LinesBelow(ni: nat, nj: nat, m: nat, n: nat, c: nat, i: nat, j: nat)
    requires i < ni && j < nj && LineOf(ni, nj, c, i, j) == n
    ensures c < m ==> n < Lines(ni, nj, m)
    ensures c >= m ==> n >= Lines(ni, nj, m)
  {
    RowMajorBound(ni, nj, i, j);
    LineOfSplit(ni, nj, c, i, j);
    assert Lines(ni, nj, m) == m * (ni * nj) by {
      assert m * ni * nj == m * (ni * nj);
    }
    if c < m {
      MulMono(c + 1, m, ni * nj);
      assert (c + 1) * (ni * nj) == c * (ni * nj) + ni * nj;
    } else {
      MulMono(m, c, ni * nj);
    }
  }

  /** the arithmetic of input's line decoding, with a row length of NJ */
  lemma DecodeFacts(ni: nat, nj: nat, n: nat, c: int, sub: int, i: int, j: int)
    requires ni > 0 && nj > 0
    requires c == n / ni / nj && sub == n - ni * nj * c && i == sub / nj && j == sub - nj * i
    ensures c >= 0 && 0 <= i < ni && 0 <= j < nj && LineOf(ni, nj, c, i, j) == n
    ensures DecodeLine(ni, nj, n) == (c, i, j)
  {
    DivDiv(n, ni, nj);
    DecodeInRange(ni, nj, n, c, sub, i);
  }

  lemma RowsBelow(ni: nat, nj: nat, m: nat)
    ensures forall c': nat, i': nat, j': nat :: c' < m && i' < ni && j' < nj ==> LineOf(ni, nj, c', i', j') < Lines(ni, nj, m)
  {
    forall c': nat, i': nat, j': nat | c' < m && i' < ni && j' < nj
      ensures LineOf(ni, nj, c', i', j') < Lines(ni, nj, m)
    {
      RowMajorBound(ni, nj, i', j');
      MulMono(c' + 1, m, ni * nj);
      assert m * ni * nj == m * (ni * nj);
    }
  }

  /** input: reads the four basic fields from the values of a data file */
  method Input(b: BasicVarHD, vals: seq<real>) returns (ok: bool)
    requires b.Valid() && b.ni > 0 && b.nj > 0
    modifies b.rho, b.u, b.v, b.e
    ensures ok <==> |vals| <= Lines(b.ni, b.nj, NF)
    ensures forall c, i, j :: 0 <= c < NF && 0 <= i < b.ni && 0 <= j < b.nj ==>
      Channels(b)[c][i, j] == if LineOf(b.ni, b.nj, c, i, j) < |vals| then vals[LineOf(b.ni, b.nj, c, i, j)]
                              else old(Channels(b)[c][i, j])
  {
    ok := Load(Channels(b), b.ni, b.nj, vals);
  }

  /** output: writes the four basic fields, channel by channel and row by row */
  method Output(b: BasicVarHD) returns (lines: seq<real>)
    requires b.Valid() && b.ni > 0 && b.nj > 0
    ensures |lines| == Lines(b.ni, b.nj, NF)
    ensures forall c, i, j :: 0 <= c < NF && 0 <= i < b.ni && 0 <= j < b.nj ==>
      LineOf(b.ni, b.nj, c, i, j) < |lines| && lines[LineOf(b.ni, b.nj, c, i, j)] == Channels(b)[c][i, j]
  {
    var chans := Channels(b);
    lines := [];
    for c := 0 to NF
      invariant |lines| == Lines(b.ni, b.nj, c)
      invariant Written(chans, b.ni, b.nj, lines)
    {
      lines := WriteChannel(chans, b.ni, b.nj, c, lines);
    }
    forall c, i, j | 0 <= c < NF && 0 <= i < b.ni && 0 <= j < b.nj
      ensures LineOf(b.ni, b.nj, c, i, j) < |lines| && lines[LineOf(b.ni, b.nj, c, i, j)] == chans[c][i, j]
    {
      LinesBelow(b.ni, b.nj, NF, LineOf(b.ni, b.nj, c, i, j), c, i, j);
      assert chans[c].Length0 == b.ni && chans[c].Length1 == b.nj;
      WrittenAt(chans, b.ni, b.nj, lines, c, i, j);
    }
  }

  /** every slot whose line has been written holds its value there */
  ghost predicate Written(chans: seq<array2<real>>, ni: nat, nj: nat, lines: seq<real>)
    reads set c | 0 <= c < |chans| :: chans[c]
  {
    forall c, i, j ::
      (0 <= c < |chans| && 0 <= i < ni && 0 <= j < nj && LineOf(ni, nj, c, i, j) < |lines|
       && i < chans[c].Length0 && j < chans[c].Length1) ==>
      lines[LineOf(ni, nj, c, i, j)] == chans[c][i, j]
  }

  lemma WrittenAt(chans: seq<array2<real>>, ni: nat, nj: nat, lines: seq<real>, c: nat, i: nat, j: nat)
    requires Written(chans, ni, nj, lines)
    requires c < |chans| && i < ni && j < nj && LineOf(ni, nj, c, i, j) < |lines|
    requires i < chans[c].Length0 && j < chans[c].Length1
    ensures lines[LineOf(ni, nj, c, i, j)] == chans[c][i, j]
  {
  }

  /** one of the four double loops of output */
  method WriteChannel(chans: seq<array2<real>>, ni: nat, nj: nat, c: nat, lines0: seq<real>)
    returns (lines: seq<real>)
    requires ni > 0 && nj > 0 && c < |chans| && chans[c].Length0 == ni && chans[c].Length1 == nj
    requires |lines0| == Lines(ni, nj, c) && Written(chans, ni, nj, lines0)
    ensures |lines| == Lines(ni, nj, c + 1) && Written(chans, ni, nj, lines)
  {
    lines := lines0;
    for i := 0 to ni
      invariant |lines| == LineOf(ni, nj, c, i, 0)
      invariant Written(chans, ni, nj, lines)
    {
      for j := 0 to nj
        invariant |lines| == LineOf(ni, nj, c, i, j)
        invariant Written(chans, ni, nj, lines)
      {
        ghost var n := |lines|;
        lines := lines + [chans[c][i, j]];
        forall c', i', j' | 0 <= c' < |chans| && 0 <= i' < ni && 0 <= j' < nj
          ensures LineOf(ni, nj, c', i', j') == n ==> c' == c && i' == i && j' == j
        {
          if LineOf(ni, nj, c', i', j') == n {
            LineOfInjective(ni, nj, c', i', j', c, i, j);
          }
        }
      }
      assert LineOf(ni, nj, c, i, nj) == LineOf(ni, nj, c, i + 1, 0);
    }
    assert LineOf(ni, nj, c, ni, 0) == Lines(ni, nj, c + 1);
  }

  /** the h/m/s split of output: hours, minutes below 60 and seconds below 60 */
  function Hms(t: nat): (hms: (nat, nat, nat))
    ensures 3600 * hms.0 + 60 * hms.1 + hms.2 == t && hms.1 < 60 && hms.2 < 60
  {
    var secs := 60;
    var h := t / secs / secs;
    var s := t - h * secs * secs;
    var m := s / secs;
    (h, m, s - m * secs)
  }

  /** The split is the only one with minutes and seconds below 60. */
  lemma HmsUnique(t: nat, h: nat, m: nat, s: nat)
    requires 3600 * h + 60 * m + s == t && m < 60 && s < 60
    ensures Hms(t) == (h, m, s)
  {
    var r := Hms(t);
    QuotRemInjective(3600, h, 60 * m + s, r.0, 60 * r.1 + r.2);
    QuotRemInjective(60, m, s, r.1, r.2);
  }
}
