/** Distances of every cell centre from the four edges of the domain, from prefix sums of the physical
    spacing distributed over the ranks. */
module BoundaryDistances {
  import opened Decomposition
  import opened HaloFaces
  import opened HaloExchange
  import opened Sums

  // ----- Serial distances along one line -----

  /** From the low end of the line to the centre of cell `at`. */
  function FromLow(w: int -> real, at: int): real { Sum(w, 0, at) + 0.5 * w(at) }

  /** From the centre of cell `at` to the high end of a line of n cells. */
  function FromHigh(w: int -> real, n: int, at: int): real { 0.5 * w(at) + Sum(w, at + 1, n) }

  /** The distances from both ends add up to the length of the line. */
  lemma EndsAddUp(w: int -> real, n: int, at: int)
    requires 0 <= at < n
    ensures FromLow(w, at) + FromHigh(w, n, at) == Sum(w, 0, n)
  {
    SumSplits(w, 0, at, n);
    SumSplits(w, at, at + 1, n);
    assert Sum(w, at, at + 1) == w(at);
  }

  // ----- Distributed prefixes -----

  /** The contribution of the block at a place. */
  function Part(g: Layout, a: Axis, w: int -> real, place: nat): real {
    Sum(w, First(g, a, place), First(g, a, place) + Size(g, a, place))
  }

  function Parts(g: Layout, a: Axis, w: int -> real): nat -> real { (place: nat) => Part(g, a, w, place) }

  /** What an exclusive scan gives a place, and, for the number of ranks, what an all-reduce gives. */
  function Scan(g: Layout, a: Axis, w: int -> real, place: nat): real {
    if place == 0 then 0.0 else Scan(g, a, w, place - 1) + Part(g, a, w, place - 1)
  }

  /** The scan at a place is the serial prefix up to its first cell, the full one the line's total. */
  lemma {:induction false} ScanIsPrefix(g: Layout, a: Axis, w: int -> real, place: nat)
    requires Tiled(SplitOf(g, a)) && place <= Ranks(g, a)
    ensures Scan(g, a, w, place) == Sum(w, 0, SplitOf(g, a)[place])
    decreases place
  {
    if place > 0 {
      ScanIsPrefix(g, a, w, place - 1);
      SumSplits(w, 0, SplitOf(g, a)[place - 1], SplitOf(g, a)[place]);
    }
  }

  // ----- Gathered packets -----

  /** The sum of v over the listed coordinates on my line of ranks whose place is below `hi`. */
  function Collected(order: seq<Coord>, a: Axis, line: nat, hi: nat, v: nat -> real): real {
    if order == [] then 0.0 else
      var c := order[|order| - 1];
      Collected(order[..|order| - 1], a, line, hi, v) +
        (if Place(c, Other(a)) == line && Place(c, a) < hi then v(Place(c, a)) else 0.0)
  }

  predicate Distinct(order: seq<Coord>) { forall m, n :: 0 <= m < n < |order| ==> order[m] != order[n] }

  /** The rank at a place of a line of ranks. */
  function RankOn(a: Axis, line: nat, place: nat): Coord { if a == X then Coord(line, place) else Coord(place, line) }

  lemma {:induction false} CollectedGrows(order: seq<Coord>, a: Axis, line: nat, hi: nat, v: nat -> real)
    requires Distinct(order)
    ensures Collected(order, a, line, hi + 1, v) ==
      Collected(order, a, line, hi, v) + (if RankOn(a, line, hi) in order then v(hi) else 0.0)
    decreases |order|
  {
    if order != [] {
      var n := |order| - 1;
      CollectedGrows(order[..n], a, line, hi, v);
      assert order == order[..n] + [order[n]];
    }
  }

  lemma {:induction false} CollectedNone(order: seq<Coord>, a: Axis, line: nat, v: nat -> real)
    ensures Collected(order, a, line, 0, v) == 0.0
    decreases |order|
  {
    if order != [] {
      CollectedNone(order[..|order| - 1], a, line, v);
    }
  }

  /** Whatever the order of the gathered packets, adding those of my line below a place gives the
      scan. */
  lemma {:induction false} CollectedIsScan(g: Layout, order: seq<Coord>, a: Axis, line: nat, hi: nat, w: int -> real)
    requires Distinct(order) && (forall c :: InGrid(g, c) ==> c in order) && line < Ranks(g, Other(a))
      && hi <= Ranks(g, a)
    ensures Collected(order, a, line, hi, Parts(g, a, w)) == Scan(g, a, w, hi)
    decreases hi
  {
    var v := Parts(g, a, w);
    if hi == 0 {
      CollectedNone(order, a, line, v);
    } else {
      CollectedIsScan(g, order, a, line, hi - 1, w);
      CollectedGrows(order, a, line, hi - 1, v);
      assert InGrid(g, RankOn(a, line, hi - 1));
    }
  }

  // ----- The rank's own sums -----

  /** Column i of a global field. */
  function Column(w: (int, int) -> real, i: int): int -> real { (j: int) => w(j, i) }

  /** The physical cells of a field hold the widths of the global cells from (j0, i0). */
  ghost predicate Holds(field: array2<real>, h: nat, ny: nat, nx: nat, w: (int, int) -> real, j0: int, i0: int)
    reads field
  {
    && field.Length0 == ny + 2 * h && field.Length1 == nx + 2 * h
    && forall j, i :: h <= j < h + ny && h <= i < h + nx ==> field[j, i] == w(j0 + (j - h), i0 + (i - h))
  }

  /** Adds row j to its own total and to the column totals. */
  method AddRow(x: array2<real>, y: array2<real>, h: nat, ny: nat, nx: nat, j: nat, row: array<real>,
      column: array<real>, ghost wx: (int, int) -> real, ghost wy: (int, int) -> real, ghost j0: int, ghost i0: int)
    requires Holds(x, h, ny, nx, wx, j0, i0) && Holds(y, h, ny, nx, wy, j0, i0)
    requires row != column && row.Length == ny && column.Length == nx && j < ny && row[j] == 0.0
    modifies row, column
    ensures row[j] == Sum(Row(wx, j0 + j), i0, i0 + nx)
      && forall j' :: 0 <= j' < ny && j' != j ==> row[j'] == old(row[j'])
    ensures forall i :: 0 <= i < nx ==> column[i] == old(column[i]) + wy(j0 + j, i0 + i)
  {
    for i := 0 to nx
      invariant row[j] == Sum(Row(wx, j0 + j), i0, i0 + i)
        && forall j' :: 0 <= j' < ny && j' != j ==> row[j'] == old(row[j'])
      invariant forall i' :: 0 <= i' < i ==> column[i'] == old(column[i']) + wy(j0 + j, i0 + i')
      invariant forall i' :: i <= i' < nx ==> column[i'] == old(column[i'])
    {
      assert x[j + h, i + h] == wx(j0 + j, i0 + i) && y[j + h, i + h] == wy(j0 + j, i0 + i);
      row[j] := row[j] + x[j + h, i + h];
      column[i] := column[i] + y[j + h, i + h];
      assert Sum(Row(wx, j0 + j), i0, i0 + i + 1) == Sum(Row(wx, j0 + j), i0, i0 + i) + wx(j0 + j, i0 + i);
    }
  }

  method Totals(x: array2<real>, y: array2<real>, h: nat, ny: nat, nx: nat, ghost wx: (int, int) -> real,
      ghost wy: (int, int) -> real, ghost j0: int, ghost i0: int)
    returns (row: array<real>, column: array<real>)
    requires Holds(x, h, ny, nx, wx, j0, i0) && Holds(y, h, ny, nx, wy, j0, i0)
    ensures fresh(row) && fresh(column) && row != column && row.Length == ny && column.Length == nx
    ensures forall j :: 0 <= j < ny ==> row[j] == Sum(Row(wx, j0 + j), i0, i0 + nx)
    ensures forall i :: 0 <= i < nx ==> column[i] == Sum(Column(wy, i0 + i), j0, j0 + ny)
  {
    row, column := new real[ny](_ => 0.0), new real[nx](_ => 0.0);
    for j := 0 to ny
      invariant forall j' :: 0 <= j' < j ==> row[j'] == Sum(Row(wx, j0 + j'), i0, i0 + nx)
      invariant forall j' :: j <= j' < ny ==> row[j'] == 0.0
      invariant forall i :: 0 <= i < nx ==> column[i] == Sum(Column(wy, i0 + i), j0, j0 + j)
    {
      AddRow(x, y, h, ny, nx, j, row, column, wx, wy, j0, i0);
    }
  }

  // ----- Offsets and totals from the other ranks -----

  /** The q-th line of cells along an axis that crosses a rank's block. */
  function LineOf(g: Layout, a: Axis, c: Coord, w: (int, int) -> real, q: int): int -> real {
    if a == X then Row(w, First(g, Y, c.y) + q) else Column(w, First(g, X, c.x) + q)
  }

  /** The values of a rank for the lines of its block. */
  ghost predicate PartsOf(g: Layout, a: Axis, c: Coord, w: (int, int) -> real, values: seq<real>) {
    && |values| == SizeAt(g, Other(a), c)
    && forall q :: 0 <= q < |values| ==> values[q] == Part(g, a, LineOf(g, a, c, w, q), Place(c, a))
  }

  /** The packet of a rank: its coordinates, its row sums padded to `rows` entries, its column sums. */
  ghost predicate IsPacket(g: Layout, wx: (int, int) -> real, wy: (int, int) -> real, c: Coord, rows: nat,
      packet: seq<real>)
  {
    && SizeAt(g, Y, c) <= rows && 2 + rows + SizeAt(g, X, c) <= |packet|
    && packet[0] == c.y as real && packet[1] == c.x as real
    && PartsOf(g, X, c, wx, packet[2..2 + SizeAt(g, Y, c)])
    && PartsOf(g, Y, c, wy, packet[2 + rows..2 + rows + SizeAt(g, X, c)])
  }

  /** The sums along an axis for the lines of a rank's block: over all ranks and over those before. */
  class LineSums {
    const total: array<real>
    const offset: array<real>

    ghost predicate Valid(n: nat) { total.Length == offset.Length == n && total != offset }

    constructor (n: nat)
      ensures Valid(n) && fresh(total) && fresh(offset)
      ensures forall q :: 0 <= q < n ==> total[q] == offset[q] == 0.0
    {
      total, offset := new real[n](_ => 0.0), new real[n](_ => 0.0);
    }

    /** The packets of the listed ranks are added up. */
    ghost predicate Collects(g: Layout, a: Axis, me: Coord, w: (int, int) -> real, order: seq<Coord>)
      requires total.Length == offset.Length
      reads total, offset
    {
      forall q :: 0 <= q < total.Length ==>
        && total[q] == Collected(order, a, Place(me, Other(a)), Ranks(g, a), Parts(g, a, LineOf(g, a, me, w, q)))
        && offset[q] == Collected(order, a, Place(me, Other(a)), Place(me, a), Parts(g, a, LineOf(g, a, me, w, q)))
    }

    method AddValues(values: seq<real>, below: bool)
      requires Valid(|values|)
      modifies total, offset
      ensures forall q :: 0 <= q < |values| ==>
                total[q] == old(total[q]) + values[q] && offset[q] == old(offset[q]) + if below then values[q] else 0.0
    {
      for q := 0 to |values|
        invariant forall q' :: q <= q' < |values| ==> total[q'] == old(total[q']) && offset[q'] == old(offset[q'])
        invariant forall q' :: 0 <= q' < q ==>
                    && total[q'] == old(total[q']) + values[q']
                    && offset[q'] == old(offset[q']) + if below then values[q'] else 0.0
      {
        total[q] := total[q] + values[q];
        if below { offset[q] := offset[q] + values[q]; }
      }
    }

    /** Adds the values of a rank on my line, to the offsets too if it is before me. */
    method Add(g: Layout, a: Axis, me: Coord, values: seq<real>, below: bool, ghost c: Coord, ghost order: seq<Coord>,
        ghost w: (int, int) -> real)
      requires Valid(SizeAt(g, Other(a), me)) && InGrid(g, c) && PartsOf(g, a, c, w, values)
        && Collects(g, a, me, w, order)
      requires Place(c, Other(a)) == Place(me, Other(a)) && below == (Place(c, a) < Place(me, a))
      modifies total, offset
      ensures Collects(g, a, me, w, order + [c])
    {
      assert (order + [c])[..|order|] == order;
      AddValues(values, below);
    }

    lemma CollectsNone(g: Layout, a: Axis, me: Coord, w: (int, int) -> real)
      requires total.Length == offset.Length && forall q :: 0 <= q < total.Length ==> total[q] == offset[q] == 0.0
      ensures Collects(g, a, me, w, [])
    {
    }

    lemma Skip(g: Layout, a: Axis, me: Coord, c: Coord, order: seq<Coord>, w: (int, int) -> real)
      requires total.Length == offset.Length && Collects(g, a, me, w, order)
        && Place(c, Other(a)) != Place(me, Other(a))
      ensures Collects(g, a, me, w, order + [c])
    {
      assert (order + [c])[..|order|] == order;
    }

    lemma CollectsScan(g: Layout, a: Axis, me: Coord, order: seq<Coord>, w: (int, int) -> real)
      requires total.Length == offset.Length && Collects(g, a, me, w, order) && InGrid(g, me)
      requires Distinct(order) && forall c :: InGrid(g, c) ==> c in order
      ensures Scanned(g, a, me, w)
    {
      forall q | 0 <= q < total.Length
        ensures total[q] == Scan(g, a, LineOf(g, a, me, w, q), Ranks(g, a))
          && offset[q] == Scan(g, a, LineOf(g, a, me, w, q), Place(me, a))
      {
        CollectedIsScan(g, order, a, Place(me, Other(a)), Ranks(g, a), LineOf(g, a, me, w, q));
        CollectedIsScan(g, order, a, Place(me, Other(a)), Place(me, a), LineOf(g, a, me, w, q));
      }
    }

    /** Totals as an all-reduce, offsets as an exclusive scan along the axis would give them. */
    ghost predicate Scanned(g: Layout, a: Axis, me: Coord, w: (int, int) -> real)
      requires total.Length == offset.Length
      reads total, offset
    {
      forall q :: 0 <= q < total.Length ==>
        total[q] == Scan(g, a, LineOf(g, a, me, w, q), Ranks(g, a))
          && offset[q] == Scan(g, a, LineOf(g, a, me, w, q), Place(me, a))
    }

    /** Totals and offsets of the whole global lines. */
    ghost predicate Serial(g: Layout, a: Axis, me: Coord, w: (int, int) -> real)
      requires total.Length == offset.Length
      reads total, offset
    {
      forall q :: 0 <= q < total.Length ==>
        total[q] == Sum(LineOf(g, a, me, w, q), 0, Points(g, a))
          && offset[q] == Sum(LineOf(g, a, me, w, q), 0, First(g, a, Place(me, a)))
    }

    /** The distributed sums are the serial ones. */
    lemma ScannedIsSerial(g: Layout, a: Axis, me: Coord, w: (int, int) -> real)
      requires total.Length == offset.Length && ValidAxis(g, a) && InGrid(g, me) && Scanned(g, a, me, w)
      ensures Serial(g, a, me, w)
    {
      forall q | 0 <= q < total.Length
        ensures total[q] == Sum(LineOf(g, a, me, w, q), 0, Points(g, a))
          && offset[q] == Sum(LineOf(g, a, me, w, q), 0, First(g, a, Place(me, a)))
      {
        ScanIsPrefix(g, a, LineOf(g, a, me, w, q), Place(me, a));
        ScanIsPrefix(g, a, LineOf(g, a, me, w, q), Ranks(g, a));
      }
    }
  }

  function Packet(gathered: seq<real>, size: nat, m: nat): seq<real> {
    if m * size + size <= |gathered| then gathered[m * size..m * size + size] else []
  }

  /** The ranks of the process grid in some order, each once. */
  ghost predicate Lists(g: Layout, order: seq<Coord>) {
    Distinct(order) && forall c :: InGrid(g, c) <==> c in order
  }

  ghost predicate Gathers(g: Layout, wx: (int, int) -> real, wy: (int, int) -> real, order: seq<Coord>, rows: nat,
      gathered: seq<real>, size: nat)
  {
    |gathered| == |order| * size
      && forall m :: 0 <= m < |order| ==> IsPacket(g, wx, wy, order[m], rows, Packet(gathered, size, m))
  }

  lemma PacketThere(gathered: seq<real>, size: nat, m: nat, n: nat)
    requires |gathered| == n * size && m * size < n * size
    ensures m < n && m * size + size <= |gathered| && (m + 1) * size == m * size + size
    ensures Packet(gathered, size, m) == gathered[m * size..m * size + size]
  {
    MulStep(n, m, size);
    MulStep(m, n, size);
  }

  lemma PrefixSnoc<T>(s: seq<T>, m: nat)
    requires m < |s|
    ensures s[..m] + [s[m]] == s[..m + 1]
  {
  }

  lemma PacketsEnd(size: nat, m: nat, n: nat)
    requires size > 0 && m <= n && m * size >= n * size
    ensures m == n
  {
    MulStep(m, n, size);
  }

  method AddPacket(g: Layout, me: Coord, packet: seq<real>, rows: nat, row: LineSums, column: LineSums,
                   ghost c: Coord, ghost order: seq<Coord>, ghost wx: (int, int) -> real, ghost wy: (int, int) -> real)
    requires InGrid(g, me) && InGrid(g, c) && IsPacket(g, wx, wy, c, rows, packet)
    requires row.Valid(SizeAt(g, Y, me)) && column.Valid(SizeAt(g, X, me))
      && {row.total, row.offset} !! {column.total, column.offset}
    requires row.Collects(g, X, me, wx, order) && column.Collects(g, Y, me, wy, order)
    modifies row.total, row.offset, column.total, column.offset
    ensures row.Collects(g, X, me, wx, order + [c]) && column.Collects(g, Y, me, wy, order + [c])
  {
    var processJ, processI := packet[0].Floor, packet[1].Floor;
    if processJ == me.y {
      row.Add(g, X, me, packet[2..2 + SizeAt(g, Y, me)], processI < me.x, c, order, wx);
    } else {
      row.Skip(g, X, me, c, order, wx);
    }
    if processI == me.x {
      column.Add(g, Y, me, packet[2 + rows..2 + rows + SizeAt(g, X, me)], processJ < me.y, c, order, wy);
    } else {
      column.Skip(g, Y, me, c, order, wy);
    }
  }

  /** Both sums hold the packets of the first m ranks listed. */
  ghost predicate BothCollect(g: Layout, me: Coord, row: LineSums, column: LineSums, wx: (int, int) -> real,
      wy: (int, int) -> real, order: seq<Coord>, m: nat)
    requires m <= |order|
    reads row.total, row.offset, column.total, column.offset
  {
    && row.Valid(SizeAt(g, Y, me)) && column.Valid(SizeAt(g, X, me))
      && {row.total, row.offset} !! {column.total, column.offset}
    && row.Collects(g, X, me, wx, order[..m]) && column.Collects(g, Y, me, wy, order[..m])
  }

  method AddNext(g: Layout, me: Coord, gathered: seq<real>, offset: nat, size: nat, rows: nat, row: LineSums,
      column: LineSums, ghost m: nat, ghost order: seq<Coord>, ghost wx: (int, int) -> real,
      ghost wy: (int, int) -> real)
    requires InGrid(g, me) && Lists(g, order) && Gathers(g, wx, wy, order, rows, gathered, size)
    requires m <= |order| && offset == m * size && offset < |gathered|
      && BothCollect(g, me, row, column, wx, wy, order, m)
    modifies row.total, row.offset, column.total, column.offset
    ensures m < |order| && offset + size == (m + 1) * size && BothCollect(g, me, row, column, wx, wy, order, m + 1)
  {
    PacketThere(gathered, size, m, |order|);
    PrefixSnoc(order, m);
    AddPacket(g, me, gathered[offset..offset + size], rows, row, column, order[m], order[..m], wx, wy);
  }

  /** The gathered form: every rank's packet, in any order of the ranks, gives the same offsets and
      totals as the exclusive scan and the all-reduce along the process rows and columns. */
  method FromPackets(g: Layout, me: Coord, gathered: seq<real>, size: nat, rows: nat, ghost order: seq<Coord>,
      ghost wx: (int, int) -> real, ghost wy: (int, int) -> real)
    returns (row: LineSums, column: LineSums)
    requires InGrid(g, me) && size > 0 && Lists(g, order) && Gathers(g, wx, wy, order, rows, gathered, size)
    ensures fresh(row) && fresh(column) && row.Valid(SizeAt(g, Y, me)) && column.Valid(SizeAt(g, X, me))
    ensures row.Scanned(g, X, me, wx) && column.Scanned(g, Y, me, wy)
  {
    row := new LineSums(SizeAt(g, Y, me));
    column := new LineSums(SizeAt(g, X, me));
    row.CollectsNone(g, X, me, wx);
    column.CollectsNone(g, Y, me, wy);
    var offset := 0;
    ghost var m := 0;
    assert order[..0] == [];
    while offset < |gathered|
      invariant m <= |order| && offset == m * size && BothCollect(g, me, row, column, wx, wy, order, m)
    {
      AddNext(g, me, gathered, offset, size, rows, row, column, m, order, wx, wy);
      offset := offset + size;
      m := m + 1;
    }
    PacketsEnd(size, m, |order|);
    assert order[..m] == order;
    row.CollectsScan(g, X, me, order, wx);
    column.CollectsScan(g, Y, me, order, wy);
  }

  /** The MPI form: the results of MPI_Exscan and MPI_Allreduce along one line of ranks.  The scan is
      undefined on the first rank, which uses zero instead. */
  method FromScans(g: Layout, a: Axis, me: Coord, scanned: seq<real>, reduced: seq<real>, ghost w: (int, int) -> real)
      returns (sums: LineSums)
    requires |scanned| == |reduced| == SizeAt(g, Other(a), me)
    requires forall q :: 0 <= q < |reduced| ==> reduced[q] == Scan(g, a, LineOf(g, a, me, w, q), Ranks(g, a))
    requires Place(me, a) > 0 ==> forall q :: 0 <= q < |scanned| ==>
                                    scanned[q] == Scan(g, a, LineOf(g, a, me, w, q), Place(me, a))
    ensures fresh(sums) && fresh(sums.total) && fresh(sums.offset) && sums.Valid(SizeAt(g, Other(a), me))
      && sums.Scanned(g, a, me, w)
  {
    sums := new LineSums(SizeAt(g, Other(a), me));
    for q := 0 to |reduced|
      invariant forall q' :: 0 <= q' < q ==>
                  && sums.total[q'] == reduced[q']
                  && sums.offset[q'] == if Place(me, a) == 0 then 0.0 else scanned[q']
    {
      sums.total[q] := reduced[q];
      sums.offset[q] := if Place(me, a) == 0 then 0.0 else scanned[q];
    }
  }

  lemma BlockEnds(g: Layout, a: Axis, place: nat)
    requires ValidAxis(g, a) && place < Ranks(g, a)
    ensures First(g, a, place) + Size(g, a, place) <= Points(g, a)
  {
  }

  // ----- From widths to distances -----

  /** The cells first..first+n of a line of the field along the axis are inside it. */
  predicate LineInside(a: Axis, field: array2<real>, line: int, first: nat, n: nat) {
    if a == X then 0 <= line < field.Length0 && first + n <= field.Length1
      else 0 <= line < field.Length1 && first + n <= field.Length0
  }

  /** A line of the field holds the widths of cells from i0 of a global line. */
  ghost predicate LineHolds(a: Axis, field: array2<real>, line: int, first: nat, n: nat, w: int -> real, i0: int)
    requires LineInside(a, field, line, first, n)
    reads field
  {
    if a == X then forall i :: first <= i < first + n ==> field[line, i] == w(i0 + (i - first))
    else forall i :: first <= i < first + n ==> field[i, line] == w(i0 + (i - first))
  }

  /** Line h + q of the field is inside it and holds widths. */
  ghost predicate LineReady(a: Axis, field: array2<real>, h: nat, q: int, n: nat, w: int -> real, i0: int)
    reads field
  {
    LineInside(a, field, h + q, h, n) && LineHolds(a, field, h + q, h, n, w, i0)
  }

  /** A line of both fields holds the distances of cells from i0 of a global line of `points` cells. */
  ghost predicate LineDone(a: Axis, low: array2<real>, high: array2<real>, line: int, first: nat, n: nat,
      w: int -> real, i0: int, points: int)
    requires LineInside(a, low, line, first, n) && LineInside(a, high, line, first, n)
    reads low, high
  {
    if a == X
      then forall i :: first <= i < first + n ==>
             low[line, i] == FromLow(w, i0 + (i - first)) && high[line, i] == FromHigh(w, points, i0 + (i - first))
    else forall i :: first <= i < first + n ==>
           low[i, line] == FromLow(w, i0 + (i - first)) && high[i, line] == FromHigh(w, points, i0 + (i - first))
  }

  ghost predicate LineFinished(a: Axis, low: array2<real>, high: array2<real>, h: nat, q: int, n: nat, w: int -> real,
      i0: int, points: int)
    reads low, high
  {
    LineInside(a, low, h + q, h, n) && LineInside(a, high, h + q, h, n)
      && LineDone(a, low, high, h + q, h, n, w, i0, points)
  }

  /** One line: the running prefix gives the low distance, the total less it the high one. */
  method WestAndEast(x: array2<real>, xe: array2<real>, line: int, first: nat, n: nat, offset: real, total: real,
      ghost w: int -> real, ghost i0: int, ghost points: int)
    requires x != xe && x.Length0 == xe.Length0 && x.Length1 == xe.Length1 && LineInside(X, x, line, first, n)
    requires LineHolds(X, x, line, first, n, w, i0)
    requires 0 <= i0 && i0 + n <= points && offset == Sum(w, 0, i0) && total == Sum(w, 0, points)
    modifies x, xe
    ensures LineDone(X, x, xe, line, first, n, w, i0, points)
    ensures forall j, i :: 0 <= j < x.Length0 && 0 <= i < x.Length1 && j != line ==>
              x[j, i] == old(x[j, i]) && xe[j, i] == old(xe[j, i])
  {
    var prefix := offset;
    for p := first to first + n
      invariant prefix == Sum(w, 0, i0 + (p - first))
      invariant LineDone(X, x, xe, line, first, p - first, w, i0, points)
      invariant forall p' :: p <= p' < first + n ==> x[line, p'] == w(i0 + (p' - first))
      invariant forall j, i :: 0 <= j < x.Length0 && 0 <= i < x.Length1 && j != line ==>
                  x[j, i] == old(x[j, i]) && xe[j, i] == old(xe[j, i])
    {
      var width := x[line, p];
      x[line, p] := prefix + 0.5 * width;
      xe[line, p] := total - x[line, p];
      EndsAddUp(w, points, i0 + (p - first));
      prefix := prefix + width;
    }
  }

  method DistancesAlongX(h: nat, lines: nat, n: nat, x: array2<real>, xe: array2<real>, sums: LineSums,
      ghost w: int -> (int -> real), ghost first: int, ghost points: int)
    requires x != xe && x.Length0 == xe.Length0 && x.Length1 == xe.Length1
    requires forall q :: 0 <= q < lines ==> LineReady(X, x, h, q, n, w(q), first)
    requires sums.Valid(lines) && 0 <= first && first + n <= points
    requires forall q :: 0 <= q < lines ==>
               sums.offset[q] == Sum(w(q), 0, first) && sums.total[q] == Sum(w(q), 0, points)
    modifies x, xe
    ensures forall q :: 0 <= q < lines ==> LineFinished(X, x, xe, h, q, n, w(q), first, points)
  {
    for q := 0 to lines
      invariant forall q' :: 0 <= q' < q ==> LineFinished(X, x, xe, h, q', n, w(q'), first, points)
      invariant forall q' :: q <= q' < lines ==> LineReady(X, x, h, q', n, w(q'), first)
    {
      WestAndEast(x, xe, h + q, h, n, sums.offset[q], sums.total[q], w(q), first, points);
    }
  }

  /** One line: the running prefix gives the low distance, the total less it the high one. */
  method SouthAndNorth(y: array2<real>, yn: array2<real>, line: int, first: nat, n: nat, offset: real, total: real,
      ghost w: int -> real, ghost i0: int, ghost points: int)
    requires y != yn && y.Length0 == yn.Length0 && y.Length1 == yn.Length1 && LineInside(Y, y, line, first, n)
    requires LineHolds(Y, y, line, first, n, w, i0)
    requires 0 <= i0 && i0 + n <= points && offset == Sum(w, 0, i0) && total == Sum(w, 0, points)
    modifies y, yn
    ensures LineDone(Y, y, yn, line, first, n, w, i0, points)
    ensures forall j, i :: 0 <= j < y.Length0 && 0 <= i < y.Length1 && i != line ==>
              y[j, i] == old(y[j, i]) && yn[j, i] == old(yn[j, i])
  {
    var prefix := offset;
    for p := first to first + n
      invariant prefix == Sum(w, 0, i0 + (p - first))
      invariant LineDone(Y, y, yn, line, first, p - first, w, i0, points)
      invariant forall p' :: p <= p' < first + n ==> y[p', line] == w(i0 + (p' - first))
      invariant forall j, i :: 0 <= j < y.Length0 && 0 <= i < y.Length1 && i != line ==>
                  y[j, i] == old(y[j, i]) && yn[j, i] == old(yn[j, i])
    {
      var width := y[p, line];
      y[p, line] := prefix + 0.5 * width;
      yn[p, line] := total - y[p, line];
      EndsAddUp(w, points, i0 + (p - first));
      prefix := prefix + width;
    }
  }

  method DistancesAlongY(h: nat, lines: nat, n: nat, y: array2<real>, yn: array2<real>, sums: LineSums,
      ghost w: int -> (int -> real), ghost first: int, ghost points: int)
    requires y != yn && y.Length0 == yn.Length0 && y.Length1 == yn.Length1
    requires forall q :: 0 <= q < lines ==> LineReady(Y, y, h, q, n, w(q), first)
    requires sums.Valid(lines) && 0 <= first && first + n <= points
    requires forall q :: 0 <= q < lines ==>
               sums.offset[q] == Sum(w(q), 0, first) && sums.total[q] == Sum(w(q), 0, points)
    modifies y, yn
    ensures forall q :: 0 <= q < lines ==> LineFinished(Y, y, yn, h, q, n, w(q), first, points)
  {
    for q := 0 to lines
      invariant forall q' :: 0 <= q' < q ==> LineFinished(Y, y, yn, h, q', n, w(q'), first, points)
      invariant forall q' :: q <= q' < lines ==> LineReady(Y, y, h, q', n, w(q'), first)
    {
      SouthAndNorth(y, yn, h + q, h, n, sums.offset[q], sums.total[q], w(q), first, points);
    }
  }

  /** The lines of a rank's block. */
  function LinesOf(g: Layout, a: Axis, c: Coord, w: (int, int) -> real): int -> (int -> real) {
    (q: int) => LineOf(g, a, c, w, q)
  }

  lemma LineHeld(g: Layout, a: Axis, me: Coord, field: array2<real>, w: (int, int) -> real, q: int)
    requires Holds(field, g.h, SizeAt(g, Y, me), SizeAt(g, X, me), w, First(g, Y, me.y), First(g, X, me.x))
      && 0 <= q < SizeAt(g, Other(a), me)
    ensures LineReady(a, field, g.h, q, SizeAt(g, a, me), LineOf(g, a, me, w, q), First(g, a, Place(me, a)))
  {
    var line := g.h + q;
    if a == X {
      forall i | g.h <= i < g.h + SizeAt(g, X, me)
        ensures field[line, i] == LineOf(g, X, me, w, q)(First(g, X, me.x) + (i - g.h))
      {
        assert field[line, i] == w(First(g, Y, me.y) + (line - g.h), First(g, X, me.x) + (i - g.h));
      }
    } else {
      forall j | g.h <= j < g.h + SizeAt(g, Y, me)
        ensures field[j, line] == LineOf(g, Y, me, w, q)(First(g, Y, me.y) + (j - g.h))
      {
        assert field[j, line] == w(First(g, Y, me.y) + (j - g.h), First(g, X, me.x) + (line - g.h));
      }
    }
  }

  /** The four fields of a rank. */
  method AlongAxis(g: Layout, a: Axis, me: Coord, low: array2<real>, high: array2<real>, sums: LineSums,
      ghost w: (int, int) -> real)
    requires ValidAxis(g, a) && InGrid(g, me) && low != high && low.Length0 == high.Length0
      && low.Length1 == high.Length1
    requires Holds(low, g.h, SizeAt(g, Y, me), SizeAt(g, X, me), w, First(g, Y, me.y), First(g, X, me.x))
    requires sums.Valid(SizeAt(g, Other(a), me)) && sums.Scanned(g, a, me, w)
    modifies low, high
    ensures forall q :: 0 <= q < SizeAt(g, Other(a), me) ==>
              LineFinished(a, low, high, g.h, q, SizeAt(g, a, me), LineOf(g, a, me, w, q), First(g, a, Place(me, a)),
                Points(g, a))
  {
    ghost var first, points, lines := First(g, a, Place(me, a)), Points(g, a), LinesOf(g, a, me, w);
    sums.ScannedIsSerial(g, a, me, w);
    BlockEnds(g, a, Place(me, a));
    forall q | 0 <= q < SizeAt(g, Other(a), me)
      ensures LineReady(a, low, g.h, q, SizeAt(g, a, me), lines(q), first)
    {
      LineHeld(g, a, me, low, w, q);
    }
    if a == X {
      DistancesAlongX(g.h, SizeAt(g, Y, me), SizeAt(g, X, me), low, high, sums, lines, first, points);
    } else {
      DistancesAlongY(g.h, SizeAt(g, X, me), SizeAt(g, Y, me), low, high, sums, lines, first, points);
    }
  }

  /** The packet has room for every rank: no block of the split is longer than the rounded-up share. */
  lemma PaddingSuffices(n: Pos, p: Pos, c: nat)
    requires c < p
    ensures SizeOf(n, p, c) <= (n + p - 1) / p
  {
    var base, rem := n / p, n % p;
    assert n == base * p + rem;
    if rem > 0 {
      assert n + p - 1 == (base + 1) * p + (rem - 1);
      DivMod(base + 1, rem - 1, p);
    } else {
      DivMod(base, p - 1, p);
    }
  }
}
