/** The distances of a rank's cells from the four edges, from the widths it holds and what the collective
    of its transport returns. */
module DistributedDistances {
  import opened HaloFaces
  import opened HaloExchange
  import opened Sums
  import opened BoundaryDistances
  import opened LocalGrid

  // ----- Packets -----

  /** Entries a packet reserves for the lines of an axis: the rounded-up share of a rank. */
  function Share(n: Pos, p: Pos): nat { (n + p - 1) / p }

  /** A rank's own sums along an axis, line by line. */
  function OwnParts(g: Layout, a: Axis, c: Coord, w: (int, int) -> real): (parts: seq<real>)
    ensures PartsOf(g, a, c, w, parts)
  {
    seq(SizeAt(g, Other(a), c), (q: nat) => Part(g, a, LineOf(g, a, c, w, q), Place(c, a)))
  }

  function Padded(values: seq<real>, n: nat): seq<real> {
    values + seq(if |values| < n then n - |values| else 0, _ => 0.0)
  }

  /** The packet of a rank of a domain: coordinates, padded row sums, padded column sums. */
  function PacketOf(dom: Domain, dims: (Pos, Pos), wx: (int, int) -> real, wy: (int, int) -> real, c: Coord): seq<real>
  {
    var g := LayoutOf(dom, dims);
    [c.y as real, c.x as real] + Padded(OwnParts(g, X, c, wx), Share(dom.ny, dims.0)) +
      Padded(OwnParts(g, Y, c, wy), Share(dom.nx, dims.1))
  }

  function PacketSize(dom: Domain, dims: (Pos, Pos)): nat { 2 + Share(dom.ny, dims.0) + Share(dom.nx, dims.1) }

  lemma ShareSuffices(dom: Domain, dims: (Pos, Pos), a: Axis, place: nat)
    requires place < ProcessesAlong(dims, a)
    ensures Size(LayoutOf(dom, dims), a, place) <= Share(GlobalPoints(dom, a), ProcessesAlong(dims, a))
  {
    LayoutAxis(dom, dims, a, place);
    PaddingSuffices(GlobalPoints(dom, a), ProcessesAlong(dims, a), place);
  }

  /** The shares have room for every rank's lines. */
  lemma SharesSuffice(dom: Domain, dims: (Pos, Pos), c: Coord)
    requires InGrid(LayoutOf(dom, dims), c)
    ensures SizeAt(LayoutOf(dom, dims), Y, c) <= Share(dom.ny, dims.0)
      && SizeAt(LayoutOf(dom, dims), X, c) <= Share(dom.nx, dims.1)
  {
    LayoutAxis(dom, dims, Y, 0);
    LayoutAxis(dom, dims, X, 0);
    ShareSuffices(dom, dims, Y, c.y);
    ShareSuffices(dom, dims, X, c.x);
  }

  lemma PacketParts(head: seq<real>, p: seq<real>, q: seq<real>, rows: nat, columns: nat)
    requires |head| == 2 && |p| <= rows && |q| <= columns
    ensures var packet := head + Padded(p, rows) + Padded(q, columns);
            |packet| == 2 + rows + columns && packet[2..2 + |p|] == p && packet[2 + rows..2 + rows + |q|] == q
  {
  }

  /** Every rank's packet is one. */
  lemma PacketIsPacket(dom: Domain, dims: (Pos, Pos), wx: (int, int) -> real, wy: (int, int) -> real, c: Coord)
    requires InGrid(LayoutOf(dom, dims), c)
    ensures |PacketOf(dom, dims, wx, wy, c)| == PacketSize(dom, dims)
    ensures IsPacket(LayoutOf(dom, dims), wx, wy, c, Share(dom.ny, dims.0), PacketOf(dom, dims, wx, wy, c))
  {
    var g := LayoutOf(dom, dims);
    SharesSuffice(dom, dims, c);
    PacketParts([c.y as real, c.x as real], OwnParts(g, X, c, wx), OwnParts(g, Y, c, wy), Share(dom.ny, dims.0),
      Share(dom.nx, dims.1));
  }

  /** Sequences end to end. */
  function Joined(parts: seq<seq<real>>): seq<real> {
    if parts == [] then [] else Joined(parts[..|parts| - 1]) + parts[|parts| - 1]
  }

  predicate AllOf(parts: seq<seq<real>>, size: nat) { forall m :: 0 <= m < |parts| ==> |parts[m]| == size }

  lemma NextProduct(n: nat, size: nat)
    ensures n * size + size == (n + 1) * size
  {
  }

  lemma {:induction false} JoinedLength(parts: seq<seq<real>>, size: nat)
    requires AllOf(parts, size)
    ensures |Joined(parts)| == |parts| * size
  {
    if parts != [] {
      JoinedLength(parts[..|parts| - 1], size);
      NextProduct(|parts| - 1, size);
    }
  }

  /** The slice of `s` of one packet. */
  predicate SliceIs(s: seq<real>, lo: nat, part: seq<real>) { lo + |part| <= |s| && s[lo..lo + |part|] == part }

  lemma {:induction false} JoinedAt(parts: seq<seq<real>>, size: nat, m: nat)
    requires m < |parts| && AllOf(parts, size)
    ensures SliceIs(Joined(parts), m * size, parts[m])
  {
    var n := |parts| - 1;
    var before := parts[..n];
    if m < n {
      JoinedAt(before, size, m);
      EarlierSlice(Joined(before), parts[n], m * size, parts[m]);
    } else {
      JoinedLength(before, size);
      LastSlice(Joined(before), parts[n]);
    }
  }

  lemma EarlierSlice(s: seq<real>, t: seq<real>, lo: nat, part: seq<real>)
    requires SliceIs(s, lo, part)
    ensures SliceIs(s + t, lo, part)
  {
    assert (s + t)[lo..lo + |part|] == s[lo..lo + |part|];
  }

  lemma LastSlice(s: seq<real>, t: seq<real>)
    ensures SliceIs(s + t, |s|, t)
  {
  }

  function PacketsOf(dom: Domain, dims: (Pos, Pos), wx: (int, int) -> real, wy: (int, int) -> real,
      order: seq<Coord>): seq<seq<real>>
  {
    seq(|order|, (m: nat) requires m < |order| => PacketOf(dom, dims, wx, wy, order[m]))
  }

  /** What the all-gather returns: the packets of the ranks in some order, end to end. */
  function AllPackets(dom: Domain, dims: (Pos, Pos), wx: (int, int) -> real, wy: (int, int) -> real,
      order: seq<Coord>): seq<real>
  {
    Joined(PacketsOf(dom, dims, wx, wy, order))
  }

  lemma PacketFound(gathered: seq<real>, size: nat, m: nat, packet: seq<real>)
    requires SliceIs(gathered, m * size, packet) && |packet| == size
    ensures Packet(gathered, size, m) == packet
  {
  }

  lemma PacketsGather(dom: Domain, dims: (Pos, Pos), wx: (int, int) -> real, wy: (int, int) -> real, order: seq<Coord>)
    requires Lists(LayoutOf(dom, dims), order)
    ensures Gathers(LayoutOf(dom, dims), wx, wy, order, Share(dom.ny, dims.0), AllPackets(dom, dims, wx, wy, order),
              PacketSize(dom, dims))
  {
    var packets, size := PacketsOf(dom, dims, wx, wy, order), PacketSize(dom, dims);
    forall m | 0 <= m < |packets| ensures |packets[m]| == size { PacketIsPacket(dom, dims, wx, wy, order[m]); }
    JoinedLength(packets, size);
    forall m: nat | m < |order|
      ensures IsPacket(LayoutOf(dom, dims), wx, wy, order[m], Share(dom.ny, dims.0), Packet(Joined(packets), size, m))
    {
      JoinedAt(packets, size, m);
      PacketFound(Joined(packets), size, m, packets[m]);
      PacketIsPacket(dom, dims, wx, wy, order[m]);
    }
  }

  /** A sequence with some of its entries replaced. */
  function Spliced(s: seq<real>, at: nat, values: seq<real>): seq<real>
    requires at + |values| <= |s|
  {
    s[..at] + values + s[at + |values|..]
  }

  /** Copies values into a packet from a place on. */
  method CopyInto(packet: array<real>, at: nat, values: array<real>)
    requires packet != values && at + values.Length <= packet.Length
    modifies packet
    ensures packet[..] == Spliced(old(packet[..]), at, values[..])
  {
    forall q | 0 <= q < values.Length { packet[at + q] := values[q]; }
  }

  function Zeros(n: nat): seq<real> { seq(n, _ => 0.0) }

  lemma SplicedRow(head: seq<real>, row: seq<real>, rows: nat, columns: nat)
    requires |row| <= rows
    ensures Spliced(head + Zeros(rows + columns), |head|, row) == head + Padded(row, rows) + Zeros(columns)
  {
  }

  lemma SplicedColumn(front: seq<real>, column: seq<real>, columns: nat)
    requires |column| <= columns
    ensures Spliced(front + Zeros(columns), |front|, column) == front + Padded(column, columns)
  {
  }

  method BuildPacket(me: Coord, row: array<real>, column: array<real>, rows: nat, columns: nat)
      returns (packet: array<real>)
    requires row.Length <= rows && column.Length <= columns
    ensures fresh(packet)
    ensures packet[..] == [me.y as real, me.x as real] + Padded(row[..], rows) + Padded(column[..], columns)
  {
    packet := new real[2 + rows + columns](_ => 0.0);
    packet[0], packet[1] := me.y as real, me.x as real;
    ghost var head := [me.y as real, me.x as real];
    assert packet[..] == head + Zeros(rows + columns);
    CopyInto(packet, 2, row);
    SplicedRow(head, row[..], rows, columns);
    CopyInto(packet, 2 + rows, column);
    SplicedColumn(head + Padded(row[..], rows), column[..], columns);
  }

  // ----- The rank's own sums -----

  lemma RowPart(g: Layout, c: Coord, w: (int, int) -> real, q: int)
    ensures Part(g, X, LineOf(g, X, c, w, q), Place(c, X)) ==
      Sum(Row(w, First(g, Y, c.y) + q), First(g, X, c.x), First(g, X, c.x) + SizeAt(g, X, c))
  {
  }

  lemma ColumnPart(g: Layout, c: Coord, w: (int, int) -> real, q: int)
    ensures Part(g, Y, LineOf(g, Y, c, w, q), Place(c, Y)) ==
      Sum(Column(w, First(g, X, c.x) + q), First(g, Y, c.y), First(g, Y, c.y) + SizeAt(g, Y, c))
  {
  }

  /** The physical cells of a rank's field hold the global widths. */
  ghost predicate HoldsWidths(g: Layout, me: Coord, field: array2<real>, w: (int, int) -> real)
    reads field
  {
    Holds(field, g.h, SizeAt(g, Y, me), SizeAt(g, X, me), w, First(g, Y, me.y), First(g, X, me.x))
  }

  method OwnSums(g: Layout, me: Coord, x: array2<real>, y: array2<real>, ghost wx: (int, int) -> real,
      ghost wy: (int, int) -> real)
    returns (row: array<real>, column: array<real>)
    requires HoldsWidths(g, me, x, wx) && HoldsWidths(g, me, y, wy)
    ensures fresh(row) && fresh(column) && row != column
    ensures row[..] == OwnParts(g, X, me, wx) && column[..] == OwnParts(g, Y, me, wy)
  {
    row, column := Totals(x, y, g.h, SizeAt(g, Y, me), SizeAt(g, X, me), wx, wy, First(g, Y, me.y), First(g, X, me.x));
    forall q | 0 <= q < row.Length ensures row[q] == OwnParts(g, X, me, wx)[q] { RowPart(g, me, wx, q); }
    forall q | 0 <= q < column.Length ensures column[q] == OwnParts(g, Y, me, wy)[q] { ColumnPart(g, me, wy, q); }
  }

  /** The packet a rank sends. */
  method OwnPacket(dom: Domain, dims: (Pos, Pos), me: Coord, x: array2<real>, y: array2<real>,
      ghost wx: (int, int) -> real, ghost wy: (int, int) -> real)
    returns (packet: array<real>)
    requires InGrid(LayoutOf(dom, dims), me) && HoldsWidths(LayoutOf(dom, dims), me, x, wx)
      && HoldsWidths(LayoutOf(dom, dims), me, y, wy)
    ensures fresh(packet) && packet[..] == PacketOf(dom, dims, wx, wy, me)
  {
    var g := LayoutOf(dom, dims);
    SharesSuffice(dom, dims, me);
    var row, column := OwnSums(g, me, x, y, wx, wy);
    assert row.Length == |row[..]| && column.Length == |column[..]|;
    packet := BuildPacket(me, row, column, Share(dom.ny, dims.0), Share(dom.nx, dims.1));
  }

  // ----- From widths to distances -----

  /** Both fields hold, for every physical cell of the rank, the serial half-cell distances from the low
      and the high end of the cell's global line. */
  ghost predicate Distances(g: Layout, a: Axis, me: Coord, low: array2<real>, high: array2<real>, w: (int, int) -> real)
    reads low, high
  {
    forall q :: 0 <= q < SizeAt(g, Other(a), me) ==>
      LineFinished(a, low, high, g.h, q, SizeAt(g, a, me), LineOf(g, a, me, w, q), First(g, a, Place(me, a)),
        Points(g, a))
  }

  /** In full: the field from the west holds at a cell the widths of its global row before it and half its
      own, the field from the east half its own and the widths after it. */
  lemma AcrossRow(g: Layout, me: Coord, west: array2<real>, east: array2<real>, w: (int, int) -> real, j: int, i: int)
    requires Distances(g, X, me, west, east, w) && g.h <= j < g.h + SizeAt(g, Y, me)
      && g.h <= i < g.h + SizeAt(g, X, me)
    ensures j < west.Length0 && j < east.Length0 && i < west.Length1 && i < east.Length1
    ensures var (row, at) := (Row(w, First(g, Y, me.y) + j - g.h), First(g, X, me.x) + i - g.h);
            && west[j, i] == Sum(row, 0, at) + row(at) / 2.0
            && east[j, i] == row(at) / 2.0 + Sum(row, at + 1, Points(g, X))
  {
    assert LineFinished(X, west, east, g.h, j - g.h, SizeAt(g, X, me), LineOf(g, X, me, w, j - g.h),
      First(g, X, me.x), Points(g, X));
  }

  /** The same from the south and the north, along the cell's global column. */
  lemma AcrossColumn(g: Layout, me: Coord, south: array2<real>, north: array2<real>, w: (int, int) -> real, j: int,
      i: int)
    requires Distances(g, Y, me, south, north, w) && g.h <= j < g.h + SizeAt(g, Y, me)
      && g.h <= i < g.h + SizeAt(g, X, me)
    ensures j < south.Length0 && j < north.Length0 && i < south.Length1 && i < north.Length1
    ensures var (at, column) := (First(g, Y, me.y) + j - g.h, Column(w, First(g, X, me.x) + i - g.h));
            && south[j, i] == Sum(column, 0, at) + column(at) / 2.0
            && north[j, i] == column(at) / 2.0 + Sum(column, at + 1, Points(g, Y))
  {
    assert LineFinished(Y, south, north, g.h, i - g.h, SizeAt(g, Y, me), LineOf(g, Y, me, w, i - g.h),
      First(g, Y, me.y), Points(g, Y));
  }

  predicate SameShape(p: array2<real>, q: array2<real>) { p.Length0 == q.Length0 && p.Length1 == q.Length1 }

  /** The four fields of a rank: the two that hold the widths and their opposites. */
  ghost predicate FourFields(g: Layout, me: Coord, west: array2<real>, east: array2<real>, south: array2<real>,
      north: array2<real>, wx: (int, int) -> real, wy: (int, int) -> real)
    reads west, south
  {
    && SameShape(west, east) && SameShape(south, north)
    && {west, east} !! {south, north} && west != east && south != north
    && HoldsWidths(g, me, west, wx) && HoldsWidths(g, me, south, wy)
  }

  /** Both axes in turn. */
  method AlongBoth(g: Layout, me: Coord, west: array2<real>, east: array2<real>, south: array2<real>,
      north: array2<real>, rowSums: LineSums, columnSums: LineSums, ghost wx: (int, int) -> real,
      ghost wy: (int, int) -> real)
    requires Valid(g) && InGrid(g, me) && FourFields(g, me, west, east, south, north, wx, wy)
    requires rowSums.Valid(SizeAt(g, Y, me)) && rowSums.Scanned(g, X, me, wx)
    requires columnSums.Valid(SizeAt(g, X, me)) && columnSums.Scanned(g, Y, me, wy)
    modifies west, east, south, north
    ensures Distances(g, X, me, west, east, wx) && Distances(g, Y, me, south, north, wy)
  {
    AlongAxis(g, X, me, west, east, rowSums, wx);
    AlongAxis(g, Y, me, south, north, columnSums, wy);
  }

  /** The gathered form: a rank that holds the widths along both axes sends its packet, and with the
      packets of all ranks in any order ends with the serial distances from all four edges. */
  method InitializeGathered(dom: Domain, dims: (Pos, Pos), me: Coord, west: array2<real>, east: array2<real>,
      south: array2<real>, north: array2<real>, gathered: seq<real>, ghost order: seq<Coord>,
      ghost wx: (int, int) -> real, ghost wy: (int, int) -> real)
    returns (sent: seq<real>)
    requires var g := LayoutOf(dom, dims);
             Valid(g) && InGrid(g, me) && FourFields(g, me, west, east, south, north, wx, wy) && Lists(g, order)
    requires gathered == AllPackets(dom, dims, wx, wy, order)
    modifies west, east, south, north
    ensures sent == PacketOf(dom, dims, wx, wy, me)
    ensures Distances(LayoutOf(dom, dims), X, me, west, east, wx)
    ensures Distances(LayoutOf(dom, dims), Y, me, south, north, wy)
  {
    var g := LayoutOf(dom, dims);
    var packet := OwnPacket(dom, dims, me, west, south, wx, wy);
    sent := packet[..];
    PacketsGather(dom, dims, wx, wy, order);
    var rowSums, columnSums :=
      FromPackets(g, me, gathered, PacketSize(dom, dims), Share(dom.ny, dims.0), order, wx, wy);
    AlongBoth(g, me, west, east, south, north, rowSums, columnSums, wx, wy);
  }

  /** What the exclusive scan and the all-reduce along an axis return to a rank when every rank of the
      line gives its own parts; the scan returns anything to the first. */
  ghost predicate ScansReturn(g: Layout, a: Axis, me: Coord, w: (int, int) -> real, scanned: seq<real>,
      reduced: seq<real>)
  {
    && |scanned| == |reduced| == SizeAt(g, Other(a), me)
    && (forall q :: 0 <= q < |reduced| ==> reduced[q] == Scan(g, a, LineOf(g, a, me, w, q), Ranks(g, a)))
    && (Place(me, a) > 0 ==>
          forall q :: 0 <= q < |scanned| ==> scanned[q] == Scan(g, a, LineOf(g, a, me, w, q), Place(me, a)))
  }

  /** The scan form: a rank gives its own sums to the scans and ends with the same distances. */
  method InitializeScanned(g: Layout, me: Coord, west: array2<real>, east: array2<real>, south: array2<real>,
      north: array2<real>, rowScan: seq<real>, rowTotal: seq<real>, columnScan: seq<real>, columnTotal: seq<real>,
      ghost wx: (int, int) -> real, ghost wy: (int, int) -> real)
    returns (rowSent: seq<real>, columnSent: seq<real>)
    requires Valid(g) && InGrid(g, me) && FourFields(g, me, west, east, south, north, wx, wy)
    requires ScansReturn(g, X, me, wx, rowScan, rowTotal) && ScansReturn(g, Y, me, wy, columnScan, columnTotal)
    modifies west, east, south, north
    ensures rowSent == OwnParts(g, X, me, wx) && columnSent == OwnParts(g, Y, me, wy)
    ensures Distances(g, X, me, west, east, wx) && Distances(g, Y, me, south, north, wy)
  {
    var row, column := OwnSums(g, me, west, south, wx, wy);
    rowSent, columnSent := row[..], column[..];
    var rowSums := FromScans(g, X, me, rowScan, rowTotal, wx);
    var columnSums := FromScans(g, Y, me, columnScan, columnTotal, wy);
    AlongBoth(g, me, west, east, south, north, rowSums, columnSums, wx, wy);
  }
}
