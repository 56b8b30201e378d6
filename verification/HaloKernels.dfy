/** The kernels of the exchange on flat buffers and fields in memory: a parallel kernel is a `forall`
    statement, whose iterations Dafny requires to write distinct places. */
module HaloKernels {
  import opened HaloFaces

  /** The field in memory holds the block `f`. */
  ghost predicate Represents<T>(data: array3<T>, f: Cells<T>)
    reads data
  {
    forall k, j, i :: 0 <= k < data.Length0 && 0 <= j < data.Length1 && 0 <= i < data.Length2 ==>
      data[k, j, i] == f.at(k, j, i)
  }

  /** The span and the layers start..start+d along the axis lie inside the field. */
  predicate InField<T>(data: array3<T>, a: Axis, s: Span, start: int, d: nat) {
    && s.layer + s.layers <= data.Length0 && 0 <= start
    && s.line + s.lines <= (if a == X then data.Length1 else data.Length2)
    && start + d <= (if a == X then data.Length2 else data.Length1)
  }

  predicate InFace(s: Span, d: nat, k: nat, l: nat, q: nat) { k < s.layers && l < s.lines && q < d }

  /** The flat index is one-to-one on the face cells and onto the buffer positions. */
  lemma FaceIndexBijects(a: Axis, s: Span, d: nat)
    ensures forall k: nat, l: nat, q: nat :: InFace(s, d, k, l, q) ==>
              FaceIndex(a, s.lines, d, k, l, q) < FaceCount(s, d) && 0 < s.lines * d
                && Decode(a, s.lines, d, FaceIndex(a, s.lines, d, k, l, q)) == (k, l, q)
  {
    forall k: nat, l: nat, q: nat | InFace(s, d, k, l, q)
      ensures FaceIndex(a, s.lines, d, k, l, q) < FaceCount(s, d) && 0 < s.lines * d
        && Decode(a, s.lines, d, FaceIndex(a, s.lines, d, k, l, q)) == (k, l, q)
    {
      FaceIndexDecodes(a, s.lines, d, s.layers, k, l, q);
    }
  }

  /** Every buffer position is the flat index of the face cell it decodes to. */
  lemma FaceIndexOnto(a: Axis, s: Span, d: nat, idx: nat)
    requires idx < FaceCount(s, d)
    ensures 0 < s.lines * d
    ensures var c := Decode(a, s.lines, d, idx);
            InFace(s, d, c.0, c.1, c.2) && FaceIndex(a, s.lines, d, c.0, c.1, c.2) == idx
  {
    var size: nat := s.lines * d;
    DivBelow(idx, s.layers, size);
    var k, rest: nat := idx / size, idx % size;
    assert idx == k * size + rest;
    var inner, outer := if a == X then d else s.lines, if a == X then s.lines else d;
    assert size == outer * inner;
    DivBelow(rest, outer, inner);
    assert rest == rest / inner * inner + rest % inner;
  }

  /** The buffer holds at a face cell's position the cell. */
  ghost predicate HoldsCell<T>(a: Axis, f: Cells<T>, s: Span, start: nat, d: nat, buf: seq<T>, offset: nat, k: nat,
      l: nat, q: nat)
  {
    var at := offset + FaceIndex(a, s.lines, d, k, l, q);
    at < |buf| && buf[at] == At(f, a, s.layer + k, s.line + l, start + q)
  }

  ghost predicate HoldsCells<T>(a: Axis, f: Cells<T>, s: Span, start: nat, d: nat, buf: seq<T>, offset: nat) {
    forall k: nat, l: nat, q: nat :: InFace(s, d, k, l, q) ==> HoldsCell(a, f, s, start, d, buf, offset, k, l, q)
  }

  /** A buffer that holds all face cells holds the face. */
  lemma HoldsFace<T>(a: Axis, f: Cells<T>, s: Span, start: nat, d: nat, buf: seq<T>, offset: nat)
    requires offset + FaceCount(s, d) <= |buf| && HoldsCells(a, f, s, start, d, buf, offset)
    ensures buf[offset..offset + FaceCount(s, d)] == Face(a, f, s, start, d)
  {
    forall idx: nat | idx < FaceCount(s, d) ensures buf[offset + idx] == Face(a, f, s, start, d)[idx] {
      FaceIndexOnto(a, s, d, idx);
      var c := Decode(a, s.lines, d, idx);
      assert HoldsCell(a, f, s, start, d, buf, offset, c.0, c.1, c.2);
    }
  }

  method GatherX<T>(data: array3<T>, ghost f: Cells<T>, s: Span, start: nat, d: nat, buf: array<T>, offset: nat)
    requires Represents(data, f) && InField(data, X, s, start, d) && offset + FaceCount(s, d) <= buf.Length
    modifies buf
    ensures HoldsCells(X, f, s, start, d, buf[..], offset)
    ensures buf[..offset] == old(buf[..offset])
    ensures buf[offset + FaceCount(s, d)..] == old(buf[offset + FaceCount(s, d)..])
  {
    FaceIndexBijects(X, s, d);
    forall k: nat, l: nat, q: nat | k < s.layers && l < s.lines && q < d {
      buf[offset + FaceIndex(X, s.lines, d, k, l, q)] := data[s.layer + k, s.line + l, start + q];
    }
    forall k: nat, l: nat, q: nat | InFace(s, d, k, l, q)
      ensures HoldsCell(X, f, s, start, d, buf[..], offset, k, l, q)
    {
      assert buf[offset + FaceIndex(X, s.lines, d, k, l, q)] == data[s.layer + k, s.line + l, start + q];
    }
  }

  method PackX<T>(data: array3<T>, ghost f: Cells<T>, s: Span, start: nat, d: nat, buf: array<T>, offset: nat)
    requires Represents(data, f) && InField(data, X, s, start, d) && offset + FaceCount(s, d) <= buf.Length
    modifies buf
    ensures buf[offset..offset + FaceCount(s, d)] == Face(X, f, s, start, d)
    ensures buf[..offset] == old(buf[..offset])
    ensures buf[offset + FaceCount(s, d)..] == old(buf[offset + FaceCount(s, d)..])
  {
    GatherX(data, f, s, start, d, buf, offset);
    HoldsFace(X, f, s, start, d, buf[..], offset);
    assert buf[offset..offset + FaceCount(s, d)] == buf[..][offset..offset + FaceCount(s, d)];
  }

  method GatherY<T>(data: array3<T>, ghost f: Cells<T>, s: Span, start: nat, d: nat, buf: array<T>, offset: nat)
    requires Represents(data, f) && InField(data, Y, s, start, d) && offset + FaceCount(s, d) <= buf.Length
    modifies buf
    ensures HoldsCells(Y, f, s, start, d, buf[..], offset)
    ensures buf[..offset] == old(buf[..offset])
    ensures buf[offset + FaceCount(s, d)..] == old(buf[offset + FaceCount(s, d)..])
  {
    FaceIndexBijects(Y, s, d);
    forall k: nat, l: nat, q: nat | k < s.layers && l < s.lines && q < d {
      buf[offset + FaceIndex(Y, s.lines, d, k, l, q)] := data[s.layer + k, start + q, s.line + l];
    }
    forall k: nat, l: nat, q: nat | InFace(s, d, k, l, q)
      ensures HoldsCell(Y, f, s, start, d, buf[..], offset, k, l, q)
    {
      assert buf[offset + FaceIndex(Y, s.lines, d, k, l, q)] == data[s.layer + k, start + q, s.line + l];
    }
  }

  method PackY<T>(data: array3<T>, ghost f: Cells<T>, s: Span, start: nat, d: nat, buf: array<T>, offset: nat)
    requires Represents(data, f) && InField(data, Y, s, start, d) && offset + FaceCount(s, d) <= buf.Length
    modifies buf
    ensures buf[offset..offset + FaceCount(s, d)] == Face(Y, f, s, start, d)
    ensures buf[..offset] == old(buf[..offset])
    ensures buf[offset + FaceCount(s, d)..] == old(buf[offset + FaceCount(s, d)..])
  {
    GatherY(data, f, s, start, d, buf, offset);
    HoldsFace(Y, f, s, start, d, buf[..], offset);
    assert buf[offset..offset + FaceCount(s, d)] == buf[..][offset..offset + FaceCount(s, d)];
  }

  /** The part of a receive buffer that a side's message filled, if a message came. */
  ghost function Message<T>(came: bool, buf: array<T>, offset: nat, count: nat): Option<seq<T>>
    requires offset + count <= buf.Length
    reads buf
  {
    if came then Some(buf[offset..offset + count]) else None
  }

  /** One side's message put in the layers start..start+d along the axis. */
  ghost function Placed<T>(a: Axis, f: Cells<T>, s: Span, start: nat, d: nat, message: Option<seq<T>>): Cells<T> {
    Unpacked(a, f, s, start + d, 0, d, message, None)
  }

  lemma NoCells(s: Span, d: nat)
    requires FaceCount(s, d) == 0
    ensures s.layers == 0 || s.lines == 0 || d == 0
  {
    if s.layers > 0 && s.lines > 0 && d > 0 {
      MulStep(0, s.lines, d);
      MulStep(0, s.layers, s.lines * d);
    }
  }

  /** Unpacking no cells, or from nobody, changes nothing. */
  lemma EmptyUnpacked<T>(data: array3<T>, a: Axis, f: Cells<T>, s: Span, h: nat, n: nat, d: nat, low: Option<seq<T>>,
      high: Option<seq<T>>)
    requires Represents(data, f) && d <= h && (FaceCount(s, d) == 0 || (low.None? && high.None?))
    ensures Represents(data, Unpacked(a, f, s, h, n, d, low, high))
  {
    if FaceCount(s, d) == 0 { NoCells(s, d); }
  }

  lemma PlacedTwice<T>(data: array3<T>, a: Axis, f: Cells<T>, s: Span, h: nat, n: nat, d: nat, low: Option<seq<T>>,
      high: Option<seq<T>>)
    requires d <= h && Represents(data, Placed(a, Placed(a, f, s, h - d, d, low), s, h + n, d, high))
    ensures Represents(data, Unpacked(a, f, s, h, n, d, low, high))
  {
    var f' := Placed(a, f, s, h - d, d, low);
    forall k, j, i | 0 <= k < data.Length0 && 0 <= j < data.Length1 && 0 <= i < data.Length2
      ensures data[k, j, i] == Unpacked(a, f, s, h, n, d, low, high).at(k, j, i)
    {
      assert data[k, j, i] == Placed(a, f', s, h + n, d, high).at(k, j, i);
    }
  }

  /** The entry of a receive buffer for a face cell. */
  function Entry<T>(buf: array<T>, offset: nat, a: Axis, s: Span, d: nat, k: nat, l: nat, q: nat): T
    requires offset + FaceCount(s, d) <= buf.Length && InFace(s, d, k, l, q)
    reads buf
  {
    FaceIndexDecodes(a, s.lines, d, s.layers, k, l, q);
    buf[offset + FaceIndex(a, s.lines, d, k, l, q)]
  }

  lemma EntryIsFaceCell<T>(buf: array<T>, offset: nat, a: Axis, s: Span, d: nat, k: nat, l: nat, q: nat, otherwise: T)
    requires offset + FaceCount(s, d) <= buf.Length && InFace(s, d, k, l, q)
    ensures Entry(buf, offset, a, s, d, k, l, q) ==
      FaceCell(a, buf[offset..offset + FaceCount(s, d)], s.lines, d, k, l, q, otherwise)
  {
    FaceIndexDecodes(a, s.lines, d, s.layers, k, l, q);
  }

  method PlaceX<T>(data: array3<T>, ghost f: Cells<T>, s: Span, start: nat, d: nat, recv: array<T>, offset: nat)
    requires Represents(data, f) && InField(data, X, s, start, d) && offset + FaceCount(s, d) <= recv.Length
    modifies data
    ensures Represents(data, Placed(X, f, s, start, d, Some(recv[offset..offset + FaceCount(s, d)])))
  {
    forall k, j, i | s.layer <= k < s.layer + s.layers && s.line <= j < s.line + s.lines && start <= i < start + d {
      data[k, j, i] := Entry(recv, offset, X, s, d, k - s.layer, j - s.line, i - start);
    }
    ghost var placed := Placed(X, f, s, start, d, Some(recv[offset..offset + FaceCount(s, d)]));
    forall k, j, i | 0 <= k < data.Length0 && 0 <= j < data.Length1 && 0 <= i < data.Length2
      ensures data[k, j, i] == placed.at(k, j, i)
    {
      if Within(s, k, j) && start <= i < start + d {
        EntryIsFaceCell(recv, offset, X, s, d, k - s.layer, j - s.line, i - start, f.at(k, j, i));
      }
    }
  }

  method PlaceY<T>(data: array3<T>, ghost f: Cells<T>, s: Span, start: nat, d: nat, recv: array<T>, offset: nat)
    requires Represents(data, f) && InField(data, Y, s, start, d) && offset + FaceCount(s, d) <= recv.Length
    modifies data
    ensures Represents(data, Placed(Y, f, s, start, d, Some(recv[offset..offset + FaceCount(s, d)])))
  {
    forall k, j, i | s.layer <= k < s.layer + s.layers && start <= j < start + d && s.line <= i < s.line + s.lines {
      data[k, j, i] := Entry(recv, offset, Y, s, d, k - s.layer, i - s.line, j - start);
    }
    ghost var placed := Placed(Y, f, s, start, d, Some(recv[offset..offset + FaceCount(s, d)]));
    forall k, j, i | 0 <= k < data.Length0 && 0 <= j < data.Length1 && 0 <= i < data.Length2
      ensures data[k, j, i] == placed.at(k, j, i)
    {
      if Within(s, k, i) && start <= j < start + d {
        EntryIsFaceCell(recv, offset, Y, s, d, k - s.layer, i - s.line, j - start, f.at(k, j, i));
      }
    }
  }

  lemma NothingPlaced<T>(data: array3<T>, a: Axis, f: Cells<T>, s: Span, start: nat, d: nat)
    requires Represents(data, f)
    ensures Represents(data, Placed(a, f, s, start, d, None))
  {
  }

  /** Both halos along x from the receive buffers of the sides that have a neighbour. */
  method UnpackX<T>(data: array3<T>, ghost f: Cells<T>, s: Span, h: nat, n: nat, d: nat, left: bool, right: bool,
                    recvLeft: array<T>, recvRight: array<T>, offset: nat)
    requires Represents(data, f) && d <= h && InField(data, X, s, h - d, n + 2 * d)
    requires offset + FaceCount(s, d) <= recvLeft.Length && offset + FaceCount(s, d) <= recvRight.Length
    modifies data
    ensures Represents(data,
      Unpacked(X, f, s, h, n, d, Message(left, recvLeft, offset, FaceCount(s, d)),
      Message(right, recvRight, offset, FaceCount(s, d))))
  {
    ghost var low, high :=
      Message(left, recvLeft, offset, FaceCount(s, d)), Message(right, recvRight, offset, FaceCount(s, d));
    ghost var f' := Placed(X, f, s, h - d, d, low);
    if left { PlaceX(data, f, s, h - d, d, recvLeft, offset); } else { NothingPlaced(data, X, f, s, h - d, d); }
    if right { PlaceX(data, f', s, h + n, d, recvRight, offset); } else { NothingPlaced(data, X, f', s, h + n, d); }
    PlacedTwice(data, X, f, s, h, n, d, low, high);
  }

  method UnpackY<T>(data: array3<T>, ghost f: Cells<T>, s: Span, h: nat, n: nat, d: nat, bottom: bool, top: bool,
                    recvBottom: array<T>, recvTop: array<T>, offset: nat)
    requires Represents(data, f) && d <= h && InField(data, Y, s, h - d, n + 2 * d)
    requires offset + FaceCount(s, d) <= recvBottom.Length && offset + FaceCount(s, d) <= recvTop.Length
    modifies data
    ensures Represents(data,
      Unpacked(Y, f, s, h, n, d, Message(bottom, recvBottom, offset, FaceCount(s, d)),
      Message(top, recvTop, offset, FaceCount(s, d))))
  {
    ghost var low, high :=
      Message(bottom, recvBottom, offset, FaceCount(s, d)), Message(top, recvTop, offset, FaceCount(s, d));
    ghost var f' := Placed(Y, f, s, h - d, d, low);
    if bottom { PlaceY(data, f, s, h - d, d, recvBottom, offset); } else { NothingPlaced(data, Y, f, s, h - d, d); }
    if top { PlaceY(data, f', s, h + n, d, recvTop, offset); } else { NothingPlaced(data, Y, f', s, h + n, d); }
    PlacedTwice(data, Y, f, s, h, n, d, low, high);
  }

  // ----- Local periodic fill -----

  method FillX<T>(data: array3<T>, ghost f: Cells<T>, s: Span, h: nat, n: nat, d: nat)
    requires Represents(data, f) && 0 < n && (n == 1 || d <= n) && d <= h && InField(data, X, s, h - d, n + 2 * d)
    modifies data
    ensures Represents(data, Filled(X, f, s, h, n, d))
  {
    forall k, j, i | s.layer <= k < s.layer + s.layers && s.line <= j < s.line + s.lines && h - d <= i < h {
      data[k, j, i] := data[k, j, LowSource(h, n, d, i)];
    }
    forall k, j, i | s.layer <= k < s.layer + s.layers && s.line <= j < s.line + s.lines && h + n <= i < h + n + d {
      data[k, j, i] := data[k, j, HighSource(h, n, i)];
    }
  }

  method FillY<T>(data: array3<T>, ghost f: Cells<T>, s: Span, h: nat, n: nat, d: nat)
    requires Represents(data, f) && 0 < n && (n == 1 || d <= n) && d <= h && InField(data, Y, s, h - d, n + 2 * d)
    modifies data
    ensures Represents(data, Filled(Y, f, s, h, n, d))
  {
    forall k, j, i | s.layer <= k < s.layer + s.layers && h - d <= j < h && s.line <= i < s.line + s.lines {
      data[k, j, i] := data[k, LowSource(h, n, d, j), i];
    }
    forall k, j, i | s.layer <= k < s.layer + s.layers && h + n <= j < h + n + d && s.line <= i < s.line + s.lines {
      data[k, j, i] := data[k, HighSource(h, n, j), i];
    }
  }

  /** Copy of the opposite physical layers, the single-rank kernels of the NCCL transport. */
  method CopyOppositeX<T>(data: array3<T>, ghost f: Cells<T>, s: Span, h: nat, n: nat, d: nat)
    requires Represents(data, f) && 0 < n && d <= n && d <= h && InField(data, X, s, h - d, n + 2 * d)
    modifies data
    ensures Represents(data, Filled(X, f, s, h, n, d))
  {
    forall k, j, i | s.layer <= k < s.layer + s.layers && s.line <= j < s.line + s.lines && h - d <= i < h {
      data[k, j, i] := data[k, j, i + n];
    }
    forall k, j, i | s.layer <= k < s.layer + s.layers && s.line <= j < s.line + s.lines && h + n <= i < h + n + d {
      data[k, j, i] := data[k, j, i - n];
    }
    forall k, j, i | 0 <= k < data.Length0 && 0 <= j < data.Length1 && 0 <= i < data.Length2
      ensures data[k, j, i] == Filled(X, f, s, h, n, d).at(k, j, i)
    {
      FilledCopiesOpposite(X, f, s, h, n, d, k, j, i);
    }
  }

  method CopyOppositeY<T>(data: array3<T>, ghost f: Cells<T>, s: Span, h: nat, n: nat, d: nat)
    requires Represents(data, f) && 0 < n && d <= n && d <= h && InField(data, Y, s, h - d, n + 2 * d)
    modifies data
    ensures Represents(data, Filled(Y, f, s, h, n, d))
  {
    forall k, j, i | s.layer <= k < s.layer + s.layers && h - d <= j < h && s.line <= i < s.line + s.lines {
      data[k, j, i] := data[k, j + n, i];
    }
    forall k, j, i | s.layer <= k < s.layer + s.layers && h + n <= j < h + n + d && s.line <= i < s.line + s.lines {
      data[k, j, i] := data[k, j - n, i];
    }
    forall k, j, i | 0 <= k < data.Length0 && 0 <= j < data.Length1 && 0 <= i < data.Length2
      ensures data[k, j, i] == Filled(Y, f, s, h, n, d).at(k, j, i)
    {
      FilledCopiesOpposite(Y, f, s, h, n, d, k, i, j);
    }
  }
}
