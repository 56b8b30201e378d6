/** Field blocks with halos, the flat buffers of their faces, and what packing and unpacking do.

    A block is a total function of (layer, row, column); only cells inside its extents mean
    anything.  A layer index stands for all leading indices of a 2-D, 3-D or 4-D field, and for the
    slot of a batched exchange, since those only prefix the same flat face index. */
module HaloFaces {

  datatype Cells<!T> = Cells(at: (int, int, int) -> T)

  datatype Axis = Y | X

  datatype Option<+T> = None | Some(value: T) {
    function GetOr(otherwise: T): T { if Some? then value else otherwise }
  }

  function Other(a: Axis): Axis {
    if a == Y then X else Y
  }

  /** Cell at position p along the axis on line l of layer k. */
  function At<T>(f: Cells<T>, a: Axis, k: int, l: int, p: int): T {
    if a == X then f.at(k, l, p) else f.at(k, p, l)
  }

  /** The part of a block a pass works on: its layers, and its lines across the axis. */
  datatype Span = Span(layer: nat, layers: nat, line: nat, lines: nat)

  predicate Within(s: Span, k: int, l: int) {
    s.layer <= k < s.layer + s.layers && s.line <= l < s.line + s.lines
  }

  // ----- Flat face index -----

  /** Position in a face buffer of depth index q on line l of layer k, counted from the span's first:
      x faces keep the depth innermost, y faces keep the line innermost. */
  function FaceIndex(a: Axis, lines: nat, d: nat, k: nat, l: nat, q: nat): nat {
    if a == X then k * (lines * d) + l * d + q else k * (d * lines) + q * lines + l
  }

  /** The length of one face buffer. */
  function FaceCount(s: Span, d: nat): nat { s.layers * (s.lines * d) }

  lemma MulStep(x: nat, a: nat, n: nat)
    ensures x < a ==> x * n + n <= a * n
  {
    if x < a {
      assert (x + 1) * n <= a * n;
    }
  }

  lemma MulOrder(a: nat, b: nat, n: nat)
    ensures a <= b ==> a * n <= b * n
  {
  }

  lemma DivBelow(x: nat, a: nat, n: nat)
    requires x < a * n
    ensures n > 0 && a > 0 && x / n < a
  {
    assert n > 0;
    assert x / n * n + x % n == x;
    MulOrder(a, x / n, n);
  }

  lemma DivMod(a: nat, b: nat, n: nat)
    requires b < n
    ensures (a * n + b) / n == a && (a * n + b) % n == b
  {
    var x := (a * n + b) / n;
    MulStep(x, a, n);
    MulStep(a, x, n);
  }

  lemma MulLess(a: nat, b: nat, c: nat, n: nat)
    requires a < c && b < n
    ensures a * n + b < c * n
  {
    MulStep(a, c, n);
  }

  /** The layer, line and depth of a flat index. */
  function Decode(a: Axis, lines: nat, d: nat, idx: nat): (nat, nat, nat)
    requires 0 < lines * d
  {
    var rest := idx % (lines * d);
    (idx / (lines * d),
     if a == X then (if d == 0 then 0 else rest / d) else (if lines == 0 then 0 else rest % lines),
     if a == X then (if d == 0 then 0 else rest % d) else (if lines == 0 then 0 else rest / lines))
  }

  /** A face cell's position is inside the counted length and determines the cell, so no two face
      cells share a buffer position. */
  lemma FaceIndexDecodes(a: Axis, lines: nat, d: nat, layers: nat, k: nat, l: nat, q: nat)
    requires k < layers && l < lines && q < d
    ensures FaceIndex(a, lines, d, k, l, q) < layers * (lines * d)
    ensures 0 < lines * d && Decode(a, lines, d, FaceIndex(a, lines, d, k, l, q)) == (k, l, q)
  {
    var size, inner := lines * d, if a == X then l * d + q else q * lines + l;
    if a == X { MulLess(l, q, lines, d); DivMod(l, q, d); } else { MulLess(q, l, d, lines); DivMod(q, l, lines); }
    assert inner < size;
    assert FaceIndex(a, lines, d, k, l, q) == k * size + inner;
    DivMod(k, inner, size);
    MulLess(k, inner, layers, size);
  }

  // ----- Packing and unpacking -----

  /** The buffer holding depth positions start..start+d of every line of the span. */
  function Face<T>(a: Axis, f: Cells<T>, s: Span, start: int, d: nat): (buf: seq<T>)
    ensures |buf| == s.layers * (s.lines * d)
  {
    if s.lines * d == 0 then assert s.layers * (s.lines * d) == 0; [] else
      seq(s.layers * (s.lines * d), (idx: nat) =>
        var c := Decode(a, s.lines, d, idx);
        At(f, a, s.layer + c.0, s.line + c.1, start + c.2))
  }

  /** The entry of a face buffer for a face cell. */
  function FaceCell<T>(a: Axis, buf: seq<T>, lines: nat, d: nat, k: nat, l: nat, q: nat, otherwise: T): T {
    var idx := FaceIndex(a, lines, d, k, l, q);
    if idx < |buf| then buf[idx] else otherwise
  }

  /** Unpacking finds in the buffer what packing put there. */
  lemma FaceCellPacked<T>(a: Axis, f: Cells<T>, s: Span, start: int, d: nat, k: nat, l: nat, q: nat, otherwise: T)
    requires Within(s, k, l) && q < d
    ensures FaceCell(a, Face(a, f, s, start, d), s.lines, d, k - s.layer, l - s.line, q, otherwise) ==
      At(f, a, k, l, start + q)
  {
    FaceIndexDecodes(a, s.lines, d, s.layers, k - s.layer, l - s.line, q);
  }

  /** A block of n points on the axis after halo layers within d of it took the received faces. */
  function UnpackedAt<T>(a: Axis, f: Cells<T>, s: Span, h: nat, n: nat, d: nat,
                         low: Option<seq<T>>, high: Option<seq<T>>, k: int, l: int, p: int): T
  {
    if !Within(s, k, l) then At(f, a, k, l, p)
    else if low.Some? && h - d <= p < h then
      FaceCell(a, low.value, s.lines, d, k - s.layer, l - s.line, p - (h - d), At(f, a, k, l, p))
    else if high.Some? && h + n <= p < h + n + d then
      FaceCell(a, high.value, s.lines, d, k - s.layer, l - s.line, p - (h + n), At(f, a, k, l, p))
    else At(f, a, k, l, p)
  }

  function Unpacked<T>(a: Axis, f: Cells<T>, s: Span, h: nat, n: nat, d: nat, low: Option<seq<T>>,
      high: Option<seq<T>>): Cells<T>
  {
    Cells((k: int, j: int, i: int) =>
            if a == X then UnpackedAt(a, f, s, h, n, d, low, high, k, j, i)
              else UnpackedAt(a, f, s, h, n, d, low, high, k, i, j))
  }

  /** The physical position a local fill copies to position p of the low, and of the high, halo. */
  function LowSource(h: nat, n: nat, d: nat, p: int): (r: int)
    requires n > 0
    ensures h <= r < h + n
  {
    h + (n - d + (p - (h - d))) % n
  }

  function HighSource(h: nat, n: nat, p: int): (r: int)
    requires n > 0
    ensures h <= r < h + n
  {
    h + (p - (h + n)) % n
  }

  /** Local periodic fill of both halos, each from the block's own points. */
  function FilledAt<T>(a: Axis, f: Cells<T>, s: Span, h: nat, n: nat, d: nat, k: int, l: int, p: int): T
    requires n > 0
  {
    if !Within(s, k, l) then At(f, a, k, l, p)
    else if h - d <= p < h then At(f, a, k, l, LowSource(h, n, d, p))
    else if h + n <= p < h + n + d then At(f, a, k, l, HighSource(h, n, p))
    else At(f, a, k, l, p)
  }

  function Filled<T>(a: Axis, f: Cells<T>, s: Span, h: nat, n: nat, d: nat): Cells<T>
    requires n > 0
  {
    Cells((k: int, j: int, i: int) => if a == X then FilledAt(a, f, s, h, n, d, k, j, i)
      else FilledAt(a, f, s, h, n, d, k, i, j))
  }

  /** A block to receive from and the first position of the face it sends. */
  datatype Sender<!T> = Sender(cells: Cells<T>, start: int)

  function FaceFrom<T>(a: Axis, from: Option<Sender<T>>, s: Span, d: nat): Option<seq<T>> {
    match from
    case None => None
    case Some(sender) => Some(Face(a, sender.cells, s, sender.start, d))
  }

  /** Unpacking packed faces copies cells: each halo cell within reach of a received face is the cell
      of the sending block at the same line and layer. */
  lemma UnpackedFaces<T>(a: Axis, f: Cells<T>, s: Span, h: nat, n: nat, d: nat, low: Option<Sender<T>>,
      high: Option<Sender<T>>, k: int, l: int, p: int)
    requires d <= h
    ensures At(Unpacked(a, f, s, h, n, d, FaceFrom(a, low, s, d), FaceFrom(a, high, s, d)), a, k, l, p) ==
            if Within(s, k, l) && h - d <= p < h && low.Some?
              then At(low.value.cells, a, k, l, low.value.start + (p - (h - d)))
            else if Within(s, k, l) && h + n <= p < h + n + d && high.Some?
              then At(high.value.cells, a, k, l, high.value.start + (p - (h + n)))
            else At(f, a, k, l, p)
  {
    if Within(s, k, l) {
      if h - d <= p < h && low.Some? {
        FaceCellPacked(a, low.value.cells, s, low.value.start, d, k, l, p - (h - d), At(f, a, k, l, p));
      } else if h + n <= p < h + n + d && high.Some? {
        FaceCellPacked(a, high.value.cells, s, high.value.start, d, k, l, p - (h + n), At(f, a, k, l, p));
      }
    }
  }

  lemma SmallMod(x: nat, n: nat)
    requires x < n
    ensures x % n == x
  {
  }

  /** Filling a block periodically from itself copies its opposite physical layers, as unpacking its
      own faces would. */
  lemma FilledCopiesOpposite<T>(a: Axis, f: Cells<T>, s: Span, h: nat, n: nat, d: nat, k: int, l: int, p: int)
    requires 0 < n && d <= n && d <= h
    ensures At(Filled(a, f, s, h, n, d), a, k, l, p) ==
            if Within(s, k, l) && h - d <= p < h then At(f, a, k, l, p + n)
            else if Within(s, k, l) && h + n <= p < h + n + d then At(f, a, k, l, p - n)
            else At(f, a, k, l, p)
  {
    if h - d <= p < h { SmallMod(n - d + (p - (h - d)), n); }
    if h + n <= p < h + n + d { SmallMod(p - (h + n), n); }
  }

  /** Filling a singleton axis repeats its one plane in every halo layer of the depth. */
  lemma FilledSingleton<T>(a: Axis, f: Cells<T>, s: Span, h: nat, d: nat, k: int, l: int, p: int)
    requires d <= h
    ensures At(Filled(a, f, s, h, 1, d), a, k, l, p) ==
            At(f, a, k, l, if Within(s, k, l) && (h - d <= p < h || h + 1 <= p < h + 1 + d) then h else p)
  {
  }
}
