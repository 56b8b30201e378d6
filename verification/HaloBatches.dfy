/** Several equal-sized fields in one message per side: each field has its own slot of the shared
    buffers. */
module HaloBatches {
  import opened HaloFaces
  import opened HaloKernels

  /** The faces of the fields one after the other. */
  ghost function Slots<T>(a: Axis, fs: seq<Cells<T>>, s: Span, start: int, d: nat): (message: seq<T>)
    ensures |message| == |fs| * FaceCount(s, d)
  {
    if fs == [] then [] else
      var n := |fs| - 1;
      assert |fs| * FaceCount(s, d) == n * FaceCount(s, d) + FaceCount(s, d);
      Slots(a, fs[..n], s, start, d) + Face(a, fs[n], s, start, d)
  }

  /** All fields are in memory and have room for both faces and halos. */
  ghost predicate AllReady<T>(a: Axis, fields: seq<array3<T>>, fs: seq<Cells<T>>, s: Span, start: nat, d: nat)
    reads fields
  {
    |fields| == |fs| && forall m :: 0 <= m < |fs| ==> Represents(fields[m], fs[m]) && InField(fields[m], a, s, start, d)
  }

  lemma SlotFits(m: nat, n: nat, stride: nat, length: nat)
    requires m < n && n * stride <= length
    ensures m * stride + stride <= length && (m + 1) * stride == m * stride + stride
  {
    MulStep(m, n, stride);
  }

  /** Packs the face of one field behind what is in the buffer. */
  method PackField<T>(a: Axis, data: array3<T>, ghost f: Cells<T>, s: Span, start: nat, d: nat, send: array<T>,
      offset: nat)
    requires Represents(data, f) && InField(data, a, s, start, d) && offset + FaceCount(s, d) <= send.Length
    modifies send
    ensures send[..offset + FaceCount(s, d)] == old(send[..offset]) + Face(a, f, s, start, d)
  {
    if a == X { PackX(data, f, s, start, d, send, offset); } else { PackY(data, f, s, start, d, send, offset); }
    assert send[..offset + FaceCount(s, d)] == send[..offset] + send[offset..offset + FaceCount(s, d)];
  }

  /** Packs the faces at a start position of all fields into one send buffer. */
  method PackSlots<T>(a: Axis, fields: seq<array3<T>>, ghost fs: seq<Cells<T>>, s: Span, start: nat, d: nat,
      send: array<T>)
    requires AllReady(a, fields, fs, s, start, d) && |fields| * FaceCount(s, d) <= send.Length
    modifies send
    ensures send[..|fields| * FaceCount(s, d)] == Slots(a, fs, s, start, d)
  {
    var stride := FaceCount(s, d);
    var offset := 0;
    for m := 0 to |fields|
      invariant offset == m * stride && offset <= send.Length && send[..offset] == Slots(a, fs[..m], s, start, d)
    {
      SlotFits(m, |fields|, stride, send.Length);
      PackField(a, fields[m], fs[m], s, start, d, send, offset);
      assert fs[..m + 1][..m] == fs[..m];
      offset := offset + stride;
    }
    assert fs[..|fields|] == fs;
  }

  /** A field after its slots of the messages from both sides are unpacked. */
  ghost function FromSlot<T>(a: Axis, f: Cells<T>, s: Span, h: nat, n: nat, d: nat, low: Option<seq<T>>,
      high: Option<seq<T>>, m: nat): Cells<T>
  {
    Unpacked(a, f, s, h, n, d, Slot(low, m, FaceCount(s, d)), Slot(high, m, FaceCount(s, d)))
  }

  ghost function Slot<T>(message: Option<seq<T>>, m: nat, stride: nat): Option<seq<T>> {
    match message
    case None => None
    case Some(all) => if m * stride + stride <= |all| then Some(all[m * stride..m * stride + stride]) else None
  }

  lemma SliceOfPrefix<T>(s: seq<T>, lo: nat, hi: nat, end: nat)
    requires lo <= hi <= end <= |s|
    ensures s[..end][lo..hi] == s[lo..hi]
  {
  }

  lemma SlotOfBuffer<T>(came: bool, buf: array<T>, m: nat, n: nat, stride: nat)
    requires m < n && n * stride <= buf.Length
    ensures m * stride + stride <= n * stride
    ensures Message(came, buf, m * stride, stride) == Slot(Message(came, buf, 0, n * stride), m, stride)
  {
    SlotFits(m, n, stride, n * stride);
    SliceOfPrefix(buf[..], m * stride, m * stride + stride, n * stride);
    assert buf[0..n * stride] == buf[..][..n * stride]
      && buf[m * stride..m * stride + stride] == buf[..][m * stride..m * stride + stride];
  }

  method UnpackField<T>(a: Axis, data: array3<T>, ghost f: Cells<T>, s: Span, h: nat, n: nat, d: nat,
                        lowCame: bool, highCame: bool, recvLow: array<T>, recvHigh: array<T>, m: nat, fields: nat)
    requires d <= h && Represents(data, f) && InField(data, a, s, h - d, n + 2 * d) && m < fields
    requires fields * FaceCount(s, d) <= recvLow.Length && fields * FaceCount(s, d) <= recvHigh.Length
    modifies data
    ensures Represents(data,
      FromSlot(a, f, s, h, n, d, Message(lowCame, recvLow, 0, fields * FaceCount(s, d)),
      Message(highCame, recvHigh, 0, fields * FaceCount(s, d)), m))
  {
    var stride := FaceCount(s, d);
    SlotOfBuffer(lowCame, recvLow, m, fields, stride);
    SlotOfBuffer(highCame, recvHigh, m, fields, stride);
    if a == X { UnpackX(data, f, s, h, n, d, lowCame, highCame, recvLow, recvHigh, m * stride); }
    else { UnpackY(data, f, s, h, n, d, lowCame, highCame, recvLow, recvHigh, m * stride); }
  }

  method UnpackSlots<T>(a: Axis, fields: seq<array3<T>>, ghost fs: seq<Cells<T>>, s: Span, h: nat, n: nat, d: nat,
                        lowCame: bool, highCame: bool, recvLow: array<T>, recvHigh: array<T>)
    requires d <= h && AllReady(a, fields, fs, s, h - d, n + 2 * d)
    requires forall m, m' :: 0 <= m < m' < |fields| ==> fields[m] != fields[m']
    requires |fields| * FaceCount(s, d) <= recvLow.Length && |fields| * FaceCount(s, d) <= recvHigh.Length
    modifies fields
    ensures var low := Message(lowCame, recvLow, 0, |fields| * FaceCount(s, d));
            var high := Message(highCame, recvHigh, 0, |fields| * FaceCount(s, d));
            forall m :: 0 <= m < |fields| ==> Represents(fields[m], FromSlot(a, fs[m], s, h, n, d, low, high, m))
  {
    ghost var low, high :=
      Message(lowCame, recvLow, 0, |fields| * FaceCount(s, d)),
      Message(highCame, recvHigh, 0, |fields| * FaceCount(s, d));
    for m := 0 to |fields|
      invariant forall m' :: 0 <= m' < m ==> Represents(fields[m'], FromSlot(a, fs[m'], s, h, n, d, low, high, m'))
      invariant forall m' :: m <= m' < |fields| ==> Represents(fields[m'], fs[m'])
    {
      UnpackField(a, fields[m], fs[m], s, h, n, d, lowCame, highCame, recvLow, recvHigh, m, |fields|);
    }
  }

  lemma SlotOfPrefix<T>(x: seq<T>, y: seq<T>, m: nat, n: nat, stride: nat)
    requires |x| == n * stride && |y| == stride
    ensures m < n ==> Slot(Some(x + y), m, stride) == Slot(Some(x), m, stride)
    ensures Slot(Some(x + y), n, stride) == Some(y)
  {
    if m < n {
      MulStep(m, n, stride);
      assert (x + y)[m * stride..m * stride + stride] == x[m * stride..m * stride + stride];
    }
    assert (x + y)[n * stride..n * stride + stride] == y;
  }

  lemma {:induction false} SlotOfSlots<T>(a: Axis, fs: seq<Cells<T>>, s: Span, start: int, d: nat, m: nat)
    requires m < |fs|
    ensures Slot(Some(Slots(a, fs, s, start, d)), m, FaceCount(s, d)) == Some(Face(a, fs[m], s, start, d))
  {
    var n := |fs| - 1;
    SlotOfPrefix(Slots(a, fs[..n], s, start, d), Face(a, fs[n], s, start, d), m, n, FaceCount(s, d));
    if m < n {
      SlotOfSlots(a, fs[..n], s, start, d, m);
    }
  }

  /** No slot interferes with another: when the messages are the packed slots of the fields of two
      senders, each field receives exactly the faces of the same field of the senders. */
  lemma SlotsDoNotInterfere<T>(a: Axis, f: Cells<T>, s: Span, h: nat, n: nat, d: nat, lows: seq<Cells<T>>,
      lowStart: int, highs: seq<Cells<T>>, highStart: int, m: nat)
    requires m < |lows| && m < |highs|
    ensures FromSlot(a, f, s, h, n, d, Some(Slots(a, lows, s, lowStart, d)), Some(Slots(a, highs, s, highStart, d)),
      m) ==
            Unpacked(a, f, s, h, n, d, Some(Face(a, lows[m], s, lowStart, d)), Some(Face(a, highs[m], s, highStart, d)))
  {
    SlotOfSlots(a, lows, s, lowStart, d, m);
    SlotOfSlots(a, highs, s, highStart, d, m);
  }
}
