/** The MPI exchanger of one rank: its eight message buffers and the methods that pack, receive and
    unpack in place.  What the network delivers is a parameter; the methods are proved to send and
    to do exactly what `HaloMpi.Plan` has the rank send and do. */
module HaloExchangerMpi {
  import opened HaloFaces
  import opened HaloExchange
  import opened HaloKernels
  import Mpi = HaloMpi

  /** Room for the faces of the largest field, 16 blocks of nz layers. */
  function BufferSize(g: Layout, a: Axis, c: Coord, nz: nat): nat {
    FaceCount(Span(0, 16 * nz, 0, Extent(g, Other(a), c)), g.h)
  }

  /** A field of up to 16 * nz layers fits, at any depth up to the halo. */
  lemma BufferHoldsFaces(g: Layout, a: Axis, c: Coord, nz: nat, job: Job)
    requires job.layers <= 16 * nz && job.depth <= g.h && !job.inner
    ensures FaceCount(SpanOf(g, a, c, job), job.depth) <= BufferSize(g, a, c, nz)
  {
    var lines := Extent(g, Other(a), c);
    assert lines * job.depth <= lines * g.h by { assert lines * (g.h - job.depth) >= 0; }
    assert job.layers * (lines * job.depth) <= job.layers * (lines * g.h) by {
      assert job.layers * (lines * g.h - lines * job.depth) >= 0;
    }
    assert job.layers * (lines * g.h) <= (16 * nz) * (lines * g.h) by {
      assert (16 * nz - job.layers) * (lines * g.h) >= 0;
    }
  }

  class HaloExchanger<T(0)> {
    const layout: Layout
    const me: Coord
    const sendLeft: array<T>
    const sendRight: array<T>
    const recvLeft: array<T>
    const recvRight: array<T>
    const sendBottom: array<T>
    const sendTop: array<T>
    const recvBottom: array<T>
    const recvTop: array<T>

    ghost predicate Valid() {
      && InGrid(layout, me) && HaloExchange.Valid(layout)
      && sendLeft != sendRight && sendLeft != recvLeft && sendLeft != recvRight && sendRight != recvLeft
        && sendRight != recvRight && recvLeft != recvRight
      && sendBottom != sendTop && sendBottom != recvBottom && sendBottom != recvTop && sendTop != recvBottom
        && sendTop != recvTop && recvBottom != recvTop
      && sendLeft.Length == sendRight.Length == recvLeft.Length == recvRight.Length
      && sendBottom.Length == sendTop.Length == recvBottom.Length == recvTop.Length
    }

    /** The x and y buffers are different arrays. */
    ghost predicate Separate() {
      {sendLeft, sendRight, recvLeft, recvRight} !! {sendBottom, sendTop, recvBottom, recvTop}
    }

    constructor (layout: Layout, me: Coord, nz: nat)
      requires InGrid(layout, me) && HaloExchange.Valid(layout)
      ensures Valid() && Separate() && this.layout == layout && this.me == me
      ensures sendLeft.Length == BufferSize(layout, X, me, nz) && sendBottom.Length == BufferSize(layout, Y, me, nz)
      ensures fresh({sendLeft, sendRight, recvLeft, recvRight}) && fresh({sendBottom, sendTop, recvBottom, recvTop})
    {
      this.layout := layout;
      this.me := me;
      var x, y := BufferSize(layout, X, me, nz), BufferSize(layout, Y, me, nz);
      sendLeft, sendRight, recvLeft, recvRight := new T[x], new T[x], new T[x], new T[x];
      sendBottom, sendTop, recvBottom, recvTop := new T[y], new T[y], new T[y], new T[y];
    }

    /** Depth -1 stands for the whole halo. */
    function Depth(depth: int): nat
      requires -1 <= depth
    {
      if depth == -1 then layout.h else depth
    }

    function JobOf(layers: nat, depth: int): Job
      requires -1 <= depth
    {
      Job(Depth(depth), 0, layers, false, false)
    }

    function Count(a: Axis, layers: nat, depth: int): nat
      requires -1 <= depth
    {
      FaceCount(SpanOf(layout, a, me, JobOf(layers, depth)), Depth(depth))
    }

    /** The field has the rank's extents, the depth is at most the halo, and a face fits the buffers. */
    predicate Ready(data: array3<T>, depth: int) {
      && -1 <= depth <= layout.h
      && data.Length1 == Extent(layout, Y, me) && data.Length2 == Extent(layout, X, me)
      && Count(X, data.Length0, depth) <= sendLeft.Length && Count(Y, data.Length0, depth) <= sendBottom.Length
    }

    predicate HasNeighbour(a: Axis, side: Side) { Neighbour(layout, a, me, side).Some? }

    /** The rank has messages to exchange along the axis. */
    predicate Talks(a: Axis, layers: nat, depth: int)
      requires -1 <= depth
    {
      !Singleton(layout, a) && Count(a, layers, depth) > 0 && (HasNeighbour(a, Low) || HasNeighbour(a, High))
    }

    lemma PhysicalWidth(a: Axis, layers: nat, depth: int)
      requires Valid() && -1 <= depth <= layout.h
      ensures Singleton(layout, a) ==> SizeAt(layout, a, me) == 1
      ensures Depth(depth) == 0 ==> Count(a, layers, depth) == 0
    {
      assert ValidAxis(layout, a);
    }

    /** What the two send buffers of an axis must hold: the messages of the phase. */
    ghost predicate Packed(a: Axis, f: Cells<T>, low: array<T>, high: array<T>, layers: nat, depth: int)
      requires -1 <= depth && Count(a, layers, depth) <= low.Length && Count(a, layers, depth) <= high.Length
      reads low, high
    {
      && low[..Count(a, layers, depth)] == SentFace(layout, a, me, f, JobOf(layers, depth), Low)
      && high[..Count(a, layers, depth)] == SentFace(layout, a, me, f, JobOf(layers, depth), High)
    }

    method PackFacesX(data: array3<T>, ghost f: Cells<T>, depth: int)
      requires Valid() && Ready(data, depth) && Represents(data, f)
      modifies sendLeft, sendRight
      ensures Packed(X, f, sendLeft, sendRight, data.Length0, depth)
    {
      var s, d := SpanOf(layout, X, me, JobOf(data.Length0, depth)), Depth(depth);
      PackX(data, f, s, layout.h, d, sendLeft, 0);
      PackX(data, f, s, layout.h + SizeAt(layout, X, me) - d, d, sendRight, 0);
    }

    method PackFacesY(data: array3<T>, ghost f: Cells<T>, depth: int)
      requires Valid() && Ready(data, depth) && Represents(data, f)
      modifies sendBottom, sendTop
      ensures Packed(Y, f, sendBottom, sendTop, data.Length0, depth)
    {
      var s, d := SpanOf(layout, Y, me, JobOf(data.Length0, depth)), Depth(depth);
      PackY(data, f, s, layout.h, d, sendBottom, 0);
      PackY(data, f, s, layout.h + SizeAt(layout, Y, me) - d, d, sendTop, 0);
    }

    /** Posts the sends and receives along x, or fills a singleton axis at once. */
    method PostExchangeHaloX(data: array3<T>, ghost f: Cells<T>, depth: int) returns (posted: bool)
      requires Valid() && Ready(data, depth) && Represents(data, f)
      modifies data, sendLeft, sendRight
      ensures Represents(data,
        if Singleton(layout, X) then LocallyFilled(layout, Some(X), me, f, JobOf(data.Length0, depth)) else f)
      ensures posted <==> Talks(X, data.Length0, depth)
      ensures posted ==> Packed(X, f, sendLeft, sendRight, data.Length0, depth)
    {
      PhysicalWidth(X, data.Length0, depth);
      if Depth(depth) == 0 { return false; }
      if Singleton(layout, X) {
        FillX(data, f, SpanOf(layout, X, me, JobOf(data.Length0, depth)), layout.h, 1, Depth(depth));
        return false;
      }
      PackFacesX(data, f, depth);
      posted := Count(X, data.Length0, depth) > 0 && (HasNeighbour(X, Low) || HasNeighbour(X, High));
    }

    method PostExchangeHaloY(data: array3<T>, ghost f: Cells<T>, depth: int) returns (posted: bool)
      requires Valid() && Ready(data, depth) && Represents(data, f)
      modifies data, sendBottom, sendTop
      ensures Represents(data,
        if Singleton(layout, Y) then LocallyFilled(layout, Some(Y), me, f, JobOf(data.Length0, depth)) else f)
      ensures posted <==> Talks(Y, data.Length0, depth)
      ensures posted ==> Packed(Y, f, sendBottom, sendTop, data.Length0, depth)
    {
      PhysicalWidth(Y, data.Length0, depth);
      if Depth(depth) == 0 { return false; }
      if Singleton(layout, Y) {
        FillY(data, f, SpanOf(layout, Y, me, JobOf(data.Length0, depth)), layout.h, 1, Depth(depth));
        return false;
      }
      PackFacesY(data, f, depth);
      posted := Count(Y, data.Length0, depth) > 0 && (HasNeighbour(Y, Low) || HasNeighbour(Y, High));
    }

    /** The network puts the messages from both sides in the receive buffers of an axis. */
    method Deliver(a: Axis, low: array<T>, high: array<T>, fromLow: Option<seq<T>>, fromHigh: Option<seq<T>>,
        count: nat)
      requires low != high && count <= low.Length && count <= high.Length
      requires (fromLow.Some? ==> |fromLow.value| == count) && (fromHigh.Some? ==> |fromHigh.value| == count)
      modifies low, high
      ensures Message(fromLow.Some?, low, 0, count) == fromLow && Message(fromHigh.Some?, high, 0, count) == fromHigh
    {
      if fromLow.Some? {
        forall idx | 0 <= idx < count { low[idx] := fromLow.value[idx]; }
        assert low[0..0 + count] == fromLow.value;
      }
      if fromHigh.Some? {
        forall idx | 0 <= idx < count { high[idx] := fromHigh.value[idx]; }
        assert high[0..0 + count] == fromHigh.value;
      }
    }

    /** Unpacks what arrived; without posted requests nothing happens. */
    method WaitExchangeHaloX(data: array3<T>, ghost f: Cells<T>, depth: int, posted: bool)
      requires Valid() && Ready(data, depth) && Represents(data, f)
      modifies data
      ensures !posted ==> Represents(data, f)
      ensures posted ==> Represents(data, UnpackedAxis(layout, X, me, f, JobOf(data.Length0, depth),
                                                       Message(HasNeighbour(X, Low), recvLeft, 0,
                                                       Count(X, data.Length0, depth)),
                                                       Message(HasNeighbour(X, High), recvRight, 0,
                                                       Count(X, data.Length0, depth))))
    {
      if posted {
        UnpackX(data, f, SpanOf(layout, X, me, JobOf(data.Length0, depth)), layout.h, SizeAt(layout, X, me),
          Depth(depth), HasNeighbour(X, Low), HasNeighbour(X, High), recvLeft, recvRight, 0);
      }
    }

    method WaitExchangeHaloY(data: array3<T>, ghost f: Cells<T>, depth: int, posted: bool)
      requires Valid() && Ready(data, depth) && Represents(data, f)
      modifies data
      ensures !posted ==> Represents(data, f)
      ensures posted ==> Represents(data, UnpackedAxis(layout, Y, me, f, JobOf(data.Length0, depth),
                                                       Message(HasNeighbour(Y, Low), recvBottom, 0,
                                                       Count(Y, data.Length0, depth)),
                                                       Message(HasNeighbour(Y, High), recvTop, 0,
                                                       Count(Y, data.Length0, depth))))
    {
      if posted {
        UnpackY(data, f, SpanOf(layout, Y, me, JobOf(data.Length0, depth)), layout.h, SizeAt(layout, Y, me),
          Depth(depth), HasNeighbour(Y, Low), HasNeighbour(Y, High), recvBottom, recvTop, 0);
      }
    }

    /** The rank's block after its pass along an axis, given the messages from both sides. */
    ghost function Passed(a: Axis, f: Cells<T>, job: Job, from: (Option<seq<T>>, Option<seq<T>>)): Cells<T> {
      if Singleton(layout, a) then LocallyFilled(layout, Some(a), me, f, job)
        else UnpackedAxis(layout, a, me, f, job, from.0, from.1)
    }

    /** One message from each neighbour, of the counted length. */
    ghost predicate Arrived(a: Axis, from: (Option<seq<T>>, Option<seq<T>>), layers: nat, depth: int)
      requires -1 <= depth
    {
      && (from.0.Some? <==> HasNeighbour(a, Low)) && (from.1.Some? <==> HasNeighbour(a, High))
      && (from.0.Some? ==> |from.0.value| == Count(a, layers, depth))
        && (from.1.Some? ==> |from.1.value| == Count(a, layers, depth))
    }

    lemma NothingArrives(data: array3<T>, a: Axis, f: Cells<T>, depth: int, from: (Option<seq<T>>, Option<seq<T>>))
      requires Ready(data, depth) && Represents(data, f) && !Singleton(layout, a)
        && Arrived(a, from, data.Length0, depth)
      requires !Talks(a, data.Length0, depth)
      ensures Represents(data, Passed(a, f, JobOf(data.Length0, depth), from))
    {
      EmptyUnpacked(data, a, f, SpanOf(layout, a, me, JobOf(data.Length0, depth)), layout.h, SizeAt(layout, a, me),
        Depth(depth), from.0, from.1);
    }

    method PassX(data: array3<T>, ghost f: Cells<T>, depth: int, from: (Option<seq<T>>, Option<seq<T>>))
      requires Valid() && Ready(data, depth) && Represents(data, f) && Arrived(X, from, data.Length0, depth)
      modifies data, sendLeft, sendRight, recvLeft, recvRight
      ensures Represents(data, Passed(X, f, JobOf(data.Length0, depth), from))
      ensures Talks(X, data.Length0, depth) ==> Packed(X, f, sendLeft, sendRight, data.Length0, depth)
    {
      var posted := PostExchangeHaloX(data, f, depth);
      if posted {
        Deliver(X, recvLeft, recvRight, from.0, from.1, Count(X, data.Length0, depth));
        WaitExchangeHaloX(data, f, depth, posted);
      } else if !Singleton(layout, X) {
        NothingArrives(data, X, f, depth, from);
      }
    }

    method PassY(data: array3<T>, ghost f: Cells<T>, depth: int, from: (Option<seq<T>>, Option<seq<T>>))
      requires Valid() && Ready(data, depth) && Represents(data, f) && Arrived(Y, from, data.Length0, depth)
      modifies data, sendBottom, sendTop, recvBottom, recvTop
      ensures Represents(data, Passed(Y, f, JobOf(data.Length0, depth), from))
      ensures Talks(Y, data.Length0, depth) ==> Packed(Y, f, sendBottom, sendTop, data.Length0, depth)
    {
      var posted := PostExchangeHaloY(data, f, depth);
      if posted {
        Deliver(Y, recvBottom, recvTop, from.0, from.1, Count(Y, data.Length0, depth));
        WaitExchangeHaloY(data, f, depth, posted);
      } else if !Singleton(layout, Y) {
        NothingArrives(data, Y, f, depth, from);
      }
    }

    /** `exchange_halos`: y, then x.  The block ends as the two phases of the plan leave it, and the
        send buffers hold the messages the plan packs in each phase. */
    method ExchangeHalos(data: array3<T>, ghost f: Cells<T>, depth: int, fromY: (Option<seq<T>>, Option<seq<T>>),
        fromX: (Option<seq<T>>, Option<seq<T>>))
      requires Valid() && Separate() && Ready(data, depth) && Represents(data, f)
      requires Arrived(Y, fromY, data.Length0, depth) && Arrived(X, fromX, data.Length0, depth)
      modifies data, sendLeft, sendRight, recvLeft, recvRight, sendBottom, sendTop, recvBottom, recvTop
      ensures var job := JobOf(data.Length0, depth);
              var mid := Passed(Y, f, job, fromY);
              && Represents(data, Passed(X, mid, job, fromX))
              && (Talks(Y, data.Length0, depth) ==> Packed(Y, f, sendBottom, sendTop, data.Length0, depth))
              && (Talks(X, data.Length0, depth) ==> Packed(X, mid, sendLeft, sendRight, data.Length0, depth))
    {
      PassY(data, f, depth, fromY);
      PassX(data, Passed(Y, f, JobOf(data.Length0, depth), fromY), depth, fromX);
    }

    /** The methods do what the plan of `HaloMpi` has the rank do: the messages packed are the plan's,
        and a pass unpacks as the plan does. */
    lemma MethodsFollowPlan(a: Axis, f: Cells<T>, job: Job, mail: map<(Coord, int), seq<T>>)
      requires !job.slice
      ensures Passed(a, f, job,
        (Mpi.MailFrom(layout, a, me, mail, Low, false), Mpi.MailFrom(layout, a, me, mail, High, false))) ==
              Mpi.UnpackPhase(layout, Pass(layout, a, job), me, f, mail)
      ensures forall side :: !Singleton(layout, a) ==>
                SentFace(layout, a, me, f, job, side) ==
                Mpi.PackPhase(layout, Pass(layout, a, job), me, f, Mpi.Tag(a, side, false))
    {
      forall side | !Singleton(layout, a)
        ensures SentFace(layout, a, me, f, job, side) ==
          Mpi.PackPhase(layout, Pass(layout, a, job), me, f, Mpi.Tag(a, side, false))
      {
        Mpi.TagsDecode(a, side, false);
      }
      if !Singleton(layout, a) {
        var f' := UnpackedAxis(layout, a, me, f, job, Mpi.MailFrom(layout, a, me, mail, Low, false),
          Mpi.MailFrom(layout, a, me, mail, High, false));
        assert [a][1..] == [] && Mpi.UnpackMail(layout, [], me, f', mail, job) == f';
      }
    }

    // ----- The call and the global field -----

    /** The messages from both sides along an axis when every rank sends its faces of `before`, d layers deep
        over `layers` layers. */
    ghost predicate SentAround(a: Axis, before: Coord -> Cells<T>, d: nat, layers: nat,
        from: (Option<seq<T>>, Option<seq<T>>))
    {
      && from.0 == Arriving(layout, a, me, before, Job(d, 0, layers, false, false), Low)
      && from.1 == Arriving(layout, a, me, before, Job(d, 0, layers, false, false), High)
    }

    /** The buffer for a side holds what the neighbour there is to receive from this rank, if there is one. */
    ghost predicate Sends(a: Axis, before: Coord -> Cells<T>, d: nat, layers: nat, side: Side, buf: array<T>)
      reads buf
    {
      var count := FaceCount(Span(0, layers, 0, Extent(layout, Other(a), me)), d);
      match Neighbour(layout, a, me, side)
      case None => true
      case Some(n) =>
        count <= buf.Length
        && Arriving(layout, a, n, before, Job(d, 0, layers, false, false), Opposite(side)) == Some(buf[..count])
    }

    lemma NeighboursReceive(a: Axis, before: Coord -> Cells<T>, job: Job, side: Side)
      requires Valid() && HasNeighbour(a, side)
      ensures var n := Neighbour(layout, a, me, side).value;
              Arriving(layout, a, n, before, job, Opposite(side)) ==
                Some(SentFace(layout, a, me, before(me), job, side))
    {
      var n := Neighbour(layout, a, me, side).value;
      NeighboursMutual(layout, a, me, n, side);
      ArrivingIsSent(layout, a, n, before, job, Opposite(side));
    }

    lemma PackedIsSent(a: Axis, before: Coord -> Cells<T>, depth: int, d: nat, layers: nat, low: array<T>,
        high: array<T>)
      requires Valid() && -1 <= depth <= layout.h && (depth == -1 ==> d == layout.h) && (depth >= 0 ==> d == depth)
      requires Count(a, layers, depth) <= low.Length && Count(a, layers, depth) <= high.Length
      requires Talks(a, layers, depth) ==> Packed(a, before(me), low, high, layers, depth)
      ensures Sends(a, before, d, layers, Low, low) && Sends(a, before, d, layers, High, high)
    {
      var job := Job(d, 0, layers, false, false);
      assert ValidAxis(layout, a);
      if HasNeighbour(a, Low) {
        NeighboursReceive(a, before, job, Low);
        assert Count(a, layers, depth) == 0 ==> low[..0] == SentFace(layout, a, me, before(me), job, Low);
      }
      if HasNeighbour(a, High) {
        NeighboursReceive(a, before, job, High);
        assert Count(a, layers, depth) == 0 ==> high[..0] == SentFace(layout, a, me, before(me), job, High);
      }
    }

    /** The blocks of all ranks between the two passes. */
    ghost function AfterY(init: Coord -> Cells<T>, d: nat, layers: nat): Coord -> Cells<T> {
      var job := Job(d, 0, layers, false, false);
      (c: Coord) => Advance(layout, Pass(layout, Y, job), c, init)
    }

    lemma PassedIsAdvance(a: Axis, before: Coord -> Cells<T>, job: Job, from: (Option<seq<T>>, Option<seq<T>>))
      requires from.0 == Arriving(layout, a, me, before, job, Low)
        && from.1 == Arriving(layout, a, me, before, job, High)
      ensures Passed(a, before(me), job, from) == Advance(layout, Pass(layout, a, job), me, before)
    {
      if !Singleton(layout, a) { PassReceives(layout, a, job, me, before); }
    }

    /** What a call leaves where all ranks start from their parts of a global field and call with the same
        depth: with -1, the default, every cell of the halo that stands for a global point holds the global
        field at the wrapped indices, corners included; with an explicit depth every cell within it. */
    lemma CallFillsHalos(global: Cells<T>, init: Coord -> Cells<T>, depth: int, d: nat, layers: nat,
        fromY: (Option<seq<T>>, Option<seq<T>>), fromX: (Option<seq<T>>, Option<seq<T>>), k: int, j: int, i: int)
      requires Valid() && -1 <= depth <= layout.h && (depth == -1 ==> d == layout.h) && (depth >= 0 ==> d == depth)
      requires Scattered(layout, global, init, Job(d, 0, layers, false, false))
      requires SentAround(Y, init, d, layers, fromY) && SentAround(X, AfterY(init, d, layers), d, layers, fromX)
      requires 0 <= k < layers && Reached(layout, d, me, j, i)
      ensures var job := JobOf(layers, depth);
              Passed(X, Passed(Y, init(me), job, fromY), job, fromX).at(k, j, i) == Wrapped(layout, global, me, k, j, i)
    {
      var job, mid := Job(d, 0, layers, false, false), AfterY(init, d, layers);
      PassedIsAdvance(Y, init, job, fromY);
      PassedIsAdvance(X, mid, job, fromX);
      PassesFillHalos(layout, job, global, init, mid, me, k, j, i);
    }

    /** The cell is in the field and holds the global field at the wrapped indices. */
    ghost predicate HoldsPoint(data: array3<T>, global: Cells<T>, k: int, j: int, i: int)
      reads data
    {
      && 0 <= k < data.Length0 && 0 <= j < data.Length1 && 0 <= i < data.Length2
      && data[k, j, i] == Wrapped(layout, global, me, k, j, i)
    }

    /** Every cell within d of the physical box that stands for a global point holds it, in all layers. */
    ghost predicate HoldsGlobal(data: array3<T>, global: Cells<T>, d: nat)
      reads data
    {
      forall k, j, i :: 0 <= k < data.Length0 && Reached(layout, d, me, j, i) ==> HoldsPoint(data, global, k, j, i)
    }

    lemma HeldFromCells(data: array3<T>, f: Cells<T>, global: Cells<T>, d: nat)
      requires Represents(data, f) && d <= layout.h
      requires data.Length1 == Extent(layout, Y, me) && data.Length2 == Extent(layout, X, me)
      requires forall k, j, i :: 0 <= k < data.Length0 && Reached(layout, d, me, j, i) ==>
                 f.at(k, j, i) == Wrapped(layout, global, me, k, j, i)
      ensures HoldsGlobal(data, global, d)
    {
      forall k, j, i | 0 <= k < data.Length0 && Reached(layout, d, me, j, i)
        ensures HoldsPoint(data, global, k, j, i)
      {
        assert f.at(k, j, i) == Wrapped(layout, global, me, k, j, i);
      }
    }

    lemma SentAroundArrives(a: Axis, before: Coord -> Cells<T>, depth: int, d: nat, layers: nat,
        from: (Option<seq<T>>, Option<seq<T>>))
      requires -1 <= depth && (depth == -1 ==> d == layout.h) && (depth >= 0 ==> d == depth)
      requires SentAround(a, before, d, layers, from)
      ensures Arrived(a, from, layers, depth)
    {
    }

    /** The call in place on a rank's part of a global field, all ranks calling with the same depth: it sends
        what the neighbours are to receive, and ends with the halo filled. */
    method ExchangeScattered(data: array3<T>, ghost global: Cells<T>, ghost init: Coord -> Cells<T>, depth: int,
        fromY: (Option<seq<T>>, Option<seq<T>>), fromX: (Option<seq<T>>, Option<seq<T>>), ghost d: nat)
      requires Valid() && Separate() && Ready(data, depth) && Represents(data, init(me))
      requires (depth == -1 ==> d == layout.h) && (depth >= 0 ==> d == depth)
      requires Scattered(layout, global, init, Job(d, 0, data.Length0, false, false))
      requires SentAround(Y, init, d, data.Length0, fromY)
      requires SentAround(X, AfterY(init, d, data.Length0), d, data.Length0, fromX)
      modifies data, sendLeft, sendRight, recvLeft, recvRight, sendBottom, sendTop, recvBottom, recvTop
      ensures HoldsGlobal(data, global, d)
      ensures Sends(Y, init, d, data.Length0, Low, sendBottom) && Sends(Y, init, d, data.Length0, High, sendTop)
      ensures Sends(X, AfterY(init, d, data.Length0), d, data.Length0, Low, sendLeft)
      ensures Sends(X, AfterY(init, d, data.Length0), d, data.Length0, High, sendRight)
    {
      SentAroundArrives(Y, init, depth, d, data.Length0, fromY);
      SentAroundArrives(X, AfterY(init, d, data.Length0), depth, d, data.Length0, fromX);
      ExchangeHalos(data, init(me), depth, fromY, fromX);
      ghost var job := JobOf(data.Length0, depth);
      ghost var f := Passed(X, Passed(Y, init(me), job, fromY), job, fromX);
      forall k, j, i | 0 <= k < data.Length0 && Reached(layout, d, me, j, i)
        ensures f.at(k, j, i) == Wrapped(layout, global, me, k, j, i)
      {
        CallFillsHalos(global, init, depth, d, data.Length0, fromY, fromX, k, j, i);
      }
      HeldFromCells(data, f, global, d);
      PassedIsAdvance(Y, init, job, fromY);
      PackedIsSent(Y, init, depth, d, data.Length0, sendBottom, sendTop);
      PackedIsSent(X, AfterY(init, d, data.Length0), depth, d, data.Length0, sendLeft, sendRight);
    }
  }
}
