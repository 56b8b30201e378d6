/** One rank's side of an untagged NCCL exchange along an axis: the combined payload for a single
    remote neighbour and the ordered copies inside the receive buffer. */
module HaloExchangerNccl {
  import opened HaloFaces
  import opened HaloExchange
  import opened HaloKernels
  import Nccl = HaloNccl

  /** Copies the first n entries into another place of another array. */
  method DeepCopy<T>(to: array<T>, toOffset: nat, from: array<T>, fromOffset: nat, n: nat)
    requires toOffset + n <= to.Length && fromOffset + n <= from.Length
    requires to == from ==> toOffset + n <= fromOffset || fromOffset + n <= toOffset
    modifies to
    ensures to[toOffset..toOffset + n] == old(from[fromOffset..fromOffset + n])
    ensures to[..toOffset] == old(to[..toOffset]) && to[toOffset + n..] == old(to[toOffset + n..])
  {
    forall idx | 0 <= idx < n { to[toOffset + idx] := from[fromOffset + idx]; }
  }

  method Receive<T>(buf: array<T>, message: seq<T>)
    requires |message| <= buf.Length
    modifies buf
    ensures buf[..|message|] == message
  {
    forall idx | 0 <= idx < |message| { buf[idx] := message[idx]; }
  }

  /** The send and receive buffers of one axis. */
  class AxisBuffers<T(0)> {
    const sendLow: array<T>
    const sendHigh: array<T>
    const recvLow: array<T>
    const recvHigh: array<T>

    ghost predicate Valid() {
      && sendLow != sendHigh && sendLow != recvLow && sendLow != recvHigh && sendHigh != recvLow
        && sendHigh != recvHigh && recvLow != recvHigh
      && sendLow.Length == sendHigh.Length == recvLow.Length == recvHigh.Length
    }

    constructor (size: nat)
      ensures Valid() && sendLow.Length == size
      ensures fresh({sendLow, sendHigh, recvLow, recvHigh})
    {
      sendLow, sendHigh, recvLow, recvHigh := new T[size], new T[size], new T[size], new T[size];
    }

    /** From packed faces to filled receive buffers.  `fromLow` and `fromHigh` are what the group
        delivers from either neighbour; with a single remote neighbour `fromLow` is the combined
        message. */
    method Swap(link: Nccl.Link, count: nat, fromLow: Option<seq<T>>, fromHigh: Option<seq<T>>)
      requires Valid() && 2 * count <= sendLow.Length
      requires link.Peer? ==> fromLow.Some? && |fromLow.value| == 2 * count
      requires link.Apart? ==>
        (fromLow.Some? ==> |fromLow.value| == count) && (fromHigh.Some? ==> |fromHigh.value| == count)
      modifies sendHigh, recvLow, recvHigh
      ensures sendHigh[..count] == old(sendHigh[..count])
      ensures link.Self? ==> recvLow[..count] == sendHigh[..count] && recvHigh[..count] == sendLow[..count]
      ensures link.Peer? ==>
                && sendHigh[..2 * count] == sendHigh[..count] + sendLow[..count]
                && recvLow[..count] == fromLow.value[..count] && recvHigh[..count] == fromLow.value[count..]
      ensures link.Apart? ==>
        Message(fromLow.Some?, recvLow, 0, count) == fromLow && Message(fromHigh.Some?, recvHigh, 0, count) == fromHigh
    {
      match link
      case Self =>
        DeepCopy(recvLow, 0, sendHigh, 0, count);
        DeepCopy(recvHigh, 0, sendLow, 0, count);
      case Peer(_) =>
        DeepCopy(sendHigh, count, sendLow, 0, count);
        assert sendHigh[..2 * count] == sendHigh[..count] + sendHigh[count..count + count];
        Receive(recvHigh, fromLow.value);
        assert recvHigh[0..0 + count] == fromLow.value[..count]
          && recvHigh[count..count + count] == fromLow.value[count..];
        DeepCopy(recvLow, 0, recvHigh, 0, count);
        DeepCopy(recvHigh, 0, recvHigh, count, count);
      case Apart(_, _) =>
        if fromLow.Some? { Receive(recvLow, fromLow.value); }
        if fromHigh.Some? { Receive(recvHigh, fromHigh.value); }
    }
  }

  function CountOf(g: Layout, a: Axis, c: Coord, job: Job): nat { FaceCount(SpanOf(g, a, c, job), job.depth) }

  /** The field has the rank's extents and holds the layers of the job. */
  predicate FieldFits<T>(g: Layout, c: Coord, data: array3<T>, job: Job) {
    && data.Length1 == Extent(g, Y, c) && data.Length2 == Extent(g, X, c)
    && job.depth <= g.h && !job.inner && job.layer + job.layers <= data.Length0
  }

  /** One message of the expected length from each rank called. */
  predicate Called<T>(g: Layout, a: Axis, c: Coord, job: Job, mail: map<(Coord, ()), seq<T>>) {
    match Nccl.LinkOf(g, a, c)
    case Self => true
    case Peer(n) => (n, ()) in mail && |mail[(n, ())]| == 2 * CountOf(g, a, c, job)
    case Apart(low, high) =>
      && (low.Some? ==> (low.value, ()) in mail && |mail[(low.value, ())]| == CountOf(g, a, c, job))
      && (high.Some? ==> (high.value, ()) in mail && |mail[(high.value, ())]| == CountOf(g, a, c, job))
  }

  method PackAxis<T(0)>(g: Layout, a: Axis, c: Coord, bufs: AxisBuffers<T>, data: array3<T>, ghost f: Cells<T>,
      job: Job)
    requires bufs.Valid() && FieldFits(g, c, data, job) && Represents(data, f)
      && CountOf(g, a, c, job) <= bufs.sendLow.Length
    modifies bufs.sendLow, bufs.sendHigh
    ensures bufs.sendLow[..CountOf(g, a, c, job)] == SentFace(g, a, c, f, job, Low)
    ensures bufs.sendHigh[..CountOf(g, a, c, job)] == SentFace(g, a, c, f, job, High)
  {
    var s, high := SpanOf(g, a, c, job), g.h + SizeAt(g, a, c) - job.depth;
    if a == X {
      PackX(data, f, s, g.h, job.depth, bufs.sendLow, 0);
      PackX(data, f, s, high, job.depth, bufs.sendHigh, 0);
    } else {
      PackY(data, f, s, g.h, job.depth, bufs.sendLow, 0);
      PackY(data, f, s, high, job.depth, bufs.sendHigh, 0);
    }
  }

  method UnpackAxis<T(0)>(g: Layout, a: Axis, c: Coord, bufs: AxisBuffers<T>, data: array3<T>, ghost f: Cells<T>,
      job: Job, low: bool, high: bool)
    requires bufs.Valid() && FieldFits(g, c, data, job) && Represents(data, f)
      && CountOf(g, a, c, job) <= bufs.recvLow.Length
    modifies data
    ensures Represents(data,
      UnpackedAxis(g, a, c, f, job, Message(low, bufs.recvLow, 0, CountOf(g, a, c, job)),
      Message(high, bufs.recvHigh, 0, CountOf(g, a, c, job))))
  {
    var s := SpanOf(g, a, c, job);
    if a == X {
      UnpackX(data, f, s, g.h, SizeAt(g, a, c), job.depth, low, high, bufs.recvLow, bufs.recvHigh, 0);
    } else {
      UnpackY(data, f, s, g.h, SizeAt(g, a, c), job.depth, low, high, bufs.recvLow, bufs.recvHigh, 0);
    }
  }

  /** The exchange along one axis of several points: pack, swap, unpack.  The buffers sent are the
      payloads of the plan, and the block ends as the plan unpacks the mail. */
  method ExchangeAxis<T(0)>(g: Layout, a: Axis, c: Coord, bufs: AxisBuffers<T>, data: array3<T>, ghost f: Cells<T>,
      job: Job, mail: map<(Coord, ()), seq<T>>)
    requires bufs.Valid() && FieldFits(g, c, data, job) && Represents(data, f)
      && 2 * CountOf(g, a, c, job) <= bufs.sendLow.Length
    requires Called(g, a, c, job, mail)
    modifies data, bufs.sendLow, bufs.sendHigh, bufs.recvLow, bufs.recvHigh
    ensures Represents(data,
      UnpackedAxis(g, a, c, f, job, Nccl.Buffers(g, a, c, f, mail, job).0, Nccl.Buffers(g, a, c, f, mail, job).1))
    ensures match Nccl.LinkOf(g, a, c)
            case Self => true
            case Peer(n) => bufs.sendHigh[..2 * CountOf(g, a, c, job)] == Nccl.Payload(g, a, c, f, n, job)
            case Apart(low, high) =>
              && (high.Some? ==> bufs.sendHigh[..CountOf(g, a, c, job)] == Nccl.Payload(g, a, c, f, high.value, job))
              && (low.Some? && low != high ==>
                bufs.sendLow[..CountOf(g, a, c, job)] == Nccl.Payload(g, a, c, f, low.value, job))
  {
    var link, count := Nccl.LinkOf(g, a, c), CountOf(g, a, c, job);
    PackAxis(g, a, c, bufs, data, f, job);
    var fromLow, fromHigh := None, None;
    match link {
      case Self =>
      case Peer(n) => fromLow := Some(mail[(n, ())]);
      case Apart(low, high) =>
        if low.Some? { fromLow := Some(mail[(low.value, ())]); }
        if high.Some? { fromHigh := Some(mail[(high.value, ())]); }
    }
    bufs.Swap(link, count, fromLow, fromHigh);
    var low, high := Neighbour(g, a, c, Low).Some? || Nccl.SingleRank(g), Neighbour(g, a, c, High).Some?
      || Nccl.SingleRank(g);
    assert bufs.recvLow[0..0 + count] == bufs.recvLow[..count] && bufs.recvHigh[0..0 + count] == bufs.recvHigh[..count];
    UnpackAxis(g, a, c, bufs, data, f, job, low, high);
  }

  // ----- A single rank -----

  /** The block after the local fills of a single rank, x first. */
  function LocallyExchanged<T>(g: Layout, f: Cells<T>, job: Job): Cells<T>
    requires Points(g, X) > 0 && Points(g, Y) > 0
  {
    var c := Coord(0, 0);
    if job.depth == 0 then f
    else Filled(Y, Filled(X, f, SpanOf(g, X, c, job), g.h, Points(g, X), job.depth), SpanOf(g, Y, c, job), g.h,
      Points(g, Y), job.depth)
  }

  predicate FieldOfRank<T>(g: Layout, data: array3<T>, job: Job) {
    data.Length0 >= job.layer + job.layers && data.Length1 == Points(g, Y) + 2 * g.h
      && data.Length2 == Points(g, X) + 2 * g.h
  }

  /** `exchange_halos` on a single rank: the modular fills if an axis is singleton, else the copies of the
      opposite layers, in both cases x first. */
  method ExchangeSingleRank<T>(g: Layout, data: array3<T>, ghost f: Cells<T>, job: Job)
    requires Valid(g) && Nccl.SingleRank(g) && Represents(data, f) && FieldOfRank(g, data, job) && job.depth <= g.h
      && !job.inner
    requires Points(g, X) > 0 && Points(g, Y) > 0
    modifies data
    ensures Represents(data, LocallyExchanged(g, f, job))
  {
    var d, c := job.depth, Coord(0, 0);
    if d == 0 { return; }
    assert ValidAxis(g, X) && ValidAxis(g, Y);
    Nccl.SingleRankSizes(g, X);
    Nccl.SingleRankSizes(g, Y);
    var sx, sy := SpanOf(g, X, c, job), SpanOf(g, Y, c, job);
    ghost var mid := Filled(X, f, sx, g.h, Points(g, X), d);
    if Singleton(g, X) || Singleton(g, Y) {
      FillX(data, f, sx, g.h, Points(g, X), d);
      FillY(data, mid, sy, g.h, Points(g, Y), d);
    } else {
      CopyOppositeX(data, f, sx, g.h, Points(g, X), d);
      CopyOppositeY(data, mid, sy, g.h, Points(g, Y), d);
    }
  }

  lemma FilledReads<T>(a: Axis, f: Cells<T>, e: Cells<T>, s: Span, h: nat, n: nat, d: nat, k: int, l: int, p: int)
    requires n > 0 && forall q :: At(f, a, k, l, q) == At(e, a, k, l, q)
    ensures At(Filled(a, f, s, h, n, d), a, k, l, p) == At(Filled(a, e, s, h, n, d), a, k, l, p)
  {
  }

  /** The local fills of a single rank are the exchange of the plan, and so meet its specification. */
  lemma LocalExchangeIsPlan<T>(g: Layout, job: Job, init: Coord -> Cells<T>, k: int, j: int, i: int)
    requires Valid(g) && Nccl.SingleRank(g) && job.depth <= g.h && !job.inner && Points(g, X) > 0 && Points(g, Y) > 0
    requires InBlock(g, Coord(0, 0), j, i)
    ensures LocallyExchanged(g, init(Coord(0, 0)), job).at(k, j, i) ==
      Result(Nccl.Effective(g), Nccl.NcclProgram(g, job), init)(Coord(0, 0)).at(k, j, i)
  {
    var e, c := Nccl.Effective(g), Coord(0, 0);
    Nccl.EffectiveKeeps(g);
    ExchangeCopiesOrigin(e, Nccl.FirstAxis(g), job, init, c, k, j, i);
    ExchangeCopiesOrigin(e, X, job, init, c, k, j, i);
    if job.depth > 0 { LocalPasses(g, job, init, k, j, i); }
  }

  lemma LocalPasses<T>(g: Layout, job: Job, init: Coord -> Cells<T>, k: int, j: int, i: int)
    requires Valid(g) && Nccl.SingleRank(g) && 0 < job.depth <= g.h && !job.inner && Points(g, X) > 0
      && Points(g, Y) > 0
    ensures LocallyExchanged(g, init(Coord(0, 0)), job).at(k, j, i) ==
      Result(Nccl.Effective(g), Program(Nccl.Effective(g), X, job), init)(Coord(0, 0)).at(k, j, i)
  {
    var e, c := Nccl.Effective(g), Coord(0, 0);
    var program := Program(e, X, job);
    var mid := After(e, program, init, 1);
    AfterOne(e, program, init, 0);
    AfterOne(e, program, init, 1);
    assert program[0] == Pass(e, X, job) == Pass(g, X, job) && program[1] == Pass(e, Y, job) == Pass(g, Y, job);
    var sx, sy := SpanOf(g, X, c, job), SpanOf(g, Y, c, job);
    var filled := Filled(X, init(c), sx, g.h, Points(g, X), job.depth);
    assert After(e, program, init, 0) == init && mid(c) == Advance(e, Pass(g, X, job), c, init);
    forall q ensures At(mid(c), Y, k, i, q) == At(filled, Y, k, i, q) {
      Nccl.LocalFillIsSelfExchange(g, X, job, c, init, k, q, i);
    }
    FilledReads(Y, mid(c), filled, sy, g.h, Points(g, Y), job.depth, k, i, j);
    Nccl.LocalFillIsSelfExchange(g, Y, job, c, mid, k, i, j);
  }
}
