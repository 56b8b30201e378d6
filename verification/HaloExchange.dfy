/** Halo exchange over the Cartesian decomposition: neighbours, the phases of an exchange, and where
    each cell of the result comes from. */
module HaloExchange {
  import opened Decomposition
  import opened HaloFaces

  type Pos = n: nat | n >= 1 witness 1

  /** The splits of the two horizontal axes (the first global index of each block, then the number of
      points), the halo width and the periodicity. */
  datatype Layout = Layout(y: seq<nat>, x: seq<nat>, h: nat, periodicY: bool, periodicX: bool)

  datatype Coord = Coord(y: nat, x: nat)

  datatype Side = Low | High

  function SplitOf(g: Layout, a: Axis): seq<nat> { if a == Y then g.y else g.x }

  function Ranks(g: Layout, a: Axis): nat { if SplitOf(g, a) == [] then 0 else |SplitOf(g, a)| - 1 }

  function Points(g: Layout, a: Axis): Pos {
    var s := SplitOf(g, a);
    if s != [] && s[|s| - 1] >= 1 then s[|s| - 1] else 1
  }

  function Place(c: Coord, a: Axis): nat { if a == Y then c.y else c.x }

  function Move(c: Coord, a: Axis, place: nat): Coord { if a == Y then c.(y := place) else c.(x := place) }

  predicate Singleton(g: Layout, a: Axis) { Points(g, a) == 1 }

  /** Periodic in the communicator; a singleton axis never is. */
  predicate Wraps(g: Layout, a: Axis) { (if a == Y then g.periodicY else g.periodicX) && !Singleton(g, a) }

  /** First global index, and number of physical points, of the ranks at a place along the axis. */
  function First(g: Layout, a: Axis, place: nat): nat {
    if place < Ranks(g, a) then SplitOf(g, a)[place] else 0
  }

  function Size(g: Layout, a: Axis, place: nat): nat {
    var s := SplitOf(g, a);
    if place < Ranks(g, a) && s[place] <= s[place + 1] then s[place + 1] - s[place] else 0
  }

  function SizeAt(g: Layout, a: Axis, c: Coord): nat { Size(g, a, Place(c, a)) }

  /** Extent of a rank's block along the axis, halos included. */
  function Extent(g: Layout, a: Axis, c: Coord): nat { SizeAt(g, a, c) + 2 * g.h }

  /** The blocks tile the axis in order. */
  ghost predicate Tiled(s: seq<nat>) {
    |s| >= 2 && s[0] == 0 && s[|s| - 1] >= 1 && forall i, j :: 0 <= i <= j < |s| ==> s[i] <= s[j]
  }

  /** What the grid constructor guarantees of an axis. */
  ghost predicate ValidAxis(g: Layout, a: Axis) {
    && Tiled(SplitOf(g, a))
    && (Singleton(g, a) ==> Ranks(g, a) == 1)
    && (!Singleton(g, a) ==> forall place: nat :: place < Ranks(g, a) ==> Size(g, a, place) >= g.h)
  }

  ghost predicate Valid(g: Layout) { ValidAxis(g, Y) && ValidAxis(g, X) }

  predicate InGrid(g: Layout, c: Coord) { c.y < Ranks(g, Y) && c.x < Ranks(g, X) }

  /** The Cartesian shift by one along the axis. */
  function Next(g: Layout, a: Axis, place: nat, side: Side): Option<nat> {
    match side
    case Low => if place > 0 then Some(place - 1) else if Wraps(g, a) && Ranks(g, a) > 0 then Some(Ranks(g, a) - 1)
      else None
    case High => if place + 1 < Ranks(g, a) then Some(place + 1) else if Wraps(g, a) then Some(0) else None
  }

  function Neighbour(g: Layout, a: Axis, c: Coord, side: Side): Option<Coord> {
    match Next(g, a, Place(c, a), side)
    case None => None
    case Some(place) => Some(Move(c, a, place))
  }

  function Opposite(side: Side): Side { if side == Low then High else Low }

  /** Neighbourhood is symmetric, also where both neighbours are one rank or the rank itself. */
  lemma NeighboursMutual(g: Layout, a: Axis, c: Coord, d: Coord, side: Side)
    requires InGrid(g, c) && InGrid(g, d)
    ensures Neighbour(g, a, c, side) == Some(d) <==> Neighbour(g, a, d, Opposite(side)) == Some(c)
  {
  }

  // ----- Phases -----

  /** What a pass moves: halo layers up to a depth, of some field layers; over all lines across the
      axis or (`inner`) the physical ones only; under the slice tags or the ordinary ones. */
  datatype Job = Job(depth: nat, layer: nat, layers: nat, slice: bool, inner: bool)

  function SpanOf(g: Layout, a: Axis, c: Coord, job: Job): Span {
    if job.inner then Span(job.layer, job.layers, g.h, SizeAt(g, Other(a), c))
    else Span(job.layer, job.layers, 0, Extent(g, Other(a), c))
  }

  /** One step all ranks take together: the local fill of a singleton axis, or the exchange of the
      faces of some axes, packed together and unpacked in the given order.  A singleton axis may be
      filled between the packing and the unpacking. */
  datatype Phase = Fill(axis: Axis, job: Job) | Exchange(axes: seq<Axis>, job: Job, filled: Option<Axis>)

  /** First position of the face sent to a side. */
  function FaceStart(g: Layout, a: Axis, c: Coord, d: nat, side: Side): int {
    if side == Low then g.h else g.h + SizeAt(g, a, c) - d
  }

  /** The face a rank sends to a side. */
  function SentFace<T>(g: Layout, a: Axis, c: Coord, f: Cells<T>, job: Job, side: Side): seq<T> {
    Face(a, f, SpanOf(g, a, c, job), FaceStart(g, a, c, job.depth, side), job.depth)
  }

  /** The block on a side and the first position of the face it sends back: its opposite face. */
  function SenderOn<T>(g: Layout, a: Axis, c: Coord, before: Coord -> Cells<T>, d: nat, side: Side): Option<Sender<T>> {
    match Neighbour(g, a, c, side)
    case None => None
    case Some(n) => Some(Sender(before(n), FaceStart(g, a, n, d, Opposite(side))))
  }

  /** The face arriving from a side. */
  function Arriving<T>(g: Layout, a: Axis, c: Coord, before: Coord -> Cells<T>, job: Job, side: Side): Option<seq<T>> {
    FaceFrom(a, SenderOn(g, a, c, before, job.depth, side), SpanOf(g, a, c, job), job.depth)
  }

  /** It is the face the neighbour sends: both ranks count the same lines across the axis. */
  lemma ArrivingIsSent<T>(g: Layout, a: Axis, c: Coord, before: Coord -> Cells<T>, job: Job, side: Side)
    requires Neighbour(g, a, c, side).Some?
    ensures var n := Neighbour(g, a, c, side).value;
            Arriving(g, a, c, before, job, side) == Some(SentFace(g, a, n, before(n), job, Opposite(side)))
  {
    assert Place(Neighbour(g, a, c, side).value, Other(a)) == Place(c, Other(a));
  }

  function UnpackedAxis<T>(g: Layout, a: Axis, c: Coord, f: Cells<T>, job: Job, low: Option<seq<T>>,
      high: Option<seq<T>>): Cells<T>
  {
    Unpacked(a, f, SpanOf(g, a, c, job), g.h, SizeAt(g, a, c), job.depth, low, high)
  }

  /** The block after what arrives along one axis is unpacked. */
  function Received<T>(g: Layout, a: Axis, c: Coord, f: Cells<T>, before: Coord -> Cells<T>, job: Job): Cells<T> {
    UnpackedAxis(g, a, c, f, job, Arriving(g, a, c, before, job, Low), Arriving(g, a, c, before, job, High))
  }

  function UnpackAll<T>(g: Layout, axes: seq<Axis>, c: Coord, f: Cells<T>, before: Coord -> Cells<T>,
      job: Job): Cells<T>
    decreases axes
  {
    if axes == [] then f else UnpackAll(g, axes[1..], c, Received(g, axes[0], c, f, before, job), before, job)
  }

  /** The local fill of a singleton axis, if any. */
  function LocallyFilled<T>(g: Layout, filled: Option<Axis>, c: Coord, f: Cells<T>, job: Job): Cells<T> {
    match filled
    case None => f
    case Some(a) => Filled(a, f, SpanOf(g, a, c, job), g.h, 1, job.depth)
  }

  /** A rank's block after the phase, all ranks holding `before`. */
  function Advance<T>(g: Layout, ph: Phase, c: Coord, before: Coord -> Cells<T>): Cells<T> {
    match ph
    case Fill(a, job) => LocallyFilled(g, Some(a), c, before(c), job)
    case Exchange(axes, job, filled) => UnpackAll(g, axes, c, LocallyFilled(g, filled, c, before(c), job), before, job)
  }

  /** The blocks of all ranks after t phases of a program. */
  function After<T>(g: Layout, program: seq<Phase>, init: Coord -> Cells<T>, t: nat): Coord -> Cells<T>
    requires t <= |program|
  {
    if t == 0 then init else
      var before := After(g, program, init, t - 1);
      (c: Coord) => Advance(g, program[t - 1], c, before)
  }

  function Result<T>(g: Layout, program: seq<Phase>, init: Coord -> Cells<T>): Coord -> Cells<T> {
    After(g, program, init, |program|)
  }

  /** The pass along one axis: a singleton axis is filled locally, any other exchanged. */
  function Pass(g: Layout, a: Axis, job: Job): Phase {
    if Singleton(g, a) then Fill(a, job) else Exchange([a], job, None)
  }

  // ----- Where a cell comes from -----

  /** Position p lies in a halo layer within d of the block whose face arrives from that side. */
  predicate FromSide(g: Layout, a: Axis, d: nat, place: nat, p: int, side: Side) {
    Next(g, a, place, side).Some? &&
    var n := Size(g, a, place);
    if side == Low then g.h - d <= p < g.h else g.h + n <= p < g.h + n + d
  }

  /** The place and position a pass of depth d along the axis copies position p from. */
  function HomeAlong(g: Layout, a: Axis, d: nat, place: nat, p: int): (nat, int) {
    if Singleton(g, a) then
      (place, if g.h - d <= p < g.h || g.h + 1 <= p < g.h + 1 + d then g.h else p)
    else if FromSide(g, a, d, place, p, Low) then
      var low := Next(g, a, place, Low).value;
      (low, p + Size(g, a, low))
    else if FromSide(g, a, d, place, p, High) then
      (Next(g, a, place, High).value, p - Size(g, a, place))
    else (place, p)
  }

  /** Unpacking what arrives on an axis copies each reached halo cell from its home; the rest of the
      block keeps what it held. */
  lemma ArrivalsComeHome<T>(g: Layout, a: Axis, job: Job, c: Coord, f: Cells<T>, before: Coord -> Cells<T>, k: int,
      l: int, p: int)
    requires !Singleton(g, a) && job.depth <= g.h
    ensures var (place, p') := HomeAlong(g, a, job.depth, Place(c, a), p);
            At(Received(g, a, c, f, before, job), a, k, l, p) ==
            if Within(SpanOf(g, a, c, job), k, l)
              && (FromSide(g, a, job.depth, Place(c, a), p, Low) || FromSide(g, a, job.depth, Place(c, a), p, High))
            then At(before(Move(c, a, place)), a, k, l, p') else At(f, a, k, l, p)
  {
    UnpackedFaces(a, f, SpanOf(g, a, c, job), g.h, SizeAt(g, a, c), job.depth,
                  SenderOn(g, a, c, before, job.depth, Low), SenderOn(g, a, c, before, job.depth, High), k, l, p);
  }

  lemma PassReceives<T>(g: Layout, a: Axis, job: Job, c: Coord, before: Coord -> Cells<T>)
    requires !Singleton(g, a)
    ensures Advance(g, Pass(g, a, job), c, before) == Received(g, a, c, before(c), before, job)
  {
    var f := Received(g, a, c, before(c), before, job);
    assert UnpackAll(g, [], c, f, before, job) == f;
    assert [a][1..] == [];
  }

  /** A pass copies every cell of its span from the cell's home along the axis, and no other cell
      changes. */
  lemma PassCopiesHome<T>(g: Layout, a: Axis, job: Job, c: Coord, before: Coord -> Cells<T>, k: int, l: int, p: int)
    requires job.depth <= g.h
    ensures var (place, p') := HomeAlong(g, a, job.depth, Place(c, a), p);
            At(Advance(g, Pass(g, a, job), c, before), a, k, l, p) ==
            if Within(SpanOf(g, a, c, job), k, l) then At(before(Move(c, a, place)), a, k, l, p')
              else At(before(c), a, k, l, p)
  {
    assert Move(c, a, Place(c, a)) == c;
    if Singleton(g, a) {
      FilledSingleton(a, before(c), SpanOf(g, a, c, job), g.h, job.depth, k, l, p);
    } else {
      PassReceives(g, a, job, c, before);
      ArrivalsComeHome(g, a, job, c, before(c), before, k, l, p);
    }
  }

  /** A home stays inside the process grid and inside the block there. */
  lemma HomeInside(g: Layout, a: Axis, d: nat, place: nat, p: int)
    requires ValidAxis(g, a) && place < Ranks(g, a) && d <= g.h
    ensures HomeAlong(g, a, d, place, p).0 < Ranks(g, a)
    ensures 0 <= p < Size(g, a, place) + 2 * g.h ==>
              0 <= HomeAlong(g, a, d, place, p).1 < Size(g, a, HomeAlong(g, a, d, place, p).0) + 2 * g.h
  {
  }

  // ----- A whole exchange -----

  /** The exchange of a job, one axis after the other; a zero depth does nothing. */
  function Program(g: Layout, first: Axis, job: Job): seq<Phase> {
    if job.depth == 0 then [] else [Pass(g, first, job), Pass(g, Other(first), job)]
  }

  /** Where the two passes together copy cell (j, i) of rank c from. */
  function Origin(g: Layout, d: nat, c: Coord, j: int, i: int): (Coord, int, int) {
    var (y, j') := HomeAlong(g, Y, d, c.y, j);
    var (x, i') := HomeAlong(g, X, d, c.x, i);
    (Coord(y, x), j', i')
  }

  predicate InBlock(g: Layout, c: Coord, j: int, i: int) {
    0 <= j < Extent(g, Y, c) && 0 <= i < Extent(g, X, c)
  }

  predicate InLayers(job: Job, k: int) { job.layer <= k < job.layer + job.layers }

  lemma TwoPasses<T>(g: Layout, first: Axis, job: Job, c: Coord, init: Coord -> Cells<T>, mid: Coord -> Cells<T>,
      k: int, l: int, p: int)
    requires Valid(g) && InGrid(g, c) && job.depth <= g.h && !job.inner
    requires 0 <= l < Extent(g, first, c) && 0 <= p < Extent(g, Other(first), c)
    requires forall r :: mid(r) == Advance(g, Pass(g, first, job), r, init)
    ensures var (lp, l') := HomeAlong(g, first, job.depth, Place(c, first), l);
            var (pp, p') := HomeAlong(g, Other(first), job.depth, Place(c, Other(first)), p);
            At(Advance(g, Pass(g, Other(first), job), c, mid), Other(first), k, l, p) ==
            if InLayers(job, k) then At(init(Move(Move(c, Other(first), pp), first, lp)), first, k, p', l')
              else At(init(c), first, k, p, l)
  {
    var second := Other(first);
    var (pp, p') := HomeAlong(g, second, job.depth, Place(c, second), p);
    HomeInside(g, second, job.depth, Place(c, second), p);
    PassCopiesHome(g, second, job, c, mid, k, l, p);
    PassCopiesHome(g, first, job, Move(c, second, pp), init, k, p', l);
    PassCopiesHome(g, first, job, c, init, k, p, l);
  }

  lemma AfterOne<T>(g: Layout, program: seq<Phase>, init: Coord -> Cells<T>, t: nat)
    requires t < |program|
    ensures forall r :: After(g, program, init, t + 1)(r) == Advance(g, program[t], r, After(g, program, init, t))
  {
  }

  /** The whole exchange, in either axis order, puts into every cell of every rank, corners and
      untouched outer layers included, exactly the cell of its origin; other layers keep theirs. */
  lemma ExchangeCopiesOrigin<T>(g: Layout, first: Axis, job: Job, init: Coord -> Cells<T>, c: Coord, k: int, j: int,
      i: int)
    requires Valid(g) && InGrid(g, c) && job.depth <= g.h && !job.inner && InBlock(g, c, j, i)
    ensures var (o, j', i') := Origin(g, job.depth, c, j, i);
            Result(g, Program(g, first, job), init)(c).at(k, j, i) ==
            if InLayers(job, k) then init(o).at(k, j', i') else init(c).at(k, j, i)
  {
    if job.depth > 0 {
      var program := Program(g, first, job);
      var mid := After(g, program, init, 1);
      assert program[0] == Pass(g, first, job) && After(g, program, init, 0) == init;
      AfterOne(g, program, init, 0);
      AfterOne(g, program, init, 1);
      assert forall r :: mid(r) == Advance(g, Pass(g, first, job), r, init);
      if first == Y {
        TwoPasses(g, Y, job, c, init, mid, k, j, i);
      } else {
        TwoPasses(g, X, job, c, init, mid, k, i, j);
      }
    }
  }

  // ----- Agreement with the global field -----

  /** x is one of `count` indices from `first`. */
  predicate In(first: nat, count: nat, x: int) { first <= x < first + count }

  /** A global index of the physical block of a place. */
  predicate Owned(g: Layout, a: Axis, place: nat, x: int) { In(First(g, a, place), Size(g, a, place), x) }

  lemma {:induction false} OwnerBelow(g: Layout, a: Axis, x: nat, hi: nat) returns (place: nat)
    requires Tiled(SplitOf(g, a)) && hi < |SplitOf(g, a)| && x < SplitOf(g, a)[hi]
    ensures place < hi && Owned(g, a, place, x)
    decreases hi
  {
    if SplitOf(g, a)[hi - 1] <= x { place := hi - 1; } else { place := OwnerBelow(g, a, x, hi - 1); }
  }

  /** Every point of an axis belongs to exactly one block, and no block holds anything else. */
  lemma OneOwner(g: Layout, a: Axis, x: int)
    requires ValidAxis(g, a)
    ensures 0 <= x < Points(g, a) <==> exists place: nat :: place < Ranks(g, a) && Owned(g, a, place, x)
    ensures forall p: nat, q: nat :: p < Ranks(g, a) && q < Ranks(g, a) && Owned(g, a, p, x) && Owned(g, a, q, x) ==>
              p == q
  {
    var s := SplitOf(g, a);
    if 0 <= x < Points(g, a) {
      var place := OwnerBelow(g, a, x, |s| - 1);
      assert place < Ranks(g, a) && Owned(g, a, place, x);
    }
    forall p: nat | p < Ranks(g, a) && Owned(g, a, p, x) ensures 0 <= x < Points(g, a) {
      assert s[p + 1] <= s[|s| - 1];
    }
    forall p: nat, q: nat | p < q < Ranks(g, a) ensures !(Owned(g, a, p, x) && Owned(g, a, q, x)) {
      assert s[p + 1] <= s[q];
    }
  }

  /** The global index position p of a place stands for, before wrapping. */
  function GlobalOf(g: Layout, a: Axis, place: nat, p: int): int { First(g, a, place) + p - g.h }

  /** The position stands for a global point: always on a wrapping or singleton axis, else inside. */
  predicate Covers(g: Layout, a: Axis, place: nat, p: int) {
    Singleton(g, a) || Wraps(g, a) || 0 <= GlobalOf(g, a, place, p) < Points(g, a)
  }

  lemma ModIs(x: int, n: Pos, v: int)
    requires 0 <= v < n && (x == v || x == v - n || x == v + n)
    ensures x % n == v
  {
  }

  /** A block begins where the previous one ends, and the last ends at the last point. */
  ghost predicate Bounded(g: Layout, a: Axis, place: nat) {
    && place < Ranks(g, a)
    && First(g, a, place) + Size(g, a, place) ==
      (if place + 1 < Ranks(g, a) then First(g, a, place + 1) else Points(g, a))
    && First(g, a, place) + Size(g, a, place) <= Points(g, a)
    && (place == 0 ==> First(g, a, place) == 0)
    && Size(g, a, place) >= g.h
  }

  lemma BlockBounds(g: Layout, a: Axis, place: nat)
    requires ValidAxis(g, a) && !Singleton(g, a) && place < Ranks(g, a)
    ensures Bounded(g, a, place)
  {
  }

  /** Moving home shifts the global index by nothing, or by one turn around a wrapping axis. */
  ghost predicate Shifts(g: Layout, a: Axis, d: nat, place: nat, p: int) {
    var (q, p') := HomeAlong(g, a, d, place, p);
    if Covers(g, a, place, p) then
      var (x, x', n) := (GlobalOf(g, a, place, p), GlobalOf(g, a, q, p'), Points(g, a) as int);
      g.h <= p' < g.h + Size(g, a, q) && 0 <= x' < n && (x' == x || x' == x + n || x' == x - n)
    else (q, p') == (place, p)
  }

  lemma LowHomeShifts(g: Layout, a: Axis, d: nat, place: nat, low: nat, p: int)
    requires !Singleton(g, a) && d <= g.h && g.h - d <= p < g.h
    requires low == (if place > 0 then place - 1 else Ranks(g, a) - 1) && Bounded(g, a, place) && Bounded(g, a, low)
    ensures Shifts(g, a, d, place, p)
  {
  }

  lemma HighHomeShifts(g: Layout, a: Axis, d: nat, place: nat, high: nat, p: int)
    requires !Singleton(g, a) && d <= g.h && g.h + Size(g, a, place) <= p < g.h + Size(g, a, place) + d
    requires high == (if place + 1 < Ranks(g, a) then place + 1 else 0) && Bounded(g, a, place) && Bounded(g, a, high)
    ensures Shifts(g, a, d, place, p)
  {
  }

  lemma OwnHomeShifts(g: Layout, a: Axis, d: nat, place: nat, p: int)
    requires !Singleton(g, a) && g.h <= p < g.h + Size(g, a, place) && Bounded(g, a, place)
    ensures Shifts(g, a, d, place, p)
  {
  }

  lemma HomeShifts(g: Layout, a: Axis, d: nat, place: nat, p: int)
    requires ValidAxis(g, a) && !Singleton(g, a) && place < Ranks(g, a) && d <= g.h
      && g.h - d <= p < g.h + Size(g, a, place) + d
    ensures Shifts(g, a, d, place, p)
  {
    var low, high := if place > 0 then place - 1 else Ranks(g, a) - 1, if place + 1 < Ranks(g, a) then place + 1 else 0;
    BlockBounds(g, a, place);
    BlockBounds(g, a, low);
    BlockBounds(g, a, high);
    if p < g.h {
      LowHomeShifts(g, a, d, place, low, p);
    } else if p >= g.h + Size(g, a, place) {
      HighHomeShifts(g, a, d, place, high, p);
    } else {
      OwnHomeShifts(g, a, d, place, p);
    }
  }

  /** The home of a position within d of the physical points is a physical point: that of the wrapped
      global index.  Past a bounded edge a position is its own home. */
  lemma HomeIsGlobal(g: Layout, a: Axis, d: nat, place: nat, p: int)
    requires ValidAxis(g, a) && place < Ranks(g, a) && d <= g.h && g.h - d <= p < g.h + Size(g, a, place) + d
    ensures var (q, p') := HomeAlong(g, a, d, place, p);
            if Covers(g, a, place, p) then
              g.h <= p' < g.h + Size(g, a, q) && GlobalOf(g, a, q, p') == GlobalOf(g, a, place, p) % Points(g, a)
            else (q, p') == (place, p)
  {
    var (q, p') := HomeAlong(g, a, d, place, p);
    if Singleton(g, a) {
      assert Size(g, a, 0) == 1 && First(g, a, 0) == 0;
    } else {
      HomeShifts(g, a, d, place, p);
      if Covers(g, a, place, p) {
        ModIs(GlobalOf(g, a, place, p), Points(g, a), GlobalOf(g, a, q, p'));
      }
    }
  }

  /** Every rank's physical cells hold its part of the global field. */
  ghost predicate Scattered<T>(g: Layout, global: Cells<T>, blocks: Coord -> Cells<T>, job: Job) {
    forall c: Coord, k: int, j: int, i: int ::
      InGrid(g, c) && InLayers(job, k) && g.h <= j < g.h + Size(g, Y, c.y) && g.h <= i < g.h + Size(g, X, c.x) ==>
        blocks(c).at(k, j, i) == global.at(k, GlobalOf(g, Y, c.y, j), GlobalOf(g, X, c.x, i))
  }

  /** The cell lies within d of the physical box and stands for a global point. */
  predicate Reached(g: Layout, d: nat, c: Coord, j: int, i: int) {
    && g.h - d <= j < g.h + Size(g, Y, c.y) + d && Covers(g, Y, c.y, j)
    && g.h - d <= i < g.h + Size(g, X, c.x) + d && Covers(g, X, c.x, i)
  }

  /** The global field at the wrapped global indices of a cell. */
  function Wrapped<T>(g: Layout, global: Cells<T>, c: Coord, k: int, j: int, i: int): T {
    global.at(k, GlobalOf(g, Y, c.y, j) % Points(g, Y), GlobalOf(g, X, c.x, i) % Points(g, X))
  }

  /** The central property of the exchange.  On every rank, each cell within the depth of the
      physical box and standing for a global point, corners included, holds the global field at the
      wrapped indices. */
  lemma ExchangeFillsHalos<T>(g: Layout, first: Axis, job: Job, global: Cells<T>, init: Coord -> Cells<T>, c: Coord,
      k: int, j: int, i: int)
    requires Valid(g) && InGrid(g, c) && job.depth <= g.h && !job.inner && InLayers(job, k)
      && Scattered(g, global, init, job)
    requires Reached(g, job.depth, c, j, i)
    ensures Result(g, Program(g, first, job), init)(c).at(k, j, i) == Wrapped(g, global, c, k, j, i)
  {
    ExchangeCopiesOrigin(g, first, job, init, c, k, j, i);
    HomeIsGlobal(g, Y, job.depth, c.y, j);
    HomeIsGlobal(g, X, job.depth, c.x, i);
    HomeInside(g, Y, job.depth, c.y, j);
    HomeInside(g, X, job.depth, c.x, i);
  }

  /** The same of the two passes y, then x, with the blocks between them. */
  lemma PassesFillHalos<T>(g: Layout, job: Job, global: Cells<T>, init: Coord -> Cells<T>, mid: Coord -> Cells<T>,
      c: Coord, k: int, j: int, i: int)
    requires Valid(g) && InGrid(g, c) && job.depth <= g.h && !job.inner && InLayers(job, k)
      && Scattered(g, global, init, job)
    requires forall r :: mid(r) == Advance(g, Pass(g, Y, job), r, init)
    requires Reached(g, job.depth, c, j, i)
    ensures Advance(g, Pass(g, X, job), c, mid).at(k, j, i) == Wrapped(g, global, c, k, j, i)
  {
    TwoPasses(g, Y, job, c, init, mid, k, j, i);
    HomeIsGlobal(g, Y, job.depth, c.y, j);
    HomeIsGlobal(g, X, job.depth, c.x, i);
    HomeInside(g, Y, job.depth, c.y, j);
    HomeInside(g, X, job.depth, c.x, i);
  }

  /** Physical cells are unchanged, and so is every cell more than the depth away from the box. */
  lemma ExchangeKeepsRest<T>(g: Layout, first: Axis, job: Job, init: Coord -> Cells<T>, c: Coord, k: int, j: int,
      i: int)
    requires Valid(g) && InGrid(g, c) && job.depth <= g.h && !job.inner && InBlock(g, c, j, i)
    requires g.h <= j < g.h + Size(g, Y, c.y) || !(g.h - job.depth <= j < g.h + Size(g, Y, c.y) + job.depth)
    requires g.h <= i < g.h + Size(g, X, c.x) || !(g.h - job.depth <= i < g.h + Size(g, X, c.x) + job.depth)
    ensures Result(g, Program(g, first, job), init)(c).at(k, j, i) == init(c).at(k, j, i)
  {
    ExchangeCopiesOrigin(g, first, job, init, c, k, j, i);
    assert HomeAlong(g, Y, job.depth, c.y, j) == (c.y, j) && HomeAlong(g, X, job.depth, c.x, i) == (c.x, i);
  }
}
