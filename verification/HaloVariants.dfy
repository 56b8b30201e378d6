/** The other forms of the exchange, related to the exchange of one whole field: several fields in one
    message, one layer of a field, and faces without corners. */
module HaloVariants {
  import opened HaloFaces
  import opened HaloExchange
  import Nccl = HaloNccl

  // ----- Batched fields -----

  /** Fields of nz layers each, stacked: layer k of field f is layer f * nz + k. */
  function Stacked<T>(fields: nat -> Cells<T>, nz: Pos): Cells<T> {
    Cells((k: int, j: int, i: int) => if k < 0 then fields(0).at(k, j, i) else fields(k / nz).at(k % nz, j, i))
  }

  function FieldOf<T>(init: (nat, Coord) -> Cells<T>, f: nat): Coord -> Cells<T> {
    (c: Coord) => init(f, c)
  }

  function StackOf<T>(init: (nat, Coord) -> Cells<T>, nz: Pos): Coord -> Cells<T> {
    (c: Coord) => Stacked((f: nat) => init(f, c), nz)
  }

  function FieldJob(d: nat, nz: Pos): Job { Job(d, 0, nz, false, false) }

  function BatchJob(d: nat, n: nat, nz: Pos): Job { Job(d, 0, n * nz, false, false) }

  lemma DecodeInSlot(a: Axis, lines: nat, d: nat, nz: Pos, f: nat, idx: nat)
    requires 0 < lines * d && idx < nz * (lines * d)
    ensures var (c, s) := (Decode(a, lines, d, idx), Decode(a, lines, d, f * (nz * (lines * d)) + idx));
            c.0 < nz && s == (f * nz + c.0, c.1, c.2)
  {
    var size: nat := lines * d;
    var k, rest := idx / size, idx % size;
    assert f * (nz * size) + idx == (f * nz + k) * size + rest;
    DivMod(f * nz + k, rest, size);
    DivBelow(idx, nz, size);
  }

  lemma BatchedEntry<T>(a: Axis, fields: nat -> Cells<T>, n: nat, nz: Pos, line: nat, lines: nat, start: int, d: nat,
      f: nat, idx: nat)
    requires f < n && idx < nz * (lines * d)
    ensures var stride := nz * (lines * d);
            var (batch, face) :=
              (Face(a, Stacked(fields, nz), Span(0, n * nz, line, lines), start, d),
              Face(a, fields(f), Span(0, nz, line, lines), start, d));
            f * stride + idx < |batch| && batch[f * stride + idx] == face[idx]
  {
    var size: nat := lines * d;
    var stride := nz * size;
    DivBelow(idx, nz, size);
    assert (n * nz) * size == n * stride;
    MulStep(f, n, stride);
    DecodeInSlot(a, lines, d, nz, f, idx);
    DivMod(f, Decode(a, lines, d, idx).0, nz);
  }

  /** No slot interferes with another: the part of a batched send buffer from slot f's start holds
      exactly the face of field f. */
  lemma BatchedFaceIsFaces<T>(a: Axis, fields: nat -> Cells<T>, n: nat, nz: Pos, line: nat, lines: nat, start: int,
      d: nat, f: nat)
    requires f < n
    ensures var stride := nz * (lines * d);
            var batch := Face(a, Stacked(fields, nz), Span(0, n * nz, line, lines), start, d);
            f * stride + stride <= |batch| &&
            batch[f * stride..f * stride + stride] == Face(a, fields(f), Span(0, nz, line, lines), start, d)
  {
    var size: nat := lines * d;
    var stride := nz * size;
    var batch, face :=
      Face(a, Stacked(fields, nz), Span(0, n * nz, line, lines), start, d),
      Face(a, fields(f), Span(0, nz, line, lines), start, d);
    assert (n * nz) * size == n * stride;
    MulStep(f, n, stride);
    forall idx: nat | idx < stride ensures batch[f * stride + idx] == face[idx] {
      BatchedEntry(a, fields, n, nz, line, lines, start, d, f, idx);
    }
  }

  /** Exchanging n fields together, in either axis order, leaves in each field what exchanging it
      alone, y first, leaves. */
  lemma BatchIsSeparateExchanges<T>(g: Layout, first: Axis, d: nat, n: nat, nz: Pos, init: (nat, Coord) -> Cells<T>,
      f: nat, c: Coord, k: nat, j: int, i: int)
    requires Valid(g) && InGrid(g, c) && d <= g.h && InBlock(g, c, j, i) && f < n && k < nz
    ensures Result(g, Program(g, first, BatchJob(d, n, nz)), StackOf(init, nz))(c).at(f * nz + k, j, i) ==
            Result(g, Program(g, Y, FieldJob(d, nz)), FieldOf(init, f))(c).at(k, j, i)
  {
    MulLess(f, k, n, nz);
    DivMod(f, k, nz);
    ExchangeCopiesOrigin(g, first, BatchJob(d, n, nz), StackOf(init, nz), c, f * nz + k, j, i);
    ExchangeCopiesOrigin(g, Y, FieldJob(d, nz), FieldOf(init, f), c, k, j, i);
  }

  /** A batch of fields that start from global ones, in either axis order: field f ends with the wrapped
      global field f in every cell within the depth, corners included. */
  lemma BatchFillsHalos<T>(g: Layout, first: Axis, d: nat, n: nat, nz: Pos, global: Cells<T>,
      init: (nat, Coord) -> Cells<T>, f: nat, c: Coord, k: nat, j: int, i: int)
    requires Valid(g) && InGrid(g, c) && d <= g.h && f < n && k < nz && Reached(g, d, c, j, i)
    requires Scattered(g, global, FieldOf(init, f), Job(d, 0, nz, false, false))
    ensures Result(g, Program(g, first, BatchJob(d, n, nz)), StackOf(init, nz))(c).at(f * nz + k, j, i) ==
      Wrapped(g, global, c, k, j, i)
  {
    BatchIsSeparateExchanges(g, first, d, n, nz, init, f, c, k, j, i);
    ExchangeFillsHalos(g, Y, Job(d, 0, nz, false, false), global, FieldOf(init, f), c, k, j, i);
  }

  // ----- One layer -----

  function SliceJob(g: Layout, layer: nat): Job { Job(g.h, layer, 1, true, false) }

  /** Singleton axes are filled first, then y and x are exchanged. */
  function SliceProgram(g: Layout, layer: nat): seq<Phase> {
    Program(g, if Singleton(g, X) && !Singleton(g, Y) then X else Y, SliceJob(g, layer))
  }

  /** The slice exchange leaves its layer as the full exchange does, and every other layer alone. */
  lemma SliceIsOneLayer<T>(g: Layout, layer: nat, nz: Pos, init: Coord -> Cells<T>, c: Coord, k: int, j: int, i: int)
    requires Valid(g) && InGrid(g, c) && InBlock(g, c, j, i) && layer < nz
    ensures Result(g, SliceProgram(g, layer), init)(c).at(k, j, i) ==
            if k == layer then Result(g, Program(g, Y, FieldJob(g.h, nz)), init)(c).at(k, j, i) else init(c).at(k, j, i)
  {
    ExchangeCopiesOrigin(g, if Singleton(g, X) && !Singleton(g, Y) then X else Y, SliceJob(g, layer), init, c, k, j, i);
    ExchangeCopiesOrigin(g, Y, FieldJob(g.h, nz), init, c, k, j, i);
  }

  /** The slice exchange of a global field fills the whole halo of its layer. */
  lemma SliceFillsHalos<T>(g: Layout, layer: nat, global: Cells<T>, init: Coord -> Cells<T>, c: Coord, j: int, i: int)
    requires Valid(g) && InGrid(g, c) && Scattered(g, global, init, Job(g.h, layer, 1, false, false))
      && Reached(g, g.h, c, j, i)
    ensures Result(g, SliceProgram(g, layer), init)(c).at(layer, j, i) == Wrapped(g, global, c, layer, j, i)
  {
    ExchangeFillsHalos(g, if Singleton(g, X) && !Singleton(g, Y) then X else Y, SliceJob(g, layer), global, init, c,
      layer, j, i);
  }

  /** The layout whose slices the NCCL transport exchanges: other than the full exchange it does not wrap
      the bounded axes of a single rank, unless an axis is singleton. */
  function SliceLayout(g: Layout): Layout {
    if Nccl.SingleRank(g) && (Singleton(g, Y) || Singleton(g, X)) then Nccl.Effective(g) else g
  }

  lemma OrderIrrelevant<T>(g: Layout, first: Axis, other: Axis, job: Job, init: Coord -> Cells<T>, c: Coord, k: int,
      j: int, i: int)
    requires Valid(g) && InGrid(g, c) && job.depth <= g.h && !job.inner && InBlock(g, c, j, i)
    ensures Result(g, Program(g, first, job), init)(c).at(k, j, i) ==
      Result(g, Program(g, other, job), init)(c).at(k, j, i)
  {
    ExchangeCopiesOrigin(g, first, job, init, c, k, j, i);
    ExchangeCopiesOrigin(g, other, job, init, c, k, j, i);
  }

  lemma SliceLayoutKeeps(g: Layout, c: Coord, j: int, i: int)
    requires Valid(g) && InGrid(g, c) && InBlock(g, c, j, i)
    ensures var e := SliceLayout(g); Valid(e) && e.h == g.h && InGrid(e, c) && InBlock(e, c, j, i)
  {
    Nccl.EffectiveKeeps(g);
  }

  /** The NCCL slice exchange, too, leaves its layer as a full exchange of its layout and no other. */
  lemma NcclSliceIsOneLayer<T>(g: Layout, layer: nat, nz: Pos, init: Coord -> Cells<T>, c: Coord, k: int, j: int,
      i: int)
    requires Valid(g) && InGrid(g, c) && InBlock(g, c, j, i) && layer < nz
    ensures Result(SliceLayout(g), SliceProgram(g, layer), init)(c).at(k, j, i) ==
            if k == layer then Result(SliceLayout(g), Program(g, Y, FieldJob(g.h, nz)), init)(c).at(k, j, i)
              else init(c).at(k, j, i)
  {
    SliceLayoutKeeps(g, c, j, i);
    SliceIsOneLayer(SliceLayout(g), layer, nz, init, c, k, j, i);
  }

  /** The slices of both transports agree in the cell. */
  ghost predicate SlicesAgree<T>(g: Layout, layer: nat, init: Coord -> Cells<T>, c: Coord, k: int, j: int, i: int) {
    Result(g, SliceProgram(g, layer), init)(c).at(k, j, i) ==
      Result(SliceLayout(g), SliceProgram(g, layer), init)(c).at(k, j, i)
  }

  lemma SliceIsTransported<T>(g: Layout, layer: nat, init: Coord -> Cells<T>, c: Coord, k: int, j: int, i: int)
    requires Valid(g) && InGrid(g, c) && InBlock(g, c, j, i)
    ensures Result(g, SliceProgram(g, layer), init)(c).at(k, j, i) ==
      Result(g, Program(g, Y, SliceJob(g, layer)), init)(c).at(k, j, i)
    ensures Result(Nccl.Effective(g), SliceProgram(g, layer), init)(c).at(k, j, i) ==
            Result(Nccl.Effective(g), Nccl.NcclProgram(g, SliceJob(g, layer)), init)(c).at(k, j, i)
  {
    var job, first := SliceJob(g, layer), if Singleton(g, X) && !Singleton(g, Y) then X else Y;
    Nccl.EffectiveKeeps(g);
    OrderIrrelevant(g, first, Y, job, init, c, k, j, i);
    OrderIrrelevant(Nccl.Effective(g), first, Nccl.FirstAxis(g), job, init, c, k, j, i);
  }

  /** The slice exchanges of both transports leave the same values, whatever the field, exactly when there
      are no halos, or both axes are extended, or no single rank holds a bounded axis. */
  lemma SlicesAgreeExactly(g: Layout, layer: nat)
    requires Valid(g)
    ensures (forall init: Coord -> Cells<int>, c, k, j, i :: InGrid(g, c) && InBlock(g, c, j, i) ==>
               SlicesAgree(g, layer, init, c, k, j, i)) <==>
            g.h == 0 || Nccl.NoBoundedSingleRank(g) || (!Singleton(g, Y) && !Singleton(g, X))
  {
    var job := SliceJob(g, layer);
    Nccl.TransportsAgreeExactly(g, job);
    if SliceLayout(g) == Nccl.Effective(g) {
      forall init: Coord -> Cells<int>, c, k, j, i | InGrid(g, c) && InBlock(g, c, j, i)
        ensures SlicesAgree(g, layer, init, c, k, j, i) <==> Nccl.SameAt(g, job, init, c, k, j, i)
      {
        SliceIsTransported(g, layer, init, c, k, j, i);
      }
    }
  }

  /** The NCCL slice agrees with the full NCCL exchange in the cell. */
  ghost predicate SliceIsFull<T>(g: Layout, layer: nat, nz: Pos, init: Coord -> Cells<T>, c: Coord, j: int, i: int) {
    Result(SliceLayout(g), SliceProgram(g, layer), init)(c).at(layer, j, i) ==
    Result(Nccl.Effective(g), Nccl.NcclProgram(g, FieldJob(g.h, nz)), init)(c).at(layer, j, i)
  }

  lemma FullIsSliceJob<T>(g: Layout, layer: nat, nz: Pos, init: Coord -> Cells<T>, c: Coord, j: int, i: int)
    requires Valid(g) && InGrid(g, c) && InBlock(g, c, j, i) && layer < nz
    ensures Result(Nccl.Effective(g), Nccl.NcclProgram(g, FieldJob(g.h, nz)), init)(c).at(layer, j, i) ==
            Result(Nccl.Effective(g), Nccl.NcclProgram(g, SliceJob(g, layer)), init)(c).at(layer, j, i)
  {
    Nccl.EffectiveKeeps(g);
    ExchangeCopiesOrigin(Nccl.Effective(g), Nccl.FirstAxis(g), FieldJob(g.h, nz), init, c, layer, j, i);
    ExchangeCopiesOrigin(Nccl.Effective(g), Nccl.FirstAxis(g), SliceJob(g, layer), init, c, layer, j, i);
  }

  lemma OtherLayersSame<T>(g: Layout, layer: nat, init: Coord -> Cells<T>, c: Coord, k: int, j: int, i: int)
    requires Valid(g) && InGrid(g, c) && InBlock(g, c, j, i) && k != layer
    ensures Nccl.SameAt(g, SliceJob(g, layer), init, c, k, j, i)
  {
    Nccl.EffectiveKeeps(g);
    ExchangeCopiesOrigin(g, Y, SliceJob(g, layer), init, c, k, j, i);
    ExchangeCopiesOrigin(Nccl.Effective(g), Nccl.FirstAxis(g), SliceJob(g, layer), init, c, k, j, i);
  }

  /** Within the NCCL transport the slice agrees with the full exchange, whatever the field, exactly when
      there are no halos, or an axis is singleton, or no single rank holds a bounded axis. */
  lemma NcclSliceIsFullExactly(g: Layout, layer: nat, nz: Pos)
    requires Valid(g) && layer < nz
    ensures (forall init: Coord -> Cells<int>, c, j, i :: InGrid(g, c) && InBlock(g, c, j, i) ==>
               SliceIsFull(g, layer, nz, init, c, j, i)) <==>
            g.h == 0 || Nccl.NoBoundedSingleRank(g) || Singleton(g, Y) || Singleton(g, X)
  {
    var job := SliceJob(g, layer);
    Nccl.TransportsAgreeExactly(g, job);
    forall init: Coord -> Cells<int>, c, j, i | InGrid(g, c) && InBlock(g, c, j, i)
      ensures SliceIsFull(g, layer, nz, init, c, j, i) <==>
        (SliceLayout(g) == g ==> Nccl.SameAt(g, job, init, c, layer, j, i))
    {
      FullIsSliceJob(g, layer, nz, init, c, j, i);
      SliceIsTransported(g, layer, init, c, layer, j, i);
    }
    if SliceLayout(g) == g {
      forall init: Coord -> Cells<int>, c, k, j, i | InGrid(g, c) && InBlock(g, c, j, i) && k != layer
        ensures Nccl.SameAt(g, job, init, c, k, j, i)
      {
        OtherLayersSame(g, layer, init, c, k, j, i);
      }
    }
  }

  // ----- Faces only -----

  /** The MPI face exchange: x and y are packed before either is unpacked. */
  function MpiFaceProgram(g: Layout, job: Job): seq<Phase> {
    if job.depth == 0 then []
    else if Singleton(g, X) then [Fill(X, job), Pass(g, Y, job)]
    else if Singleton(g, Y) then [Exchange([X], job, Some(Y))]
    else [Exchange([X, Y], job, None)]
  }

  /** The NCCL face exchange sends physical lines only; on a single rank or a reduced grid it is the
      ordinary exchange. */
  function NcclFaceProgram(g: Layout, job: Job): seq<Phase> {
    if job.depth == 0 then []
    else if Nccl.SingleRank(g) || Singleton(g, X) || Singleton(g, Y) then Nccl.NcclProgram(g, job.(inner := false))
    else [Exchange([X, Y], job.(inner := true), None)]
  }

  /** Not in a corner of the halo: physical along at least one axis. */
  predicate OffCorner(g: Layout, c: Coord, j: int, i: int) {
    g.h <= j < g.h + Size(g, Y, c.y) || g.h <= i < g.h + Size(g, X, c.x)
  }

  predicate ComesAlong(g: Layout, a: Axis, d: nat, place: nat, p: int) {
    FromSide(g, a, d, place, p, Low) || FromSide(g, a, d, place, p, High)
  }

  /** The block after the faces of both axes, all packed from `before`, are unpacked, x first. */
  function BothFaces<T>(g: Layout, job: Job, c: Coord, before: Coord -> Cells<T>): Cells<T> {
    Received(g, Y, c, Received(g, X, c, before(c), before, job), before, job)
  }

  lemma BothFacesUnpacked<T>(g: Layout, job: Job, c: Coord, before: Coord -> Cells<T>)
    ensures Advance(g, Exchange([X, Y], job, None), c, before) == BothFaces(g, job, c, before)
  {
    var f := Received(g, X, c, before(c), before, job);
    assert [X, Y][1..] == [Y] && [Y][1..] == [];
    assert UnpackAll(g, [], c, BothFaces(g, job, c, before), before, job) == BothFaces(g, job, c, before);
    assert UnpackAll(g, [Y], c, f, before, job) == BothFaces(g, job, c, before);
  }

  /** Where one joint exchange copies a cell from: its home along y if it is reached from there, else
      its home along x, never both. */
  lemma BothFacesCopy<T>(g: Layout, job: Job, c: Coord, before: Coord -> Cells<T>, k: int, j: int, i: int)
    requires !Singleton(g, Y) && !Singleton(g, X) && job.depth <= g.h
    ensures var (y, j') := HomeAlong(g, Y, job.depth, c.y, j);
            var (x, i') := HomeAlong(g, X, job.depth, c.x, i);
            BothFaces(g, job, c, before).at(k, j, i) ==
            if Within(SpanOf(g, Y, c, job), k, i) && ComesAlong(g, Y, job.depth, c.y, j)
              then before(Coord(y, c.x)).at(k, j', i)
            else if Within(SpanOf(g, X, c, job), k, j) && ComesAlong(g, X, job.depth, c.x, i)
              then before(Coord(c.y, x)).at(k, j, i')
            else before(c).at(k, j, i)
  {
    ArrivalsComeHome(g, Y, job, c, Received(g, X, c, before(c), before, job), before, k, i, j);
    ArrivalsComeHome(g, X, job, c, before(c), before, k, j, i);
  }

  /** A physical position comes from itself. */
  lemma PhysicalIsHome(g: Layout, a: Axis, d: nat, place: nat, p: int)
    requires ValidAxis(g, a) && place < Ranks(g, a) && d <= g.h && g.h <= p < g.h + Size(g, a, place)
    ensures HomeAlong(g, a, d, place, p) == (place, p) && !ComesAlong(g, a, d, place, p)
  {
  }

  lemma RestIsHome(g: Layout, a: Axis, d: nat, place: nat, p: int)
    requires !Singleton(g, a) && !ComesAlong(g, a, d, place, p)
    ensures HomeAlong(g, a, d, place, p) == (place, p)
  {
  }

  /** With both axes active the joint exchange of physical-to-physical faces and of full faces agree
      with the whole exchange off the corners. */
  lemma JointFacesAgree<T>(g: Layout, job: Job, c: Coord, init: Coord -> Cells<T>, k: int, j: int, i: int)
    requires Valid(g) && InGrid(g, c) && !Singleton(g, Y) && !Singleton(g, X) && 0 < job.depth <= g.h
    requires InBlock(g, c, j, i) && OffCorner(g, c, j, i)
    ensures BothFaces(g, job, c, init).at(k, j, i) ==
      Result(g, Program(g, Y, job.(inner := false)), init)(c).at(k, j, i)
  {
    BothFacesCopy(g, job, c, init, k, j, i);
    ExchangeCopiesOrigin(g, Y, job.(inner := false), init, c, k, j, i);
    if g.h <= j < g.h + Size(g, Y, c.y) {
      PhysicalIsHome(g, Y, job.depth, c.y, j);
      if !ComesAlong(g, X, job.depth, c.x, i) { RestIsHome(g, X, job.depth, c.x, i); }
    } else {
      PhysicalIsHome(g, X, job.depth, c.x, i);
      if !ComesAlong(g, Y, job.depth, c.y, j) { RestIsHome(g, Y, job.depth, c.y, j); }
    }
  }

  lemma OnePhase<T>(g: Layout, ph: Phase, init: Coord -> Cells<T>, c: Coord)
    ensures Result(g, [ph], init)(c) == Advance(g, ph, c, init)
  {
    AfterOne(g, [ph], init, 0);
    assert After(g, [ph], init, 0) == init;
  }

  /** The MPI face exchange agrees with the whole exchange in every cell off the corners. */
  lemma MpiFacesAgree<T>(g: Layout, job: Job, init: Coord -> Cells<T>, c: Coord, k: int, j: int, i: int)
    requires Valid(g) && InGrid(g, c) && job.depth <= g.h && !job.inner && InBlock(g, c, j, i) && OffCorner(g, c, j, i)
    ensures Result(g, MpiFaceProgram(g, job), init)(c).at(k, j, i) == Result(g, Program(g, Y, job), init)(c).at(k, j, i)
  {
    if job.depth > 0 {
      if Singleton(g, X) {
        assert MpiFaceProgram(g, job) == Program(g, X, job);
        ExchangeCopiesOrigin(g, X, job, init, c, k, j, i);
        ExchangeCopiesOrigin(g, Y, job, init, c, k, j, i);
      } else if Singleton(g, Y) {
        OnePhase(g, Exchange([X], job, Some(Y)), init, c);
        FilledFacesAgree(g, job, init, c, k, j, i);
      } else {
        OnePhase(g, Exchange([X, Y], job, None), init, c);
        BothFacesUnpacked(g, job, c, init);
        JointFacesAgree(g, job, c, init, k, j, i);
        assert job.(inner := false) == job;
      }
    }
  }

  /** The face exchange of a global field fills, to its depth, the halo off the corners. */
  lemma MpiFacesFillHalos<T>(g: Layout, d: nat, layers: nat, global: Cells<T>, init: Coord -> Cells<T>, c: Coord,
      k: int, j: int, i: int)
    requires Valid(g) && InGrid(g, c) && d <= g.h && 0 <= k < layers && Reached(g, d, c, j, i)
      && Scattered(g, global, init, Job(d, 0, layers, false, false))
    requires g.h <= j < g.h + SizeAt(g, Y, c) || g.h <= i < g.h + SizeAt(g, X, c)
    ensures Result(g, MpiFaceProgram(g, Job(d, 0, layers, false, false)), init)(c).at(k, j, i) ==
      Wrapped(g, global, c, k, j, i)
  {
    var job := Job(d, 0, layers, false, false);
    MpiFacesAgree(g, job, init, c, k, j, i);
    ExchangeFillsHalos(g, Y, job, global, init, c, k, j, i);
  }

  /** With a singleton y the x faces are packed, y is filled, and the x faces are unpacked. */
  lemma FilledFacesAgree<T>(g: Layout, job: Job, init: Coord -> Cells<T>, c: Coord, k: int, j: int, i: int)
    requires Valid(g) && InGrid(g, c) && Singleton(g, Y) && !Singleton(g, X) && job.depth <= g.h && !job.inner
    requires InBlock(g, c, j, i) && OffCorner(g, c, j, i) && 0 < job.depth
    ensures Advance(g, Exchange([X], job, Some(Y)), c, init).at(k, j, i) ==
      Result(g, Program(g, Y, job), init)(c).at(k, j, i)
  {
    var f := LocallyFilled(g, Some(Y), c, init(c), job);
    var r := Received(g, X, c, f, init, job);
    assert [X][1..] == [] && UnpackAll(g, [], c, r, init, job) == r;
    ArrivalsComeHome(g, X, job, c, f, init, k, j, i);
    FilledSingleton(Y, init(c), SpanOf(g, Y, c, job), g.h, job.depth, k, i, j);
    ExchangeCopiesOrigin(g, Y, job, init, c, k, j, i);
    if g.h <= j < g.h + Size(g, Y, c.y) {
      PhysicalIsHome(g, Y, job.depth, c.y, j);
    } else {
      PhysicalIsHome(g, X, job.depth, c.x, i);
    }
  }

  /** The NCCL face exchange agrees with the whole NCCL exchange in every cell off the corners, and,
      when both axes are active on several ranks, leaves the corners alone. */
  lemma NcclFacesAgree<T>(g: Layout, job: Job, init: Coord -> Cells<T>, c: Coord, k: int, j: int, i: int)
    requires Valid(g) && InGrid(g, c) && job.depth <= g.h && !job.inner && InBlock(g, c, j, i)
    ensures OffCorner(g, c, j, i) ==>
              Result(Nccl.Effective(g), NcclFaceProgram(g, job), init)(c).at(k, j, i) ==
              Result(Nccl.Effective(g), Nccl.NcclProgram(g, job), init)(c).at(k, j, i)
    ensures !OffCorner(g, c, j, i) && !Nccl.SingleRank(g) && !Singleton(g, X) && !Singleton(g, Y) ==>
              Result(Nccl.Effective(g), NcclFaceProgram(g, job), init)(c).at(k, j, i) == init(c).at(k, j, i)
  {
    if Nccl.SingleRank(g) || Singleton(g, X) || Singleton(g, Y) || job.depth == 0 {
      assert job.(inner := false) == job;
    } else {
      var inner := job.(inner := true);
      OnePhase(g, Exchange([X, Y], inner, None), init, c);
      BothFacesUnpacked(g, inner, c, init);
      if OffCorner(g, c, j, i) {
        JointFacesAgree(g, inner, c, init, k, j, i);
        assert inner.(inner := false) == job;
        ExchangeCopiesOrigin(g, Y, job, init, c, k, j, i);
        ExchangeCopiesOrigin(g, X, job, init, c, k, j, i);
      } else {
        BothFacesCopy(g, inner, c, init, k, j, i);
      }
    }
  }

  /** The NCCL faces fill the same cells, for the layout that transport exchanges. */
  lemma NcclFacesFillHalos<T>(g: Layout, d: nat, layers: nat, global: Cells<T>, init: Coord -> Cells<T>, c: Coord,
      k: int, j: int, i: int)
    requires Valid(g) && InGrid(g, c) && d <= g.h && 0 <= k < layers && Reached(Nccl.Effective(g), d, c, j, i)
      && Scattered(g, global, init, Job(d, 0, layers, false, false))
    requires g.h <= j < g.h + SizeAt(g, Y, c) || g.h <= i < g.h + SizeAt(g, X, c)
    ensures Result(Nccl.Effective(g), NcclFaceProgram(g, Job(d, 0, layers, false, false)), init)(c).at(k, j, i) ==
      Wrapped(g, global, c, k, j, i)
  {
    var job := Job(d, 0, layers, false, false);
    Nccl.EffectiveKeeps(g);
    NcclFacesAgree(g, job, init, c, k, j, i);
    Nccl.GroupsFillHalos(g, job, global, init, c, k, j, i);
  }
}
