/** The NCCL transport of the halo exchange.  Messages carry no tag, so a rank may send at most one
    message to any other in a group; where both neighbours along an axis are one remote rank, a
    single message carries both faces, the high one first. */
module HaloNccl {
  import opened HaloFaces
  import opened HaloExchange
  import Transport

  predicate SingleRank(g: Layout) { Ranks(g, Y) == 1 && Ranks(g, X) == 1 }

  /** What the transport does along an axis: copy locally, exchange a combined message with the one
      remote neighbour, or exchange one message with each neighbour. */
  datatype Link = Self | Peer(rank: Coord) | Apart(low: Option<Coord>, high: Option<Coord>)

  function LinkOf(g: Layout, a: Axis, c: Coord): Link {
    var low, high := Neighbour(g, a, c, Low), Neighbour(g, a, c, High);
    if SingleRank(g) || (low == Some(c) && high == Some(c)) then Self
    else if low.Some? && low == high && low != Some(c) then Peer(low.value)
    else Apart(low, high)
  }

  /** Destinations of the sends along an axis, in program order; receives have the same sources. */
  function Calls(link: Link): seq<Coord> {
    match link
    case Self => []
    case Peer(n) => [n]
    case Apart(low, high) => (if high.Some? then [high.value] else []) + (if low.Some? then [low.value] else [])
  }

  function CallsOf(g: Layout, axes: seq<Axis>, c: Coord): seq<Coord> {
    if axes == [] then [] else Calls(LinkOf(g, axes[0], c)) + CallsOf(g, axes[1..], c)
  }

  function PhaseCalls(g: Layout, ph: Phase, c: Coord): seq<Coord> {
    if ph.Fill? then [] else CallsOf(g, ph.axes, c)
  }

  predicate Linked(g: Layout, a: Axis, c: Coord, d: Coord) {
    !SingleRank(g) && c != d && (Neighbour(g, a, c, Low) == Some(d) || Neighbour(g, a, c, High) == Some(d))
  }

  /** A rank calls along an axis exactly its neighbours there other than itself, each once. */
  lemma CallsAreNeighbours(g: Layout, a: Axis, c: Coord)
    requires InGrid(g, c)
    ensures forall d :: d in Calls(LinkOf(g, a, c)) <==> Linked(g, a, c, d)
    ensures forall m, n :: 0 <= m < n < |Calls(LinkOf(g, a, c))| ==>
              Calls(LinkOf(g, a, c))[m] != Calls(LinkOf(g, a, c))[n]
    ensures forall d :: d in Calls(LinkOf(g, a, c)) ==>
              InGrid(g, d) && Place(d, Other(a)) == Place(c, Other(a)) && Place(d, a) != Place(c, a)
  {
  }

  /** The neighbour relation along an axis is symmetric. */
  lemma LinkedMutual(g: Layout, a: Axis, c: Coord, d: Coord)
    requires InGrid(g, c) && InGrid(g, d)
    ensures Linked(g, a, c, d) <==> Linked(g, a, d, c)
  {
    NeighboursMutual(g, a, c, d, Low);
    NeighboursMutual(g, a, c, d, High);
  }

  lemma {:induction false} CallsOfMember(g: Layout, axes: seq<Axis>, c: Coord, d: Coord)
    requires InGrid(g, c)
    ensures d in CallsOf(g, axes, c) <==> exists a :: a in axes && Linked(g, a, c, d)
    decreases axes
  {
    if axes != [] {
      CallsAreNeighbours(g, axes[0], c);
      CallsOfMember(g, axes[1..], c, d);
      assert axes == [axes[0]] + axes[1..];
    }
  }

  /** In one group no rank is sent two messages: x and y neighbours never coincide, and two faces for
      one remote rank are combined. */
  lemma OneMessagePerPair(g: Layout, axes: seq<Axis>, c: Coord, m: nat, n: nat)
    requires InGrid(g, c) && |axes| <= 2 && (|axes| == 2 ==> axes[0] != axes[1])
    requires m < n < |CallsOf(g, axes, c)|
    ensures CallsOf(g, axes, c)[m] != CallsOf(g, axes, c)[n]
  {
    var first := Calls(LinkOf(g, axes[0], c));
    CallsAreNeighbours(g, axes[0], c);
    assert CallsOf(g, [], c) == [];
    if |axes| == 2 {
      var second := Calls(LinkOf(g, axes[1], c));
      CallsAreNeighbours(g, axes[1], c);
      assert axes[1..][1..] == [];
      assert CallsOf(g, axes[1..], c) == second;
      assert CallsOf(g, axes, c) == first + second;
      if m < |first| <= n {
        assert first[m] in first && second[n - |first|] in second;
      } else if m >= |first| {
        assert second[m - |first|] != second[n - |first|];
      }
    } else {
      assert axes[1..] == [];
      assert CallsOf(g, axes, c) == first;
    }
  }

  // ----- Payloads -----

  /** The axis along which another rank lies. */
  function AxisTo(c: Coord, d: Coord): Axis { if c.y != d.y then Y else X }

  function Payload<T>(g: Layout, a: Axis, c: Coord, f: Cells<T>, to: Coord, job: Job): seq<T> {
    if LinkOf(g, a, c).Peer? then SentFace(g, a, c, f, job, High) + SentFace(g, a, c, f, job, Low)
    else if Neighbour(g, a, c, High) == Some(to) then SentFace(g, a, c, f, job, High)
    else SentFace(g, a, c, f, job, Low)
  }

  function PackPhase<T>(g: Layout, ph: Phase, c: Coord, f: Cells<T>, to: Coord): seq<T> {
    if ph.Fill? then [] else Payload(g, AxisTo(c, to), c, f, to, ph.job)
  }

  function MailOf<T>(mail: map<(Coord, ()), seq<T>>, from: Option<Coord>): Option<seq<T>> {
    if from.Some? && (from.value, ()) in mail then Some(mail[(from.value, ())]) else None
  }

  /** The two receive buffers of an axis once the group has completed. */
  function Buffers<T>(g: Layout, a: Axis, c: Coord, start: Cells<T>,
      mail: map<(Coord, ()), seq<T>>, job: Job): (Option<seq<T>>, Option<seq<T>>)
  {
    match LinkOf(g, a, c)
    case Self => (Some(SentFace(g, a, c, start, job, High)), Some(SentFace(g, a, c, start, job, Low)))
    case Peer(n) =>
      var combined, count := MailOf(mail, Some(n)), FaceCount(SpanOf(g, a, c, job), job.depth);
      if combined.Some? && |combined.value| == 2 * count
        then (Some(combined.value[..count]), Some(combined.value[count..])) else (None, None)
    case Apart(low, high) => (MailOf(mail, low), MailOf(mail, high))
  }

  function UnpackMail<T>(g: Layout, axes: seq<Axis>, c: Coord, f: Cells<T>, start: Cells<T>,
      mail: map<(Coord, ()), seq<T>>, job: Job): Cells<T>
    decreases axes
  {
    if axes == [] then f
    else
      var (low, high) := Buffers(g, axes[0], c, start, mail, job);
      UnpackMail(g, axes[1..], c, UnpackedAxis(g, axes[0], c, f, job, low, high), start, mail, job)
  }

  function UnpackPhase<T>(g: Layout, ph: Phase, c: Coord, f: Cells<T>, mail: map<(Coord, ()), seq<T>>): Cells<T> {
    match ph
    case Fill(a, job) => LocallyFilled(g, Some(a), c, f, job)
    case Exchange(axes, job, filled) => UnpackMail(g, axes, c, LocallyFilled(g, filled, c, f, job), f, mail, job)
  }

  ghost function Grid(g: Layout): set<Coord> {
    set y, x | 0 <= y < Ranks(g, Y) && 0 <= x < Ranks(g, X) :: Coord(y, x)
  }

  ghost function Group(g: Layout, ph: Phase, c: Coord): set<(Coord, ())> {
    set d | d in PhaseCalls(g, ph, c) :: (d, ())
  }

  ghost function Plan<T>(g: Layout, program: seq<Phase>): Transport.Plan<Coord, (), Cells<T>, seq<T>> {
    Transport.Plan(
      Grid(g),
      |program|,
      (t: nat, c: Coord) => if t < |program| then Group(g, program[t], c) else {},
      (t: nat, c: Coord) => if t < |program| then Group(g, program[t], c) else {},
      (t: nat, c: Coord, f: Cells<T>, to: Coord, tag: ()) =>
        if t < |program| then PackPhase(g, program[t], c, f, to) else [],
      (t: nat, c: Coord, f: Cells<T>, mail: map<(Coord, ()), seq<T>>) =>
        if t < |program| then UnpackPhase(g, program[t], c, f, mail) else f)
  }

  lemma CallsInGrid(g: Layout, ph: Phase, c: Coord, d: Coord)
    requires InGrid(g, c) && d in PhaseCalls(g, ph, c)
    ensures InGrid(g, d) && d in Grid(g)
  {
    CallsOfMember(g, ph.axes, c, d);
    var a :| a in ph.axes && Linked(g, a, c, d);
    CallsAreNeighbours(g, a, c);
    assert d == Coord(d.y, d.x);
  }

  lemma PlanWellMatched<T>(g: Layout, program: seq<Phase>)
    ensures Transport.WellMatched(Plan<T>(g, program))
  {
    var p := Plan<T>(g, program);
    forall t: nat, c: Coord, k: (Coord, ()) | t < p.phases && c in p.ranks && (k in p.sends(t, c) || k in p.recvs(t, c))
      ensures k.0 in p.ranks
    {
      CallsInGrid(g, program[t], c, k.0);
    }
    forall t: nat, s: Coord, d: Coord, tag: () | t < p.phases && s in p.ranks && d in p.ranks
      ensures Transport.Agree(p, t, s, d, tag)
    {
      GroupsAgree(g, program[t], s, d);
    }
  }

  /** A group's send to a rank meets that rank's receive in the same group. */
  lemma GroupsAgree(g: Layout, ph: Phase, s: Coord, d: Coord)
    requires InGrid(g, s) && InGrid(g, d)
    ensures (d, ()) in Group(g, ph, s) <==> (s, ()) in Group(g, ph, d)
  {
    if ph.Exchange? {
      CallsOfMember(g, ph.axes, s, d);
      CallsOfMember(g, ph.axes, d, s);
      LinkedMutual(g, Y, s, d);
      LinkedMutual(g, X, s, d);
    }
  }

  // ----- The messages carry the exchange -----

  /** The layout whose periodic exchange the transport performs: a single rank wraps both axes,
      bounded or not. */
  function Effective(g: Layout): Layout {
    if SingleRank(g) then g.(periodicY := true, periodicX := true) else g
  }

  /** A face a rank is sent, and the one it expects, are the same. */
  lemma PayloadFor<T>(g: Layout, a: Axis, c: Coord, n: Coord, before: Coord -> Cells<T>, job: Job)
    requires InGrid(g, c) && InGrid(g, n) && Linked(g, a, c, n)
    ensures var low, high := Arriving(g, a, c, before, job, Low), Arriving(g, a, c, before, job, High);
            var m := Payload(g, AxisTo(n, c), n, before(n), c, job);
            match LinkOf(g, a, c)
            case Self => false
            case Peer(r) => r == n && low.Some? && high.Some? && m == low.value + high.value
            case Apart(l, h) => (l == Some(n) ==> Some(m) == low) && (h == Some(n) ==> Some(m) == high)
  {
    CallsAreNeighbours(g, a, c);
    assert n in Calls(LinkOf(g, a, c));
    assert AxisTo(n, c) == a;
    NeighboursMutual(g, a, c, n, Low);
    NeighboursMutual(g, a, c, n, High);
    if Neighbour(g, a, c, Low) == Some(n) { ArrivingIsSent(g, a, c, before, job, Low); }
    if Neighbour(g, a, c, High) == Some(n) { ArrivingIsSent(g, a, c, before, job, High); }
  }

  /** The mail of a rank: one payload from each rank it calls. */
  ghost predicate RightMail<T>(g: Layout, ph: Phase, c: Coord, before: Coord -> Cells<T>,
      mail: map<(Coord, ()), seq<T>>)
  {
    forall n :: n in PhaseCalls(g, ph, c) ==> (n, ()) in mail && mail[(n, ())] == PackPhase(g, ph, n, before(n), c)
  }

  /** Whatever the link, after the group and its ordered copies each buffer holds the face of its own
      side. */
  lemma BuffersArrive<T>(g: Layout, ph: Phase, a: Axis, c: Coord, before: Coord -> Cells<T>,
      mail: map<(Coord, ()), seq<T>>)
    requires InGrid(g, c) && ph.Exchange? && a in ph.axes && !Singleton(g, a) && RightMail(g, ph, c, before, mail)
    ensures Buffers(g, a, c, before(c), mail, ph.job) ==
            (Arriving(Effective(g), a, c, before, ph.job, Low), Arriving(Effective(g), a, c, before, ph.job, High))
  {
    CallsAreNeighbours(g, a, c);
    forall n | Linked(g, a, c, n)
      ensures InGrid(g, n) && MailOf(mail, Some(n)) == Some(Payload(g, AxisTo(n, c), n, before(n), c, ph.job))
    {
      assert n in Calls(LinkOf(g, a, c));
      CallsOfMember(g, ph.axes, c, n);
    }
    match LinkOf(g, a, c)
    case Self => SelfArrives(g, a, c, before, ph.job);
    case Peer(n) =>
      assert Linked(g, a, c, n);
      PayloadFor(g, a, c, n, before, ph.job);
    case Apart(low, high) =>
      if low.Some? { assert Linked(g, a, c, low.value); PayloadFor(g, a, c, low.value, before, ph.job); }
      if high.Some? { assert Linked(g, a, c, high.value); PayloadFor(g, a, c, high.value, before, ph.job); }
  }

  lemma SelfArrives<T>(g: Layout, a: Axis, c: Coord, before: Coord -> Cells<T>, job: Job)
    requires InGrid(g, c) && !Singleton(g, a) && LinkOf(g, a, c).Self?
    ensures Arriving(Effective(g), a, c, before, job, Low) == Some(SentFace(g, a, c, before(c), job, High))
    ensures Arriving(Effective(g), a, c, before, job, High) == Some(SentFace(g, a, c, before(c), job, Low))
  {
    assert Neighbour(Effective(g), a, c, Low) == Some(c) && Neighbour(Effective(g), a, c, High) == Some(c);
  }

  lemma FirstUnpacked<T>(g: Layout, ph: Phase, axes: seq<Axis>, c: Coord, f: Cells<T>, before: Coord -> Cells<T>,
      mail: map<(Coord, ()), seq<T>>)
    requires InGrid(g, c) && ph.Exchange? && RightMail(g, ph, c, before, mail) && axes != [] && axes[0] in ph.axes
      && !Singleton(g, axes[0])
    ensures UnpackMail(g, axes, c, f, before(c), mail, ph.job) ==
            UnpackMail(g, axes[1..], c, Received(Effective(g), axes[0], c, f, before, ph.job), before(c), mail, ph.job)
  {
    BuffersArrive(g, ph, axes[0], c, before, mail);
    UnpackedAxisEffective(g, axes[0], c, f, ph.job, Arriving(Effective(g), axes[0], c, before, ph.job, Low),
      Arriving(Effective(g), axes[0], c, before, ph.job, High));
  }

  lemma UnpackedAxisEffective<T>(g: Layout, a: Axis, c: Coord, f: Cells<T>, job: Job, low: Option<seq<T>>,
      high: Option<seq<T>>)
    ensures UnpackedAxis(g, a, c, f, job, low, high) == UnpackedAxis(Effective(g), a, c, f, job, low, high)
  {
  }

  lemma {:induction false} UnpackMailUnpacksAll<T>(g: Layout, ph: Phase, axes: seq<Axis>, c: Coord, f: Cells<T>,
      before: Coord -> Cells<T>, mail: map<(Coord, ()), seq<T>>)
    requires InGrid(g, c) && ph.Exchange? && RightMail(g, ph, c, before, mail)
    requires forall a :: a in axes ==> a in ph.axes && !Singleton(g, a)
    ensures UnpackMail(g, axes, c, f, before(c), mail, ph.job) == UnpackAll(Effective(g), axes, c, f, before, ph.job)
    decreases axes
  {
    if axes != [] {
      FirstUnpacked(g, ph, axes, c, f, before, mail);
      UnpackMailUnpacksAll(g, ph, axes[1..], c, Received(Effective(g), axes[0], c, f, before, ph.job), before, mail);
    }
  }

  /** Only axes with more than one point are exchanged. */
  ghost predicate ActiveOnly(g: Layout, program: seq<Phase>) {
    forall ph, a :: ph in program && ph.Exchange? && a in ph.axes ==> !Singleton(g, a)
  }

  lemma MailIsRight<T>(g: Layout, ph: Phase, c: Coord, before: Coord -> Cells<T>, mail: map<(Coord, ()), seq<T>>)
    requires mail.Keys == Group(g, ph, c) && forall k :: k in mail ==> mail[k] == PackPhase(g, ph, k.0, before(k.0), c)
    ensures RightMail(g, ph, c, before, mail)
  {
    assert forall n :: n in PhaseCalls(g, ph, c) ==> (n, ()) in Group(g, ph, c);
  }

  lemma EffectiveFills<T>(g: Layout, filled: Option<Axis>, c: Coord, f: Cells<T>, job: Job)
    ensures LocallyFilled(g, filled, c, f, job) == LocallyFilled(Effective(g), filled, c, f, job)
  {
  }

  lemma ExchangePhaseAdvances<T>(g: Layout, ph: Phase, c: Coord, before: Coord -> Cells<T>, f: Cells<T>,
      mail: map<(Coord, ()), seq<T>>)
    requires InGrid(g, c) && ph.Exchange? && ActiveOnly(g, [ph]) && RightMail(g, ph, c, before, mail)
    ensures UnpackMail(g, ph.axes, c, f, before(c), mail, ph.job) ==
      UnpackAll(Effective(g), ph.axes, c, f, before, ph.job)
  {
    assert ph in [ph];
    UnpackMailUnpacksAll(g, ph, ph.axes, c, f, before, mail);
  }

  lemma PhaseAdvances<T>(g: Layout, ph: Phase, c: Coord, before: Coord -> Cells<T>, mail: map<(Coord, ()), seq<T>>)
    requires InGrid(g, c) && ActiveOnly(g, [ph]) && RightMail(g, ph, c, before, mail)
    ensures UnpackPhase(g, ph, c, before(c), mail) == Advance(Effective(g), ph, c, before)
  {
    match ph
    case Fill(a, job) => EffectiveFills(g, Some(a), c, before(c), job);
    case Exchange(axes, job, filled) =>
      EffectiveFills(g, filled, c, before(c), job);
      ExchangePhaseAdvances(g, ph, c, before, LocallyFilled(g, filled, c, before(c), job), mail);
  }

  /** One lockstep phase of the plan from the blocks of `now`. */
  lemma PlanPhaseAdvances<T>(g: Layout, program: seq<Phase>, t: nat, before: Coord -> Cells<T>,
      now: Coord -> Cells<T>, c: Coord)
    requires t < |program| && InGrid(g, c) && ActiveOnly(g, program)
    requires forall r :: InGrid(g, r) ==> before(r) == now(r)
    ensures UnpackPhase(g, program[t], c, before(c), Transport.PhaseMail(Plan<T>(g, program), before, t, c)) ==
      Advance(Effective(g), program[t], c, now)
  {
    var ph, mail := program[t], Transport.PhaseMail(Plan<T>(g, program), before, t, c);
    forall k | k in mail ensures mail[k] == PackPhase(g, ph, k.0, now(k.0), c) {
      CallsInGrid(g, ph, c, k.0);
    }
    MailIsRight(g, ph, c, now, mail);
    PhaseAdvances(g, ph, c, now, mail);
  }

  /** The ranks are in lockstep with `now` after `t` phases. */
  ghost predicate InStep<T>(g: Layout, program: seq<Phase>, init: Coord -> Cells<T>, t: nat, now: Coord -> Cells<T>) {
    forall r :: InGrid(g, r) ==> Transport.Lockstep(Plan(g, program), init, t, r) == now(r)
  }

  lemma LockstepOne<T>(g: Layout, program: seq<Phase>, init: Coord -> Cells<T>, now: Coord -> Cells<T>, t: nat,
      c: Coord)
    requires t < |program| && InGrid(g, c) && ActiveOnly(g, program) && InStep(g, program, init, t, now)
    ensures Transport.Lockstep(Plan(g, program), init, t + 1, c) == Advance(Effective(g), program[t], c, now)
  {
    var p := Plan<T>(g, program);
    var before := (r: Coord) => Transport.Lockstep(p, init, t, r);
    Transport.LockstepStep(p, init, before, t, c);
    PlanPhaseAdvances(g, program, t, before, now, c);
  }

  lemma LockstepStarts<T>(g: Layout, program: seq<Phase>, init: Coord -> Cells<T>)
    ensures InStep(g, program, init, 0, After(Effective(g), program, init, 0))
  {
  }

  lemma LockstepNext<T>(g: Layout, program: seq<Phase>, init: Coord -> Cells<T>, t: nat)
    requires t < |program| && ActiveOnly(g, program)
    requires InStep(g, program, init, t, After(Effective(g), program, init, t))
    ensures InStep(g, program, init, t + 1, After(Effective(g), program, init, t + 1))
  {
    var now := After(Effective(g), program, init, t);
    AfterOne(Effective(g), program, init, t);
    forall c | InGrid(g, c)
      ensures Transport.Lockstep(Plan(g, program), init, t + 1, c) == Advance(Effective(g), program[t], c, now)
    {
      LockstepOne(g, program, init, now, t, c);
    }
  }

  /** Lockstep execution of the untagged groups is the phase-by-phase exchange. */
  lemma {:induction false} LockstepAdvances<T>(g: Layout, program: seq<Phase>, init: Coord -> Cells<T>, t: nat)
    requires t <= |program| && ActiveOnly(g, program)
    ensures InStep(g, program, init, t, After(Effective(g), program, init, t))
  {
    if t == 0 {
      LockstepStarts(g, program, init);
    } else {
      LockstepAdvances(g, program, init, t - 1);
      LockstepNext(g, program, init, t - 1);
    }
  }

  // ----- Theorems over every interleaving -----

  ghost predicate Reaches<T(!new)>(g: Layout, program: seq<Phase>, init: Coord -> Cells<T>,
      w: Transport.World<Coord, (), Cells<T>, seq<T>>)
  {
    exists es :: Transport.Run(Plan(g, program), Transport.Start(Plan(g, program), init), es, w)
  }

  lemma PlanRanks<T>(g: Layout, program: seq<Phase>, c: Coord)
    ensures c in Plan<T>(g, program).ranks <==> InGrid(g, c)
    ensures Plan<T>(g, program).phases == |program|
  {
    assert InGrid(g, c) ==> Coord(c.y, c.x) in Grid(g);
  }

  lemma RankHolds<T(!new)>(g: Layout, program: seq<Phase>, init: Coord -> Cells<T>,
      es: seq<Transport.Event<Coord, ()>>, w: Transport.World<Coord, (), Cells<T>, seq<T>>, c: Coord)
    requires Transport.Run(Plan(g, program), Transport.Start(Plan(g, program), init), es, w) && InGrid(g, c)
      && ActiveOnly(g, program)
    ensures c in w.procs && w.procs[c].phase <= |program|
      && w.procs[c].data == After(Effective(g), program, init, w.procs[c].phase)(c)
  {
    PlanWellMatched<T>(g, program);
    PlanRanks<T>(g, program, c);
    Transport.RunsStayInPlan(Plan(g, program), init, es, w, c);
    LockstepAdvances(g, program, init, w.procs[c].phase);
  }

  lemma SomeRankMoves<T(!new)>(g: Layout, program: seq<Phase>, init: Coord -> Cells<T>,
      es: seq<Transport.Event<Coord, ()>>, w: Transport.World<Coord, (), Cells<T>, seq<T>>)
    requires Transport.Run(Plan(g, program), Transport.Start(Plan(g, program), init), es, w)
    ensures Transport.Finished(Plan(g, program), w) || exists e :: Transport.EnabledRendezvous(Plan(g, program), w, e)
  {
    PlanWellMatched<T>(g, program);
    Transport.NoRankWaitsForever(Plan(g, program), init, es, w);
  }

  lemma ChannelEndsEmpty<T(!new)>(g: Layout, program: seq<Phase>, init: Coord -> Cells<T>,
      es: seq<Transport.Event<Coord, ()>>, w: Transport.World<Coord, (), Cells<T>, seq<T>>, s: Coord, d: Coord, tag: ())
    requires Transport.Run(Plan(g, program), Transport.Start(Plan(g, program), init), es, w)
      && Transport.Finished(Plan(g, program), w)
    requires InGrid(g, s) && InGrid(g, d)
    ensures Transport.Queue(w.net, s, d, tag) == []
  {
    PlanWellMatched<T>(g, program);
    PlanRanks<T>(g, program, s);
    PlanRanks<T>(g, program, d);
    Transport.FinishedRunsAreEmpty(Plan(g, program), init, es, w, s, d, tag);
  }

  /** At any point of any run a rank that has finished t groups holds what the phase-by-phase exchange
      gives it; until all have finished some rank can move; a finished run leaves no message. */
  lemma AnyRunOfGroups<T(!new)>(g: Layout, program: seq<Phase>, init: Coord -> Cells<T>,
      w: Transport.World<Coord, (), Cells<T>, seq<T>>)
    requires Reaches(g, program, init, w) && ActiveOnly(g, program)
    ensures forall c :: InGrid(g, c) ==>
              c in w.procs && w.procs[c].phase <= |program|
                && w.procs[c].data == After(Effective(g), program, init, w.procs[c].phase)(c)
    ensures Transport.Finished(Plan(g, program), w) || exists e :: Transport.EnabledRendezvous(Plan(g, program), w, e)
    ensures Transport.Finished(Plan(g, program), w) ==>
              forall s, d :: InGrid(g, s) && InGrid(g, d) ==> Transport.Queue(w.net, s, d, ()) == []
  {
    var es :| Transport.Run(Plan(g, program), Transport.Start(Plan(g, program), init), es, w);
    forall c | InGrid(g, c)
      ensures c in w.procs && w.procs[c].phase <= |program|
        && w.procs[c].data == After(Effective(g), program, init, w.procs[c].phase)(c)
    {
      RankHolds(g, program, init, es, w, c);
    }
    SomeRankMoves(g, program, init, es, w);
    if Transport.Finished(Plan(g, program), w) {
      forall s, d | InGrid(g, s) && InGrid(g, d) ensures Transport.Queue(w.net, s, d, ()) == [] {
        ChannelEndsEmpty(g, program, init, es, w, s, d, ());
      }
    }
  }

  /** The order of the axes: singleton axes are filled first, then x and y are exchanged. */
  function FirstAxis(g: Layout): Axis { if Singleton(g, Y) && !Singleton(g, X) then Y else X }

  function NcclProgram(g: Layout, job: Job): seq<Phase> { Program(g, FirstAxis(g), job) }

  lemma NcclProgramActive(g: Layout, job: Job)
    ensures ActiveOnly(g, NcclProgram(g, job)) && NcclProgram(g, job) == Program(Effective(g), FirstAxis(g), job)
  {
  }

  lemma GroupsFillHalos<T>(g: Layout, job: Job, global: Cells<T>, init: Coord -> Cells<T>, c: Coord, k: int, j: int,
      i: int)
    requires Valid(g) && InGrid(g, c) && job.depth <= g.h && !job.inner && InLayers(job, k)
      && Scattered(g, global, init, job)
    requires Reached(Effective(g), job.depth, c, j, i)
    ensures Result(Effective(g), NcclProgram(g, job), init)(c).at(k, j, i) == Wrapped(g, global, c, k, j, i)
  {
    EffectiveKeeps(g);
    EffectiveScatters(g, job, global, init);
    NcclProgramActive(g, job);
    ExchangeFillsHalos(Effective(g), FirstAxis(g), job, global, init, c, k, j, i);
    EffectiveWraps(g, global, c, k, j, i);
  }

  lemma EffectiveWraps<T>(g: Layout, global: Cells<T>, c: Coord, k: int, j: int, i: int)
    ensures Wrapped(Effective(g), global, c, k, j, i) == Wrapped(g, global, c, k, j, i)
  {
  }

  /** `exchange_halos` of the NCCL transport in any interleaving: when all ranks are done, every
      cell within the depth of a rank's box and standing for a global point of the effective layout
      holds the global field at the wrapped indices. */
  lemma NcclExchangeFillsHalos<T(!new)>(g: Layout, job: Job, global: Cells<T>, init: Coord -> Cells<T>,
      w: Transport.World<Coord, (), Cells<T>, seq<T>>, c: Coord, k: int, j: int, i: int)
    requires Valid(g) && InGrid(g, c) && job.depth <= g.h && !job.inner && InLayers(job, k)
      && Scattered(g, global, init, job)
    requires Reaches(g, NcclProgram(g, job), init, w) && Transport.Finished(Plan(g, NcclProgram(g, job)), w)
    requires Reached(Effective(g), job.depth, c, j, i)
    ensures c in w.procs && w.procs[c].data.at(k, j, i) == Wrapped(g, global, c, k, j, i)
  {
    assert ActiveOnly(g, NcclProgram(g, job)) by { NcclProgramActive(g, job); }
    AnyRunOfGroups(g, NcclProgram(g, job), init, w);
    GroupsFillHalos(g, job, global, init, c, k, j, i);
  }

  lemma EffectiveSizes(g: Layout)
    ensures forall c :: InGrid(g, c) <==> InGrid(Effective(g), c)
    ensures forall a, place: nat :: First(g, a, place) == First(Effective(g), a, place)
              && Size(g, a, place) == Size(Effective(g), a, place)
  {
  }

  lemma EffectiveKeeps(g: Layout)
    ensures Valid(g) ==> Valid(Effective(g))
    ensures forall c :: InGrid(g, c) <==> InGrid(Effective(g), c)
    ensures forall a, place: nat :: First(g, a, place) == First(Effective(g), a, place)
              && Size(g, a, place) == Size(Effective(g), a, place)
  {
    EffectiveSizes(g);
    if Valid(g) {
      forall a, place: nat | !Singleton(g, a) && place < Ranks(g, a) ensures Size(Effective(g), a, place) >= g.h {
        assert ValidAxis(g, a);
      }
    }
  }

  lemma EffectiveScatters<T>(g: Layout, job: Job, global: Cells<T>, init: Coord -> Cells<T>)
    requires Scattered(g, global, init, job)
    ensures Scattered(Effective(g), global, init, job)
  {
    var e := Effective(g);
    EffectiveKeeps(g);
    forall c: Coord, k: int, j: int, i: int
      | InGrid(e, c) && InLayers(job, k) && g.h <= j < g.h + Size(e, Y, c.y) && g.h <= i < g.h + Size(e, X, c.x)
      ensures init(c).at(k, j, i) == global.at(k, GlobalOf(e, Y, c.y, j), GlobalOf(e, X, c.x, i))
    {
      assert GlobalOf(e, Y, c.y, j) == GlobalOf(g, Y, c.y, j) && GlobalOf(e, X, c.x, i) == GlobalOf(g, X, c.x, i);
    }
  }

  // ----- The two transports -----

  /** Both transports leave the same value in the cell. */
  ghost predicate SameAt<T>(g: Layout, job: Job, init: Coord -> Cells<T>, c: Coord, k: int, j: int, i: int) {
    Result(g, Program(g, Y, job), init)(c).at(k, j, i) == Result(Effective(g), NcclProgram(g, job), init)(c).at(k, j, i)
  }

  /** No bounded axis of more than one point on a single rank. */
  predicate NoBoundedSingleRank(g: Layout) {
    SingleRank(g) ==> (Singleton(g, Y) || g.periodicY) && (Singleton(g, X) || g.periodicX)
  }

  lemma HomesAgree(g: Layout, a: Axis, d: nat, place: nat, p: int)
    requires NoBoundedSingleRank(g)
    ensures HomeAlong(Effective(g), a, d, place, p) == HomeAlong(g, a, d, place, p)
  {
  }

  lemma TransportsAgree<T>(g: Layout, job: Job, init: Coord -> Cells<T>, c: Coord, k: int, j: int, i: int)
    requires Valid(g) && InGrid(g, c) && job.depth <= g.h && !job.inner && InBlock(g, c, j, i) && NoBoundedSingleRank(g)
    ensures SameAt(g, job, init, c, k, j, i)
  {
    NcclProgramActive(g, job);
    EffectiveKeeps(g);
    ExchangeCopiesOrigin(g, Y, job, init, c, k, j, i);
    ExchangeCopiesOrigin(Effective(g), FirstAxis(g), job, init, c, k, j, i);
    HomesAgree(g, Y, job.depth, c.y, j);
    HomesAgree(g, X, job.depth, c.x, i);
  }

  /** Each cell holds its own position along the axis. */
  function Positions(a: Axis): Coord -> Cells<int> {
    (c: Coord) => Cells((k: int, j: int, i: int) => if a == Y then j else i)
  }

  lemma BoundedHomes(g: Layout, a: Axis, d: nat)
    requires ValidAxis(g, a) && SingleRank(g) && !Singleton(g, a) && !Wraps(g, a) && 0 < d <= g.h
    ensures HomeAlong(g, a, d, 0, g.h - 1) == (0, g.h - 1)
    ensures HomeAlong(Effective(g), a, d, 0, g.h - 1) == (0, g.h - 1 + Size(g, a, 0))
  {
  }

  lemma SingleRankSizes(g: Layout, a: Axis)
    requires ValidAxis(g, a) && SingleRank(g)
    ensures Size(g, a, 0) == Points(g, a) >= 1 && First(g, a, 0) == 0
  {
  }

  /** The halo cell just below the physical box along an axis, physical across it. */
  function BelowCell(g: Layout, a: Axis): (int, int) { if a == Y then (g.h - 1, g.h) else (g.h, g.h - 1) }

  /** What a program leaves in that cell when cells start with their position along the axis. */
  function BelowValue(g: Layout, e: Layout, program: seq<Phase>, a: Axis, layer: int): int {
    Result(e, program, Positions(a))(Coord(0, 0)).at(layer, BelowCell(g, a).0, BelowCell(g, a).1)
  }

  lemma BelowCellCopies(e: Layout, first: Axis, a: Axis, job: Job)
    requires Valid(e) && SingleRank(e) && !Singleton(e, a) && 0 < job.depth <= e.h && job.layers > 0 && !job.inner
    ensures InBlock(e, Coord(0, 0), BelowCell(e, a).0, BelowCell(e, a).1)
    ensures HomeAlong(e, a, job.depth, 0, e.h - 1) == (0, BelowValue(e, e, Program(e, first, job), a, job.layer))
  {
    var (j, i) := BelowCell(e, a);
    SingleRankSizes(e, Y);
    SingleRankSizes(e, X);
    ExchangeCopiesOrigin(e, first, job, Positions(a), Coord(0, 0), job.layer, j, i);
  }

  /** A bounded axis of several points on one rank, and an exchange that is not empty. */
  ghost predicate BoundedCase(g: Layout, a: Axis, job: Job) {
    && Valid(g) && SingleRank(g) && !Singleton(g, a) && !Wraps(g, a)
    && 0 < job.depth <= g.h && job.layers > 0 && !job.inner
  }

  lemma BoundedKept(g: Layout, a: Axis, job: Job)
    requires BoundedCase(g, a, job)
    ensures InBlock(g, Coord(0, 0), BelowCell(g, a).0, BelowCell(g, a).1)
    ensures BelowValue(g, g, Program(g, Y, job), a, job.layer) == g.h - 1
  {
    BelowCellCopies(g, Y, a, job);
    BoundedHomes(g, a, job.depth);
  }

  lemma BoundedWrapped(g: Layout, a: Axis, job: Job)
    requires BoundedCase(g, a, job)
    ensures BelowValue(g, Effective(g), NcclProgram(g, job), a, job.layer) == g.h - 1 + Size(g, a, 0)
  {
    EffectiveKeeps(g);
    BelowCellCopies(Effective(g), FirstAxis(g), a, job);
    BoundedHomes(g, a, job.depth);
    NcclProgramActive(g, job);
    assert BelowCell(Effective(g), a) == BelowCell(g, a);
  }

  /** On one rank the halo cell below a bounded axis keeps its value under MPI; NCCL wraps it. */
  lemma BoundedSingleRankDiffers(g: Layout, a: Axis, job: Job)
    requires BoundedCase(g, a, job)
    ensures var (j, i) := BelowCell(g, a);
            InGrid(g, Coord(0, 0)) && InBlock(g, Coord(0, 0), j, i)
              && !SameAt(g, job, Positions(a), Coord(0, 0), job.layer, j, i)
  {
    BoundedKept(g, a, job);
    BoundedWrapped(g, a, job);
    SingleRankSizes(g, a);
  }

  /** The transports leave the same values everywhere, whatever the field, exactly when the exchange
      is empty or no single rank holds a bounded axis of more than one point. */
  lemma TransportsAgreeExactly(g: Layout, job: Job)
    requires Valid(g) && job.depth <= g.h && !job.inner
    ensures (forall init: Coord -> Cells<int>, c, k, j, i :: InGrid(g, c) && InBlock(g, c, j, i) ==>
               SameAt(g, job, init, c, k, j, i)) <==>
            job.depth == 0 || job.layers == 0 || NoBoundedSingleRank(g)
  {
    if job.depth == 0 || job.layers == 0 || NoBoundedSingleRank(g) {
      forall init: Coord -> Cells<int>, c, k, j, i | InGrid(g, c) && InBlock(g, c, j, i)
        ensures SameAt(g, job, init, c, k, j, i)
      {
        if NoBoundedSingleRank(g) {
          TransportsAgree(g, job, init, c, k, j, i);
        } else {
          EffectiveKeeps(g);
          NcclProgramActive(g, job);
          ExchangeCopiesOrigin(g, Y, job, init, c, k, j, i);
          ExchangeCopiesOrigin(Effective(g), FirstAxis(g), job, init, c, k, j, i);
        }
      }
    } else {
      BoundedSingleRankDiffers(g, if Singleton(g, Y) || g.periodicY then X else Y, job);
    }
  }

  /** A cell of a single rank's block whose position along the axis has the home `home`. */
  function HomeValue<T>(f: Cells<T>, a: Axis, s: Span, home: int, k: int, l: int, p: int): T {
    At(f, a, k, l, if Within(s, k, l) then home else p)
  }

  lemma SelfExchangeAt<T>(g: Layout, a: Axis, job: Job, c: Coord, before: Coord -> Cells<T>, k: int, l: int, p: int)
    requires Valid(g) && SingleRank(g) && InGrid(g, c) && job.depth <= g.h
    ensures At(Advance(Effective(g), Pass(g, a, job), c, before), a, k, l, p) ==
      HomeValue(before(c), a, SpanOf(g, a, c, job), HomeAlong(Effective(g), a, job.depth, 0, p).1, k, l, p)
  {
    SingleRankSizes(g, a);
    EffectiveSizes(g);
    PassCopiesHome(Effective(g), a, job, c, before, k, l, p);
    SelfHome(g, a, job.depth, p);
    assert Place(c, a) == 0 && Move(c, a, 0) == c && SpanOf(Effective(g), a, c, job) == SpanOf(g, a, c, job);
  }

  lemma LocalFillAt<T>(g: Layout, a: Axis, d: nat, s: Span, f: Cells<T>, k: int, l: int, p: int)
    requires ValidAxis(g, a) && SingleRank(g) && d <= g.h
    ensures At(Filled(a, f, s, g.h, Points(g, a), d), a, k, l, p) ==
      HomeValue(f, a, s, HomeAlong(Effective(g), a, d, 0, p).1, k, l, p)
  {
    SelfHome(g, a, d, p);
    if Singleton(g, a) {
      FilledSingleton(a, f, s, g.h, d, k, l, p);
    } else {
      SingleRankSizes(g, a);
      FilledCopiesOpposite(a, f, s, g.h, Points(g, a), d, k, l, p);
    }
  }

  /** Where a cell of a single rank comes from: from the rank itself, one period away. */
  lemma SelfHome(g: Layout, a: Axis, d: nat, p: int)
    requires ValidAxis(g, a) && SingleRank(g) && d <= g.h
    ensures HomeAlong(Effective(g), a, d, 0, p).0 == 0
    ensures var n := Points(g, a);
            HomeAlong(Effective(g), a, d, 0, p).1 ==
            if Singleton(g, a) then (if g.h - d <= p < g.h || g.h + 1 <= p < g.h + 1 + d then g.h else p)
            else if g.h - d <= p < g.h then p + n else if g.h + n <= p < g.h + n + d then p - n else p
  {
    SingleRankSizes(g, a);
  }

  /** On a single rank the local kernels are the exchange with oneself: filling an axis periodically
      from its own points leaves what receiving its own faces would. */
  lemma LocalFillIsSelfExchange<T>(g: Layout, a: Axis, job: Job, c: Coord, before: Coord -> Cells<T>, k: int, l: int,
      p: int)
    requires Valid(g) && SingleRank(g) && InGrid(g, c) && job.depth <= g.h
    ensures At(Advance(Effective(g), Pass(g, a, job), c, before), a, k, l, p) ==
      At(Filled(a, before(c), SpanOf(g, a, c, job), g.h, Points(g, a), job.depth), a, k, l, p)
  {
    SelfExchangeAt(g, a, job, c, before, k, l, p);
    assert ValidAxis(g, a);
    LocalFillAt(g, a, job.depth, SpanOf(g, a, c, job), before(c), k, l, p);
  }
}
