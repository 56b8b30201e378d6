/** The MPI transport of the halo exchange: which messages each rank posts, under which tags, and the
    theorems over every interleaving of a program of exchanges. */
module HaloMpi {
  import opened HaloFaces
  import opened HaloExchange
  import Transport

  /** SEND_TO_RIGHT, SEND_TO_LEFT, SEND_TO_TOP, SEND_TO_BOTTOM, and the four of the slice exchange. */
  function Tag(a: Axis, side: Side, slice: bool): int {
    (if a == X then 10 else 20) + (if side == High then 0 else 1) + (if slice then 20 else 0)
  }

  function TagAxis(tag: int): Axis { if tag in {10, 11, 30, 31} then X else Y }

  function TagSide(tag: int): Side { if tag % 2 == 0 then High else Low }

  lemma TagsDecode(a: Axis, side: Side, slice: bool)
    ensures TagAxis(Tag(a, side, slice)) == a && TagSide(Tag(a, side, slice)) == side
  {
  }

  /** The sends a rank posts: toward each neighbour, tagged with the side it lies on. */
  ghost function Sends(g: Layout, ph: Phase, c: Coord): set<(Coord, int)> {
    if ph.Fill? then {} else
      set a, side | a in ph.axes && side in {Low, High} && Neighbour(g, a, c, side).Some? ::
        (Neighbour(g, a, c, side).value, Tag(a, side, ph.job.slice))
  }

  /** The receives a rank posts: from each neighbour, tagged with the side opposite to it. */
  ghost function Recvs(g: Layout, ph: Phase, c: Coord): set<(Coord, int)> {
    if ph.Fill? then {} else
      set a, side | a in ph.axes && side in {Low, High} && Neighbour(g, a, c, side).Some? ::
        (Neighbour(g, a, c, side).value, Tag(a, Opposite(side), ph.job.slice))
  }

  /** The message delivered from a side of an axis, if any. */
  function MailFrom<T>(g: Layout, a: Axis, c: Coord,
      mail: map<(Coord, int), seq<T>>, side: Side, slice: bool): Option<seq<T>>
  {
    match Neighbour(g, a, c, side)
    case None => None
    case Some(n) =>
      var key := (n, Tag(a, Opposite(side), slice));
      if key in mail then Some(mail[key]) else None
  }

  function UnpackMail<T>(g: Layout, axes: seq<Axis>, c: Coord, f: Cells<T>,
      mail: map<(Coord, int), seq<T>>, job: Job): Cells<T>
    decreases axes
  {
    if axes == [] then f
    else
      var f' := UnpackedAxis(g, axes[0], c, f, job, MailFrom(g, axes[0], c, mail, Low, job.slice),
        MailFrom(g, axes[0], c, mail, High, job.slice));
      UnpackMail(g, axes[1..], c, f', mail, job)
  }

  function PackPhase<T>(g: Layout, ph: Phase, c: Coord, f: Cells<T>, tag: int): seq<T> {
    if ph.Fill? then [] else SentFace(g, TagAxis(tag), c, f, ph.job, TagSide(tag))
  }

  function UnpackPhase<T>(g: Layout, ph: Phase, c: Coord, f: Cells<T>, mail: map<(Coord, int), seq<T>>): Cells<T> {
    match ph
    case Fill(a, job) => LocallyFilled(g, Some(a), c, f, job)
    case Exchange(axes, job, filled) => UnpackMail(g, axes, c, LocallyFilled(g, filled, c, f, job), mail, job)
  }

  ghost function Grid(g: Layout): set<Coord> {
    set y, x | 0 <= y < Ranks(g, Y) && 0 <= x < Ranks(g, X) :: Coord(y, x)
  }

  /** A program of exchanges as seen by the message machine. */
  ghost function Plan<T>(g: Layout, program: seq<Phase>): Transport.Plan<Coord, int, Cells<T>, seq<T>> {
    Transport.Plan(
      Grid(g),
      |program|,
      (t: nat, c: Coord) => if t < |program| then Sends(g, program[t], c) else {},
      (t: nat, c: Coord) => if t < |program| then Recvs(g, program[t], c) else {},
      (t: nat, c: Coord, f: Cells<T>, to: Coord, tag: int) =>
        if t < |program| then PackPhase(g, program[t], c, f, tag) else [],
      (t: nat, c: Coord, f: Cells<T>, mail: map<(Coord, int), seq<T>>) =>
        if t < |program| then UnpackPhase(g, program[t], c, f, mail) else f)
  }

  /** A posted send and a posted receive meet exactly when they belong together: the destination's
      neighbour on the opposite side is the source, also for two-rank and one-rank axes. */
  lemma PhaseAgrees(g: Layout, ph: Phase, s: Coord, d: Coord, tag: int)
    requires InGrid(g, s) && InGrid(g, d)
    ensures (d, tag) in Sends(g, ph, s) <==> (s, tag) in Recvs(g, ph, d)
  {
    if ph.Exchange? {
      if (d, tag) in Sends(g, ph, s) {
        var a, side :| a in ph.axes && side in {Low, High} && Neighbour(g, a, s, side).Some? &&
          (d, tag) == (Neighbour(g, a, s, side).value, Tag(a, side, ph.job.slice));
        NeighboursMutual(g, a, s, d, side);
        assert Neighbour(g, a, d, Opposite(side)) == Some(s) && Opposite(Opposite(side)) == side;
      }
      if (s, tag) in Recvs(g, ph, d) {
        var a, side :| a in ph.axes && side in {Low, High} && Neighbour(g, a, d, side).Some? &&
          (s, tag) == (Neighbour(g, a, d, side).value, Tag(a, Opposite(side), ph.job.slice));
        NeighboursMutual(g, a, d, s, side);
        assert Neighbour(g, a, s, Opposite(side)) == Some(d);
      }
    }
  }

  lemma NeighboursInGrid(g: Layout, ph: Phase, c: Coord, k: (Coord, int))
    requires InGrid(g, c) && (k in Sends(g, ph, c) || k in Recvs(g, ph, c))
    ensures k.0 in Grid(g)
  {
  }

  lemma PlanWellMatched<T>(g: Layout, program: seq<Phase>)
    ensures Transport.WellMatched(Plan<T>(g, program))
  {
    var p := Plan<T>(g, program);
    forall t: nat, c: Coord, k: (Coord, int) | t < p.phases && c in p.ranks
      && (k in p.sends(t, c) || k in p.recvs(t, c))
      ensures k.0 in p.ranks
    {
      NeighboursInGrid(g, program[t], c, k);
    }
    forall t: nat, s: Coord, d: Coord, tag: int | t < p.phases && s in p.ranks && d in p.ranks
      ensures Transport.Agree(p, t, s, d, tag)
    {
      PhaseAgrees(g, program[t], s, d, tag);
    }
  }

  // ----- The messages carry the exchange -----

  /** The mail of a rank brings from each side the face of the neighbour there. */
  ghost predicate RightMail<T>(g: Layout, ph: Phase, c: Coord, before: Coord -> Cells<T>,
      mail: map<(Coord, int), seq<T>>)
  {
    ph.Exchange?
      && forall a, side :: a in ph.axes ==>
           MailFrom(g, a, c, mail, side, ph.job.slice) == Arriving(g, a, c, before, ph.job, side)
  }

  lemma {:induction false} UnpackMailUnpacksAll<T>(g: Layout, ph: Phase, axes: seq<Axis>, c: Coord, f: Cells<T>,
      before: Coord -> Cells<T>, mail: map<(Coord, int), seq<T>>)
    requires ph.Exchange? && RightMail(g, ph, c, before, mail) && forall a :: a in axes ==> a in ph.axes
    ensures UnpackMail(g, axes, c, f, mail, ph.job) == UnpackAll(g, axes, c, f, before, ph.job)
    decreases axes
  {
    if axes != [] {
      assert MailFrom(g, axes[0], c, mail, Low, ph.job.slice) == Arriving(g, axes[0], c, before, ph.job, Low);
      assert MailFrom(g, axes[0], c, mail, High, ph.job.slice) == Arriving(g, axes[0], c, before, ph.job, High);
      UnpackMailUnpacksAll(g, ph, axes[1..], c, Received(g, axes[0], c, f, before, ph.job), before, mail);
    }
  }

  lemma MailIsRight<T>(g: Layout, ph: Phase, c: Coord, before: Coord -> Cells<T>, mail: map<(Coord, int), seq<T>>)
    requires ph.Exchange? && mail.Keys == Recvs(g, ph, c)
      && forall k :: k in mail ==> mail[k] == PackPhase(g, ph, k.0, before(k.0), k.1)
    ensures RightMail(g, ph, c, before, mail)
  {
    forall a, side | a in ph.axes
      ensures MailFrom(g, a, c, mail, side, ph.job.slice) == Arriving(g, a, c, before, ph.job, side)
    {
      if Neighbour(g, a, c, side).Some? {
        var n, tag := Neighbour(g, a, c, side).value, Tag(a, Opposite(side), ph.job.slice);
        assert (n, tag) in Recvs(g, ph, c);
        TagsDecode(a, Opposite(side), ph.job.slice);
        ArrivingIsSent(g, a, c, before, ph.job, side);
      }
    }
  }

  lemma PhaseAdvances<T>(g: Layout, ph: Phase, c: Coord, before: Coord -> Cells<T>, mail: map<(Coord, int), seq<T>>)
    requires mail.Keys == Recvs(g, ph, c)
      && forall k :: k in mail ==> mail[k] == PackPhase(g, ph, k.0, before(k.0), k.1)
    ensures UnpackPhase(g, ph, c, before(c), mail) == Advance(g, ph, c, before)
  {
    match ph
    case Fill(_, _) =>
    case Exchange(axes, job, filled) =>
      MailIsRight(g, ph, c, before, mail);
      UnpackMailUnpacksAll(g, ph, axes, c, LocallyFilled(g, filled, c, before(c), job), before, mail);
  }

  /** One lockstep phase of the plan. */
  lemma PlanPhaseAdvances<T>(g: Layout, program: seq<Phase>, t: nat, before: Coord -> Cells<T>, c: Coord)
    requires t < |program|
    ensures UnpackPhase(g, program[t], c, before(c), Transport.PhaseMail(Plan<T>(g, program), before, t, c)) ==
      Advance(g, program[t], c, before)
  {
    PhaseAdvances(g, program[t], c, before, Transport.PhaseMail(Plan<T>(g, program), before, t, c));
  }

  lemma LockstepOne<T>(g: Layout, program: seq<Phase>, init: Coord -> Cells<T>, before: Coord -> Cells<T>, t: nat,
      c: Coord)
    requires t < |program| && forall r :: Transport.Lockstep(Plan(g, program), init, t, r) == before(r)
    ensures Transport.Lockstep(Plan(g, program), init, t + 1, c) == Advance(g, program[t], c, before)
  {
    Transport.LockstepStep(Plan(g, program), init, before, t, c);
    PlanPhaseAdvances(g, program, t, before, c);
  }

  /** Lockstep execution of the messages is the phase-by-phase exchange. */
  lemma {:induction false} LockstepAdvances<T>(g: Layout, program: seq<Phase>, init: Coord -> Cells<T>, t: nat,
      c: Coord)
    requires t <= |program|
    ensures Transport.Lockstep(Plan(g, program), init, t, c) == After(g, program, init, t)(c)
    decreases t
  {
    if t > 0 {
      var before := After(g, program, init, t - 1);
      forall r ensures Transport.Lockstep(Plan(g, program), init, t - 1, r) == before(r) {
        LockstepAdvances(g, program, init, t - 1, r);
      }
      LockstepOne(g, program, init, before, t - 1, c);
      AfterOne(g, program, init, t - 1);
    }
  }

  // ----- Theorems over every interleaving -----

  /** `w` is reached by some events from the start of the program. */
  ghost predicate Reaches<T(!new)>(g: Layout, program: seq<Phase>, init: Coord -> Cells<T>,
      w: Transport.World<Coord, int, Cells<T>, seq<T>>)
  {
    exists es :: Transport.Run(Plan(g, program), Transport.Start(Plan(g, program), init), es, w)
  }

  lemma PlanRanks<T>(g: Layout, program: seq<Phase>, c: Coord)
    ensures c in Plan<T>(g, program).ranks <==> InGrid(g, c)
    ensures Plan<T>(g, program).phases == |program|
  {
    assert InGrid(g, c) ==> Coord(c.y, c.x) in Grid(g);
  }

  lemma RankHolds<T(!new)>(g: Layout, program: seq<Phase>, init: Coord -> Cells<T>,
      es: seq<Transport.Event<Coord, int>>, w: Transport.World<Coord, int, Cells<T>, seq<T>>, c: Coord)
    requires Transport.Run(Plan(g, program), Transport.Start(Plan(g, program), init), es, w) && InGrid(g, c)
    ensures c in w.procs && w.procs[c].phase <= |program|
      && w.procs[c].data == After(g, program, init, w.procs[c].phase)(c)
  {
    PlanWellMatched<T>(g, program);
    PlanRanks<T>(g, program, c);
    Transport.RunsStayInPlan(Plan(g, program), init, es, w, c);
    LockstepAdvances(g, program, init, w.procs[c].phase, c);
  }

  lemma SomeRankMoves<T(!new)>(g: Layout, program: seq<Phase>, init: Coord -> Cells<T>,
      es: seq<Transport.Event<Coord, int>>, w: Transport.World<Coord, int, Cells<T>, seq<T>>)
    requires Transport.Run(Plan(g, program), Transport.Start(Plan(g, program), init), es, w)
    ensures Transport.Finished(Plan(g, program), w) || exists e :: Transport.EnabledRendezvous(Plan(g, program), w, e)
  {
    PlanWellMatched<T>(g, program);
    Transport.NoRankWaitsForever(Plan(g, program), init, es, w);
  }

  lemma ChannelEndsEmpty<T(!new)>(g: Layout, program: seq<Phase>, init: Coord -> Cells<T>,
      es: seq<Transport.Event<Coord, int>>, w: Transport.World<Coord, int, Cells<T>, seq<T>>, s: Coord, d: Coord,
      tag: int)
    requires Transport.Run(Plan(g, program), Transport.Start(Plan(g, program), init), es, w)
      && Transport.Finished(Plan(g, program), w)
    requires InGrid(g, s) && InGrid(g, d)
    ensures Transport.Queue(w.net, s, d, tag) == []
  {
    PlanWellMatched<T>(g, program);
    PlanRanks<T>(g, program, s);
    PlanRanks<T>(g, program, d);
    Transport.FinishedRunsAreEmpty(Plan(g, program), init, es, w, s, d, tag);
  }

  /** At any point of any run of any program of exchanges, a rank that has finished t phases holds
      exactly what the phase-by-phase exchange gives it, and until all have finished some rank can
      move, even if sends complete only when received. */
  lemma AnyRunOfExchanges<T(!new)>(g: Layout, program: seq<Phase>, init: Coord -> Cells<T>,
      w: Transport.World<Coord, int, Cells<T>, seq<T>>)
    requires Reaches(g, program, init, w)
    ensures forall c :: InGrid(g, c) ==>
              c in w.procs && w.procs[c].phase <= |program|
                && w.procs[c].data == After(g, program, init, w.procs[c].phase)(c)
    ensures Transport.Finished(Plan(g, program), w) || exists e :: Transport.EnabledRendezvous(Plan(g, program), w, e)
  {
    var es :| Transport.Run(Plan(g, program), Transport.Start(Plan(g, program), init), es, w);
    forall c | InGrid(g, c)
      ensures c in w.procs && w.procs[c].phase <= |program|
        && w.procs[c].data == After(g, program, init, w.procs[c].phase)(c)
    {
      RankHolds(g, program, init, es, w, c);
    }
    SomeRankMoves(g, program, init, es, w);
  }

  /** A finished run leaves no message in the network. */
  lemma NetworkEndsEmpty<T(!new)>(g: Layout, program: seq<Phase>, init: Coord -> Cells<T>,
      w: Transport.World<Coord, int, Cells<T>, seq<T>>, s: Coord, d: Coord, tag: int)
    requires Reaches(g, program, init, w) && Transport.Finished(Plan(g, program), w) && InGrid(g, s) && InGrid(g, d)
    ensures Transport.Queue(w.net, s, d, tag) == []
  {
    var es :| Transport.Run(Plan(g, program), Transport.Start(Plan(g, program), init), es, w);
    ChannelEndsEmpty(g, program, init, es, w, s, d, tag);
  }

  /** No run is longer than the fixed number of events of its program, and one that long has finished. */
  lemma ExchangesEnd<T(!new)>(g: Layout, program: seq<Phase>, init: Coord -> Cells<T>,
      es: seq<Transport.Event<Coord, int>>, w: Transport.World<Coord, int, Cells<T>, seq<T>>)
    requires Transport.Run(Plan(g, program), Transport.Start(Plan(g, program), init), es, w)
    ensures |es| <= Transport.Work(Plan(g, program), Transport.Start(Plan(g, program), init))
    ensures |es| == Transport.Work(Plan(g, program), Transport.Start(Plan(g, program), init)) ==>
      Transport.Finished(Plan(g, program), w)
  {
    PlanWellMatched<T>(g, program);
    Transport.RunsFinish(Plan(g, program), init, es, w);
  }

  /** `exchange_halos`, run by all ranks in any interleaving: when all are done, every cell within
      the depth of a rank's physical box and standing for a global point holds the global field. */
  lemma MpiExchangeFillsHalos<T(!new)>(g: Layout, job: Job, global: Cells<T>, init: Coord -> Cells<T>,
      w: Transport.World<Coord, int, Cells<T>, seq<T>>, c: Coord, k: int, j: int, i: int)
    requires Valid(g) && InGrid(g, c) && job.depth <= g.h && !job.inner && InLayers(job, k)
      && Scattered(g, global, init, job)
    requires Reaches(g, Program(g, Y, job), init, w) && Transport.Finished(Plan(g, Program(g, Y, job)), w)
    requires Reached(g, job.depth, c, j, i)
    ensures c in w.procs && w.procs[c].data.at(k, j, i) == Wrapped(g, global, c, k, j, i)
  {
    AnyRunOfExchanges(g, Program(g, Y, job), init, w);
    ExchangeFillsHalos(g, Y, job, global, init, c, k, j, i);
  }
}
