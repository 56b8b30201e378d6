/** Asynchronous point-to-point message passing between the ranks of a communicator, and its
    refinement to a lockstep computation.

    Every rank runs the same number of phases.  In a phase a rank packs its data, posts one
    non-blocking send for each (destination, tag) of the phase and one non-blocking receive for
    each (source, tag), waits for all of them and unpacks.  Channels are first-in first-out for
    each (source, destination, tag) triple; nothing else orders the messages, so ranks may run
    ahead of each other and messages of different phases may share a tag.

    The MPI transport uses four tags for each exchange; the NCCL transport uses none (a unit tag). */
module Transport {

  datatype Plan<!R(==), !G(==), !S, !M> = Plan(
    ranks: set<R>,
    phases: nat,
    sends: (nat, R) -> set<(R, G)>,
    recvs: (nat, R) -> set<(R, G)>,
    pack: (nat, R, S, R, G) -> M,
    unpack: (nat, R, S, map<(R, G), M>) -> S
  )

  /** The source posts a send on the channel exactly when the destination posts the receive. */
  ghost predicate Agree<R, G, S, M>(p: Plan<R, G, S, M>, t: nat, s: R, d: R, g: G) {
    (d, g) in p.sends(t, s) <==> (s, g) in p.recvs(t, d)
  }

  /** Every receive of a phase has its send in the same phase of the source, and conversely. */
  ghost predicate WellMatched<R(!new), G(!new), S, M>(p: Plan<R, G, S, M>) {
    && (forall t: nat, r: R, k: (R, G) ::
          t < p.phases && r in p.ranks && (k in p.sends(t, r) || k in p.recvs(t, r)) ==> k.0 in p.ranks)
    && (forall t: nat, s: R, d: R, g: G :: t < p.phases && s in p.ranks && d in p.ranks ==> Agree(p, t, s, d, g))
  }

  // ----- The lockstep computation -----

  /** The data of rank r after t phases, all ranks stepping together. */
  ghost function Lockstep<R, G, S, M>(p: Plan<R, G, S, M>, init: R -> S, t: nat, r: R): S {
    if t == 0 then init(r)
    else
      p.unpack(t - 1, r, Lockstep(p, init, t - 1, r),
               map k | k in p.recvs(t - 1, r) :: p.pack(t - 1, k.0, Lockstep(p, init, t - 1, k.0), r, k.1))
  }

  /** `hist(t, r)` is a lockstep history. */
  ghost predicate Follows<R(!new), G, S, M>(p: Plan<R, G, S, M>, hist: (nat, R) -> S) {
    forall t: nat, r: R :: hist(t + 1, r) == p.unpack(t, r, hist(t, r), Mail(p, hist, t, r))
  }

  /** What rank r receives in phase t. */
  ghost function Mail<R, G, S, M>(p: Plan<R, G, S, M>, hist: (nat, R) -> S, t: nat, r: R): map<(R, G), M> {
    map k | k in p.recvs(t, r) :: p.pack(t, k.0, hist(t, k.0), r, k.1)
  }

  /** The mail of one phase when every rank holds `now`. */
  ghost function PhaseMail<R, G, S, M>(p: Plan<R, G, S, M>, now: R -> S, t: nat, r: R): (mail: map<(R, G), M>)
    ensures mail.Keys == p.recvs(t, r) && forall k :: k in mail ==> mail[k] == p.pack(t, k.0, now(k.0), r, k.1)
  {
    map k | k in p.recvs(t, r) :: p.pack(t, k.0, now(k.0), r, k.1)
  }

  lemma LockstepStep<R(!new), G, S, M>(p: Plan<R, G, S, M>, init: R -> S, now: R -> S, t: nat, r: R)
    requires forall x :: Lockstep(p, init, t, x) == now(x)
    ensures Lockstep(p, init, t + 1, r) == p.unpack(t, r, now(r), PhaseMail(p, now, t, r))
  {
    var mail := map k | k in p.recvs(t, r) :: p.pack(t, k.0, Lockstep(p, init, t, k.0), r, k.1);
    assert mail == PhaseMail(p, now, t, r);
    assert Lockstep(p, init, t + 1, r) == p.unpack(t, r, Lockstep(p, init, t, r), mail);
  }

  // ----- The asynchronous machine -----

  /** A rank: its phase, its data, the sends of the phase not yet posted, the messages delivered. */
  datatype Proc<R(==), G(==), S, M> = Proc(phase: nat, data: S, unsent: set<(R, G)>, inbox: map<(R, G), M>)

  /** All ranks, and for each (source, destination, tag) the messages in flight. */
  datatype World<R(==), G(==), S, M> = World(procs: map<R, Proc<R, G, S, M>>, net: map<(R, R, G), seq<M>>)

  datatype Event<R, G> =
    | Send(from: R, to: R, tag: G)
    | Recv(at: R, source: R, tag: G)
    | Wait(at: R)

  ghost function Actor<R, G>(e: Event<R, G>): R {
    match e
    case Send(r, _, _) => r
    case Recv(r, _, _) => r
    case Wait(r) => r
  }

  ghost function Queue<R, G, M>(net: map<(R, R, G), seq<M>>, s: R, d: R, g: G): seq<M> {
    if (s, d, g) in net then net[(s, d, g)] else []
  }

  ghost function Enter<R, G, S, M>(p: Plan<R, G, S, M>, r: R, t: nat, data: S): Proc<R, G, S, M> {
    Proc(t, data, if t < p.phases then p.sends(t, r) else {}, map[])
  }

  ghost function Start<R, G, S, M>(p: Plan<R, G, S, M>, init: R -> S): World<R, G, S, M> {
    World(map r | r in p.ranks :: Enter(p, r, 0, init(r)), map[])
  }

  ghost predicate Enabled<R, G, S, M>(p: Plan<R, G, S, M>, w: World<R, G, S, M>, e: Event<R, G>) {
    Actor(e) in w.procs &&
    var q := w.procs[Actor(e)];
    q.phase < p.phases &&
    match e
    case Send(r, d, g) => (d, g) in q.unsent
    case Recv(r, s, g) => (s, g) in p.recvs(q.phase, r) && (s, g) !in q.inbox && Queue(w.net, s, r, g) != []
    case Wait(r) => q.unsent == {} && q.inbox.Keys == p.recvs(q.phase, r)
  }

  /** As `Enabled`, but a wait also needs every message of the rank to have been taken: the strictest
      completion rule a send may have.  Progress is proved for this rule, safety for the other. */
  ghost predicate EnabledRendezvous<R, G, S, M>(p: Plan<R, G, S, M>, w: World<R, G, S, M>, e: Event<R, G>) {
    Enabled(p, w, e) &&
    (e.Wait? ==> forall k :: k in p.sends(w.procs[e.at].phase, e.at) ==> Queue(w.net, e.at, k.0, k.1) == [])
  }

  ghost function Step<R, G, S, M>(p: Plan<R, G, S, M>, w: World<R, G, S, M>, e: Event<R, G>): World<R, G, S, M>
    requires Enabled(p, w, e)
  {
    var q := w.procs[Actor(e)];
    match e
    case Send(r, d, g) =>
      World(w.procs[r := q.(unsent := q.unsent - {(d, g)})],
            w.net[(r, d, g) := Queue(w.net, r, d, g) + [p.pack(q.phase, r, q.data, d, g)]])
    case Recv(r, s, g) =>
      var pending := Queue(w.net, s, r, g);
      World(w.procs[r := q.(inbox := q.inbox[(s, g) := pending[0]])],
            w.net[(s, r, g) := pending[1..]])
    case Wait(r) =>
      World(w.procs[r := Enter(p, r, q.phase + 1, p.unpack(q.phase, r, q.data, q.inbox))], w.net)
  }

  ghost predicate Run<R, G, S, M>(p: Plan<R, G, S, M>, w: World<R, G, S, M>, es: seq<Event<R, G>>,
      w': World<R, G, S, M>)
    decreases es
  {
    if es == [] then w == w'
    else Enabled(p, w, es[0]) && Run(p, Step(p, w, es[0]), es[1..], w')
  }

  ghost predicate Finished<R, G, S, M>(p: Plan<R, G, S, M>, w: World<R, G, S, M>) {
    forall r :: r in w.procs ==> w.procs[r].phase == p.phases
  }

  // ----- The invariant -----

  /** Number of phases whose message on the channel the source has posted. */
  ghost function Put<R, G, S, M>(p: Plan<R, G, S, M>, q: Proc<R, G, S, M>, s: R, d: R, g: G): nat {
    if q.phase < p.phases && (d, g) in p.sends(q.phase, s) && (d, g) !in q.unsent then q.phase + 1 else q.phase
  }

  /** Number of phases whose message on the channel the destination has taken. */
  ghost function Got<R, G, S, M>(q: Proc<R, G, S, M>, s: R, g: G): nat {
    if (s, g) in q.inbox then q.phase + 1 else q.phase
  }

  /** The messages of phases lo..hi on a channel, in phase order. */
  ghost function Pending<R, G, S, M>(p: Plan<R, G, S, M>, hist: (nat, R) -> S, s: R, d: R, g: G, lo: nat,
      hi: nat): seq<M>
    decreases hi - lo
  {
    if lo >= hi then []
    else
      (if (d, g) in p.sends(lo, s) then [p.pack(lo, s, hist(lo, s), d, g)] else [])
      + Pending(p, hist, s, d, g, lo + 1, hi)
  }

  ghost predicate ProcOk<R, G, S, M>(p: Plan<R, G, S, M>, hist: (nat, R) -> S, r: R, q: Proc<R, G, S, M>) {
    && q.phase <= p.phases
    && q.data == hist(q.phase, r)
    && (q.phase == p.phases ==> q.unsent == {} && q.inbox == map[])
    && (q.phase < p.phases ==>
          && q.unsent <= p.sends(q.phase, r)
          && forall k :: k in q.inbox ==>
               k in p.recvs(q.phase, r) && q.inbox[k] == p.pack(q.phase, k.0, hist(q.phase, k.0), r, k.1))
  }

  /** The messages in flight on a channel are those of phases lo..hi; none was sent in phases hi..lo. */
  ghost predicate Holds<R, G, S, M>(p: Plan<R, G, S, M>, hist: (nat, R) -> S, s: R, d: R, g: G, queue: seq<M>,
      lo: nat, hi: nat)
  {
    && queue == Pending(p, hist, s, d, g, lo, hi)
    && forall t: nat :: hi <= t < lo ==> (d, g) !in p.sends(t, s)
  }

  ghost predicate ChannelOk<R, G, S, M>(p: Plan<R, G, S, M>, hist: (nat, R) -> S, w: World<R, G, S, M>, s: R, d: R,
      g: G)
    requires s in w.procs && d in w.procs
  {
    Holds(p, hist, s, d, g, Queue(w.net, s, d, g), Got(w.procs[d], s, g), Put(p, w.procs[s], s, d, g))
  }

  ghost predicate Inv<R(!new), G(!new), S, M>(p: Plan<R, G, S, M>, hist: (nat, R) -> S, w: World<R, G, S, M>) {
    && w.procs.Keys == p.ranks
    && (forall r :: r in p.ranks ==> ProcOk(p, hist, r, w.procs[r]))
    && (forall s: R, d: R, g: G :: s in p.ranks && d in p.ranks ==> ChannelOk(p, hist, w, s, d, g))
  }

  lemma {:induction false} PendingSnoc<R, G, S, M>(p: Plan<R, G, S, M>, hist: (nat, R) -> S, s: R, d: R, g: G,
      lo: nat, hi: nat)
    requires lo <= hi
    ensures Pending(p, hist, s, d, g, lo, hi + 1) == Pending(p, hist, s, d, g, lo, hi)
              + (if (d, g) in p.sends(hi, s) then [p.pack(hi, s, hist(hi, s), d, g)] else [])
    decreases hi - lo
  {
    if lo < hi {
      PendingSnoc(p, hist, s, d, g, lo + 1, hi);
    }
  }

  /** What posting a send, taking a message, and passing a phase without one do to a channel. */
  lemma ChannelMoves<R, G, S, M>(p: Plan<R, G, S, M>, hist: (nat, R) -> S, s: R, d: R, g: G, queue: seq<M>, lo: nat,
      hi: nat)
    requires Holds(p, hist, s, d, g, queue, lo, hi)
    ensures (d, g) in p.sends(hi, s) ==> Holds(p, hist, s, d, g, queue + [p.pack(hi, s, hist(hi, s), d, g)], lo, hi + 1)
    ensures (d, g) !in p.sends(hi, s) ==> Holds(p, hist, s, d, g, queue, lo, hi + 1)
    ensures (d, g) in p.sends(lo, s) && queue != [] ==>
              queue[0] == p.pack(lo, s, hist(lo, s), d, g) && Holds(p, hist, s, d, g, queue[1..], lo + 1, hi)
    ensures (d, g) !in p.sends(lo, s) ==> Holds(p, hist, s, d, g, queue, lo + 1, hi)
  {
    if lo <= hi {
      PendingSnoc(p, hist, s, d, g, lo, hi);
    }
  }

  lemma StartOk<R(!new), G(!new), S, M>(p: Plan<R, G, S, M>, hist: (nat, R) -> S, init: R -> S)
    requires forall r :: r in p.ranks ==> hist(0, r) == init(r)
    ensures Inv(p, hist, Start(p, init))
  {
  }

  lemma SendKeepsChannel<R, G, S, M>(p: Plan<R, G, S, M>, hist: (nat, R) -> S, w: World<R, G, S, M>, r: R, to: R,
      tag: G, s: R, d: R, g: G)
    requires s in w.procs && d in w.procs && ChannelOk(p, hist, w, s, d, g)
    requires Enabled(p, w, Send(r, to, tag)) && ProcOk(p, hist, r, w.procs[r])
    ensures ChannelOk(p, hist, Step(p, w, Send(r, to, tag)), s, d, g)
  {
    if s == r && d == to && g == tag {
      ChannelMoves(p, hist, s, d, g, Queue(w.net, s, d, g), Got(w.procs[d], s, g), w.procs[s].phase);
    }
  }

  lemma RecvKeepsChannel<R, G, S, M>(p: Plan<R, G, S, M>, hist: (nat, R) -> S, w: World<R, G, S, M>, r: R, source: R,
      tag: G, s: R, d: R, g: G)
    requires s in w.procs && d in w.procs && ChannelOk(p, hist, w, s, d, g)
    requires Enabled(p, w, Recv(r, source, tag)) && (d == r ==> Agree(p, w.procs[d].phase, s, d, g))
    ensures ChannelOk(p, hist, Step(p, w, Recv(r, source, tag)), s, d, g)
  {
    if s == source && d == r && g == tag {
      ChannelMoves(p, hist, s, d, g, Queue(w.net, s, d, g), w.procs[d].phase, Put(p, w.procs[s], s, d, g));
    }
  }

  lemma WaitKeepsChannel<R, G, S, M>(p: Plan<R, G, S, M>, hist: (nat, R) -> S, w: World<R, G, S, M>, r: R, s: R, d: R,
      g: G)
    requires s in w.procs && d in w.procs && ChannelOk(p, hist, w, s, d, g)
    requires Enabled(p, w, Wait(r)) && (d == r ==> Agree(p, w.procs[d].phase, s, d, g))
    ensures ChannelOk(p, hist, Step(p, w, Wait(r)), s, d, g)
  {
    var queue, lo, hi := Queue(w.net, s, d, g), Got(w.procs[d], s, g), Put(p, w.procs[s], s, d, g);
    var w' := Step(p, w, Wait(r));
    ChannelMoves(p, hist, s, d, g, queue, lo, hi);
    ChannelMoves(p, hist, s, d, g, queue, lo, Put(p, w'.procs[s], s, d, g));
  }

  /** The event keeps its own rank on the lockstep history; a message taken is the one the source
      packed in the receiver's own phase. */
  lemma ActorKeeps<R(!new), G(!new), S, M>(p: Plan<R, G, S, M>, hist: (nat, R) -> S, w: World<R, G, S, M>,
      e: Event<R, G>)
    requires WellMatched(p) && Follows(p, hist) && Inv(p, hist, w) && Enabled(p, w, e)
    ensures ProcOk(p, hist, Actor(e), Step(p, w, e).procs[Actor(e)])
  {
    var r := Actor(e);
    var q := w.procs[r];
    match e
    case Send(_, d, g) =>
    case Recv(_, s, g) =>
      assert Agree(p, q.phase, s, r, g) && ChannelOk(p, hist, w, s, r, g);
      ChannelMoves(p, hist, s, r, g, Queue(w.net, s, r, g), q.phase, Put(p, w.procs[s], s, r, g));
    case Wait(_) =>
      assert q.inbox == Mail(p, hist, q.phase, r);
  }

  lemma StepKeeps<R(!new), G(!new), S, M>(p: Plan<R, G, S, M>, hist: (nat, R) -> S, w: World<R, G, S, M>,
      e: Event<R, G>)
    requires WellMatched(p) && Follows(p, hist) && Inv(p, hist, w) && Enabled(p, w, e)
    ensures Inv(p, hist, Step(p, w, e))
  {
    var w' := Step(p, w, e);
    ActorKeeps(p, hist, w, e);
    forall s, d, g | s in p.ranks && d in p.ranks ensures ChannelOk(p, hist, w', s, d, g) {
      assert ChannelOk(p, hist, w, s, d, g);
      if w.procs[d].phase < p.phases { assert Agree(p, w.procs[d].phase, s, d, g); }
      match e
      case Send(r, to, tag) => SendKeepsChannel(p, hist, w, r, to, tag, s, d, g);
      case Recv(r, source, tag) => RecvKeepsChannel(p, hist, w, r, source, tag, s, d, g);
      case Wait(r) => WaitKeepsChannel(p, hist, w, r, s, d, g);
    }
  }

  lemma {:induction false} RunKeeps<R(!new), G(!new), S, M>(p: Plan<R, G, S, M>, hist: (nat, R) -> S,
      w: World<R, G, S, M>, es: seq<Event<R, G>>, w': World<R, G, S, M>)
    requires WellMatched(p) && Follows(p, hist) && Inv(p, hist, w) && Run(p, w, es, w')
    ensures Inv(p, hist, w')
    decreases es
  {
    if es != [] {
      StepKeeps(p, hist, w, es[0]);
      RunKeeps(p, hist, Step(p, w, es[0]), es[1..], w');
    }
  }

  // ----- Work left -----

  /** Events a rank still has to perform from the start of phase t. */
  ghost function Later<R, G, S, M>(p: Plan<R, G, S, M>, r: R, t: nat): nat
    decreases p.phases - t
  {
    if t >= p.phases then 0 else |p.sends(t, r)| + |p.recvs(t, r)| + 1 + Later(p, r, t + 1)
  }

  ghost function Remaining<R, G, S, M>(p: Plan<R, G, S, M>, r: R, q: Proc<R, G, S, M>): int {
    if q.phase >= p.phases then 0
    else |q.unsent| + |p.recvs(q.phase, r)| - |q.inbox| + 1 + Later(p, r, q.phase + 1)
  }

  ghost function Total<R>(m: map<R, int>): int
    decreases |m|
  {
    if m == map[] then 0 else
      var r :| r in m;
      assert |m - {r}| < |m| by { assert (m - {r}).Keys == m.Keys - {r}; }
      m[r] + Total(m - {r})
  }

  ghost function Work<R, G, S, M>(p: Plan<R, G, S, M>, w: World<R, G, S, M>): int {
    Total(Table(p, w.procs))
  }

  lemma {:induction false} TotalPick<R>(m: map<R, int>, r: R)
    requires r in m
    ensures Total(m) == m[r] + Total(m - {r})
    decreases |m|
  {
    var x :| x in m && Total(m) == m[x] + Total(m - {x});
    if x != r {
      assert (m - {x}).Keys == m.Keys - {x} && (m - {r}).Keys == m.Keys - {r};
      TotalPick(m - {x}, r);
      TotalPick(m - {r}, x);
      assert m - {x} - {r} == m - {r} - {x};
    }
  }

  lemma TotalUpdate<R>(m: map<R, int>, r: R, v: int)
    requires r in m
    ensures Total(m[r := v]) == Total(m) - m[r] + v
  {
    TotalPick(m, r);
    TotalPick(m[r := v], r);
    assert m[r := v] - {r} == m - {r};
  }

  lemma {:induction false} TotalZero<R>(m: map<R, int>)
    requires forall r :: r in m ==> m[r] >= 0
    ensures Total(m) >= 0
    ensures Total(m) == 0 ==> forall r :: r in m ==> m[r] == 0
    decreases |m|
  {
    if m != map[] {
      var x :| x in m && Total(m) == m[x] + Total(m - {x});
      assert forall r :: r in m && r != x ==> r in m - {x} && (m - {x})[r] == m[r];
      assert (m - {x}).Keys == m.Keys - {x};
      TotalZero(m - {x});
    }
  }

  lemma SendWork<R, G, S, M>(p: Plan<R, G, S, M>, w: World<R, G, S, M>, r: R, d: R, g: G)
    requires Enabled(p, w, Send(r, d, g))
    ensures Remaining(p, r, Step(p, w, Send(r, d, g)).procs[r]) == Remaining(p, r, w.procs[r]) - 1
  {
    var q := w.procs[r];
    assert |q.unsent - {(d, g)}| == |q.unsent| - 1;
  }

  lemma RecvWork<R, G, S, M>(p: Plan<R, G, S, M>, w: World<R, G, S, M>, r: R, s: R, g: G)
    requires Enabled(p, w, Recv(r, s, g))
    ensures Remaining(p, r, Step(p, w, Recv(r, s, g)).procs[r]) == Remaining(p, r, w.procs[r]) - 1
  {
    var q := w.procs[r];
    var m := Queue(w.net, s, r, g)[0];
    assert |q.inbox[(s, g) := m]| == |q.inbox| + 1;
  }

  lemma WaitWork<R, G, S, M>(p: Plan<R, G, S, M>, w: World<R, G, S, M>, r: R)
    requires Enabled(p, w, Wait(r))
    ensures Remaining(p, r, Step(p, w, Wait(r)).procs[r]) == Remaining(p, r, w.procs[r]) - 1
  {
    var q := w.procs[r];
    assert |q.inbox.Keys| == |q.inbox|;
  }

  /** The event of a rank takes exactly one unit off its own remaining work. */
  lemma ActorWork<R, G, S, M>(p: Plan<R, G, S, M>, w: World<R, G, S, M>, e: Event<R, G>)
    requires Enabled(p, w, e)
    ensures Remaining(p, Actor(e), Step(p, w, e).procs[Actor(e)]) == Remaining(p, Actor(e), w.procs[Actor(e)]) - 1
  {
    match e
    case Send(r, d, g) => SendWork(p, w, r, d, g);
    case Recv(r, s, g) => RecvWork(p, w, r, s, g);
    case Wait(r) => WaitWork(p, w, r);
  }

  /** Work of each rank, as a table. */
  ghost function Table<R, G, S, M>(p: Plan<R, G, S, M>, procs: map<R, Proc<R, G, S, M>>): (m: map<R, int>)
    ensures m.Keys == procs.Keys && forall r :: r in procs ==> m[r] == Remaining(p, r, procs[r])
  {
    map r | r in procs :: Remaining(p, r, procs[r])
  }

  lemma ProcWork<R, G, S, M>(p: Plan<R, G, S, M>, procs: map<R, Proc<R, G, S, M>>, r: R, q: Proc<R, G, S, M>)
    requires r in procs
    ensures Total(Table(p, procs[r := q])) == Total(Table(p, procs)) - Remaining(p, r, procs[r]) + Remaining(p, r, q)
  {
    var m, m', v := Table(p, procs), Table(p, procs[r := q]), Remaining(p, r, q);
    forall x | x in procs ensures m'[x] == m[r := v][x] {
      assert x in procs[r := q];
    }
    assert m' == m[r := v];
    TotalUpdate(m, r, v);
  }

  lemma StepWork<R, G, S, M>(p: Plan<R, G, S, M>, w: World<R, G, S, M>, e: Event<R, G>)
    requires Enabled(p, w, e)
    ensures Work(p, Step(p, w, e)) == Work(p, w) - 1
  {
    ActorWork(p, w, e);
    ProcWork(p, w.procs, Actor(e), Step(p, w, e).procs[Actor(e)]);
  }

  lemma {:induction false} RunWork<R, G, S, M>(p: Plan<R, G, S, M>, w: World<R, G, S, M>, es: seq<Event<R, G>>,
      w': World<R, G, S, M>)
    requires Run(p, w, es, w')
    ensures |es| + Work(p, w') == Work(p, w)
    decreases es
  {
    if es != [] {
      StepWork(p, w, es[0]);
      RunWork(p, Step(p, w, es[0]), es[1..], w');
    }
  }

  lemma WorkZero<R(!new), G(!new), S, M>(p: Plan<R, G, S, M>, hist: (nat, R) -> S, w: World<R, G, S, M>)
    requires Inv(p, hist, w)
    ensures Work(p, w) >= 0
    ensures Work(p, w) == 0 ==> Finished(p, w)
  {
    var m := Table(p, w.procs);
    forall r | r in w.procs ensures m[r] >= 0 && (m[r] == 0 ==> w.procs[r].phase == p.phases) {
      var q := w.procs[r];
      assert ProcOk(p, hist, r, q);
      if q.phase < p.phases {
        assert q.inbox.Keys <= p.recvs(q.phase, r);
        SubsetSize(q.inbox.Keys, p.recvs(q.phase, r));
        assert |q.inbox.Keys| == |q.inbox|;
      }
    }
    TotalZero(m);
  }

  lemma SubsetSize<T>(a: set<T>, b: set<T>)
    requires a <= b
    ensures |a| <= |b|
  {
    assert b == a + (b - a);
  }

  // ----- Progress -----

  lemma {:induction false} LeastPhase<R, G, S, M>(procs: map<R, Proc<R, G, S, M>>, rs: set<R>) returns (r: R)
    requires rs != {} && rs <= procs.Keys
    ensures r in rs && forall x :: x in rs ==> procs[r].phase <= procs[x].phase
    decreases |rs|
  {
    r :| r in rs;
    if rs != {r} {
      assert |rs - {r}| < |rs|;
      var y := LeastPhase(procs, rs - {r});
      if procs[y].phase < procs[r].phase { r := y; }
    }
  }

  /** Nothing postable, nothing deliverable: then the slowest rank has all its messages. */
  lemma SlowestHasAll<R(!new), G(!new), S, M>(p: Plan<R, G, S, M>, hist: (nat, R) -> S, w: World<R, G, S, M>, r: R,
      s: R, g: G)
    requires WellMatched(p) && Inv(p, hist, w) && r in p.ranks && w.procs[r].phase < p.phases
    requires forall x :: x in p.ranks ==> w.procs[r].phase <= w.procs[x].phase
    requires forall x, d, f :: !Enabled(p, w, Send(x, d, f))
    requires forall x, y, f :: !Enabled(p, w, Recv(x, y, f))
    requires (s, g) in p.recvs(w.procs[r].phase, r)
    ensures (s, g) in w.procs[r].inbox
  {
    var t := w.procs[r].phase;
    assert s in p.ranks && Agree(p, t, s, r, g) && ChannelOk(p, hist, w, s, r, g);
    assert !Enabled(p, w, Send(s, r, g)) && !Enabled(p, w, Recv(r, s, g));
    assert ProcOk(p, hist, s, w.procs[s]);
  }

  lemma SlowestIsTaken<R(!new), G(!new), S, M>(p: Plan<R, G, S, M>, hist: (nat, R) -> S, w: World<R, G, S, M>, r: R,
      d: R, g: G)
    requires WellMatched(p) && Inv(p, hist, w) && r in p.ranks && w.procs[r].phase < p.phases
    requires forall x :: x in p.ranks ==> w.procs[r].phase <= w.procs[x].phase
    requires forall x, y, f :: !Enabled(p, w, Recv(x, y, f))
    requires (d, g) in p.sends(w.procs[r].phase, r)
    ensures Queue(w.net, r, d, g) == []
  {
    var t := w.procs[r].phase;
    assert d in p.ranks && Agree(p, t, r, d, g) && ChannelOk(p, hist, w, r, d, g);
    assert !Enabled(p, w, Recv(d, r, g));
    assert ProcOk(p, hist, d, w.procs[d]);
  }

  lemma Progress<R(!new), G(!new), S, M>(p: Plan<R, G, S, M>, hist: (nat, R) -> S, w: World<R, G, S, M>)
    requires WellMatched(p) && Inv(p, hist, w) && !Finished(p, w)
    ensures exists e :: EnabledRendezvous(p, w, e)
  {
    if x, d, f :| Enabled(p, w, Send(x, d, f)) {
      assert EnabledRendezvous(p, w, Send(x, d, f));
    } else if x, y, f :| Enabled(p, w, Recv(x, y, f)) {
      assert EnabledRendezvous(p, w, Recv(x, y, f));
    } else {
      var r := LeastPhase(w.procs, p.ranks);
      assert forall x :: x in p.ranks ==> ProcOk(p, hist, x, w.procs[x]);
      var q := w.procs[r];
      forall k | k in p.recvs(q.phase, r) ensures k in q.inbox {
        SlowestHasAll(p, hist, w, r, k.0, k.1);
      }
      forall k | k in p.sends(q.phase, r) ensures Queue(w.net, r, k.0, k.1) == [] {
        SlowestIsTaken(p, hist, w, r, k.0, k.1);
      }
      forall k | k in q.unsent ensures false {
        assert Enabled(p, w, Send(r, k.0, k.1));
      }
      assert EnabledRendezvous(p, w, Wait(r));
    }
  }

  // ----- Theorems over all runs -----

  ghost function History<R, G, S, M>(p: Plan<R, G, S, M>, init: R -> S): (nat, R) -> S {
    (t: nat, r: R) => Lockstep(p, init, t, r)
  }

  lemma HistoryFollows<R(!new), G, S, M>(p: Plan<R, G, S, M>, init: R -> S)
    ensures Follows(p, History(p, init))
  {
    var hist := History(p, init);
    forall t: nat, r: R ensures hist(t + 1, r) == p.unpack(t, r, hist(t, r), Mail(p, hist, t, r)) {
      var mail := map k | k in p.recvs(t, r) :: p.pack(t, k.0, Lockstep(p, init, t, k.0), r, k.1);
      assert mail == Mail(p, hist, t, r);
      assert Lockstep(p, init, t + 1, r) == p.unpack(t, r, Lockstep(p, init, t, r), mail);
    }
  }

  lemma ReachableOk<R(!new), G(!new), S, M>(p: Plan<R, G, S, M>, init: R -> S, es: seq<Event<R, G>>,
      w: World<R, G, S, M>)
    requires WellMatched(p) && Run(p, Start(p, init), es, w)
    ensures Inv(p, History(p, init), w) && Follows(p, History(p, init))
  {
    HistoryFollows(p, init);
    StartOk(p, History(p, init), init);
    RunKeeps(p, History(p, init), Start(p, init), es, w);
  }

  /** Whatever the interleaving, a rank that has finished t phases holds its lockstep data, and a
      message it takes is the one packed for it by the source in the same phase. */
  lemma RunsRefineLockstep<R(!new), G(!new), S, M>(p: Plan<R, G, S, M>, init: R -> S, es: seq<Event<R, G>>,
      w: World<R, G, S, M>, r: R)
    requires WellMatched(p) && Run(p, Start(p, init), es, w) && r in p.ranks
    ensures r in w.procs && w.procs[r].data == Lockstep(p, init, w.procs[r].phase, r)
    ensures forall s, g :: Enabled(p, w, Recv(r, s, g)) ==>
              var t := w.procs[r].phase;
              s in p.ranks && (r, g) in p.sends(t, s)
                && Queue(w.net, s, r, g)[0] == p.pack(t, s, Lockstep(p, init, t, s), r, g)
  {
    ReachableOk(p, init, es, w);
    var hist := History(p, init);
    assert ProcOk(p, hist, r, w.procs[r]);
    forall s, g | Enabled(p, w, Recv(r, s, g))
      ensures var t := w.procs[r].phase;
              s in p.ranks && (r, g) in p.sends(t, s)
                && Queue(w.net, s, r, g)[0] == p.pack(t, s, Lockstep(p, init, t, s), r, g)
    {
      var t := w.procs[r].phase;
      assert Agree(p, t, s, r, g) && ChannelOk(p, hist, w, s, r, g);
      ChannelMoves(p, hist, s, r, g, Queue(w.net, s, r, g), t, Put(p, w.procs[s], s, r, g));
    }
  }

  lemma RunsStayInPlan<R(!new), G(!new), S, M>(p: Plan<R, G, S, M>, init: R -> S, es: seq<Event<R, G>>,
      w: World<R, G, S, M>, r: R)
    requires WellMatched(p) && Run(p, Start(p, init), es, w) && r in p.ranks
    ensures r in w.procs && w.procs[r].phase <= p.phases && w.procs[r].data == Lockstep(p, init, w.procs[r].phase, r)
  {
    ReachableOk(p, init, es, w);
    assert ProcOk(p, History(p, init), r, w.procs[r]);
  }

  /** No reachable unfinished state is stuck, even if sends complete only when taken. */
  lemma NoRankWaitsForever<R(!new), G(!new), S, M>(p: Plan<R, G, S, M>, init: R -> S, es: seq<Event<R, G>>,
      w: World<R, G, S, M>)
    requires WellMatched(p) && Run(p, Start(p, init), es, w)
    ensures Finished(p, w) || exists e :: EnabledRendezvous(p, w, e)
  {
    ReachableOk(p, init, es, w);
    if !Finished(p, w) { Progress(p, History(p, init), w); }
  }

  lemma FinishedRunsAreEmpty<R(!new), G(!new), S, M>(p: Plan<R, G, S, M>, init: R -> S, es: seq<Event<R, G>>,
      w: World<R, G, S, M>, s: R, d: R, g: G)
    requires WellMatched(p) && Run(p, Start(p, init), es, w) && Finished(p, w) && s in p.ranks && d in p.ranks
    ensures Queue(w.net, s, d, g) == []
  {
    ReachableOk(p, init, es, w);
    var hist := History(p, init);
    assert ProcOk(p, hist, s, w.procs[s]) && ProcOk(p, hist, d, w.procs[d]) && ChannelOk(p, hist, w, s, d, g);
  }

  /** Every run has at most the planned number of events; with exactly that many, every rank has
      finished with its lockstep data and no message is left in the network. */
  lemma RunsFinish<R(!new), G(!new), S, M>(p: Plan<R, G, S, M>, init: R -> S, es: seq<Event<R, G>>,
      w: World<R, G, S, M>)
    requires WellMatched(p) && Run(p, Start(p, init), es, w)
    ensures |es| <= Work(p, Start(p, init))
    ensures |es| == Work(p, Start(p, init)) ==> Finished(p, w)
    ensures Finished(p, w) ==>
              && (forall r :: r in p.ranks ==> r in w.procs && w.procs[r].data == Lockstep(p, init, p.phases, r))
              && (forall s, d, g :: s in p.ranks && d in p.ranks ==> Queue(w.net, s, d, g) == [])
  {
    ReachableOk(p, init, es, w);
    RunWork(p, Start(p, init), es, w);
    WorkZero(p, History(p, init), w);
    if Finished(p, w) {
      forall r | r in p.ranks ensures r in w.procs && w.procs[r].data == Lockstep(p, init, p.phases, r) {
        RunsStayInPlan(p, init, es, w, r);
      }
      forall s, d, g | s in p.ranks && d in p.ranks ensures Queue(w.net, s, d, g) == [] {
        FinishedRunsAreEmpty(p, init, es, w, s, d, g);
      }
    }
  }
}
