/** The simulation loop: when it writes, under which file number, and what a restart does to both. */
module RunLoop {

  /** Step length, output interval and end of the run, in seconds. */
  datatype Config = Config(dt: real, interval: real, total: real)

  /** One write of history: the number in the file name and the step whose state it holds. */
  datatype Write = Write(file: int, step: nat)

  datatype State = State(step: nat, time: real, next: real, written: seq<Write>)

  predicate Valid(c: Config) { c.dt > 0.0 && c.interval > 0.0 }

  function Number(c: Config, time: real): int
    requires c.interval > 0.0
  {
    (time / c.interval).Floor
  }

  /** The times at which outputs are due, and those the steps of a new run reach. */
  function Due(c: Config, k: int): real { k as real * c.interval }

  function Clock(c: Config, n: int): real { n as real * c.dt }

  /** The start of a run, new or restarted, before its initial write. */
  function Begin(c: Config, restart: bool, step: nat, time: real): State
    requires Valid(c)
  {
    State(step, time, if restart then Due(c, Number(c, time) + 1) else c.interval, [])
  }

  function Initial(c: Config, s: State, outputInitialStep: bool): State
    requires Valid(c)
  {
    if outputInitialStep then s.(written := s.written + [Write(Number(c, s.time), s.step)]) else s
  }

  function Advanced(c: Config, s: State): State
    requires Valid(c)
  {
    var t := s.time + c.dt;
    if t >= s.next then State(s.step + 1, t, s.next + c.interval, s.written + [Write(Number(c, t), s.step + 1)])
    else State(s.step + 1, t, s.next, s.written)
  }

  function Run(c: Config, s: State, n: nat): State
    requires Valid(c)
  {
    if n == 0 then s else Advanced(c, Run(c, s, n - 1))
  }

  // ----- Multiples -----

  lemma QuotientTimes(x: real, y: real)
    requires y > 0.0
    ensures (x / y) * y == x
  {
  }

  lemma PositiveQuotient(x: real, y: real)
    requires x > 0.0 && y > 0.0
    ensures x / y > 0.0
  {
  }

  lemma MultiplesKeepOrder(i: real, x: real, y: real)
    requires i > 0.0
    ensures x * i < y * i <==> x < y
  {
    if x < y { assert (y - x) * i > 0.0; }
    if x > y { assert (x - y) * i > 0.0; }
  }

  lemma DueNext(c: Config, k: int)
    ensures Due(c, k + 1) == Due(c, k) + c.interval && Due(c, 0) == 0.0
  {
    assert (k as real + 1.0) * c.interval == k as real * c.interval + c.interval;
  }

  lemma DueOrder(c: Config, k: int, m: int)
    requires Valid(c)
    ensures Due(c, k) < Due(c, m) <==> k < m
  {
    var x, y := k as real, m as real;
    assert x < y <==> k < m;
    MultiplesKeepOrder(c.interval, x, y);
    assert Due(c, k) == x * c.interval && Due(c, m) == y * c.interval;
  }

  lemma DueAscends(c: Config, k: int, m: int)
    requires Valid(c)
    ensures (Due(c, k) < Due(c, m) <==> k < m) && Due(c, k + 1) == Due(c, k) + c.interval && Due(c, 0) == 0.0
  {
    DueOrder(c, k, m);
    DueNext(c, k);
  }

  lemma ClockAdvances(c: Config, n: int)
    ensures Clock(c, n + 1) == Clock(c, n) + c.dt && Clock(c, 0) == 0.0
  {
    assert (n as real + 1.0) * c.dt == n as real * c.dt + c.dt;
  }

  /** The file number is the number of the last output due. */
  lemma NumberBounds(c: Config, time: real)
    requires Valid(c)
    ensures Due(c, Number(c, time)) <= time < Due(c, Number(c, time) + 1)
  {
    var q, k := time / c.interval, Number(c, time);
    QuotientTimes(time, c.interval);
    MultiplesKeepOrder(c.interval, q, k as real);
    MultiplesKeepOrder(c.interval, q, (k + 1) as real);
  }

  lemma NumberIs(c: Config, time: real, k: int)
    requires Valid(c) && Due(c, k) <= time < Due(c, k + 1)
    ensures Number(c, time) == k
  {
    NumberBounds(c, time);
    var m := Number(c, time);
    DueAscends(c, m, k + 1);
    DueAscends(c, k, m + 1);
  }

  // ----- The loop in place -----

  class Simulation {
    var step: nat
    var time: real
    var next: real
    var written: seq<Write>

    function Now(): State
      reads this
    {
      State(step, time, next, written)
    }

    /** The initial write, then steps until the end of the run. */
    method Simulate(c: Config, restart: bool, outputInitialStep: bool) returns (ghost n: nat)
      requires Valid(c)
      modifies this
      ensures Now() ==
        Run(c, Initial(c, Begin(c, restart, old(step), old(time)).(written := old(written)), outputInitialStep), n)
      ensures time >= c.total && (n > 0 ==> time - c.dt < c.total)
    {
      ghost var start := Initial(c, Begin(c, restart, step, time).(written := written), outputInitialStep);
      if outputInitialStep {
        written := written + [Write((time / c.interval).Floor, step)];
      }
      next := c.interval;
      if restart {
        next := ((time / c.interval).Floor + 1) as real * c.interval;
      }
      n := 0;
      while time < c.total
        invariant Now() == Run(c, start, n)
        invariant n > 0 ==> time - c.dt < c.total
        decreases Steps(c, start.time) - n
      {
        TimeOfRun(c, start, n);
        StepsLeft(c, start.time, n);
        Iterate(c);
        n := n + 1;
      }
    }

    /** One iteration of the loop. */
    method Iterate(c: Config)
      requires Valid(c)
      modifies this
      ensures Now() == Advanced(c, old(Now()))
    {
      step := step + 1;
      time := time + c.dt;
      if time >= next {
        written := written + [Write((time / c.interval).Floor, step)];
        next := next + c.interval;
      }
    }
  }

  /** More steps than the run has left. */
  function Steps(c: Config, time: real): int
    requires Valid(c)
  {
    ((c.total - time) / c.dt).Floor + 1
  }

  lemma StepsLeft(c: Config, time: real, n: nat)
    requires Valid(c) && time + Clock(c, n) < c.total
    ensures n < Steps(c, time)
  {
    var q := (c.total - time) / c.dt;
    QuotientTimes(c.total - time, c.dt);
    MultiplesKeepOrder(c.dt, n as real, q);
  }

  // ----- File numbers -----

  /** The next output is due at the next multiple of the interval. */
  predicate OnTime(c: Config, s: State)
    requires Valid(c)
  {
    s.next == Due(c, Number(c, s.time) + 1)
  }

  /** A step no longer than the interval keeps the schedule, and writes exactly when it enters the next
      interval. */
  lemma StepKeepsSchedule(c: Config, s: State)
    requires Valid(c) && c.dt <= c.interval && OnTime(c, s)
    ensures var s' := Advanced(c, s);
            && OnTime(c, s')
            && Number(c, s'.time) == (if s'.time >= s.next then Number(c, s.time) + 1 else Number(c, s.time))
            && s'.written == (if s'.time >= s.next then s.written + [Write(Number(c, s'.time), s'.step)] else s.written)
  {
    var k, t := Number(c, s.time), s.time + c.dt;
    NumberBounds(c, s.time);
    DueAscends(c, k, k + 1);
    DueAscends(c, k + 1, k + 2);
    if t >= s.next { NumberIs(c, t, k + 1); } else { NumberIs(c, t, k); }
  }

  /** The files lo, lo + 1, up to hi. */
  predicate Consecutive(w: seq<Write>, lo: int, hi: int) {
    |w| == hi - lo + 1 && forall t :: 0 <= t < |w| ==> w[t].file == lo + t
  }

  /** With steps no longer than the interval a run that wrote files lo up to its current one keeps doing
      so: no number is left out and none is written twice. */
  lemma {:induction false} FilesAreConsecutive(c: Config, s: State, lo: int, n: nat)
    requires Valid(c) && c.dt <= c.interval && OnTime(c, s) && Consecutive(s.written, lo, Number(c, s.time))
    ensures var r := Run(c, s, n); OnTime(c, r) && Consecutive(r.written, lo, Number(c, r.time))
  {
    if n > 0 {
      FilesAreConsecutive(c, s, lo, n - 1);
      StepKeepsSchedule(c, Run(c, s, n - 1));
    }
  }

  lemma {:induction false} TimeOfRun(c: Config, s: State, n: nat)
    requires Valid(c)
    ensures Run(c, s, n).time == s.time + Clock(c, n) && Run(c, s, n).step == s.step + n
  {
    if n > 0 {
      TimeOfRun(c, s, n - 1);
      ClockAdvances(c, n - 1);
    }
  }

  /** A new run writes files 0, 1, 2 and so on; without its initial output it starts at 1. */
  lemma NewRunFiles(c: Config, outputInitialStep: bool, n: nat)
    requires Valid(c) && c.dt <= c.interval
    ensures var r := Run(c, Initial(c, Begin(c, false, 0, 0.0), outputInitialStep), n);
            OnTime(c, r) && Consecutive(r.written, if outputInitialStep then 0 else 1, Number(c, Clock(c, n)))
  {
    var s := Initial(c, Begin(c, false, 0, 0.0), outputInitialStep);
    NumberIs(c, 0.0, 0);
    FilesAreConsecutive(c, s, if outputInitialStep then 0 else 1, n);
    TimeOfRun(c, s, n);
  }

  /** The step of a write is the first one to reach the time its file is due at, and the next file is not
      yet due. */
  ghost predicate AtFirstReach(c: Config, w: Write) {
    && w.file as real * c.interval <= w.step as real * c.dt < (w.file + 1) as real * c.interval
    && (w.step > 0 ==> (w.step - 1) as real * c.dt < w.file as real * c.interval)
  }

  /** So every write of a new run is. */
  lemma {:induction false} NewRunWrites(c: Config, outputInitialStep: bool, n: nat)
    requires Valid(c) && c.dt <= c.interval
    ensures var w := Run(c, Initial(c, Begin(c, false, 0, 0.0), outputInitialStep), n).written;
            forall t :: 0 <= t < |w| ==> AtFirstReach(c, w[t])
  {
    var s := Initial(c, Begin(c, false, 0, 0.0), outputInitialStep);
    if n == 0 {
      NumberIs(c, 0.0, 0);
    } else {
      NewRunWrites(c, outputInitialStep, n - 1);
      NewRunFiles(c, outputInitialStep, n - 1);
      TimeOfRun(c, s, n - 1);
      NextWrite(c, Run(c, s, n - 1), n);
    }
  }

  lemma NextWrite(c: Config, s: State, n: nat)
    requires Valid(c) && c.dt <= c.interval && OnTime(c, s) && n >= 1 && s.step == n - 1 && s.time == Clock(c, n - 1)
    ensures s.time + c.dt >= s.next ==> AtFirstReach(c, Write(Number(c, s.time + c.dt), n))
  {
    ClockAdvances(c, n - 1);
    NumberBounds(c, Clock(c, n - 1));
    NumberBounds(c, Clock(c, n));
    StepKeepsSchedule(c, s);
  }

  // ----- Steps longer than the interval -----

  lemma LongStep(c: Config, s: State, n: nat)
    requires Valid(c) && c.dt >= c.interval && n >= 1 && s.next == Due(c, n) && s.time == Clock(c, n - 1)
    ensures Advanced(c, s).next == Due(c, n + 1)
    ensures Advanced(c, s).written == s.written + [Write(Number(c, Clock(c, n)), s.step + 1)]
  {
    ClockAdvances(c, n - 1);
    ClockAhead(c, n);
    DueAscends(c, n, n + 1);
  }

  /** With such steps every step writes, one interval later than the last write was due. */
  lemma {:induction false} LongStepsAlwaysWrite(c: Config, n: nat)
    requires Valid(c) && c.dt >= c.interval
    ensures var r := Run(c, Initial(c, Begin(c, false, 0, 0.0), true), n);
            && r.next == Due(c, n + 1) && |r.written| == n + 1
            && forall t :: 0 <= t <= n ==> r.written[t] == Write(Number(c, Clock(c, t)), t)
  {
    var s := Initial(c, Begin(c, false, 0, 0.0), true);
    if n == 0 {
      NumberIs(c, 0.0, 0);
    } else {
      LongStepsAlwaysWrite(c, n - 1);
      TimeOfRun(c, s, n - 1);
      LongStep(c, Run(c, s, n - 1), n);
    }
  }

  /** Their files are consecutive exactly while the steps have not gained a whole interval on the
      schedule, which they do in the end unless they are as long as the interval. */
  lemma LongStepsExactly(c: Config, n: nat)
    requires Valid(c) && c.dt >= c.interval
    ensures var r := Run(c, Initial(c, Begin(c, false, 0, 0.0), true), n);
            Consecutive(r.written, 0, Number(c, r.time)) <==> Clock(c, n) < Due(c, n + 1)
  {
    LongStepsAlwaysWrite(c, n);
    TimeOfRun(c, Initial(c, Begin(c, false, 0, 0.0), true), n);
    NumberIs(c, 0.0, 0);
    NumberBounds(c, Clock(c, n));
    if Clock(c, n) < Due(c, n + 1) {
      forall t: nat | t <= n ensures Number(c, Clock(c, t)) == t {
        Gain(c, t, n);
        NumberIs(c, Clock(c, t), t);
      }
    }
  }

  lemma ClockAhead(c: Config, n: nat)
    requires Valid(c) && c.dt >= c.interval
    ensures Clock(c, n) >= Due(c, n)
  {
    assert n as real * (c.dt - c.interval) >= 0.0;
  }

  lemma Gain(c: Config, t: nat, n: nat)
    requires Valid(c) && c.dt >= c.interval && t <= n && Clock(c, n) < Due(c, n + 1)
    ensures Due(c, t) <= Clock(c, t) < Due(c, t + 1)
  {
    ClockAhead(c, t);
    ClockAhead(c, n - t);
    DueAscends(c, n, n);
    DueAscends(c, t, t);
    assert Clock(c, n) - Clock(c, t) == Clock(c, n - t);
    assert Due(c, n) - Due(c, t) == Due(c, n - t);
  }

  /** Files stay consecutive for runs of every length exactly when no step is longer than the interval. */
  lemma ConsecutiveExactly(c: Config)
    requires Valid(c)
    ensures (forall n: nat :: AllWritten(c, n)) <==> c.dt <= c.interval
  {
    if c.dt <= c.interval {
      forall n: nat ensures AllWritten(c, n) {
        NewRunFiles(c, true, n);
        TimeOfRun(c, Initial(c, Begin(c, false, 0, 0.0), true), n);
      }
    } else {
      var n: nat := Overtakes(c);
      LongStepsExactly(c, n);
      assert !AllWritten(c, n);
    }
  }

  predicate AllWritten(c: Config, n: nat)
    requires Valid(c)
  {
    var r := Run(c, Initial(c, Begin(c, false, 0, 0.0), true), n);
    Consecutive(r.written, 0, Number(c, r.time))
  }

  lemma Overtakes(c: Config) returns (n: nat)
    requires Valid(c) && c.dt > c.interval
    ensures Clock(c, n) >= Due(c, n + 1)
  {
    var g := c.dt - c.interval;
    var q := c.interval / g;
    QuotientTimes(c.interval, g);
    PositiveQuotient(c.interval, g);
    n := q.Floor + 1;
    var x := n as real;
    assert q < x;
    Exceeds(c.interval, g, q, x);
    GainOf(c, n, g);
    DueNext(c, n);
  }

  lemma Exceeds(i: real, g: real, q: real, x: real)
    requires g > 0.0 && q * g == i && q < x
    ensures x * g > i
  {
    MultiplesKeepOrder(g, q, x);
  }

  lemma GainOf(c: Config, n: nat, g: real)
    requires g == c.dt - c.interval
    ensures n as real * g == Clock(c, n) - Due(c, n)
  {
  }

  // ----- Restarts -----

  /** A run continued from `s` writes what a run with the same clock and schedule, but no history,
      writes. */
  lemma {:induction false} WritesAppend(c: Config, s: State, n: nat)
    requires Valid(c)
    ensures var (r, q) := (Run(c, s, n), Run(c, s.(written := []), n));
            r.step == q.step && r.time == q.time && r.next == q.next && r.written == s.written + q.written
  {
    if n > 0 {
      WritesAppend(c, s, n - 1);
    }
  }

  /** The schedule every run keeps: on time, or, with steps longer than the interval, due by the next step. */
  predicate Scheduled(c: Config, s: State)
    requires Valid(c)
  {
    if c.dt <= c.interval then OnTime(c, s) else s.next <= s.time + c.dt
  }

  lemma NewRunIsScheduled(c: Config, outputInitialStep: bool)
    requires Valid(c)
    ensures Scheduled(c, Initial(c, Begin(c, false, 0, 0.0), outputInitialStep))
  {
    DueAscends(c, 0, 1);
    NumberIs(c, 0.0, 0);
  }

  lemma RestartIsScheduled(c: Config, step: nat, time: real)
    requires Valid(c)
    ensures Scheduled(c, Begin(c, true, step, time))
  {
    NumberBounds(c, time);
    DueNext(c, Number(c, time));
  }

  /** With steps longer than the interval two runs with the same clock, both due by the next step, write
      at every step, so they write alike. */
  lemma {:induction false} LongRunsWriteAlike(c: Config, s: State, q: State, n: nat)
    requires Valid(c) && c.dt > c.interval && s.step == q.step && s.time == q.time && Scheduled(c, s)
      && Scheduled(c, q) && q.written == []
    ensures var (r, t) := (Run(c, s, n), Run(c, q, n));
            r.step == t.step && r.time == t.time && r.written == s.written + t.written && Scheduled(c, r)
              && Scheduled(c, t)
  {
    if n > 0 {
      LongRunsWriteAlike(c, s, q, n - 1);
    }
  }

  lemma {:induction false} RunsStayScheduled(c: Config, s: State, n: nat)
    requires Valid(c) && Scheduled(c, s)
    ensures Scheduled(c, Run(c, s, n))
  {
    if c.dt <= c.interval {
      ScheduleKept(c, s, n);
    } else if n > 0 {
      RunsStayScheduled(c, s, n - 1);
    }
  }

  /** A run restarted from any step of a scheduled run performs exactly its remaining writes, files and
      steps alike; with steps no longer than the interval it ends in the same state. */
  lemma RestartContinues(c: Config, s: State, m: nat, n: nat)
    requires Valid(c) && Scheduled(c, s)
    ensures var (p, r) := (Run(c, s, m), Run(c, s, m + n));
            var q := Run(c, Begin(c, true, p.step, p.time), n);
            && r.step == q.step && r.time == q.time && r.written == p.written + q.written
            && (c.dt <= c.interval ==> r.next == q.next)
  {
    var p := Run(c, s, m);
    RunsStayScheduled(c, s, m);
    RunsCompose(c, s, m, n);
    if c.dt <= c.interval {
      WritesAppend(c, p, n);
      assert p.(written := []) == Begin(c, true, p.step, p.time);
    } else {
      RestartIsScheduled(c, p.step, p.time);
      LongRunsWriteAlike(c, p, Begin(c, true, p.step, p.time), n);
    }
  }

  /** In particular a new run, whatever its steps and interval. */
  lemma NewRunRestarts(c: Config, outputInitialStep: bool, m: nat, n: nat)
    requires Valid(c)
    ensures var s := Initial(c, Begin(c, false, 0, 0.0), outputInitialStep);
            var p := Run(c, s, m);
            Run(c, s, m + n).written == p.written + Run(c, Begin(c, true, p.step, p.time), n).written
  {
    NewRunIsScheduled(c, outputInitialStep);
    RestartContinues(c, Initial(c, Begin(c, false, 0, 0.0), outputInitialStep), m, n);
  }

  lemma {:induction false} ScheduleKept(c: Config, s: State, n: nat)
    requires Valid(c) && c.dt <= c.interval && OnTime(c, s)
    ensures OnTime(c, Run(c, s, n))
  {
    if n > 0 {
      ScheduleKept(c, s, n - 1);
      StepKeepsSchedule(c, Run(c, s, n - 1));
    }
  }

  lemma {:induction false} RunsCompose(c: Config, s: State, m: nat, n: nat)
    requires Valid(c)
    ensures Run(c, s, m + n) == Run(c, Run(c, s, m), n)
  {
    if n > 0 {
      RunsCompose(c, s, m, n - 1);
    }
  }

  /** The restarted run's own initial output goes to the file last written before, and holds the same
      step exactly when the restart is from the step of that write; otherwise it replaces that file with
      a later step. */
  lemma InitialOutputOfRestart(c: Config, n: nat)
    requires Valid(c) && c.dt <= c.interval
    ensures var p := Run(c, Initial(c, Begin(c, false, 0, 0.0), true), n);
            var w := Initial(c, Begin(c, true, p.step, p.time), true).written;
            && |p.written| > 0 && |w| == 1 && w[0].file == p.written[|p.written| - 1].file
            && (w[0] == p.written[|p.written| - 1] <==> n == 0 || Number(c, Clock(c, n)) != Number(c, Clock(c, n - 1)))
            && (w[0] != p.written[|p.written| - 1] ==> w[0].step > p.written[|p.written| - 1].step)
  {
    LastFile(c, n);
    RestartWrites(c, n, Clock(c, n));
    if n > 0 {
      LastFile(c, n - 1);
      WritesNowExactly(c, Run(c, Initial(c, Begin(c, false, 0, 0.0), true), n - 1));
    }
  }

  lemma LastFile(c: Config, n: nat)
    requires Valid(c) && c.dt <= c.interval
    ensures var p := Run(c, Initial(c, Begin(c, false, 0, 0.0), true), n);
            && OnTime(c, p) && p.time == Clock(c, n) && p.step == n && |p.written| > 0
            && p.written[|p.written| - 1].file == Number(c, Clock(c, n)) && p.written[|p.written| - 1].step <= n
  {
    NewRunFiles(c, true, n);
    TimeOfRun(c, Initial(c, Begin(c, false, 0, 0.0), true), n);
    LastWrite(c, n);
  }

  lemma RestartWrites(c: Config, step: nat, time: real)
    requires Valid(c)
    ensures Initial(c, Begin(c, true, step, time), true).written == [Write(Number(c, time), step)]
  {
  }

  lemma WritesNowExactly(c: Config, s: State)
    requires Valid(c) && c.dt <= c.interval && OnTime(c, s) && |s.written| > 0
      && s.written[|s.written| - 1].step <= s.step
    ensures var r := Advanced(c, s);
            && |r.written| > 0
            && (r.written[|r.written| - 1].step == r.step <==> Number(c, r.time) != Number(c, s.time))
  {
    StepKeepsSchedule(c, s);
  }

  lemma {:induction false} LastWrite(c: Config, n: nat)
    requires Valid(c)
    ensures var p := Run(c, Initial(c, Begin(c, false, 0, 0.0), true), n);
            |p.written| > 0 && p.step == n && p.written[|p.written| - 1].step <= n
  {
    if n > 0 {
      LastWrite(c, n - 1);
    }
  }
}
