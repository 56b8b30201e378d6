/** The clock a restarted run starts from: the file's own time and step where it carries them, otherwise
    what the configuration allows. */
module RestartClock {
  import opened HaloFaces
  import RunLoop
  import opened RestartTime

  /** A floating-point number: a real, or none. */
  datatype Double = Finite(value: real) | NonFinite

  /** What the file says. */
  datatype Metadata = Metadata(time: Option<Double>, step: Option<int>)

  /** What the configuration says. */
  datatype Policy = Policy(dt: Double, legacyTime: Option<Double>, allowFilenameFallback: bool,
      filenameInterval: Double, ignoreStoredStep: bool)

  datatype Source = FileTimeAndStep | FileTimeDerivedStep | FileStepDerivedTime | LegacyConfig | Filename

  datatype Warning = NotAMultiple(time: real, step: int) | StoredStepIgnored(step: int) | TimeFromStep(step: int)
      | LegacyTimeUsed(time: real) | TimeFromName(index: nat)

  datatype Error = BadStepLength | TimeNotFinite | TimeNegative | StepNegative(step: int)
      | Inconsistent(time: real, step: int) | NoTrailingDigits | BadInterval | NoMetadata

  datatype Outcome = Failed(error: Error) | Resolved(time: real, step: int, source: Source, warnings: seq<Warning>)

  function Abs(x: real): real { if x < 0.0 then -x else x }

  function Max(x: real, y: real): real { if x < y then y else x }

  function Tolerance(a: real, b: real): real { Max(0.000001, 0.000001 * Max(Abs(a), Abs(b))) }

  /** Rounding half away from zero. */
  function Round(x: real): int { if x >= 0.0 then (x + 0.5).Floor else -(-x + 0.5).Floor }

  predicate Positive(d: Double) { d.Finite? && d.value > 0.0 }

  predicate Usable(d: Double) { d.Finite? && d.value >= 0.0 }

  function TimeError(d: Double): Option<Error> {
    if d.NonFinite? then Some(TimeNotFinite) else if d.value < 0.0 then Some(TimeNegative) else None
  }

  function Stepped(step: int, dt: real): real { step as real * dt }

  /** Step and time do not match within the tolerance. */
  predicate Apart(time: real, step: int, dt: real) {
    Abs(Stepped(step, dt) - time) > Tolerance(time, Stepped(step, dt))
  }

  function Derived(time: real, dt: real, source: Source, warnings: seq<Warning>): Outcome
    requires dt > 0.0
  {
    var step := Round(time / dt);
    Resolved(time, step, source, if Apart(time, step, dt) then warnings + [NotAMultiple(time, step)] else warnings)
  }

  function FromTime(time: Double, step: Option<int>, dt: real, ignore: bool): Outcome
    requires dt > 0.0
  {
    if TimeError(time).Some? then Failed(TimeError(time).value)
    else if step.Some? && !ignore then
      if step.value < 0 then Failed(StepNegative(step.value))
      else if Apart(time.value, step.value, dt) then Failed(Inconsistent(time.value, step.value))
      else Resolved(time.value, step.value, FileTimeAndStep, [])
    else Derived(time.value, dt, FileTimeDerivedStep, if step.Some? then [StoredStepIgnored(step.value)] else [])
  }

  function FromName(name: string, policy: Policy, dt: real): Outcome
    requires dt > 0.0
  {
    var index := TrailingIndex(name);
    if index.None? then Failed(NoTrailingDigits)
    else if !Positive(policy.filenameInterval) then Failed(BadInterval)
    else Derived(Stepped(index.value, policy.filenameInterval.value), dt, Filename, [TimeFromName(index.value)])
  }

  function Resolve(meta: Metadata, policy: Policy, name: string): Outcome {
    if !Positive(policy.dt) then Failed(BadStepLength)
    else
      var dt := policy.dt.value;
      if meta.time.Some? then FromTime(meta.time.value, meta.step, dt, policy.ignoreStoredStep)
      else if meta.step.Some? then
        var step := meta.step.value;
        if step < 0 then Failed(StepNegative(step))
          else Resolved(Stepped(step, dt), step, FileStepDerivedTime, [TimeFromStep(step)])
      else if policy.legacyTime.Some? then
        var time := policy.legacyTime.value;
        if TimeError(time).Some? then Failed(TimeError(time).value)
          else Derived(time.value, dt, LegacyConfig, [LegacyTimeUsed(time.value)])
      else if policy.allowFilenameFallback then FromName(name, policy, dt)
      else Failed(NoMetadata)
  }

  /** The step nearest to an authoritative time, with a warning when it is not exact. */
  method DeriveStep(time: real, dt: real, source: Source, warnings: seq<Warning>) returns (result: Outcome)
    requires dt > 0.0
    ensures result == Derived(time, dt, source, warnings)
  {
    var step := Round(time / dt);
    if Apart(time, step, dt) { return Resolved(time, step, source, warnings + [NotAMultiple(time, step)]); }
    return Resolved(time, step, source, warnings);
  }

  /** The resolution as the program performs it: checks in order, warnings pushed on the way. */
  method ResolveRestartTime(meta: Metadata, policy: Policy, name: string) returns (result: Outcome)
    ensures result == Resolve(meta, policy, name)
  {
    if policy.dt.NonFinite? || policy.dt.value <= 0.0 { return Failed(BadStepLength); }
    var dt := policy.dt.value;
    var warnings: seq<Warning> := [];
    if meta.time.Some? {
      var error := TimeError(meta.time.value);
      if error.Some? { return Failed(error.value); }
      var time := meta.time.value.value;
      if meta.step.Some? && policy.ignoreStoredStep { warnings := warnings + [StoredStepIgnored(meta.step.value)]; }
      if meta.step.Some? && !policy.ignoreStoredStep {
        if meta.step.value < 0 { return Failed(StepNegative(meta.step.value)); }
        if Apart(time, meta.step.value, dt) { return Failed(Inconsistent(time, meta.step.value)); }
        return Resolved(time, meta.step.value, FileTimeAndStep, warnings);
      }
      result := DeriveStep(time, dt, FileTimeDerivedStep, warnings);
      return;
    }
    if meta.step.Some? {
      if meta.step.value < 0 { return Failed(StepNegative(meta.step.value)); }
      warnings := warnings + [TimeFromStep(meta.step.value)];
      return Resolved(Stepped(meta.step.value, dt), meta.step.value, FileStepDerivedTime, warnings);
    }
    if policy.legacyTime.Some? {
      var error := TimeError(policy.legacyTime.value);
      if error.Some? { return Failed(error.value); }
      var time := policy.legacyTime.value.value;
      warnings := warnings + [LegacyTimeUsed(time)];
      result := DeriveStep(time, dt, LegacyConfig, warnings);
      return;
    }
    if policy.allowFilenameFallback {
      var index := ParseTrailingFileIndex(name);
      if index.None? { return Failed(NoTrailingDigits); }
      if !Positive(policy.filenameInterval) { return Failed(BadInterval); }
      warnings := warnings + [TimeFromName(index.value)];
      result := DeriveStep(Stepped(index.value, policy.filenameInterval.value), dt, Filename, warnings);
      return;
    }
    return Failed(NoMetadata);
  }

  lemma ProductNotNegative(x: real, y: real)
    requires x >= 0.0 && y >= 0.0
    ensures x * y >= 0.0
  {
  }

  lemma SteppedNotNegative(n: int, dt: real)
    requires n >= 0 && dt > 0.0
    ensures Stepped(n, dt) >= 0.0
  {
    ProductNotNegative(n as real, dt);
  }

  // ----- What a resolution promises -----

  /** The step closest to the time. */
  ghost predicate Nearest(time: real, step: int, dt: real) {
    forall m: int :: Abs(Stepped(step, dt) - time) <= Abs(Stepped(m, dt) - time)
  }

  lemma RoundIsClose(q: real, m: int)
    requires q >= 0.0
    ensures Round(q) >= 0 && Abs(Round(q) as real - q) <= 0.5 && Abs(Round(q) as real - q) <= Abs(m as real - q)
  {
    assert m >= Round(q) + 1 || m <= Round(q) - 1 || m == Round(q);
  }

  lemma NotNegativeQuotient(x: real, y: real)
    requires x >= 0.0 && y > 0.0
    ensures x / y >= 0.0
  {
  }

  lemma RoundIsNearest(time: real, dt: real)
    requires dt > 0.0 && time >= 0.0
    ensures Round(time / dt) >= 0 && Nearest(time, Round(time / dt), dt)
  {
    var q := time / dt;
    var r := Round(q);
    NotNegativeQuotient(time, dt);
    QuotientTimes(time, dt);
    RoundIsClose(q, r);
    forall m: int ensures Abs(Stepped(r, dt) - time) <= Abs(Stepped(m, dt) - time) {
      RoundIsClose(q, m);
      CloserStep(time, q, r, m, dt);
    }
  }

  lemma CloserStep(time: real, q: real, r: int, m: int, dt: real)
    requires dt > 0.0 && q * dt == time && Abs(r as real - q) <= Abs(m as real - q)
    ensures Abs(Stepped(r, dt) - time) <= Abs(Stepped(m, dt) - time)
  {
    var x, y := m as real - q, r as real - q;
    Farther(x, y, dt);
    assert Stepped(m, dt) - time == x * dt;
    assert Stepped(r, dt) - time == y * dt;
  }

  lemma QuotientTimes(x: real, y: real)
    requires y > 0.0
    ensures (x / y) * y == x
  {
  }

  lemma Scale(x: real, dt: real, bound: real)
    requires dt > 0.0 && Abs(x) <= bound
    ensures Abs(x * dt) <= bound * dt
  {
    ProductNotNegative(bound - x, dt);
    ProductNotNegative(bound + x, dt);
  }

  lemma Farther(x: real, y: real, dt: real)
    requires dt > 0.0 && Abs(y) <= Abs(x)
    ensures Abs(y * dt) <= Abs(x * dt)
  {
    Scale(y, dt, Abs(x));
    assert Abs(x * dt) == Abs(x) * dt by {
      if x < 0.0 { ProductNotNegative(-x, dt); } else { ProductNotNegative(x, dt); }
    }
  }

  /** A successful resolution gives a clock that is not negative; its step is what the file says or the
      nearest to the time; and step and time agree within the tolerance exactly if no warning says
      otherwise. */
  lemma ResolvedClock(meta: Metadata, policy: Policy, name: string)
    requires Resolve(meta, policy, name).Resolved?
    ensures Positive(policy.dt) && GoodClock(Resolve(meta, policy, name), meta, policy.dt.value)
  {
    var dt := policy.dt.value;
    if meta.time.Some? {
      if meta.step.None? || policy.ignoreStoredStep {
        DerivedClock(meta.time.value.value, dt, meta, FileTimeDerivedStep,
          if meta.step.Some? then [StoredStepIgnored(meta.step.value)] else []);
      }
    } else if meta.step.Some? {
      SteppedNotNegative(meta.step.value, dt);
    } else if policy.legacyTime.Some? {
      DerivedClock(policy.legacyTime.value.value, dt, meta, LegacyConfig,
        [LegacyTimeUsed(policy.legacyTime.value.value)]);
    } else {
      var n, interval := TrailingIndex(name).value, policy.filenameInterval.value;
      SteppedNotNegative(n, interval);
      DerivedClock(Stepped(n, interval), dt, meta, Filename, [TimeFromName(n)]);
    }
  }

  ghost predicate GoodClock(o: Outcome, meta: Metadata, dt: real)
    requires o.Resolved?
  {
    && o.time >= 0.0 && o.step >= 0
    && (Apart(o.time, o.step, dt) <==> NotAMultiple(o.time, o.step) in o.warnings)
    && (meta.step == Some(o.step) || Nearest(o.time, o.step, dt))
    && (meta.time.Some? ==> meta.time == Some(Finite(o.time)))
  }

  lemma DerivedClock(time: real, dt: real, meta: Metadata, source: Source, warnings: seq<Warning>)
    requires dt > 0.0 && time >= 0.0 && (meta.time.Some? ==> meta.time == Some(Finite(time)))
      && forall w :: w in warnings ==> !w.NotAMultiple?
    ensures GoodClock(Derived(time, dt, source, warnings), meta, dt)
  {
    RoundIsNearest(time, dt);
  }

  predicate HasClock(meta: Metadata) { meta.time.Some? || meta.step.Some? }

  /** A file that carries a clock decides it alone: neither its name nor the fallbacks configured for
      other files matter. */
  lemma FileClockWins(meta: Metadata, p: Policy, q: Policy, name: string, other: string)
    requires HasClock(meta) && p.dt == q.dt && p.ignoreStoredStep == q.ignoreStoredStep
    ensures Resolve(meta, p, name) == Resolve(meta, q, other)
    ensures Resolve(meta, p, name).Resolved? ==> Resolve(meta, p, name).source !in {LegacyConfig, Filename}
  {
  }

  /** The digits of the name matter only to a file without a clock, without a configured time, and with
      the fallback allowed. */
  lemma NameMattersExactly(meta: Metadata, policy: Policy)
    ensures (exists name, other :: Resolve(meta, policy, name) != Resolve(meta, policy, other)) <==>
            Positive(policy.dt) && !HasClock(meta) && policy.legacyTime.None? && policy.allowFilenameFallback
  {
    if Positive(policy.dt) && !HasClock(meta) && policy.legacyTime.None? && policy.allowFilenameFallback {
      FileNameRoundTrip("", 1);
      NoDigitsNoIndex();
      if Positive(policy.filenameInterval) {
        assert Resolve(meta, policy, FileName("", 1)) != Resolve(meta, policy, "");
      } else {
        assert Resolve(meta, policy, FileName("", 1)) == Failed(BadInterval)
          && Resolve(meta, policy, "") == Failed(NoTrailingDigits);
      }
    }
  }

  lemma NoDigitsNoIndex()
    ensures TrailingIndex("") == None
  {
  }

  /** A clock written by a run with the same step length is restored exactly, whether the file kept time
      and step, the time alone or the step alone. */
  lemma WrittenClockIsRestored(step: nat, policy: Policy, name: string)
    requires Positive(policy.dt)
    ensures var (dt, t) := (policy.dt.value, Stepped(step, policy.dt.value));
            && (!policy.ignoreStoredStep ==>
              Resolve(Metadata(Some(Finite(t)), Some(step)), policy, name) == Resolved(t, step, FileTimeAndStep, []))
            && Resolve(Metadata(Some(Finite(t)), None), policy, name) == Resolved(t, step, FileTimeDerivedStep, [])
            && Resolve(Metadata(None, Some(step)), policy, name) ==
              Resolved(t, step, FileStepDerivedTime, [TimeFromStep(step)])
            && (policy.ignoreStoredStep ==>
              Resolve(Metadata(Some(Finite(t)), Some(step)), policy, name) ==
              Resolved(t, step, FileTimeDerivedStep, [StoredStepIgnored(step)]))
  {
    var dt, t := policy.dt.value, Stepped(step, policy.dt.value);
    SteppedNotNegative(step, dt);
    StepOfMultiple(step, dt);
    assert !Apart(t, step, dt);
  }

  lemma StepOfMultiple(step: nat, dt: real)
    requires dt > 0.0
    ensures Round(Stepped(step, dt) / dt) == step
  {
    QuotientTimes(Stepped(step, dt), dt);
    NonzeroCancels(dt, Stepped(step, dt) / dt, step as real);
  }

  lemma NonzeroCancels(d: real, x: real, y: real)
    requires d != 0.0 && x * d == y * d
    ensures x == y
  {
    assert (x - y) * d == 0.0;
  }

  // ----- The stored step and the nearest one -----

  lemma OrderScales(x: real, y: real, dt: real)
    requires dt > 0.0
    ensures x < y <==> x * dt < y * dt
  {
    if x < y { assert (y - x) * dt > 0.0; } else { ProductNotNegative(x - y, dt); }
  }

  lemma RoundExactly(q: real, n: int)
    requires q >= 0.0
    ensures Round(q) == n <==> !(q < n as real - 0.5) && q < n as real + 0.5
  {
  }

  /** `time` and `there` are q and x steps of length dt. */
  lemma BelowScales(q: real, x: real, half: real, dt: real, time: real, there: real)
    requires dt > 0.0 && time == q * dt && there == x * dt
    ensures q < x + half <==> time - there < half * dt
  {
    OrderScales(q, x + half, dt);
    assert (x + half) * dt == there + half * dt;
  }

  /** What rounding the time to steps gives. */
  lemma NearestExactly(time: real, step: nat, dt: real)
    requires dt > 0.0 && time >= 0.0
    ensures Round(time / dt) == step <==> -0.5 * dt <= time - Stepped(step, dt) < 0.5 * dt
  {
    var q := time / dt;
    NotNegativeQuotient(time, dt);
    QuotientTimes(time, dt);
    RoundExactly(q, step);
    BelowScales(q, step as real, -0.5, dt, time, Stepped(step, dt));
    BelowScales(q, step as real, 0.5, dt, time, Stepped(step, dt));
  }

  // ----- Which clock, in full -----

  predicate Within(d: real, bound: real) { -bound <= d <= bound }

  /** A step and a time agree up to a microsecond, or a millionth of either clock. */
  predicate Agrees(time: real, step: int, dt: real) {
    var d := step as real * dt - time;
    Within(d, 0.000001) || Within(d, 0.000001 * time) || Within(d, 0.000001 * (step as real * dt))
  }

  lemma ApartOrAgrees(time: real, step: int, dt: real)
    requires time >= 0.0 && step >= 0 && dt > 0.0
    ensures Apart(time, step, dt) <==> !Agrees(time, step, dt)
  {
    SteppedNotNegative(step, dt);
  }

  /** A restart finds a clock exactly if the step length is positive and the first thing there is of the
      following is good: the file's time, finite and not negative, with its step, unless ignored, not
      negative and in agreement; the file's step alone; the configured time; the allowed file name, with
      digits and a positive interval. */
  lemma ResolvesExactly(meta: Metadata, policy: Policy, name: string)
    ensures Resolve(meta, policy, name).Resolved? <==>
            && policy.dt.Finite? && policy.dt.value > 0.0
            && if meta.time.Some? then
                && meta.time.value.Finite? && meta.time.value.value >= 0.0
                && (meta.step.Some? && !policy.ignoreStoredStep ==>
                  meta.step.value >= 0 && Agrees(meta.time.value.value, meta.step.value, policy.dt.value))
              else if meta.step.Some? then meta.step.value >= 0
              else if policy.legacyTime.Some?
                then policy.legacyTime.value.Finite? && policy.legacyTime.value.value >= 0.0
              else && policy.allowFilenameFallback && TrailingIndex(name).Some?
                   && policy.filenameInterval.Finite? && policy.filenameInterval.value > 0.0
  {
    if Positive(policy.dt) && meta.time.Some? && meta.step.Some? && Usable(meta.time.value) && meta.step.value >= 0 {
      ApartOrAgrees(meta.time.value.value, meta.step.value, policy.dt.value);
    }
  }

  /** The time is then that of the file, or its step times the step length, or the configured time, or the
      digits times the interval. */
  lemma TimeOf(meta: Metadata, policy: Policy, name: string)
    requires Resolve(meta, policy, name).Resolved?
    ensures policy.dt.Finite?
    ensures var time := Resolve(meta, policy, name).time;
            && (meta.time.Some? ==> meta.time.value == Finite(time))
            && (meta.time.None? && meta.step.Some? ==> time == meta.step.value as real * policy.dt.value)
            && (!HasClock(meta) && policy.legacyTime.Some? ==> policy.legacyTime.value == Finite(time))
            && (!HasClock(meta) && policy.legacyTime.None? ==>
              time == TrailingIndex(name).value as real * policy.filenameInterval.value)
  {
  }

  /** The step nearest to the time, with a warning when the two disagree. */
  ghost predicate NearestStep(time: real, step: int, dt: real, warnings: seq<Warning>) {
    && -0.5 * dt <= time - step as real * dt < 0.5 * dt
    && (NotAMultiple(time, step) in warnings <==> !Agrees(time, step, dt))
  }

  lemma DerivedStep(time: real, dt: real, source: Source, warnings: seq<Warning>)
    requires dt > 0.0 && time >= 0.0 && forall w :: w in warnings ==> !w.NotAMultiple?
    ensures var r := Derived(time, dt, source, warnings); NearestStep(r.time, r.step, dt, r.warnings)
  {
    var step := Round(time / dt);
    RoundIsNearest(time, dt);
    NearestExactly(time, step, dt);
    ApartOrAgrees(time, step, dt);
  }

  /** The step is the stored one, unless there is none or it is ignored beside a time. */
  lemma StepOf(meta: Metadata, policy: Policy, name: string)
    requires Resolve(meta, policy, name).Resolved?
    ensures policy.dt.Finite?
    ensures var r := Resolve(meta, policy, name);
            if meta.step.Some? && (meta.time.None? || !policy.ignoreStoredStep) then meta.step.value == r.step
            else NearestStep(r.time, r.step, policy.dt.value, r.warnings)
  {
    var dt := policy.dt.value;
    if meta.time.Some? {
      if meta.step.None? || policy.ignoreStoredStep {
        DerivedStep(meta.time.value.value, dt, FileTimeDerivedStep,
          if meta.step.Some? then [StoredStepIgnored(meta.step.value)] else []);
      }
    } else if meta.step.None? && policy.legacyTime.Some? {
      DerivedStep(policy.legacyTime.value.value, dt, LegacyConfig, [LegacyTimeUsed(policy.legacyTime.value.value)]);
    } else if meta.step.None? {
      var n, interval := TrailingIndex(name).value, policy.filenameInterval.value;
      SteppedNotNegative(n, interval);
      DerivedStep(Stepped(n, interval), dt, Filename, [TimeFromName(n)]);
    }
  }

  /** Every clock that does not come from both the time and the step of the file is announced. */
  lemma ClockAnnounced(meta: Metadata, policy: Policy, name: string)
    requires Resolve(meta, policy, name).Resolved?
    ensures var r := Resolve(meta, policy, name);
            && (meta.time.Some? && meta.step.Some? && policy.ignoreStoredStep ==>
              r.source == FileTimeDerivedStep && StoredStepIgnored(meta.step.value) in r.warnings)
            && (meta.time.Some? && meta.step.Some? && !policy.ignoreStoredStep ==>
              r.source == FileTimeAndStep && r.warnings == [])
            && (meta.time.Some? && meta.step.None? ==> r.source == FileTimeDerivedStep)
            && (meta.time.None? && meta.step.Some? ==>
              r.source == FileStepDerivedTime && TimeFromStep(meta.step.value) in r.warnings)
            && (!HasClock(meta) && policy.legacyTime.Some? ==>
              r.source == LegacyConfig && LegacyTimeUsed(r.time) in r.warnings)
            && (!HasClock(meta) && policy.legacyTime.None? ==>
              r.source == Filename && TimeFromName(TrailingIndex(name).value) in r.warnings)
  {
  }

  /** Ignoring an accepted stored step keeps the time, and keeps the step exactly when that is the nearest
      one, as it is while twice the tolerance is below a step. */
  lemma IgnoringKeepsStepExactly(time: real, step: int, policy: Policy, name: string)
    requires !policy.ignoreStoredStep && Resolve(Metadata(Some(Finite(time)), Some(step)), policy, name).Resolved?
    ensures Positive(policy.dt)
    ensures var (r, d) := (Resolve(Metadata(Some(Finite(time)), Some(step)), policy.(ignoreStoredStep := true), name),
                           time - Stepped(step, policy.dt.value));
            && r.Resolved? && r.time == time
            && (r.step == step <==> -0.5 * policy.dt.value <= d < 0.5 * policy.dt.value)
            && (2.0 * Tolerance(time, Stepped(step, policy.dt.value)) < policy.dt.value ==> r.step == step)
  {
    NearestExactly(time, step, policy.dt.value);
  }

  /** The tolerance grows with the time, so late in a run a stored step is accepted that is not the nearest. */
  lemma AcceptedStepNeedNotBeNearest(name: string)
    ensures var (meta, policy) := (Metadata(Some(Finite(1000000.0)), Some(1000001)),
                                   Policy(Finite(1.0), None, false, NonFinite, false));
            && Resolve(meta, policy, name) == Resolved(1000000.0, 1000001, FileTimeAndStep, [])
            && Resolve(meta, policy.(ignoreStoredStep := true), name) ==
              Resolved(1000000.0, 1000000, FileTimeDerivedStep, [StoredStepIgnored(1000001)])
  {
    var meta, policy := Metadata(Some(Finite(1000000.0)), Some(1000001)),
                        Policy(Finite(1.0), None, false, NonFinite, false);
    assert !Apart(1000000.0, 1000001, 1.0) && !Apart(1000000.0, 1000000, 1.0);
    NearestExactly(1000000.0, 1000000, 1.0);
  }

  lemma IndexClock(name: string, k: nat, policy: Policy, interval: real, time: real)
    requires TrailingIndex(name) == Some(k) && interval > 0.0 && time == Stepped(k, interval)
    requires Positive(policy.dt) && policy.legacyTime.None? && policy.allowFilenameFallback
      && policy.filenameInterval == Finite(interval)
    ensures var o := Resolve(Metadata(None, None), policy, name); o.Resolved? && o.time == time
  {
  }

  lemma SteppedIsDue(c: RunLoop.Config, k: int)
    ensures Stepped(k, c.interval) == RunLoop.Due(c, k)
  {
  }

  lemma NumberNotNegative(c: RunLoop.Config, time: real)
    requires RunLoop.Valid(c) && time >= 0.0
    ensures RunLoop.Number(c, time) >= 0
  {
    NotNegativeQuotient(time, c.interval);
  }

  /** Restarting from a history file by its name alone sets the clock back to the output time the file was
      due at: by less than an interval, and not at all exactly if the file was written on that time. */
  lemma NameClockLags(c: RunLoop.Config, path: string, time: real, policy: Policy)
    requires RunLoop.Valid(c) && time >= 0.0 && RunLoop.Number(c, time) <= MAX_INDEX
    requires Positive(policy.dt) && policy.legacyTime.None? && policy.allowFilenameFallback
      && policy.filenameInterval == Finite(c.interval)
    ensures var o := Resolve(Metadata(None, None), policy, FileName(path, RunLoop.Number(c, time)));
            && o.Resolved? && o.time <= time < o.time + c.interval
              && (o.time == time <==> time == RunLoop.Due(c, RunLoop.Number(c, time)))
  {
    var k := RunLoop.Number(c, time);
    NumberNotNegative(c, time);
    RunLoop.NumberBounds(c, time);
    RunLoop.DueNext(c, k);
    SteppedIsDue(c, k);
    FileNameRoundTrip(path, k);
    IndexClock(FileName(path, k), k, policy, c.interval, RunLoop.Due(c, k));
  }
}
