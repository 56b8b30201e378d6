/** The mean wind of the top level: a second-order Adams-Bashforth step with a two-slot history indexed by
    the parity of the step. */
module AdamsBashforth {

  /** What the tendency of one component is made of: advective and turbulent mean fluxes and the mean
      Coriolis term, which enters with opposite signs in the two components. */
  datatype Fluxes = Fluxes(advective: real, turbulent: real, coriolis: real)

  datatype Level = Level(flex: real, rdz: real, density: real)

  function Tendency(l: Level, f: Fluxes, sign: real): real
    requires l.density != 0.0
  {
    0.25 * l.flex * f.advective * l.rdz / l.density - 0.25 * l.flex * f.turbulent * l.rdz / l.density +
      sign * f.coriolis
  }

  // ----- The scheme as a function of the whole history -----

  function ForwardStep(u: real, dt: real, now: real): real { u + dt * now }

  function SecondOrderStep(u: real, dt: real, now: real, prev: real): real { u + dt * (1.5 * now - 0.5 * prev) }

  /** A forward step first, then steps of second order. */
  function Stepped(u0: real, dt: real, history: seq<real>): real {
    var n := |history|;
    if n == 0 then u0
    else if n == 1 then ForwardStep(u0, dt, history[0])
    else SecondOrderStep(Stepped(u0, dt, history[..n - 1]), dt, history[n - 1], history[n - 2])
  }

  function SumOf(history: seq<real>): real {
    if history == [] then 0.0 else SumOf(history[..|history| - 1]) + history[|history| - 1]
  }

  function ClosedForm(u0: real, dt: real, history: seq<real>): real
    requires history != []
  {
    u0 + dt * (SumOf(history) + (history[|history| - 1] - history[0]) / 2.0)
  }

  /** After n >= 1 steps the wind has gained every tendency once, and half the difference between the
      latest and the first. */
  lemma {:induction false} SteppedClosedForm(u0: real, dt: real, history: seq<real>)
    requires history != []
    ensures Stepped(u0, dt, history) == ClosedForm(u0, dt, history)
    decreases |history|
  {
    var n := |history|;
    var before := history[..n - 1];
    if n == 1 {
      assert before == [] && SumOf(history) == history[0];
    } else {
      SteppedClosedForm(u0, dt, before);
      var s, a, b, c := SumOf(before), history[n - 1], history[n - 2], history[0];
      assert Stepped(u0, dt, before) == u0 + dt * (s + (b - c) / 2.0);
      assert dt * (s + (b - c) / 2.0) + dt * (1.5 * a - 0.5 * b) == dt * (s + a + (a - c) / 2.0);
    }
  }

  // ----- What the scheme and its tendency mean -----

  /** Times four and the density, the tendency is the flux divergence of advection less that of turbulence,
      and the Coriolis term with its sign. */
  lemma TendencyBalances(l: Level, f: Fluxes, sign: real)
    requires l.density != 0.0
    ensures 4.0 * l.density * Tendency(l, f, sign) ==
      l.flex * l.rdz * (f.advective - f.turbulent) + 4.0 * l.density * (sign * f.coriolis)
  {
    var x, y := 0.25 * l.flex * f.advective * l.rdz, 0.25 * l.flex * f.turbulent * l.rdz;
    assert l.density * (x / l.density) == x && l.density * (y / l.density) == y;
    assert 4.0 * x - 4.0 * y == l.flex * l.rdz * (f.advective - f.turbulent);
  }

  ghost predicate Linear(history: seq<real>, a: real, b: real) {
    forall n :: 0 <= n < |history| ==> history[n] == a + b * (n as real)
  }

  /** With a tendency linear in time, starting from a and growing by b each step, the wind of n steps is
      exactly the integral of the tendency over them, but for the half step b / 2 the forward start
      misses; with a constant tendency it is n steps of it. */
  lemma {:induction false} LinearTendency(u0: real, dt: real, history: seq<real>, a: real, b: real)
    requires history != [] && Linear(history, a, b)
    ensures var n := |history| as real;
            Stepped(u0, dt, history) == u0 + dt * (n * a + 0.5 * b * (n * n) - 0.5 * b)
    decreases |history|
  {
    var k := |history|;
    var before := history[..k - 1];
    if k > 1 {
      LinearTendency(u0, dt, before, a, b);
      var n := (k - 1) as real;
      assert history[k - 1] == a + b * n && history[k - 2] == a + b * ((k - 2) as real) == a + b * (n - 1.0);
      LinearStep(u0, dt, n, a, b);
      assert k as real == n + 1.0;
    }
  }

  lemma LinearStep(u0: real, dt: real, n: real, a: real, b: real)
    ensures u0 + dt * (n * a + 0.5 * b * (n * n) - 0.5 * b) + dt * (1.5 * (a + b * n) - 0.5 * (a + b * (n - 1.0))) ==
            u0 + dt * ((n + 1.0) * a + 0.5 * b * ((n + 1.0) * (n + 1.0)) - 0.5 * b)
  {
    assert n * a + 0.5 * b * (n * n) - 0.5 * b + (1.5 * (a + b * n) - 0.5 * (a + b * (n - 1.0))) ==
      (n + 1.0) * a + 0.5 * b * ((n + 1.0) * (n + 1.0)) - 0.5 * b;
  }

  /** One component of the top wind. */
  class TopWind {
    /** The wind now and one step ago, the tendencies of the last two steps by parity, and the step. */
    var wind: real
    var previous: real
    var slots: array<real>
    var step: nat
    ghost const start: real
    ghost const dt: real
    ghost var history: seq<real>

    ghost predicate Valid()
      reads this, slots
    {
      && slots.Length == 2 && |history| == step
      && wind == Stepped(start, dt, history)
      && (step >= 1 ==>
        slots[(step + 1) % 2] == history[step - 1] && previous == Stepped(start, dt, history[..step - 1]))
    }

    constructor (wind: real, ghost dt: real)
      ensures Valid() && fresh(slots) && step == 0 && start == wind && this.dt == dt && history == []
    {
      this.wind, this.previous, this.step := wind, wind, 0;
      this.start, this.dt, this.history := wind, dt, [];
      slots := new real[2](_ => 0.0);
    }

    /** One step from an uninterrupted run; the step counter is advanced by the caller's time loop, here
        at the end. */
    method Update(timeStep: real, tendency: real)
      requires Valid() && timeStep == dt
      modifies this, slots
      ensures Valid() && slots == old(slots) && step == old(step) + 1 && history == old(history) + [tendency]
      ensures previous == old(wind)
      ensures wind == ClosedForm(start, dt, history)
      ensures slots[old(step) % 2] == tendency && slots[step % 2] == old(slots[(step + 1) % 2])
    {
      previous := wind;
      var now, prev := step % 2, (step + 1) % 2;
      assert now != prev && (step + 2) % 2 == now;
      slots[now] := tendency;
      if step == 0 {
        wind := ForwardStep(previous, timeStep, slots[now]);
      } else {
        wind := SecondOrderStep(previous, timeStep, slots[now], slots[prev]);
      }
      assert (history + [tendency])[..step] == history;
      history := history + [tendency];
      step := step + 1;
      SteppedClosedForm(start, dt, history);
    }
  }

  method UpdateBoth(u: TopWind, v: TopWind, du: real, dv: real, dt: real)
    requires u.Valid() && v.Valid() && u.dt == v.dt == dt && u != v && u.slots != v.slots
    modifies u, v, u.slots, v.slots
    ensures u.Valid() && v.Valid() && u.step == old(u.step) + 1 && v.step == old(v.step) + 1
    ensures u.history == old(u.history) + [du] && v.history == old(v.history) + [dv]
    ensures u.wind == ClosedForm(u.start, dt, u.history) && v.wind == ClosedForm(v.start, dt, v.history)
  {
    u.Update(dt, du);
    v.Update(dt, dv);
  }

  /** Both components in one step of the core. */
  method ComputeUVTopMean(u: TopWind, v: TopWind, l: Level, fu: Fluxes, fv: Fluxes, dt: real)
    requires u.Valid() && v.Valid() && u.dt == v.dt == dt && u.step == v.step
    requires u != v && u.slots != v.slots && l.density != 0.0
    modifies u, v, u.slots, v.slots
    ensures u.Valid() && v.Valid() && u.step == v.step == old(u.step) + 1
    ensures u.history == old(u.history) + [Tendency(l, fu, 1.0)]
      && v.history == old(v.history) + [Tendency(l, fv, -1.0)]
    ensures u.wind == ClosedForm(u.start, dt, u.history) && v.wind == ClosedForm(v.start, dt, v.history)
  {
    UpdateBoth(u, v, Tendency(l, fu, 1.0), Tendency(l, fv, -1.0), dt);
  }
}
