/** The start of the barotropic jet on a latitude-longitude chart: the streamfunction accumulated from
    the prescribed wind, on a periodic axis without its harmonic part, and the discrete curl. */
module BarotropicJet {
  import opened Sums

  /** Rows, sphere and the wind profile; the cosine is a parameter. */
  datatype Setup = Setup(ny: nat, radius: real, dphi: real, south: real, periodic: bool, jet: real -> real,
      cos: real -> real)

  function Jet(c: Setup, latitude: real): real { c.jet(latitude) }

  function Cos(c: Setup, latitude: real): real { c.cos(latitude) }

  function Divide(a: real, b: real): real { if b == 0.0 then 0.0 else a / b }

  function Row(c: Setup, j: int): int
    requires c.ny > 0
  {
    if c.periodic then j % c.ny else j
  }

  /** The latitude of the wind rows, and of the rows between them. */
  function Latitude(c: Setup, j: int): real { c.south + (j as real + 0.5) * c.dphi }

  function FaceLatitude(c: Setup, j: int): real { c.south + (j as real + 1.0) * c.dphi }

  function LatitudeU(c: Setup, j: int): real
    requires c.ny > 0
  {
    Latitude(c, Row(c, j))
  }

  /** A band of latitudes off the poles. */
  ghost predicate Valid(c: Setup) {
    && c.ny > 0 && c.radius > 0.0 && c.dphi > 0.0
    && (forall j: int :: 0 <= j < c.ny ==> Cos(c, Latitude(c, j)) > 0.0)
    && (forall j: int :: 0 <= j < c.ny ==> Cos(c, FaceLatitude(c, j)) > 0.0)
  }

  function WindAt(c: Setup, j: int): real { Jet(c, Latitude(c, j)) }

  function Wind(c: Setup): int -> real { (j: int) => WindAt(c, j) }

  function InverseScaleAt(c: Setup, j: int): real { Divide(1.0, c.radius * Cos(c, Latitude(c, j))) }

  function InverseScale(c: Setup): int -> real { (j: int) => InverseScaleAt(c, j) }

  function Transport(c: Setup, latitude: real): real { c.radius * c.dphi * Jet(c, latitude) }

  /** What one row adds to the streamfunction. */
  function PsiStep(c: Setup, harmonic: real, j: int): real {
    -Transport(c, Latitude(c, j)) + (if c.periodic then Divide(c.dphi * harmonic, Cos(c, Latitude(c, j))) else 0.0)
  }

  function PsiSteps(c: Setup, harmonic: real): int -> real { (j: int) => PsiStep(c, harmonic, j) }

  // ----- The streamfunction -----

  lemma QuotientIs(a: real, b: real)
    requires b != 0.0
    ensures Divide(a, b) * b == a
  {
  }

  lemma NonzeroCancels(d: real, x: real, y: real)
    requires d != 0.0 && x * d == y * d
    ensures x == y
  {
    assert (x - y) * d == 0.0;
  }

  lemma InverseScaleIs(radius: real, cos: real)
    requires radius > 0.0 && cos > 0.0
    ensures Divide(1.0, cos) == radius * Divide(1.0, radius * cos) && Divide(1.0, radius * cos) > 0.0
  {
    assert radius * cos > 0.0;
    QuotientIs(1.0, cos);
    QuotientIs(1.0, radius * cos);
    var x, y := Divide(1.0, cos), Divide(1.0, radius * cos);
    assert (radius * y) * cos == y * (radius * cos);
    NonzeroCancels(cos, x, radius * y);
  }

  lemma HarmonicTerm(c: Setup, harmonic: real, cos: real)
    requires cos > 0.0
    ensures Divide(c.dphi * harmonic, cos) == c.dphi * harmonic * Divide(1.0, cos)
  {
    QuotientIs(c.dphi * harmonic, cos);
    QuotientIs(1.0, cos);
    NonzeroCancels(cos, Divide(c.dphi * harmonic, cos), c.dphi * harmonic * Divide(1.0, cos));
  }

  lemma {:induction false} InverseScalePositive(c: Setup, n: nat)
    requires Valid(c) && n <= c.ny
    ensures Sum(InverseScale(c), 0, n) >= 0.0 && (n > 0 ==> Sum(InverseScale(c), 0, n) > 0.0)
  {
    if n > 0 {
      InverseScalePositive(c, n - 1);
      InverseScaleIs(c.radius, Cos(c, Latitude(c, n - 1)));
      assert InverseScale(c)(n - 1) > 0.0;
    }
  }

  /** The harmonic amplitude whose removal leaves no net transport. */
  function Harmonic(c: Setup): real { Divide(Sum(Wind(c), 0, c.ny), Sum(InverseScale(c), 0, c.ny)) }

  lemma PsiStepSplits(c: Setup, harmonic: real, a: real, j: int)
    requires Valid(c) && c.periodic && 0 <= j < c.ny && a == c.radius * c.dphi
    ensures PsiSteps(c, harmonic)(j) == a * (harmonic * InverseScale(c)(j) - Wind(c)(j))
  {
    var cos := Cos(c, Latitude(c, j));
    var y := Divide(1.0, c.radius * cos);
    HarmonicTerm(c, harmonic, cos);
    InverseScaleIs(c.radius, cos);
    Reorder(c.dphi, harmonic, c.radius, y, Jet(c, Latitude(c, j)));
  }

  lemma Reorder(dphi: real, harmonic: real, radius: real, y: real, jet: real)
    ensures -(radius * dphi * jet) + dphi * harmonic * (radius * y) == (radius * dphi) * (harmonic * y - jet)
  {
    assert dphi * harmonic * (radius * y) == (radius * dphi) * (harmonic * y);
  }

  lemma AddStep(a: real, x: real, f: real, g: real, df: real, dg: real, total: real, step: real)
    requires total == a * (x * f - g) && step == a * (x * df - dg)
    ensures total + step == a * (x * (f + df) - (g + dg))
  {
    assert x * f + x * df == x * (f + df);
  }

  predicate SplitsAt(h: int -> real, f: int -> real, g: int -> real, a: real, x: real, i: int) {
    h(i) == a * (x * f(i) - g(i))
  }

  ghost predicate Splits(h: int -> real, f: int -> real, g: int -> real, a: real, x: real, n: nat) {
    forall i :: 0 <= i < n ==> SplitsAt(h, f, g, a, x, i)
  }

  lemma SumNext(w: int -> real, n: nat)
    ensures Sum(w, 0, n + 1) == Sum(w, 0, n) + w(n)
  {
  }

  lemma {:induction false} SumOfDifferences(h: int -> real, f: int -> real, g: int -> real, a: real, x: real, n: nat)
    requires Splits(h, f, g, a, x, n)
    ensures Sum(h, 0, n) == a * (x * Sum(f, 0, n) - Sum(g, 0, n))
  {
    if n == 0 {
      assert Sum(h, 0, 0) == 0.0 && Sum(f, 0, 0) == 0.0 && Sum(g, 0, 0) == 0.0;
    } else {
      SumOfDifferences(h, f, g, a, x, n - 1);
      assert SplitsAt(h, f, g, a, x, n - 1);
      SumNext(h, n - 1);
      SumNext(f, n - 1);
      SumNext(g, n - 1);
      AddStep(a, x, Sum(f, 0, n - 1), Sum(g, 0, n - 1), f(n - 1), g(n - 1), Sum(h, 0, n - 1), h(n - 1));
    }
  }

  lemma PsiStepsSplit(c: Setup, harmonic: real, a: real)
    requires Valid(c) && c.periodic && a == c.radius * c.dphi
    ensures Splits(PsiSteps(c, harmonic), InverseScale(c), Wind(c), a, harmonic, c.ny)
  {
    forall j: int | 0 <= j < c.ny ensures SplitsAt(PsiSteps(c, harmonic), InverseScale(c), Wind(c), a, harmonic, j) {
      PsiStepSplits(c, harmonic, a, j);
    }
  }

  lemma VanishesExactly(a: real, harmonic: real, scale: real, wind: real)
    requires a > 0.0 && scale > 0.0
    ensures a * (harmonic * scale - wind) == 0.0 <==> harmonic == Divide(wind, scale)
  {
    QuotientIs(wind, scale);
    if a * (harmonic * scale - wind) == 0.0 {
      NonzeroCancels(a, harmonic * scale - wind, 0.0);
      NonzeroCancels(scale, harmonic, Divide(wind, scale));
    }
  }

  lemma SumVanishesExactly(h: int -> real, f: int -> real, g: int -> real, a: real, x: real, n: nat)
    requires a > 0.0 && Sum(f, 0, n) > 0.0 && Splits(h, f, g, a, x, n)
    ensures Sum(h, 0, n) == 0.0 <==> x == Divide(Sum(g, 0, n), Sum(f, 0, n))
  {
    SumOfDifferences(h, f, g, a, x, n);
    VanishesExactly(a, x, Sum(f, 0, n), Sum(g, 0, n));
  }

  /** On a periodic axis the streamfunction closes for one harmonic amplitude only, the one removed. */
  lemma ClosesExactlyForHarmonic(c: Setup, harmonic: real)
    requires Valid(c) && c.periodic
    ensures Sum(PsiSteps(c, harmonic), 0, c.ny) == 0.0 <==> harmonic == Harmonic(c)
  {
    var a := c.radius * c.dphi;
    assert a > 0.0;
    InverseScalePositive(c, c.ny);
    PsiStepsSplit(c, harmonic, a);
    SumVanishesExactly(PsiSteps(c, harmonic), InverseScale(c), Wind(c), a, harmonic, c.ny);
  }

  method FindHarmonic(c: Setup) returns (harmonic: real)
    requires Valid(c) && c.periodic
    ensures harmonic == Harmonic(c)
  {
    var windSum, inverseScaleSum := 0.0, 0.0;
    for j := 0 to c.ny
      invariant windSum == Sum(Wind(c), 0, j) && inverseScaleSum == Sum(InverseScale(c), 0, j)
    {
      var latitude := Latitude(c, j);
      InverseScaleIs(c.radius, Cos(c, latitude));
      assert InverseScale(c)(j) == 1.0 / (c.radius * Cos(c, latitude));
      windSum := windSum + Jet(c, latitude);
      inverseScaleSum := inverseScaleSum + 1.0 / (c.radius * Cos(c, latitude));
    }
    InverseScalePositive(c, c.ny);
    harmonic := windSum / inverseScaleSum;
  }

  lemma RowInside(c: Setup, j: int)
    requires 0 <= j < c.ny
    ensures Row(c, j) == j
  {
    IsRemainder(j, c.ny, 0, j);
  }

  lemma NextSum(c: Setup, harmonic: real, j: nat)
    ensures Sum(PsiSteps(c, harmonic), 0, j + 1) == Sum(PsiSteps(c, harmonic), 0, j) + PsiStep(c, harmonic, j)
  {
  }

  method AddRow(c: Setup, harmonic: real, before: real, j: nat) returns (after: real)
    requires Valid(c) && j < c.ny
    ensures after == before + PsiStep(c, harmonic, j)
  {
    RowInside(c, j);
    after := before - c.radius * c.dphi * Jet(c, Latitude(c, j));
    if c.periodic { after := after + Divide(c.dphi * harmonic, Cos(c, LatitudeU(c, j))); }
  }

  /** The prefix of the streamfunction: on a periodic axis it closes; in a channel every difference is
      minus radius times spacing times the wind, and the last entry, the wall value, is their total. */
  method PsiPrefix(c: Setup) returns (psi: array<real>)
    requires Valid(c)
    ensures fresh(psi) && psi.Length == c.ny + 1 && psi[0] == 0.0
    ensures IsPrefix(c, psi[..])
    ensures c.periodic ==> psi[c.ny] == 0.0
    ensures !c.periodic ==> psi[c.ny] == -(c.radius * c.dphi) * Sum(Wind(c), 0, c.ny)
  {
    psi := new real[c.ny + 1](_ => 0.0);
    var harmonic := 0.0;
    if c.periodic { harmonic := FindHarmonic(c); }
    for j := 0 to c.ny
      invariant forall t :: 0 <= t <= j ==> psi[t] == Sum(PsiSteps(c, harmonic), 0, t)
    {
      NextSum(c, harmonic, j);
      psi[j + 1] := AddRow(c, harmonic, psi[j], j);
    }
    PrefixEnds(c);
  }

  lemma PrefixEnds(c: Setup)
    requires Valid(c)
    ensures Sum(PsiSteps(c, Amplitude(c)), 0, c.ny) == if c.periodic then 0.0
      else -(c.radius * c.dphi) * Sum(Wind(c), 0, c.ny)
  {
    if c.periodic { ClosesExactlyForHarmonic(c, Harmonic(c)); } else { ChannelTotal(c); }
  }

  function Amplitude(c: Setup): real { if c.periodic then Harmonic(c) else 0.0 }

  ghost predicate IsPrefix(c: Setup, psi: seq<real>) {
    |psi| == c.ny + 1 && forall t :: 0 <= t <= c.ny ==> psi[t] == Sum(PsiSteps(c, Amplitude(c)), 0, t)
  }

  lemma ChannelTotal(c: Setup)
    requires Valid(c) && !c.periodic
    ensures Sum(PsiSteps(c, 0.0), 0, c.ny) == -(c.radius * c.dphi) * Sum(Wind(c), 0, c.ny)
  {
    var zero := (j: int) => 0.0;
    SumLinear(PsiSteps(c, 0.0), zero, -(c.radius * c.dphi), Wind(c), 0, c.ny);
    SumZero(zero, 0, c.ny);
  }

  // ----- Rows of a rank -----

  function Clamp(c: Setup, g: int): int { if g < 0 then 0 else if g > c.ny then c.ny else g }

  /** The streamfunction a rank stores at global row `g`, halo rows included. */
  function PsiAt(c: Setup, psi: seq<real>, g: int): real
    requires c.ny > 0 && |psi| == c.ny + 1
  {
    psi[Clamp(c, Row(c, g) + 1)]
  }

  /** Neighbouring rows differ by the row's step: everywhere on a periodic axis, across its seam because
      the streamfunction closes; in a channel between the walls, and not at all outside them. */
  lemma RowsDifferByStep(c: Setup, psi: seq<real>, g: int)
    requires Valid(c) && IsPrefix(c, psi)
    ensures PsiAt(c, psi, g) - PsiAt(c, psi, g - 1) ==
      if c.periodic || 0 <= g < c.ny then PsiStep(c, Amplitude(c), Row(c, g)) else 0.0
  {
    var steps := PsiSteps(c, Amplitude(c));
    if c.periodic {
      RowBefore(g, c.ny);
      if g % c.ny == 0 {
        ClosesExactlyForHarmonic(c, Harmonic(c));
        assert Sum(steps, 0, 1) == Sum(steps, 0, 0) + steps(0);
      }
    }
  }

  lemma RowBefore(g: int, n: int)
    requires n > 0
    ensures (g - 1) % n == if g % n == 0 then n - 1 else g % n - 1
  {
    var q := g / n;
    assert g == q * n + g % n;
    if g % n == 0 { IsRemainder(g - 1, n, q - 1, n - 1); } else { IsRemainder(g - 1, n, q, g % n - 1); }
  }

  lemma IsRemainder(g: int, n: int, q: int, r: int)
    requires 0 <= r < n && g == q * n + r
    ensures g % n == r
  {
    var d := g / n - q;
    assert d * n == r - g % n;
  }

  // ----- The discrete curl -----

  /** Angular momentum per radius. */
  function Momentum(c: Setup, latitude: real): real { Cos(c, latitude) * Jet(c, latitude) }

  function NextLatitude(c: Setup, g: int): real
    requires c.ny > 0
  {
    if c.periodic then LatitudeU(c, g + 1) else Latitude(c, g) + c.dphi
  }

  /** The curl at a row from the change of a momentum to the next row. */
  function CurlOf(c: Setup, change: real, g: int): real {
    Divide(-change, c.radius * Cos(c, FaceLatitude(c, g)) * c.dphi)
  }

  /** The curl at global row `g`, already wrapped on a periodic axis. */
  function Curl(c: Setup, g: int): real
    requires c.ny > 0
  {
    CurlOf(c, Momentum(c, NextLatitude(c, g)) - Momentum(c, Latitude(c, g)), g)
  }

  /** Momentum of the rows, with the row after the last. */
  function MomentumAt(c: Setup, j: int): real { Momentum(c, Latitude(c, j)) }

  function Momenta(c: Setup): int -> real { (j: int) => MomentumAt(c, j) }

  function WeightedCurl(c: Setup): int -> real
    requires c.ny > 0
  {
    (j: int) => c.radius * c.dphi * (Cos(c, FaceLatitude(c, j)) * Curl(c, j))
  }

  lemma WeightedCurlIsDifference(c: Setup, j: int)
    requires Valid(c) && 0 <= j < c.ny
    ensures WeightedCurl(c)(j) == Momenta(c)(j) - Momenta(c)(if c.periodic && j + 1 == c.ny then 0 else j + 1)
  {
    var cos := Cos(c, FaceLatitude(c, j));
    var d := c.radius * cos * c.dphi;
    assert c.radius * cos > 0.0;
    assert d > 0.0;
    QuotientIs(-(Momentum(c, NextLatitude(c, j)) - Momentum(c, Latitude(c, j))), d);
    assert c.radius * c.dphi * (cos * Curl(c, j)) == Curl(c, j) * d;
    NextIsNext(c, j);
  }

  lemma NextIsNext(c: Setup, j: int)
    requires Valid(c) && 0 <= j < c.ny
    ensures NextLatitude(c, j) == Latitude(c, if c.periodic && j + 1 == c.ny then 0 else j + 1)
  {
    if c.periodic { if j + 1 == c.ny { IsRemainder(j + 1, c.ny, 1, 0); } else { IsRemainder(j + 1, c.ny, 0, j + 1); } }
    assert ((j + 1) as real + 0.5) * c.dphi == (j as real + 0.5) * c.dphi + c.dphi;
  }

  /** The curl weighted by the cosine sums to nothing on a periodic axis; in a channel to what the ends
      differ by. */
  lemma CurlSum(c: Setup)
    requires Valid(c)
    ensures Sum(WeightedCurl(c), 0, c.ny) == if c.periodic then 0.0 else Momenta(c)(0) - Momenta(c)(c.ny)
  {
    var negative := (j: int) => -Momenta(c)(j);
    forall j | 0 <= j < c.ny
      ensures WeightedCurl(c)(j) == negative(if c.periodic && j + 1 == c.ny then 0 else j + 1) - negative(j)
    {
      WeightedCurlIsDifference(c, j);
    }
    if c.periodic {
      RingCancels(WeightedCurl(c), negative, c.ny);
    } else {
      Telescopes(WeightedCurl(c), negative, 0, c.ny);
    }
  }

  /** The wind whose streamfunction this is: the jet without its harmonic part. */
  function PsiWind(c: Setup, j: int): real { Divide(-PsiStep(c, Amplitude(c), j), c.radius * c.dphi) }

  /** `a` is the length of a step, `t` the harmonic term of a row, `u` the amplitude over the radius. */
  lemma WindWithoutHarmonic(w: real, t: real, u: real, h: real, cos: real, radius: real, dphi: real, a: real, jet: real)
    requires a > 0.0 && a == radius * dphi && w * a == a * jet - t && t * cos == dphi * h && u * radius == h
    ensures cos * w == cos * jet - u
  {
    assert (cos * w) * a == cos * (a * jet) - t * cos;
    assert u * a == dphi * (u * radius);
    assert cos * (a * jet) == (cos * jet) * a;
    NonzeroCancels(a, cos * w, cos * jet - u);
  }

  lemma WindFromQuotients(w: real, h: real, cos: real, radius: real, dphi: real, jet: real)
    requires radius > 0.0 && dphi > 0.0 && cos > 0.0
    requires w * (radius * dphi) == (radius * dphi) * jet - Divide(dphi * h, cos)
    ensures cos * w == cos * jet - Divide(h, radius)
  {
    assert radius * dphi > 0.0;
    QuotientIs(dphi * h, cos);
    QuotientIs(h, radius);
    WindWithoutHarmonic(w, Divide(dphi * h, cos), Divide(h, radius), h, cos, radius, dphi, radius * dphi, jet);
  }

  lemma StepTimesLength(step: real, w: real, radius: real, dphi: real)
    requires radius > 0.0 && dphi > 0.0 && w == Divide(step, radius * dphi)
    ensures w * (radius * dphi) == step
  {
    assert radius * dphi > 0.0;
    QuotientIs(step, radius * dphi);
  }

  lemma MinusStep(c: Setup, h: real, j: int)
    requires c.periodic
    ensures -PsiStep(c, h, j) ==
      (c.radius * c.dphi) * Jet(c, Latitude(c, j)) - Divide(c.dphi * h, Cos(c, Latitude(c, j)))
  {
  }

  /** The wind of a row whose step removes the amplitude `h`. */
  lemma WindOfStep(c: Setup, h: real, w: real, j: int)
    requires c.radius > 0.0 && c.dphi > 0.0 && c.periodic && Cos(c, Latitude(c, j)) > 0.0
    requires w == Divide(-PsiStep(c, h, j), c.radius * c.dphi)
    ensures Cos(c, Latitude(c, j)) * w == Momentum(c, Latitude(c, j)) - Divide(h, c.radius)
  {
    MinusStep(c, h, j);
    StepTimesLength(-PsiStep(c, h, j), w, c.radius, c.dphi);
    WindFromQuotients(w, h, Cos(c, Latitude(c, j)), c.radius, c.dphi, Jet(c, Latitude(c, j)));
  }

  /** What a row of this wind carries. */
  function PsiMomentum(c: Setup, j: int): real { Cos(c, Latitude(c, j)) * PsiWind(c, j) }

  lemma PsiMomentumIs(c: Setup, j: int)
    requires Valid(c) && c.periodic && 0 <= j < c.ny
    ensures PsiMomentum(c, j) == Momentum(c, Latitude(c, j)) - Divide(Harmonic(c), c.radius)
  {
    WindOfStep(c, Harmonic(c), PsiWind(c, j), j);
  }

  lemma SameChange(a: real, b: real, x: real, y: real, removed: real)
    requires x == a - removed && y == b - removed
    ensures a - b == x - y
  {
  }

  lemma ChangeIgnoresHarmonic(c: Setup, j: int, next: int)
    requires Valid(c) && c.periodic && 0 <= j < c.ny && 0 <= next < c.ny
    ensures Momentum(c, Latitude(c, next)) - Momentum(c, Latitude(c, j)) == PsiMomentum(c, next) - PsiMomentum(c, j)
  {
    PsiMomentumIs(c, j);
    PsiMomentumIs(c, next);
    SameChange(Momentum(c, Latitude(c, next)), Momentum(c, Latitude(c, j)), PsiMomentum(c, next), PsiMomentum(c, j),
      Divide(Harmonic(c), c.radius));
  }

  /** Removing the harmonic part leaves the discrete curl: the curl stored is that of the wind the
      streamfunction describes. */
  lemma CurlIgnoresHarmonic(c: Setup, j: int)
    requires Valid(c) && c.periodic && 0 <= j < c.ny
    ensures Curl(c, j) == CurlOf(c, PsiMomentum(c, if j + 1 == c.ny then 0 else j + 1) - PsiMomentum(c, j), j)
  {
    var next := if j + 1 == c.ny then 0 else j + 1;
    ChangeIgnoresHarmonic(c, j, next);
    NextIsNext(c, j);
  }

  // ----- The rows, in full -----

  /** The latitude of the middle of row `j`: so many half spacings above the south end. */
  function Middle(c: Setup, j: int): real { c.south + c.dphi * ((2 * j + 1) as real) / 2.0 }

  lemma LatitudeIsMiddle(c: Setup, j: int)
    ensures Latitude(c, j) == Middle(c, j)
  {
  }

  /** The wind of a row is the jet at its middle. */
  lemma WindOfRow(c: Setup, j: int)
    ensures WindAt(c, j) == c.jet(Middle(c, j))
  {
    LatitudeIsMiddle(c, j);
  }

  lemma TermTimes(x: real, a: real, b: real)
    requires b != 0.0 && x == Divide(a, b)
    ensures x * b == a
  {
    QuotientIs(a, b);
  }

  /** What a row adds to the streamfunction: less the wind over the row's length, and on a periodic axis the
      harmonic amplitude over the length at its latitude. */
  lemma StepOfRow(c: Setup, harmonic: real, j: int)
    requires Valid(c) && 0 <= j < c.ny
    ensures var rest := PsiStep(c, harmonic, j) + c.radius * c.dphi * c.jet(Middle(c, j));
            if c.periodic then rest * c.cos(Middle(c, j)) == c.dphi * harmonic else rest == 0.0
  {
    LatitudeIsMiddle(c, j);
    assert Cos(c, Latitude(c, j)) > 0.0;
    TermTimes(Divide(c.dphi * harmonic, Cos(c, Latitude(c, j))), c.dphi * harmonic, Cos(c, Latitude(c, j)));
  }

  /** The amplitude removed, over the length of each row, makes up for the total wind. */
  lemma AmplitudeBalances(c: Setup)
    requires Valid(c) && c.periodic
    ensures Amplitude(c) * Sum(InverseScale(c), 0, c.ny) == Sum(Wind(c), 0, c.ny)
  {
    InverseScalePositive(c, c.ny);
    TermTimes(Amplitude(c), Sum(Wind(c), 0, c.ny), Sum(InverseScale(c), 0, c.ny));
  }

  /** The reciprocal length of a row. */
  lemma InverseScaleOfRow(c: Setup, j: int)
    requires Valid(c) && 0 <= j < c.ny
    ensures InverseScaleAt(c, j) * (c.radius * c.cos(Middle(c, j))) == 1.0
  {
    LatitudeIsMiddle(c, j);
    var cos := Cos(c, Latitude(c, j));
    InverseScaleIs(c.radius, cos);
    assert c.radius * cos > 0.0;
    QuotientIs(1.0, c.radius * cos);
  }

  /** The curl of a row, times the area of a unit of longitude at its north face: the momentum of the row
      less that of the next, the first after the last on a periodic axis. */
  lemma CurlOfRow(c: Setup, j: int)
    requires Valid(c) && 0 <= j < c.ny
    ensures var (low, high) := (Middle(c, j), Middle(c, if c.periodic && j + 1 == c.ny then 0 else j + 1));
            Curl(c, j) * (c.radius * c.cos(c.south + ((j + 1) as real) * c.dphi) * c.dphi) ==
              c.cos(low) * c.jet(low) - c.cos(high) * c.jet(high)
  {
    var next := if c.periodic && j + 1 == c.ny then 0 else j + 1;
    NextIsNext(c, j);
    LatitudeIsMiddle(c, j);
    LatitudeIsMiddle(c, next);
    CurlTimesArea(c, Momentum(c, Latitude(c, next)) - Momentum(c, Latitude(c, j)), j);
  }

  lemma CurlTimesArea(c: Setup, change: real, j: int)
    requires Valid(c) && 0 <= j < c.ny
    ensures CurlOf(c, change, j) * (c.radius * c.cos(c.south + ((j + 1) as real) * c.dphi) * c.dphi) == -change
  {
    var cos := Cos(c, FaceLatitude(c, j));
    assert FaceLatitude(c, j) == c.south + ((j + 1) as real) * c.dphi;
    assert c.radius * cos > 0.0;
    assert c.radius * cos * c.dphi > 0.0;
    QuotientIs(-change, c.radius * cos * c.dphi);
  }

  // ----- The fields of a rank -----

  function RowsStored(c: Setup, start: int, h: int, j: int): int
    requires c.ny > 0
  {
    Row(c, start + j - h)
  }

  /** Stored row j is global row start + j - h, on a periodic axis the one a whole number of turns away. */
  lemma StoredRow(c: Setup, start: int, h: int, j: int, turns: int, g: int)
    requires c.ny > 0 && start + j - h == turns * c.ny + g && if c.periodic then 0 <= g < c.ny else turns == 0
    ensures RowsStored(c, start, h, j) == g
  {
    if c.periodic { IsRemainder(start + j - h, c.ny, turns, g); }
  }

  /** The streamfunction vanishes at the south end, below row 0. */
  lemma VanishesAtSouthEnd(c: Setup, psi: seq<real>)
    requires Valid(c) && IsPrefix(c, psi)
    ensures PsiAt(c, psi, -1) == 0.0
  {
    if c.periodic {
      IsRemainder(-1, c.ny, -1, c.ny - 1);
      ClosesExactlyForHarmonic(c, Harmonic(c));
    }
  }

  method FillRow(f: array2<real>, j: int, value: real)
    requires 0 <= j < f.Length0
    modifies f
    ensures forall t, i :: 0 <= t < f.Length0 && 0 <= i < f.Length1 ==> f[t, i] == if t == j then value
              else old(f[t, i])
  {
    for i := 0 to f.Length1
      invariant forall t, l :: 0 <= t < f.Length0 && 0 <= l < f.Length1 ==> f[t, l] == if t == j && l < i then value
                  else old(f[t, l])
    {
      f[j, i] := value;
    }
  }

  method RowValues(c: Setup, g: int) returns (initialU: real, curl: real)
    requires c.ny > 0
    ensures initialU == WindAt(c, g) && curl == Curl(c, g)
  {
    var phiU, phiZ := Latitude(c, g), FaceLatitude(c, g);
    initialU := Jet(c, phiU);
    var nextPhi := if c.periodic then LatitudeU(c, g + 1) else phiU + c.dphi;
    curl := Divide(-(Cos(c, nextPhi) * Jet(c, nextPhi) - Cos(c, phiU) * initialU), c.radius * Cos(c, phiZ) * c.dphi);
  }

  /** Every stored row, halo rows included, holds streamfunction, wind and curl of its global row. */
  method FillRows(c: Setup, start: int, h: int, prefix: array<real>, psi: array2<real>, u: array2<real>,
      zeta: array2<real>)
    requires Valid(c) && prefix.Length == c.ny + 1 && psi != u && psi != zeta && u != zeta
      && psi.Length0 == u.Length0 == zeta.Length0
    modifies psi, u, zeta
    ensures forall j, i :: 0 <= j < psi.Length0 && 0 <= i < psi.Length1 ==>
              psi[j, i] == PsiAt(c, prefix[..], start + j - h)
    ensures forall j, i :: 0 <= j < psi.Length0 && 0 <= i < u.Length1 ==>
              u[j, i] == WindAt(c, RowsStored(c, start, h, j))
    ensures forall j, i :: 0 <= j < psi.Length0 && 0 <= i < zeta.Length1 ==>
              zeta[j, i] == Curl(c, RowsStored(c, start, h, j))
  {
    for j := 0 to psi.Length0
      invariant forall t, i :: 0 <= t < j && 0 <= i < psi.Length1 ==> psi[t, i] == PsiAt(c, prefix[..], start + t - h)
      invariant forall t, i :: 0 <= t < j && 0 <= i < u.Length1 ==> u[t, i] == WindAt(c, RowsStored(c, start, h, t))
      invariant forall t, i :: 0 <= t < j && 0 <= i < zeta.Length1 ==> zeta[t, i] == Curl(c, RowsStored(c, start, h, t))
    {
      var g := start + j - h;
      if c.periodic { g := g % c.ny; }
      assert g == RowsStored(c, start, h, j);
      var initialU, curl := RowValues(c, g);
      FillRow(u, j, initialU);
      FillRow(zeta, j, curl);
      FillRow(psi, j, prefix[Clamp(c, g + 1)]);
    }
  }

  /** The perturbation of the vorticity at a latitude and a global column. */
  function Bump(bump: (real, int) -> real, latitude: real, column: int): real { bump(latitude, column) }

  /** One row of all levels: the wind alone, and the curl with the perturbation of each column. */
  method FillVolumeRow(c: Setup, bump: (real, int) -> real, u: array3<real>, zeta: array3<real>, j: int, g: int,
      startX: int, h: int)
    requires c.ny > 0 && u != zeta && 0 <= j < u.Length1 && u.Length0 == zeta.Length0 && u.Length1 == zeta.Length1
      && u.Length2 == zeta.Length2
    modifies u, zeta
    ensures forall k, t, i :: 0 <= k < u.Length0 && 0 <= t < u.Length1 && 0 <= i < u.Length2 ==>
              u[k, t, i] == if t == j then WindAt(c, g) else old(u[k, t, i])
    ensures forall k, t, i :: 0 <= k < u.Length0 && 0 <= t < u.Length1 && 0 <= i < u.Length2 ==>
              zeta[k, t, i] == if t == j then Curl(c, g) + Bump(bump, FaceLatitude(c, g), startX + i - h)
                else old(zeta[k, t, i])
  {
    for i := 0 to u.Length2
      invariant forall k, t, l :: 0 <= k < u.Length0 && 0 <= t < u.Length1 && 0 <= l < u.Length2 ==>
                  u[k, t, l] == if t == j && l < i then WindAt(c, g) else old(u[k, t, l])
      invariant forall k, t, l :: 0 <= k < u.Length0 && 0 <= t < u.Length1 && 0 <= l < u.Length2 ==>
                  zeta[k, t, l] == if t == j && l < i then Curl(c, g) + Bump(bump, FaceLatitude(c, g), startX + l - h)
                  else old(zeta[k, t, l])
    {
      FillColumn(u, j, i, WindAt(c, g));
      FillColumn(zeta, j, i, Curl(c, g) + Bump(bump, FaceLatitude(c, g), startX + i - h));
    }
  }

  method FillColumn(f: array3<real>, j: int, i: int, value: real)
    requires 0 <= j < f.Length1 && 0 <= i < f.Length2
    modifies f
    ensures forall k, t, l :: 0 <= k < f.Length0 && 0 <= t < f.Length1 && 0 <= l < f.Length2 ==>
              f[k, t, l] == if t == j && l == i then value else old(f[k, t, l])
  {
    for k := 0 to f.Length0
      invariant forall m, t, l :: 0 <= m < f.Length0 && 0 <= t < f.Length1 && 0 <= l < f.Length2 ==>
                  f[m, t, l] == if m < k && t == j && l == i then value else old(f[m, t, l])
    {
      f[k, j, i] := value;
    }
  }

  /** The three-dimensional fields: every level of a row holds its wind, and its curl with the perturbation. */
  method FillVolumes(c: Setup, bump: (real, int) -> real, startY: int, startX: int, h: int, u: array3<real>,
      zeta: array3<real>)
    requires c.ny > 0 && u != zeta && u.Length0 == zeta.Length0 && u.Length1 == zeta.Length1
      && u.Length2 == zeta.Length2
    modifies u, zeta
    ensures forall k, j, i :: 0 <= k < u.Length0 && 0 <= j < u.Length1 && 0 <= i < u.Length2 ==>
              u[k, j, i] == WindAt(c, RowsStored(c, startY, h, j))
    ensures forall k, j, i :: 0 <= k < u.Length0 && 0 <= j < u.Length1 && 0 <= i < u.Length2 ==>
              zeta[k, j, i] ==
                Curl(c, RowsStored(c, startY, h, j)) +
                Bump(bump, FaceLatitude(c, RowsStored(c, startY, h, j)), startX + i - h)
  {
    for j := 0 to u.Length1
      invariant forall k, t, i :: 0 <= k < u.Length0 && 0 <= t < j && 0 <= i < u.Length2 ==>
                  u[k, t, i] == WindAt(c, RowsStored(c, startY, h, t))
      invariant forall k, t, i :: 0 <= k < u.Length0 && 0 <= t < j && 0 <= i < u.Length2 ==>
                  zeta[k, t, i] ==
                  Curl(c, RowsStored(c, startY, h, t)) +
                  Bump(bump, FaceLatitude(c, RowsStored(c, startY, h, t)), startX + i - h)
    {
      FillVolumeRow(c, bump, u, zeta, j, RowsStored(c, startY, h, j), startX, h);
    }
  }
}
