/** The stretched vertical grid.  Heights are stretched by a quadratic; the TaiwanVVM variant then shifts
    interfaces and midpoints upward in place, pass by pass, putting uniform layers at the bottom. */
module VerticalGrid {

  const DOMAIN: real := 15000.0

  type Pos = n: nat | n >= 1 witness 1

  /** Spacings the configuration guarantees for a stretched grid. */
  predicate Stretches(dz: real, dz1: real) { 0.0 < dz1 < dz < DOMAIN }

  function Span(dz: real): real { dz * (DOMAIN - dz) }

  /** Spacings for which the coefficients exist. */
  predicate Usable(dz: real) { dz > 0.0 && dz != DOMAIN }

  /** Spacings for which the heights are shifted: the quadratic term does not vanish. */
  predicate Shifts(dz: real, dz1: real) { Usable(dz) && dz1 > 0.0 && dz1 != dz }

  function Cz2(dz: real, dz1: real): real
    requires Usable(dz)
  {
    SpanNonzero(dz);
    (dz - dz1) / Span(dz)
  }

  function Cz1(dz: real, dz1: real): real
    requires Usable(dz)
  {
    1.0 - Cz2(dz, dz1) * DOMAIN
  }

  function Stretch(dz: real, dz1: real, z: real): real
    requires Usable(dz)
  {
    z * (Cz1(dz, dz1) + Cz2(dz, dz1) * z)
  }

  function Slope(dz: real, dz1: real, z: real): real
    requires Usable(dz)
  {
    Cz1(dz, dz1) + 2.0 * Cz2(dz, dz1) * z
  }

  // ----- The stretching -----

  lemma Quotient(a: real, b: real)
    requires b != 0.0
    ensures (a / b) * b == a
  {
  }

  lemma ProductPositive(a: real, b: real)
    requires a > 0.0 && b > 0.0
    ensures a * b > 0.0
  {
  }

  lemma FactorPositive(a: real, b: real)
    requires b > 0.0 && a * b > 0.0
    ensures a > 0.0
  {
    if a < 0.0 { ProductPositive(-a, b); }
  }

  lemma SpanNonzero(dz: real)
    requires Usable(dz)
    ensures Span(dz) != 0.0
  {
    var rest := DOMAIN - dz;
    if rest > 0.0 { ProductPositive(dz, rest); } else { ProductPositive(dz, -rest); }
    assert Span(dz) == dz * rest;
  }

  lemma SpanPositive(dz: real)
    requires 0.0 < dz < DOMAIN
    ensures Span(dz) > 0.0
  {
    var rest := DOMAIN - dz;
    ProductPositive(dz, rest);
    assert Span(dz) == dz * rest;
  }

  /** The quotient in the coefficients, multiplied out. */
  lemma CoefficientFacts(dz: real, dz1: real)
    requires 0.0 < dz < DOMAIN
    ensures Span(dz) > 0.0 && Cz2(dz, dz1) * Span(dz) == dz - dz1
  {
    SpanPositive(dz);
    Quotient(dz - dz1, Span(dz));
  }

  lemma QuadraticTerm(dz: real, dz1: real)
    requires Usable(dz)
    ensures Cz2(dz, dz1) * Span(dz) == dz - dz1 && (dz1 != dz ==> Cz2(dz, dz1) != 0.0)
  {
    SpanNonzero(dz);
    Quotient(dz - dz1, Span(dz));
  }

  /** The first interface of the stretched grid is one lowest layer up. */
  lemma FirstStep(dz: real, dz1: real)
    requires Usable(dz)
    ensures Stretch(dz, dz1, dz) == dz1
  {
    QuadraticTerm(dz, dz1);
    var c := Cz2(dz, dz1);
    assert dz * (1.0 - c * DOMAIN + c * dz) == dz - c * Span(dz);
  }

  lemma SlopeFrom(c1: real, c: real, dz: real, z: real)
    requires c > 0.0 && c1 + c * dz > 0.0 && 0.0 < dz <= z
    ensures c1 + 2.0 * c * z > 0.0
  {
    ProductPositive(c, 2.0 * z - dz);
    assert c1 + 2.0 * c * z == (c1 + c * dz) + c * (2.0 * z - dz);
  }

  lemma FirstSlope(dz: real, dz1: real)
    requires Stretches(dz, dz1)
    ensures Cz2(dz, dz1) > 0.0 && Cz1(dz, dz1) + Cz2(dz, dz1) * dz > 0.0
  {
    CoefficientFacts(dz, dz1);
    FactorPositive(Cz2(dz, dz1), Span(dz));
    FirstStep(dz, dz1);
    FactorPositive(Cz1(dz, dz1) + Cz2(dz, dz1) * dz, dz);
  }

  /** From the first interface up the stretching has positive slope. */
  lemma SlopePositive(dz: real, dz1: real, z: real)
    requires Stretches(dz, dz1) && z >= dz
    ensures Cz2(dz, dz1) > 0.0 && Slope(dz, dz1, z) > 0.0
  {
    FirstSlope(dz, dz1);
    SlopeFrom(Cz1(dz, dz1), Cz2(dz, dz1), dz, z);
  }

  lemma StretchIncreases(dz: real, dz1: real, a: real, b: real)
    requires Stretches(dz, dz1) && dz <= a < b
    ensures Stretch(dz, dz1, a) < Stretch(dz, dz1, b)
  {
    var c1, c2 := Cz1(dz, dz1), Cz2(dz, dz1);
    SlopePositive(dz, dz1, a);
    assert c2 * b > c2 * a by { ProductPositive(c2, b - a); }
    ProductPositive(b - a, c1 + c2 * (a + b));
    assert b * (c1 + c2 * b) - a * (c1 + c2 * a) == (b - a) * (c1 + c2 * (a + b));
  }

  // ----- What the passes build -----

  /** Interface i after m shift passes over interfaces `base`: uniform up to m, shifted above. */
  function Interface(base: int -> real, dz1: real, m: int, i: int): real {
    if i <= m then (i as real) * dz1 else base(i - m) + (m as real) * dz1
  }

  /** Midpoint i after m passes over midpoints `base`. */
  function Midpoint(base: int -> real, dz1: real, m: int, i: int): real {
    if i <= 0 then 0.0 else if i <= m + 1 then (i as real - 0.5) * dz1 else base(i - m) + (m as real) * dz1
  }

  /** Metric coefficient at interface i after m passes. */
  function Metric(base: int -> real, bottom: real, m: int, i: int): real {
    if i <= m then bottom else base(i - m)
  }

  /** One more pass: from the new centre up each interface is the one below it, a layer higher. */
  lemma PassShifts(base: int -> real, dz1: real, m: nat, i: int)
    ensures i > m + 1 ==> Interface(base, dz1, m + 1, i) == Interface(base, dz1, m, i - 1) + dz1
    ensures i == m + 1 ==> Interface(base, dz1, m + 1, i) == Interface(base, dz1, m, m) + dz1
    ensures i <= m ==> Interface(base, dz1, m + 1, i) == Interface(base, dz1, m, i)
  {
    assert ((m + 1) as real) * dz1 == (m as real) * dz1 + dz1;
  }

  lemma PassShiftsMidpoints(base: int -> real, dz1: real, m: nat, i: int)
    ensures i > m + 2 ==> Midpoint(base, dz1, m + 1, i) == Midpoint(base, dz1, m, i - 1) + dz1
    ensures i == m + 2 ==> Midpoint(base, dz1, m + 1, i) == Midpoint(base, dz1, m, m + 1) + dz1
    ensures i <= m + 1 ==> Midpoint(base, dz1, m + 1, i) == Midpoint(base, dz1, m, i)
  {
    assert ((m + 1) as real) * dz1 == (m as real) * dz1 + dz1;
    assert ((m + 2) as real - 0.5) * dz1 == ((m + 1) as real - 0.5) * dz1 + dz1;
  }

  /** Unstretched heights of interface i and of the midpoint below it. */
  function FaceHeight(dz: real, i: int): real { (i as real) * dz }

  function CentreHeight(dz: real, i: int): real { (i as real - 0.5) * dz }

  /** The stretched interfaces, midpoints and metric coefficients, counted in layers above the ground. */
  function Faces(dz: real, dz1: real): int -> real
    requires Usable(dz)
  {
    (i: int) => Stretch(dz, dz1, FaceHeight(dz, i))
  }

  function Centres(dz: real, dz1: real): int -> real
    requires Usable(dz)
  {
    (i: int) => Stretch(dz, dz1, CentreHeight(dz, i))
  }

  function Slopes(dz: real, dz1: real): int -> real
    requires Usable(dz)
  {
    (i: int) => Inverse(Slope(dz, dz1, FaceHeight(dz, i)))
  }

  /** The reciprocal; the value at zero stands for the infinity of the floating-point quotient. */
  function Inverse(x: real): real { if x == 0.0 then 0.0 else 1.0 / x }

  // ----- The passes -----

  /** A height after one pass: from the centre up it is the one below it, a layer higher. */
  function RaisedAt(s: seq<real>, center: nat, step: real, k: nat): real
    requires 1 <= center && k < |s|
  {
    if k >= center then s[k - 1] + step else s[k]
  }

  function Raised(s: seq<real>, center: nat, step: real): seq<real>
    requires center >= 1
  {
    seq(|s|, k requires 0 <= k < |s| => RaisedAt(s, center, step, k))
  }

  /** A coefficient after one pass: above the centre it is the one below it. */
  function CarriedAt(s: seq<real>, center: nat, bottom: real, k: nat): real
    requires k < |s|
  {
    if k > center then s[k - 1] else if k == center then bottom else s[k]
  }

  function Carried(s: seq<real>, center: nat, bottom: real): seq<real> {
    seq(|s|, k requires 0 <= k < |s| => CarriedAt(s, center, bottom, k))
  }

  /** One pass over heights, downwards from the top to its centre. */
  method Raise(z: array<real>, center: nat, dz1: real)
    requires center >= 1
    modifies z
    ensures z[..] == Raised(old(z[..]), center, dz1)
  {
    ghost var was := z[..];
    var k := z.Length - 1;
    while k > center
      invariant k <= z.Length - 1 && (k >= center || k == z.Length - 1)
      invariant forall q :: 0 <= q <= k ==> z[q] == was[q]
      invariant forall q :: k < q < z.Length ==> z[q] == RaisedAt(was, center, dz1, q)
    {
      z[k] := z[k - 1] + dz1;
      k := k - 1;
    }
    if center < z.Length { z[center] := z[center - 1] + dz1; }
    assert forall q :: 0 <= q < z.Length ==> z[q] == RaisedAt(was, center, dz1, q);
  }

  /** One pass over interfaces and coefficients together. */
  method RaiseWithCoefficients(zUp: array<real>, flexUp: array<real>, center: nat, dz1: real, bottom: real)
    requires zUp != flexUp && center >= 1 && zUp.Length == flexUp.Length
    modifies zUp, flexUp
    ensures zUp[..] == Raised(old(zUp[..]), center, dz1)
    ensures flexUp[..] == Carried(old(flexUp[..]), center, bottom)
  {
    ghost var heights, flex := zUp[..], flexUp[..];
    var k := zUp.Length - 1;
    while k > center
      invariant k <= zUp.Length - 1 && (k >= center || k == zUp.Length - 1)
      invariant forall q :: 0 <= q <= k ==> zUp[q] == heights[q]
      invariant forall q :: 0 <= q <= k ==> flexUp[q] == flex[q]
      invariant forall q :: k < q < zUp.Length ==> zUp[q] == RaisedAt(heights, center, dz1, q)
      invariant forall q :: k < q < zUp.Length ==> flexUp[q] == CarriedAt(flex, center, bottom, q)
    {
      flexUp[k], zUp[k] := flexUp[k - 1], zUp[k - 1] + dz1;
      k := k - 1;
    }
    if center < zUp.Length { flexUp[center], zUp[center] := bottom, zUp[center - 1] + dz1; }
    assert forall q :: 0 <= q < zUp.Length ==> zUp[q] == RaisedAt(heights, center, dz1, q);
    assert forall q :: 0 <= q < zUp.Length ==> flexUp[q] == CarriedAt(flex, center, bottom, q);
  }

  /** Heights after `m` passes, the centre of each one above that of the one before. */
  function RaisedTimes(s: seq<real>, below: nat, step: real, m: nat): (r: seq<real>)
    ensures |r| == |s|
  {
    if m == 0 then s else Raised(RaisedTimes(s, below, step, m - 1), below + m, step)
  }

  function CarriedTimes(s: seq<real>, below: nat, bottom: real, m: nat): (r: seq<real>)
    ensures |r| == |s|
  {
    if m == 0 then s else Carried(CarriedTimes(s, below, bottom, m - 1), below + m, bottom)
  }

  /** Number of shift passes. */
  function Passes(kt1: int): nat { if kt1 > 2 then kt1 - 2 else 0 }

  /** The shift passes over interfaces and metric coefficients, in place. */
  method ShiftInterfaces(zUp: array<real>, flexUp: array<real>, halo: nat, dz1: real, bottom: real, kt1: int)
    requires zUp != flexUp && halo >= 1 && zUp.Length == flexUp.Length
    modifies zUp, flexUp
    ensures zUp[..] == RaisedTimes(old(zUp[..]), halo - 1, dz1, Passes(kt1))
    ensures flexUp[..] == CarriedTimes(old(flexUp[..]), halo - 1, bottom, Passes(kt1))
  {
    var level := 2;
    while level < kt1
      invariant 2 <= level && (level == 2 || level <= kt1)
      invariant zUp[..] == RaisedTimes(old(zUp[..]), halo - 1, dz1, level - 2)
      invariant flexUp[..] == CarriedTimes(old(flexUp[..]), halo - 1, bottom, level - 2)
    {
      RaiseWithCoefficients(zUp, flexUp, level + halo - 2, dz1, bottom);
      level := level + 1;
    }
  }

  /** The shift passes over midpoints, in place, which start one level later. */
  method ShiftMidpoints(zMid: array<real>, halo: nat, dz1: real, kt1: int)
    requires halo >= 1
    modifies zMid
    ensures zMid[..] == RaisedTimes(old(zMid[..]), halo, dz1, Passes(kt1))
  {
    var level := 3;
    while level < kt1 + 1
      invariant 3 <= level && (level == 3 || level <= kt1 + 1)
      invariant zMid[..] == RaisedTimes(old(zMid[..]), halo, dz1, level - 3)
    {
      Raise(zMid, level + halo - 2, dz1);
      level := level + 1;
    }
  }

  // ----- Their closed form -----

  /** From the place `first` up the heights are interfaces as `m` passes leave them. */
  ghost predicate AreInterfaces(s: seq<real>, first: nat, base: int -> real, dz1: real, m: nat) {
    forall k :: first <= k < |s| ==> s[k] == Interface(base, dz1, m, k - first)
  }

  ghost predicate AreCoefficients(s: seq<real>, first: nat, metric: int -> real, bottom: real, m: nat) {
    forall k :: first <= k < |s| ==> s[k] == Metric(metric, bottom, m, k - first)
  }

  ghost predicate AreMidpoints(s: seq<real>, first: nat, base: int -> real, dz1: real, m: nat) {
    forall k :: first <= k < |s| ==> s[k] == Midpoint(base, dz1, m, k - first)
  }

  lemma InterfacesRaised(s: seq<real>, first: nat, base: int -> real, dz1: real, m: nat)
    requires AreInterfaces(s, first, base, dz1, m)
    ensures AreInterfaces(Raised(s, first + m + 1, dz1), first, base, dz1, m + 1)
  {
    var r := Raised(s, first + m + 1, dz1);
    forall k | first <= k < |s| ensures r[k] == Interface(base, dz1, m + 1, k - first) {
      PassShifts(base, dz1, m, k - first);
    }
  }

  lemma MidpointsRaised(s: seq<real>, first: nat, base: int -> real, dz1: real, m: nat)
    requires AreMidpoints(s, first, base, dz1, m)
    ensures AreMidpoints(Raised(s, first + 1 + m + 1, dz1), first, base, dz1, m + 1)
  {
    var r := Raised(s, first + 1 + m + 1, dz1);
    forall k | first <= k < |s| ensures r[k] == Midpoint(base, dz1, m + 1, k - first) {
      PassShiftsMidpoints(base, dz1, m, k - first);
    }
  }

  lemma CoefficientsCarried(s: seq<real>, first: nat, metric: int -> real, bottom: real, m: nat)
    requires AreCoefficients(s, first, metric, bottom, m)
    ensures AreCoefficients(Carried(s, first + m + 1, bottom), first, metric, bottom, m + 1)
  {
  }

  /** Shifted interfaces have the closed form after any number of passes. */
  lemma {:induction false} InterfacesShifted(s: seq<real>, first: nat, base: int -> real, dz1: real, m: nat)
    requires AreInterfaces(s, first, base, dz1, 0)
    ensures AreInterfaces(RaisedTimes(s, first, dz1, m), first, base, dz1, m)
  {
    if m > 0 {
      InterfacesShifted(s, first, base, dz1, m - 1);
      InterfacesRaised(RaisedTimes(s, first, dz1, m - 1), first, base, dz1, m - 1);
    }
  }

  /** Shifted midpoints, whose centres lie one higher. */
  lemma {:induction false} MidpointsShifted(s: seq<real>, first: nat, base: int -> real, dz1: real, m: nat)
    requires AreMidpoints(s, first, base, dz1, 0)
    ensures AreMidpoints(RaisedTimes(s, first + 1, dz1, m), first, base, dz1, m)
  {
    if m > 0 {
      MidpointsShifted(s, first, base, dz1, m - 1);
      MidpointsRaised(RaisedTimes(s, first + 1, dz1, m - 1), first, base, dz1, m - 1);
    }
  }

  /** Shifted coefficients. */
  lemma {:induction false} CoefficientsShifted(s: seq<real>, first: nat, metric: int -> real, bottom: real, m: nat)
    requires AreCoefficients(s, first, metric, bottom, 0)
    ensures AreCoefficients(CarriedTimes(s, first, bottom, m), first, metric, bottom, m)
  {
    if m > 0 {
      CoefficientsShifted(s, first, metric, bottom, m - 1);
      CoefficientsCarried(CarriedTimes(s, first, bottom, m - 1), first, metric, bottom, m - 1);
    }
  }

  // ----- Order -----

  lemma Scaled(a: real, b: real, d: real)
    requires a < b && d > 0.0
    ensures a * d < b * d
  {
    ProductPositive(b - a, d);
  }

  lemma AtLeastOne(x: real, d: real)
    requires x >= 1.0 && d > 0.0
    ensures x * d >= d
  {
    if x > 1.0 { Scaled(1.0, x, d); }
  }

  lemma HeightsInOrder(dz: real, j: int)
    requires dz > 0.0 && j >= 1
    ensures dz <= FaceHeight(dz, j) && CentreHeight(dz, j) < FaceHeight(dz, j)
      && FaceHeight(dz, j - 1) < CentreHeight(dz, j)
  {
    AtLeastOne(j as real, dz);
    Scaled((j - 1) as real, j as real - 0.5, dz);
    Scaled(j as real - 0.5, j as real, dz);
  }

  /** From the first interface up, each stretched midpoint lies between the interfaces around it. */
  lemma StretchedInterlace(dz: real, dz1: real, j: int)
    requires Stretches(dz, dz1) && j >= 2
    ensures Faces(dz, dz1)(j - 1) < Centres(dz, dz1)(j) < Faces(dz, dz1)(j)
  {
    var lo, mid, hi := FaceHeight(dz, j - 1), CentreHeight(dz, j), FaceHeight(dz, j);
    assert dz <= lo < mid < hi by {
      HeightsInOrder(dz, j - 1);
      HeightsInOrder(dz, j);
    }
    StretchIncreases(dz, dz1, lo, mid);
    StretchIncreases(dz, dz1, mid, hi);
  }

  lemma PassesInterlace(faces: int -> real, centres: int -> real, dz1: real, m: nat, i: int)
    requires dz1 > 0.0 && i >= 1 && faces(1) == dz1
    requires forall j :: j >= 2 ==> faces(j - 1) < centres(j) < faces(j)
    ensures Interface(faces, dz1, m, i - 1) < Midpoint(centres, dz1, m, i) < Interface(faces, dz1, m, i)
  {
    if i <= m {
      Scaled((i - 1) as real, i as real - 0.5, dz1);
      Scaled(i as real - 0.5, i as real, dz1);
    } else if i == m + 1 {
      assert (i as real - 0.5) * dz1 == (m as real) * dz1 + 0.5 * dz1;
    } else if i == m + 2 {
      assert faces(2 - 1) < centres(2) < faces(2);
    } else {
      assert faces(i - m - 1) < centres(i - m) < faces(i - m);
    }
  }

  /** Every midpoint lies strictly between its two interfaces, below, at and above the last pass. */
  lemma MidpointsInterlace(dz: real, dz1: real, m: nat, i: int)
    requires Stretches(dz, dz1) && i >= 1
    ensures Interface(Faces(dz, dz1), dz1, m, i - 1) < Midpoint(Centres(dz, dz1), dz1, m, i) <
      Interface(Faces(dz, dz1), dz1, m, i)
  {
    var faces, centres := Faces(dz, dz1), Centres(dz, dz1);
    forall j | j >= 2 ensures faces(j - 1) < centres(j) < faces(j) { StretchedInterlace(dz, dz1, j); }
    assert faces(1) == dz1 by { FirstStep(dz, dz1); assert 1.0 * dz == dz; }
    PassesInterlace(faces, centres, dz1, m, i);
  }

  lemma {:induction false} InterfacesIncrease(dz: real, dz1: real, m: nat, i: int, j: int)
    requires Stretches(dz, dz1) && 0 <= i < j
    ensures Interface(Faces(dz, dz1), dz1, m, i) < Interface(Faces(dz, dz1), dz1, m, j)
    decreases j
  {
    MidpointsInterlace(dz, dz1, m, j);
    if i < j - 1 { InterfacesIncrease(dz, dz1, m, i, j - 1); }
  }

  lemma QuotientPositive(a: real, b: real)
    requires a > 0.0 && b > 0.0
    ensures a / b > 0.0
  {
    Quotient(a, b);
    FactorPositive(a / b, b);
  }

  lemma Reciprocal(x: real)
    ensures Inverse(x) > 0.0 <==> x > 0.0
  {
    if x > 0.0 { QuotientPositive(1.0, x); }
    if x < 0.0 && Inverse(x) > 0.0 {
      Quotient(1.0, x);
      ProductPositive(Inverse(x), -x);
    }
  }

  // ----- Building the grid -----

  lemma NextHeight(dz: real, i: int)
    ensures FaceHeight(dz, i) == FaceHeight(dz, i - 1) + dz && CentreHeight(dz, i) == CentreHeight(dz, i - 1) + dz
    ensures FaceHeight(dz, 0) == 0.0 && CentreHeight(dz, 1) == 0.5 * dz
  {
  }

  /** Uniform interfaces and midpoints above the lower halo; the rest stays zero. */
  method UniformHeights(total: nat, halo: nat, dz: real)
      returns (zMid: array<real>, zUp: array<real>, flexUp: array<real>)
    requires 1 <= halo < total
    ensures fresh(zMid) && fresh(zUp) && fresh(flexUp) && zMid != zUp && zMid != flexUp && zUp != flexUp
    ensures zMid.Length == zUp.Length == flexUp.Length == total
    ensures forall k :: 0 <= k < total ==> zUp[k] == if k < halo then 0.0 else FaceHeight(dz, k - (halo - 1))
    ensures forall k :: 0 <= k < total ==> zMid[k] == if k < halo then 0.0 else CentreHeight(dz, k - (halo - 1))
  {
    zMid, zUp, flexUp := new real[total](_ => 0.0), new real[total](_ => 0.0), new real[total](_ => 0.0);
    var k := halo;
    while k < total
      invariant halo <= k <= total
      invariant forall k' :: 0 <= k' < k ==> zUp[k'] == if k' < halo then 0.0 else FaceHeight(dz, k' - (halo - 1))
      invariant forall k' :: k <= k' < total ==> zUp[k'] == 0.0
      invariant forall k' :: 0 <= k' < total ==> zMid[k'] == 0.0
    {
      NextHeight(dz, k - (halo - 1));
      zUp[k] := zUp[k - 1] + dz;
      k := k + 1;
    }
    NextHeight(dz, 1);
    zMid[halo] := 0.5 * dz;
    k := halo + 1;
    assert zMid[halo] == CentreHeight(dz, halo - (halo - 1));
    while k < total
      invariant halo + 1 <= k <= total
      invariant forall k' :: 0 <= k' < k ==> zMid[k'] == if k' < halo then 0.0 else CentreHeight(dz, k' - (halo - 1))
      invariant forall k' :: k <= k' < total ==> zMid[k'] == 0.0
      invariant forall k' :: 0 <= k' < total ==> zUp[k'] == if k' < halo then 0.0 else FaceHeight(dz, k' - (halo - 1))
    {
      NextHeight(dz, k - (halo - 1));
      zMid[k] := zMid[k - 1] + dz;
      k := k + 1;
    }
  }

  /** Stretches the interfaces in place and takes the metric coefficient at the unstretched height. */
  method StretchFaces(zUp: array<real>, flexUp: array<real>, halo: nat, dz: real, dz1: real)
    requires zUp != flexUp && 1 <= halo <= zUp.Length == flexUp.Length && Usable(dz)
    requires forall k :: 0 <= k < zUp.Length ==> zUp[k] == if k < halo then 0.0 else FaceHeight(dz, k - (halo - 1))
    modifies zUp, flexUp
    ensures forall k :: 0 <= k < zUp.Length ==> zUp[k] == if k < halo then 0.0 else Faces(dz, dz1)(k - (halo - 1))
    ensures forall k :: halo - 1 <= k < flexUp.Length ==> flexUp[k] == Slopes(dz, dz1)(k - (halo - 1))
  {
    var k := halo - 1;
    NextHeight(dz, 1);
    while k < zUp.Length
      invariant halo - 1 <= k <= zUp.Length
      invariant forall k' :: 0 <= k' < k ==> zUp[k'] == if k' < halo then 0.0 else Faces(dz, dz1)(k' - (halo - 1))
      invariant forall k' :: halo - 1 <= k' < k ==> flexUp[k'] == Slopes(dz, dz1)(k' - (halo - 1))
      invariant forall k' :: k <= k' < zUp.Length ==> zUp[k'] == if k' < halo then 0.0
                  else FaceHeight(dz, k' - (halo - 1))
    {
      assert zUp[k] == FaceHeight(dz, k - (halo - 1));
      flexUp[k], zUp[k] := Inverse(Slope(dz, dz1, zUp[k])), Stretch(dz, dz1, zUp[k]);
      k := k + 1;
    }
  }

  method StretchCentres(zMid: array<real>, halo: nat, dz: real, dz1: real)
    requires 1 <= halo <= zMid.Length && Usable(dz)
    requires forall k :: 0 <= k < zMid.Length ==> zMid[k] == if k < halo then 0.0 else CentreHeight(dz, k - (halo - 1))
    modifies zMid
    ensures forall k :: 0 <= k < zMid.Length ==> zMid[k] == if k < halo then 0.0 else Centres(dz, dz1)(k - (halo - 1))
  {
    var k := halo - 1;
    while k < zMid.Length
      invariant halo - 1 <= k <= zMid.Length
      invariant forall k' :: 0 <= k' < k ==> zMid[k'] == if k' < halo then 0.0 else Centres(dz, dz1)(k' - (halo - 1))
      invariant forall k' :: k <= k' < zMid.Length ==> zMid[k'] == if k' < halo then 0.0
                  else CentreHeight(dz, k' - (halo - 1))
    {
      zMid[k] := Stretch(dz, dz1, zMid[k]);
      k := k + 1;
    }
  }

  /** The generator's own check: increasing midpoints and positive metric coefficients. */
  method CheckGrid(zMid: array<real>, flexUp: array<real>, halo: nat) returns (valid: bool)
    requires 1 <= halo <= zMid.Length == flexUp.Length
    ensures valid <==>
      (forall k :: halo <= k < zMid.Length ==> zMid[k - 1] < zMid[k])
      && (forall k :: halo - 1 <= k < flexUp.Length ==> flexUp[k] > 0.0)
  {
    var k := halo;
    while k < zMid.Length
      invariant halo <= k <= zMid.Length && forall k' :: halo <= k' < k ==> zMid[k' - 1] < zMid[k']
    {
      if zMid[k] - zMid[k - 1] <= 0.0 { return false; }
      k := k + 1;
    }
    k := halo - 1;
    while k < flexUp.Length
      invariant halo - 1 <= k <= flexUp.Length && forall k' :: halo - 1 <= k' < k ==> flexUp[k'] > 0.0
    {
      if flexUp[k] <= 0.0 { return false; }
      k := k + 1;
    }
    return true;
  }

  // ----- The grid, layer by layer -----

  lemma ThicknessOf(c: real, d: real, rest: real, step: real, x: real)
    requires rest == 15000.0 - d && c * (d * rest) == step
    ensures var (low, high) := (x * d, (x + 1.0) * d);
            var thickness := high * (1.0 - c * 15000.0 + c * high) - low * (1.0 - c * 15000.0 + c * low);
            rest * (thickness - (d - step)) == 2.0 * x * d * step
  {
    var low, high := x * d, (x + 1.0) * d;
    assert high == low + d;
    var thickness := high * (1.0 - c * 15000.0 + c * high) - low * (1.0 - c * 15000.0 + c * low);
    assert thickness == d * (1.0 - c * 15000.0 + c * d) + 2.0 * (c * d) * low;
    assert d * (1.0 - c * 15000.0 + c * d) == d - c * (d * rest);
    assert rest * (2.0 * (c * d) * (x * d)) == 2.0 * x * d * (c * (d * rest));
  }

  /** A layer thicker than the lowest one by j times twice dz (dz - dz1) / (15000 - dz). */
  predicate ThickerBy(dz: real, dz1: real, thickness: real, j: int) {
    (15000.0 - dz) * (thickness - dz1) == 2.0 * (j as real) * dz * (dz - dz1)
  }

  /** A quarter of dz (dz - dz1) / (15000 - dz). */
  predicate OffMiddle(dz: real, dz1: real, distance: real) { 4.0 * (15000.0 - dz) * distance == dz * (dz - dz1) }

  /** Each stretched layer is thicker than the one below by the same amount. */
  lemma StretchedLayers(dz: real, dz1: real, j: int)
    requires Usable(dz)
    ensures ThickerBy(dz, dz1, Faces(dz, dz1)(j + 1) - Faces(dz, dz1)(j), j)
  {
    QuadraticTerm(dz, dz1);
    ThicknessOf(Cz2(dz, dz1), dz, 15000.0 - dz, dz - dz1, j as real);
  }

  lemma MiddleOf(c: real, d: real, rest: real, step: real, mid: real)
    requires rest == 15000.0 - d && c * (d * rest) == step
    ensures var (low, high) := (mid - 0.5 * d, mid + 0.5 * d);
            var mean := (high * (1.0 - c * 15000.0 + c * high) + low * (1.0 - c * 15000.0 + c * low)) / 2.0;
            4.0 * rest * (mean - mid * (1.0 - c * 15000.0 + c * mid)) == d * step
  {
    var low, high, c1 := mid - 0.5 * d, mid + 0.5 * d, 1.0 - c * 15000.0;
    assert high * (c1 + c * high) + low * (c1 + c * low) == 2.0 * (mid * (c1 + c * mid)) + 0.5 * (c * d) * d;
    assert 4.0 * rest * (0.25 * (c * d) * d) == d * (c * (d * rest));
  }

  /** The stretched midpoint lies below the middle of its interfaces, by the same distance in each layer. */
  lemma StretchedMiddles(dz: real, dz1: real, j: int)
    requires Usable(dz)
    ensures OffMiddle(dz, dz1, (Faces(dz, dz1)(j - 1) + Faces(dz, dz1)(j)) / 2.0 - Centres(dz, dz1)(j))
  {
    var mid := CentreHeight(dz, j);
    assert FaceHeight(dz, j) == mid + 0.5 * dz && FaceHeight(dz, j - 1) == mid - 0.5 * dz;
    StretchMiddle(dz, dz1, mid);
  }

  lemma StretchMiddle(dz: real, dz1: real, mid: real)
    requires Usable(dz)
    ensures OffMiddle(dz, dz1,
      (Stretch(dz, dz1, mid + 0.5 * dz) + Stretch(dz, dz1, mid - 0.5 * dz)) / 2.0 - Stretch(dz, dz1, mid))
  {
    QuadraticTerm(dz, dz1);
    MiddleOf(Cz2(dz, dz1), dz, 15000.0 - dz, dz - dz1, mid);
  }

  lemma SlopeOf(c: real, p: real, step: real, z: real, f: real)
    requires c * p == step && p != 0.0
    ensures var slope := 1.0 - c * 15000.0 + 2.0 * c * z;
            && p * slope == p + step * (2.0 * z - 15000.0)
            && (f * slope == 1.0 ==> p == f * (p + step * (2.0 * z - 15000.0)))
  {
    var slope := 1.0 - c * 15000.0 + 2.0 * c * z;
    assert p * slope == p + (c * p) * (2.0 * z - 15000.0);
    if f * slope == 1.0 { assert f * (p * slope) == p * (f * slope); }
  }

  /** The coefficient whose reciprocal is the slope of the stretching j layers up, where that is not zero. */
  predicate MeasuresSlope(dz: real, dz1: real, coefficient: real, j: int) {
    var rise := dz * (15000.0 - dz) + (dz - dz1) * (2.0 * (j as real) * dz - 15000.0);
    rise != 0.0 ==> coefficient * rise == dz * (15000.0 - dz)
  }

  /** The coefficient that times a thickness gives dz, where that is not zero. */
  predicate MeasuresLayer(dz: real, coefficient: real, thickness: real) {
    thickness != 0.0 ==> coefficient * thickness == dz
  }

  lemma StretchedCoefficients(dz: real, dz1: real, j: int)
    requires Usable(dz)
    ensures MeasuresSlope(dz, dz1, Slopes(dz, dz1)(j), j)
  {
    var p, z := dz * (15000.0 - dz), FaceHeight(dz, j);
    QuadraticTerm(dz, dz1);
    SpanNonzero(dz);
    var slope := Slope(dz, dz1, z);
    SlopeOf(Cz2(dz, dz1), p, dz - dz1, z, Slopes(dz, dz1)(j));
    if slope != 0.0 { Quotient(1.0, slope); }
  }

  lemma RatioMeasures(dz: real, thickness: real)
    ensures MeasuresLayer(dz, Ratio(dz, thickness), thickness)
  {
    if thickness != 0.0 { Quotient(dz, thickness); }
  }

  /** The lowest stretched interfaces: the ground, and one lowest layer up. */
  lemma LowestFaces(dz: real, dz1: real)
    requires Usable(dz)
    ensures Faces(dz, dz1)(0) == 0.0 && Faces(dz, dz1)(1) == dz1
  {
    FirstStep(dz, dz1);
    NextHeight(dz, 1);
  }

  lemma InterfaceStep(faces: int -> real, dz1: real, m: nat, i: int)
    requires faces(0) == 0.0 && faces(1) == dz1
    ensures Interface(faces, dz1, m, 0) == 0.0
    ensures Interface(faces, dz1, m, i + 1) - Interface(faces, dz1, m, i) ==
            if i <= m then dz1 else faces(i + 1 - m) - faces(i - m)
  {
    assert ((m + 1) as real) * dz1 == (m as real) * dz1 + dz1;
    assert ((i + 1) as real) * dz1 == (i as real) * dz1 + dz1;
  }

  lemma MidpointPlace(faces: int -> real, centres: int -> real, dz1: real, m: nat, i: int)
    requires faces(0) == 0.0 && faces(1) == dz1 && i >= 1
    ensures (Interface(faces, dz1, m, i - 1) + Interface(faces, dz1, m, i)) / 2.0 - Midpoint(centres, dz1, m, i) ==
            if i <= m + 1 then 0.0 else (faces(i - m - 1) + faces(i - m)) / 2.0 - centres(i - m)
  {
    assert (i as real - 0.5) * dz1 == ((i - 1) as real) * dz1 + 0.5 * dz1;
    InterfaceStep(faces, dz1, m, i - 1);
  }

  /** The interfaces after m passes: the lowest m + 1 layers are dz1 thick, and from there up each layer is
      thicker than the one below by the same amount. */
  lemma LayersOf(z: seq<real>, first: nat, dz: real, dz1: real, m: nat, k: nat)
    requires Usable(dz) && AreInterfaces(z, first, Faces(dz, dz1), dz1, m) && first <= k && k + 1 < |z|
    ensures z[first] == 0.0
    ensures k <= first + m ==> z[k + 1] - z[k] == dz1
    ensures k > first + m ==> ThickerBy(dz, dz1, z[k + 1] - z[k], k - first - m)
  {
    LowestFaces(dz, dz1);
    InterfaceStep(Faces(dz, dz1), dz1, m, k - first);
    StretchedLayers(dz, dz1, k - first - m);
  }

  /** The midpoints: in the middle of the lowest m + 1 layers, off the middle of the stretched ones by a
      constant. */
  lemma MiddlesOf(zMid: seq<real>, zUp: seq<real>, first: nat, dz: real, dz1: real, m: nat, k: nat)
    requires Usable(dz) && AreInterfaces(zUp, first, Faces(dz, dz1), dz1, m)
      && AreMidpoints(zMid, first, Centres(dz, dz1), dz1, m) && first < k < |zUp| == |zMid|
    ensures zMid[first] == 0.0
    ensures k <= first + m + 1 ==> zMid[k] == (zUp[k - 1] + zUp[k]) / 2.0
    ensures k > first + m + 1 ==> OffMiddle(dz, dz1, (zUp[k - 1] + zUp[k]) / 2.0 - zMid[k])
  {
    LowestFaces(dz, dz1);
    MidpointPlace(Faces(dz, dz1), Centres(dz, dz1), dz1, m, k - first);
    StretchedMiddles(dz, dz1, k - first - m);
  }

  // ----- The number of passes -----

  /** The level at half the domain height, as the generators compute it. */
  function HalfLevel(dz: real, dz1: real): int
    requires Shifts(dz, dz1)
  {
    QuadraticTerm(dz, dz1);
    ((1.0 - Cz1(dz, dz1)) / Cz2(dz, dz1) / 2.0 / dz).Floor
  }

  /** The stretching coefficients cancel. */
  lemma HalfLevelIs(dz: real, dz1: real)
    requires Shifts(dz, dz1)
    ensures HalfLevel(dz, dz1) == (DOMAIN / 2.0 / dz).Floor >= 0
  {
    QuadraticTerm(dz, dz1);
    CancelFactor(Cz2(dz, dz1), DOMAIN);
    QuotientPositive(DOMAIN / 2.0, dz);
  }

  lemma CancelFactor(c: real, d: real)
    requires c != 0.0
    ensures (c * d) / c == d
  {
    Quotient(c * d, c);
    var q := (c * d) / c;
    assert (q - d) * c == 0.0;
  }

  /** The number of uniform layers for a height reached by the stretched grid. */
  function UniformLayers(z: real, dz1: real): int
    requires dz1 > 0.0
  {
    (z / dz1 + 0.999).Floor
  }

  lemma UniformLayersNonNegative(z: real, dz1: real)
    requires dz1 > 0.0 && z >= 0.0
    ensures UniformLayers(z, dz1) >= 0
  {
    if z > 0.0 { QuotientPositive(z, dz1); } else { assert z / dz1 == 0.0; }
  }

  /** So many uniform layers reach the height, up to a thousandth of a layer, and one fewer do not. */
  ghost predicate Reach(z: real, dz1: real, layers: int) {
    ((layers - 1) as real) * dz1 <= z - 0.001 * dz1 < (layers as real) * dz1
  }

  lemma ReachFrom(q: real, n: int, d: real, z: real)
    requires n as real <= q + 0.999 < n as real + 1.0 && d > 0.0 && q * d == z
    ensures Reach(z, d, n)
  {
    var x := n as real;
    NotNegative(q + 0.999 - x, d);
    ProductPositive(x + 0.001 - q, d);
    assert (q + 0.999 - x) * d == z - 0.001 * d - (x - 1.0) * d;
    assert (x + 0.001 - q) * d == x * d - (z - 0.001 * d);
  }

  lemma UniformLayersReach(z: real, dz1: real)
    requires dz1 > 0.0
    ensures Reach(z, dz1, UniformLayers(z, dz1))
  {
    Quotient(z, dz1);
    ReachFrom(z / dz1, UniformLayers(z, dz1), dz1, z);
  }

  lemma FacesNonNegative(dz: real, dz1: real, i: int)
    requires Stretches(dz, dz1) && i >= 0
    ensures Faces(dz, dz1)(i) >= 0.0 && (i >= 1 ==> Faces(dz, dz1)(i) >= dz1)
  {
    NextHeight(dz, 1);
    if i == 1 { FirstStep(dz, dz1); }
    if i > 1 {
      HeightsInOrder(dz, i);
      HeightsInOrder(dz, i - 1);
      FirstStep(dz, dz1);
      StretchIncreases(dz, dz1, dz, FaceHeight(dz, i));
    }
  }

  lemma LowHeights(dz: real, i: int, half: int)
    requires dz > 0.0 && 1 <= i < half && half == (DOMAIN / 2.0 / dz).Floor
    ensures dz <= FaceHeight(dz, i) < DOMAIN / 2.0
  {
    var q := DOMAIN / 2.0 / dz;
    Quotient(DOMAIN / 2.0, dz);
    AtLeastOne(i as real, dz);
    Scaled(i as real, q, dz);
  }

  /** Below half the domain height the stretched heights are not negative, with thin and thick lowest layers. */
  lemma LowFacesNonNegative(dz: real, dz1: real, i: int)
    requires Shifts(dz, dz1) && 1 <= i < HalfLevel(dz, dz1)
    ensures dz < DOMAIN && Faces(dz, dz1)(i) >= 0.0
  {
    HalfLevelIs(dz, dz1);
    LowHeights(dz, i, HalfLevel(dz, dz1));
    if dz1 < dz {
      FacesNonNegative(dz, dz1, i);
    } else {
      LowStretch(dz, dz1, FaceHeight(dz, i));
    }
  }

  /** With the lowest layer the thickest the quadratic term is negative. */
  lemma ThickSign(dz: real, dz1: real)
    requires 0.0 < dz < DOMAIN && dz1 > dz
    ensures Cz2(dz, dz1) < 0.0
  {
    CoefficientFacts(dz, dz1);
    FactorPositive(-Cz2(dz, dz1), Span(dz));
  }

  lemma LowStretch(dz: real, dz1: real, z: real)
    requires 0.0 < dz < DOMAIN && dz1 > dz && 0.0 <= z <= DOMAIN
    ensures Stretch(dz, dz1, z) >= 0.0
  {
    ThickSign(dz, dz1);
    QuadraticNonNegative(Cz2(dz, dz1), z);
  }

  lemma QuadraticNonNegative(c: real, z: real)
    requires c < 0.0 && 0.0 <= z <= DOMAIN
    ensures z * (1.0 - c * DOMAIN + c * z) >= 0.0
  {
    NotNegative(-c, DOMAIN - z);
    NotNegative(z, 1.0 + (-c) * (DOMAIN - z));
    assert 1.0 - c * DOMAIN + c * z == 1.0 + (-c) * (DOMAIN - z);
  }

  function Min(a: int, b: int): int { if a < b then a else b }

  function Max(a: int, b: int): int { if a > b then a else b }

  /** The interface the forcing generator reads to count its layers, from the half level. */
  function ReferenceLevel(nz: nat, halo: nat, half: int): int {
    Min(Max(half + halo - 2, 0), nz + 2 * halo - 1) - (halo - 1)
  }

  /** Its height; below the ground it is zero. */
  function ForcingReference(nz: nat, halo: nat, dz: real, dz1: real): real
    requires Shifts(dz, dz1)
  {
    var i := ReferenceLevel(nz, halo, HalfLevel(dz, dz1));
    if i <= 0 then 0.0 else Faces(dz, dz1)(i)
  }

  /** The number of uniform layers of the forcing generator, and of its passes. */
  function ForcingLayers(nz: nat, halo: nat, dz: real, dz1: real): int
    requires Shifts(dz, dz1)
  {
    UniformLayers(ForcingReference(nz, halo, dz, dz1), dz1)
  }

  function ForcingPasses(nz: nat, halo: nat, dz: real, dz1: real): nat
    requires Shifts(dz, dz1)
  {
    Passes(ForcingLayers(nz, halo, dz, dz1))
  }

  lemma ReferenceNonNegative(nz: nat, halo: nat, dz: real, dz1: real)
    requires halo >= 1 && Shifts(dz, dz1)
    ensures ForcingReference(nz, halo, dz, dz1) >= 0.0
    ensures dz > DOMAIN ==> ForcingReference(nz, halo, dz, dz1) == 0.0
  {
    var half := HalfLevel(dz, dz1);
    var i := ReferenceLevel(nz, halo, half);
    if i >= 1 {
      assert i < half;
      LowFacesNonNegative(dz, dz1, i);
    }
  }

  lemma FloorOf(d: real, dz: real, n: int)
    requires dz > 0.0 && (n as real) * dz <= d < ((n + 1) as real) * dz
    ensures (d / dz).Floor == n
  {
    var q := d / dz;
    Quotient(d, dz);
    if q < n as real { Scaled(q, n as real, dz); }
    if q >= (n + 1) as real { NotNegative(q - (n + 1) as real, dz); }
  }

  /** The stretched height of interface `half` - 1, or of interface `top` if that is lower. */
  function HeightAt(dz: real, dz1: real, half: int, top: int): real
    requires Usable(dz)
  {
    var level := if half - 1 < top then half - 1 else top;
    if level > 0 then Stretch(dz, dz1, (level as real) * dz) else 0.0
  }

  lemma ForcingReferenceIs(nz: nat, halo: nat, dz: real, dz1: real)
    requires halo >= 1 && Shifts(dz, dz1)
    ensures ForcingReference(nz, halo, dz, dz1) == HeightAt(dz, dz1, HalfLevel(dz, dz1), nz + halo)
  {
  }

  /** Interface `half` is the last one up to half the domain height.  The uniform layers of the forcing
      generator reach the stretched height of the interface below it, or of the grid's top if that is
      lower, and all but two of them take a pass. */
  lemma ForcingLayersReach(nz: nat, halo: nat, dz: real, dz1: real, half: int)
    requires halo >= 1 && Shifts(dz, dz1) && (half as real) * dz <= 7500.0 < ((half + 1) as real) * dz
    ensures var layers := ForcingLayers(nz, halo, dz, dz1);
            && Reach(HeightAt(dz, dz1, half, nz + halo), dz1, layers)
            && ForcingPasses(nz, halo, dz, dz1) == if layers > 2 then layers - 2 else 0
  {
    HalfLevelIs(dz, dz1);
    FloorOf(7500.0, dz, half);
    ForcingReferenceIs(nz, halo, dz, dz1);
    UniformLayersReach(ForcingReference(nz, halo, dz, dz1), dz1);
  }

  lemma NoLayers(dz1: real)
    requires dz1 > 0.0
    ensures UniformLayers(0.0, dz1) == 0
  {
    assert 0.0 / dz1 == 0.0;
  }

  lemma ForcingLayersNonNegative(nz: nat, halo: nat, dz: real, dz1: real)
    requires halo >= 1 && Shifts(dz, dz1)
    ensures ForcingLayers(nz, halo, dz, dz1) >= 0
    ensures dz > DOMAIN ==> ForcingLayers(nz, halo, dz, dz1) == 0
  {
    ReferenceNonNegative(nz, halo, dz, dz1);
    UniformLayersNonNegative(ForcingReference(nz, halo, dz, dz1), dz1);
    NoLayers(dz1);
  }

  /** Stretches the interfaces, counts the uniform layers at half the domain height, and shifts. */
  method ShiftedFaces(zUp: array<real>, flexUp: array<real>, nz: nat, halo: nat, dz: real, dz1: real) returns (kt1: nat)
    requires zUp != flexUp && halo >= 1 && zUp.Length == flexUp.Length == nz + 2 * halo && Shifts(dz, dz1)
    requires forall k :: 0 <= k < zUp.Length ==> zUp[k] == if k < halo then 0.0 else FaceHeight(dz, k - (halo - 1))
    modifies zUp, flexUp
    ensures kt1 == ForcingLayers(nz, halo, dz, dz1)
    ensures AreInterfaces(zUp[..], halo - 1, Faces(dz, dz1), dz1, Passes(kt1))
    ensures AreCoefficients(flexUp[..], halo - 1, Slopes(dz, dz1), dz / dz1, Passes(kt1))
  {
    StretchFaces(zUp, flexUp, halo, dz, dz1);
    QuadraticTerm(dz, dz1);
    var kt := ((1.0 - Cz1(dz, dz1)) / Cz2(dz, dz1) / 2.0 / dz).Floor;
    var ktIndex := Min(Max(kt + halo - 2, 0), zUp.Length - 1);
    HalfLevelIs(dz, dz1);
    assert zUp[ktIndex] == ForcingReference(nz, halo, dz, dz1);
    ForcingLayersNonNegative(nz, halo, dz, dz1);
    kt1 := UniformLayers(zUp[ktIndex], dz1);
    zUp[halo - 1], flexUp[halo - 1] := 0.0, dz / dz1;
    InterfacesShifted(zUp[..], halo - 1, Faces(dz, dz1), dz1, Passes(kt1));
    CoefficientsShifted(flexUp[..], halo - 1, Slopes(dz, dz1), dz / dz1, Passes(kt1));
    ShiftInterfaces(zUp, flexUp, halo, dz1, dz / dz1, kt1);
  }

  method ShiftedCentres(zMid: array<real>, halo: nat, dz: real, dz1: real, kt1: nat)
    requires 1 <= halo < zMid.Length && Usable(dz)
    requires forall k :: 0 <= k < zMid.Length ==> zMid[k] == if k < halo then 0.0 else CentreHeight(dz, k - (halo - 1))
    modifies zMid
    ensures AreMidpoints(zMid[..], halo - 1, Centres(dz, dz1), dz1, Passes(kt1))
  {
    StretchCentres(zMid, halo, dz, dz1);
    zMid[halo - 1], zMid[halo] := 0.0, 0.5 * dz1;
    MidpointsShifted(zMid[..], halo - 1, Centres(dz, dz1), dz1, Passes(kt1));
    ShiftMidpoints(zMid, halo, dz1, kt1);
  }

  /** The quotient; the value for a zero denominator stands for the infinity of floating point. */
  function Ratio(a: real, b: real): real { if b == 0.0 then 0.0 else a / b }

  /** The coefficients with the one just above the uniform layers replaced by that of the spacing there. */
  function Smoothed(flex: seq<real>, zMid: seq<real>, at: nat, dz: real): seq<real>
    requires |flex| == |zMid|
  {
    if at + 1 < |flex| then flex[at := Ratio(dz, zMid[at + 1] - zMid[at])] else flex
  }

  method SmoothTransition(zMid: array<real>, flexUp: array<real>, halo: nat, kt1: nat, dz: real)
    requires zMid != flexUp && 1 <= halo <= zMid.Length == flexUp.Length
    modifies flexUp
    ensures flexUp[..] == Smoothed(old(flexUp[..]), zMid[..], kt1 + halo - 1, dz)
  {
    var transition := kt1 + halo - 1;
    if transition < zMid.Length && transition + 1 < zMid.Length {
      flexUp[transition] := Ratio(dz, zMid[transition + 1] - zMid[transition]);
    }
  }

  // ----- The default grid -----

  lemma GroundSlopeSign(c: real, p: real, dz: real, dz1: real)
    requires p > 0.0 && p == Span(dz) && c * p == dz - dz1 && dz1 <= dz
    ensures c >= 0.0
    ensures 1.0 - c * DOMAIN > 0.0 <==> dz1 * DOMAIN > dz * dz
  {
    var c1 := 1.0 - c * DOMAIN;
    if c < 0.0 { ProductPositive(-c, p); }
    assert c1 * p == p - (c * p) * DOMAIN;
    if c1 > 0.0 { ProductPositive(c1, p); }
    if dz1 * DOMAIN > dz * dz { FactorPositive(c1, p); }
  }

  /** The stretching has positive slope at the ground exactly under a condition on the spacings. */
  lemma GroundSlope(dz: real, dz1: real)
    requires 0.0 < dz1 <= dz < DOMAIN
    ensures Cz2(dz, dz1) >= 0.0
    ensures Cz1(dz, dz1) > 0.0 <==> dz1 * DOMAIN > dz * dz
  {
    CoefficientFacts(dz, dz1);
    GroundSlopeSign(Cz2(dz, dz1), Span(dz), dz, dz1);
  }

  /** Where the slope is positive at two heights it is so between, and the stretching increases there. */
  lemma SlopeBetween(c1: real, c2: real, low: real, top: real, z: real)
    requires c1 + 2.0 * c2 * low > 0.0 && c1 + 2.0 * c2 * top > 0.0 && low <= z <= top
    ensures c1 + 2.0 * c2 * z > 0.0
  {
    if c2 >= 0.0 {
      NotNegative(c2, z - low);
      assert c2 * z == c2 * low + c2 * (z - low);
    } else {
      NotNegative(-c2, top - z);
      assert c2 * z == c2 * top + (-c2) * (top - z);
    }
  }

  lemma NotNegative(a: real, b: real)
    requires a >= 0.0 && b >= 0.0
    ensures a * b >= 0.0
  {
  }

  lemma IncreaseFrom(c1: real, c2: real, a: real, b: real)
    requires c1 + 2.0 * c2 * (0.5 * (a + b)) > 0.0 && a < b
    ensures a * (c1 + c2 * a) < b * (c1 + c2 * b)
  {
    assert c2 * (a + b) == 2.0 * c2 * (0.5 * (a + b));
    ProductPositive(b - a, c1 + c2 * (a + b));
    assert b * (c1 + c2 * b) - a * (c1 + c2 * a) == (b - a) * (c1 + c2 * (a + b));
  }

  /** Positive slope at two interfaces, counted in layers above the ground. */
  predicate Rises(dz: real, dz1: real, first: int, last: int)
    requires Usable(dz)
  {
    Slope(dz, dz1, FaceHeight(dz, first)) > 0.0 && Slope(dz, dz1, FaceHeight(dz, last)) > 0.0
  }

  lemma RisesBetween(dz: real, dz1: real, first: int, last: int, a: real, b: real)
    requires Usable(dz) && Rises(dz, dz1, first, last) && FaceHeight(dz, first) <= a < b <= FaceHeight(dz, last)
    ensures Stretch(dz, dz1, a) < Stretch(dz, dz1, b)
  {
    var c1, c2, mean := Cz1(dz, dz1), Cz2(dz, dz1), 0.5 * (a + b);
    SlopeBetween(c1, c2, FaceHeight(dz, first), FaceHeight(dz, last), mean);
    IncreaseFrom(c1, c2, a, b);
  }

  lemma SlopesBetween(dz: real, dz1: real, first: int, last: int, i: int)
    requires Usable(dz) && Rises(dz, dz1, first, last) && first <= i <= last
    ensures Slopes(dz, dz1)(i) > 0.0
  {
    NotNegative((i - first) as real, dz);
    NotNegative((last - i) as real, dz);
    SlopeBetween(Cz1(dz, dz1), Cz2(dz, dz1), FaceHeight(dz, first), FaceHeight(dz, last), FaceHeight(dz, i));
    Reciprocal(Slope(dz, dz1, FaceHeight(dz, i)));
  }

  /** With a lowest layer no thicker than the others and these below the domain height the slope at the
      ground decides, which a condition on the spacings tells. */
  lemma RisesExactly(dz: real, dz1: real, n: nat)
    requires 0.0 < dz1 <= dz < DOMAIN
    ensures Rises(dz, dz1, 0, n) <==> dz1 * DOMAIN > dz * dz
  {
    GroundSlope(dz, dz1);
    NextHeight(dz, 0);
    NotNegative(n as real, dz);
    NotNegative(Cz2(dz, dz1), FaceHeight(dz, n));
  }

  /** With a thinner lowest layer the stretching rises from the first interface to any other. */
  lemma AlwaysRises(dz: real, dz1: real, n: int)
    requires Stretches(dz, dz1) && n >= 1
    ensures Rises(dz, dz1, 1, n)
  {
    HeightsInOrder(dz, 1);
    HeightsInOrder(dz, n);
    SlopePositive(dz, dz1, FaceHeight(dz, 1));
    SlopePositive(dz, dz1, FaceHeight(dz, n));
  }

  lemma HeightsFromGround(dz: real, i: int)
    requires dz > 0.0 && i >= 1
    ensures 0.0 <= FaceHeight(dz, i - 1) < FaceHeight(dz, i) && 0.0 < CentreHeight(dz, i) < CentreHeight(dz, i + 1)
  {
    Scaled((i - 1) as real, i as real, dz);
    Scaled(0.0, i as real - 0.5, dz);
    Scaled(i as real - 0.5, i as real + 0.5, dz);
    if i > 1 { Scaled(0.0, (i - 1) as real, dz); }
  }

  /** The stretched grid without shifts. */
  ghost predicate IsDefault(zMid: seq<real>, zUp: seq<real>, flexUp: seq<real>, first: nat, dz: real, dz1: real)
    requires Usable(dz)
  {
    && |zMid| == |zUp| == |flexUp| && AreInterfaces(zUp, first, Faces(dz, dz1), dz1, 0)
    && forall k :: first <= k < |zUp| ==>
         flexUp[k] == Slopes(dz, dz1)(k - first) && zMid[k] == if k == first then 0.0 else Centres(dz, dz1)(k - first)
  }

  /** The default grid of the forcing generator passes its own check exactly when the slope is positive at
      the ground and at the top interface. */
  method DefaultGrid(nz: nat, halo: nat, dz: real, dz1: real)
      returns (valid: bool, zMid: array<real>, zUp: array<real>, flexUp: array<real>)
    requires nz >= 2 && halo >= 1 && Usable(dz) && dz1 > 0.0
    ensures valid <==> Rises(dz, dz1, 0, nz + halo)
    ensures zMid.Length == zUp.Length == flexUp.Length == nz + 2 * halo
    ensures IsDefault(zMid[..], zUp[..], flexUp[..], halo - 1, dz, dz1)
  {
    zMid, zUp, flexUp := UniformHeights(nz + 2 * halo, halo, dz);
    StretchFaces(zUp, flexUp, halo, dz, dz1);
    StretchCentres(zMid, halo, dz, dz1);
    NextHeight(dz, 1);
    Reciprocal(Slope(dz, dz1, FaceHeight(dz, 0)));
    Reciprocal(Slope(dz, dz1, FaceHeight(dz, nz + halo)));
    assert flexUp[halo - 1] == Slopes(dz, dz1)(0) && flexUp[nz + 2 * halo - 1] == Slopes(dz, dz1)(nz + halo);
    if Rises(dz, dz1, 0, nz + halo) {
      forall k | halo <= k < zMid.Length ensures zMid[k - 1] < zMid[k] {
        DefaultMidpointsIncrease(dz, dz1, nz + halo, k - halo);
      }
      forall k | halo - 1 <= k < zUp.Length ensures flexUp[k] > 0.0 {
        SlopesBetween(dz, dz1, 0, nz + halo, k - (halo - 1));
      }
    }
    valid := CheckGrid(zMid, flexUp, halo);
  }

  lemma HeightBelow(dz: real, i: int, n: int)
    requires dz > 0.0 && 0 <= i <= n
    ensures 0.0 <= FaceHeight(dz, i) <= FaceHeight(dz, n) && (i >= 1 ==> 0.0 < CentreHeight(dz, i) < FaceHeight(dz, n))
  {
    NotNegative(i as real, dz);
    NotNegative((n - i) as real, dz);
    if i >= 1 { HeightsFromGround(dz, i); Scaled(i as real - 0.5, i as real, dz); }
  }

  lemma DefaultMidpointsIncrease(dz: real, dz1: real, n: int, i: int)
    requires Usable(dz) && Rises(dz, dz1, 0, n) && 0 <= i < n
    ensures (if i == 0 then 0.0 else Centres(dz, dz1)(i)) < Centres(dz, dz1)(i + 1)
  {
    NextHeight(dz, 0);
    HeightBelow(dz, i + 1, n);
    if i == 0 {
      RisesBetween(dz, dz1, 0, n, 0.0, CentreHeight(dz, 1));
    } else {
      HeightsFromGround(dz, i);
      RisesBetween(dz, dz1, 0, n, CentreHeight(dz, i), CentreHeight(dz, i + 1));
    }
  }

  // ----- The shifted grid -----

  /** Above `m` passes the top interface of `n` is no stretched one, or the stretching rises from the first
      to the one shifted there. */
  predicate RisesAbove(dz: real, dz1: real, m: nat, n: int)
    requires Usable(dz)
  {
    n <= m || Rises(dz, dz1, 1, n - m)
  }

  lemma CentresAbove(dz: real, i: int)
    requires dz > 0.0 && i >= 2
    ensures FaceHeight(dz, 1) < CentreHeight(dz, i) < FaceHeight(dz, i) && CentreHeight(dz, i - 1) < CentreHeight(dz, i)
  {
    Scaled(1.0, i as real - 0.5, dz);
    Scaled(i as real - 0.5, i as real, dz);
  }

  lemma StretchedCentresIncrease(dz: real, dz1: real, last: int, j: int)
    requires Usable(dz) && Rises(dz, dz1, 1, last) && 2 <= j <= last
    ensures (if j == 2 then dz1 else Centres(dz, dz1)(j - 1)) < Centres(dz, dz1)(j)
  {
    CentresAbove(dz, j);
    HeightBelow(dz, j, last);
    if j == 2 {
      FirstStep(dz, dz1);
      NextHeight(dz, 1);
      RisesBetween(dz, dz1, 1, last, FaceHeight(dz, 1), CentreHeight(dz, 2));
    } else {
      CentresAbove(dz, j - 1);
      RisesBetween(dz, dz1, 1, last, CentreHeight(dz, j - 1), CentreHeight(dz, j));
    }
  }

  lemma ShiftedMidpointsIncrease(dz: real, dz1: real, m: nat, n: int, i: int)
    requires Usable(dz) && dz1 > 0.0 && RisesAbove(dz, dz1, m, n) && 0 <= i < n
    ensures Midpoint(Centres(dz, dz1), dz1, m, i) < Midpoint(Centres(dz, dz1), dz1, m, i + 1)
  {
    if i > m { StretchedCentresIncrease(dz, dz1, n - m, i + 1 - m); }
    MidpointStep(Centres(dz, dz1), dz1, m, i);
  }

  lemma MidpointStep(centres: int -> real, dz1: real, m: nat, i: int)
    requires dz1 > 0.0 && i >= 0
    requires i > m ==> (if i == m + 1 then dz1 else centres(i - m)) < centres(i + 1 - m)
    ensures Midpoint(centres, dz1, m, i) < Midpoint(centres, dz1, m, i + 1)
  {
    if i <= m { Scaled(if i == 0 then 0.0 else i as real - 0.5, i as real + 0.5, dz1); }
    if i == m + 1 { assert (i as real - 0.5) * dz1 == (m as real) * dz1 + 0.5 * dz1; }
  }

  /** The coefficient at interface i of n: the replaced one just above the uniform layers, else that of the
      passes. */
  function Coefficient(dz: real, dz1: real, layers: int, n: int, i: int): real
    requires Usable(dz) && dz1 > 0.0
  {
    var m := Passes(layers);
    if i == layers && i < n then
      Ratio(dz, Midpoint(Centres(dz, dz1), dz1, m, i + 1) - Midpoint(Centres(dz, dz1), dz1, m, i))
    else Metric(Slopes(dz, dz1), dz / dz1, m, i)
  }

  lemma CoefficientPositive(dz: real, dz1: real, layers: int, n: int, i: int)
    requires Usable(dz) && dz1 > 0.0 && RisesAbove(dz, dz1, Passes(layers), n) && 0 <= i <= n
    ensures Coefficient(dz, dz1, layers, n, i) > 0.0
  {
    var m := Passes(layers);
    if i == layers && i < n {
      ShiftedMidpointsIncrease(dz, dz1, m, n, i);
      var centres := Centres(dz, dz1);
      QuotientPositive(dz, Midpoint(centres, dz1, m, i + 1) - Midpoint(centres, dz1, m, i));
    } else if i > m {
      SlopesBetween(dz, dz1, 1, n - m, i - m);
    } else {
      QuotientPositive(dz, dz1);
    }
  }

  /** Where the quadratic term lowers the slope upwards, it is positive below a height where it is positive. */
  lemma SlopeFromAbove(dz: real, dz1: real, n: int)
    requires 0.0 < dz < DOMAIN && dz1 > dz && n >= 1 && Slope(dz, dz1, FaceHeight(dz, n)) > 0.0
    ensures Slope(dz, dz1, FaceHeight(dz, 1)) > 0.0
  {
    ThickSign(dz, dz1);
    NotNegative((n - 1) as real, dz);
    NotNegative(-Cz2(dz, dz1), FaceHeight(dz, n) - FaceHeight(dz, 1));
    var c := Cz2(dz, dz1);
    assert c * FaceHeight(dz, n) == c * FaceHeight(dz, 1) + c * (FaceHeight(dz, n) - FaceHeight(dz, 1));
  }

  /** Positive coefficients need the stretching to rise: the top one is never the replaced one. */
  lemma PositiveRises(dz: real, dz1: real, layers: nat, n: int)
    requires Shifts(dz, dz1) && n >= 2 && (dz > DOMAIN ==> layers == 0)
    requires forall i :: 0 <= i <= n ==> Coefficient(dz, dz1, layers, n, i) > 0.0
    ensures RisesAbove(dz, dz1, Passes(layers), n)
  {
    var m := Passes(layers);
    if n > m {
      assert Coefficient(dz, dz1, layers, n, n) > 0.0;
      Reciprocal(Slope(dz, dz1, FaceHeight(dz, n - m)));
      if dz > DOMAIN {
        assert Coefficient(dz, dz1, layers, n, 1) > 0.0;
        Reciprocal(Slope(dz, dz1, FaceHeight(dz, 1)));
      } else if dz1 > dz {
        SlopeFromAbove(dz, dz1, n - m);
      } else {
        AlwaysRises(dz, dz1, n - m);
      }
    }
  }

  /** The grid with that many uniform layers below the stretched ones. */
  ghost predicate IsShifted(zMid: seq<real>, zUp: seq<real>, flexUp: seq<real>, first: nat, dz: real, dz1: real,
      layers: int)
    requires Usable(dz) && dz1 > 0.0
  {
    && |zMid| == |zUp| == |flexUp| && AreInterfaces(zUp, first, Faces(dz, dz1), dz1, Passes(layers))
    && AreMidpoints(zMid, first, Centres(dz, dz1), dz1, Passes(layers))
    && forall k :: first <= k < |flexUp| ==>
         flexUp[k] == Coefficient(dz, dz1, layers, |flexUp| - first - 1, k - first)
  }

  /** The shifted grid of the forcing generator: what the passes build, and exactly when its own check
      accepts it. */
  method TaiwanVvmGrid(nz: nat, halo: nat, dz: real, dz1: real)
      returns (valid: bool, zMid: array<real>, zUp: array<real>, flexUp: array<real>)
    requires nz >= 2 && halo >= 1 && Shifts(dz, dz1)
    ensures zMid.Length == zUp.Length == flexUp.Length == nz + 2 * halo
    ensures IsShifted(zMid[..], zUp[..], flexUp[..], halo - 1, dz, dz1, ForcingLayers(nz, halo, dz, dz1))
    ensures valid <==> RisesAbove(dz, dz1, ForcingPasses(nz, halo, dz, dz1), nz + halo)
  {
    zMid, zUp, flexUp := UniformHeights(nz + 2 * halo, halo, dz);
    var kt1 := ShiftedFaces(zUp, flexUp, nz, halo, dz, dz1);
    ShiftedCentres(zMid, halo, dz, dz1, kt1);
    SmoothShifted(zMid, flexUp, halo, dz, dz1, kt1);
    valid := CheckShifted(zMid, flexUp, nz, halo, dz, dz1, kt1);
  }

  lemma SmoothedIs(flex: seq<real>, zMid: seq<real>, k: nat, halo: nat, dz: real, dz1: real, kt1: nat)
    requires 1 <= halo <= k + 1 <= |zMid| == |flex| && Usable(dz) && dz1 > 0.0
    requires AreMidpoints(zMid, halo - 1, Centres(dz, dz1), dz1, Passes(kt1))
    requires flex[k] == Metric(Slopes(dz, dz1), dz / dz1, Passes(kt1), k - (halo - 1))
    ensures Smoothed(flex, zMid, kt1 + halo - 1, dz)[k] ==
      Coefficient(dz, dz1, kt1, |zMid| - halo, k - (halo - 1))
  {
    if k + 1 < |zMid| {
      assert zMid[k + 1] == Midpoint(Centres(dz, dz1), dz1, Passes(kt1), k + 1 - (halo - 1));
    }
  }

  method SmoothShifted(zMid: array<real>, flexUp: array<real>, halo: nat, dz: real, dz1: real, kt1: nat)
    requires zMid != flexUp && 1 <= halo <= zMid.Length == flexUp.Length && Usable(dz) && dz1 > 0.0
    requires AreMidpoints(zMid[..], halo - 1, Centres(dz, dz1), dz1, Passes(kt1))
    requires AreCoefficients(flexUp[..], halo - 1, Slopes(dz, dz1), dz / dz1, Passes(kt1))
    modifies flexUp
    ensures forall k :: halo - 1 <= k < flexUp.Length ==>
              flexUp[k] == Coefficient(dz, dz1, kt1, flexUp.Length - halo, k - (halo - 1))
  {
    ghost var before := flexUp[..];
    SmoothTransition(zMid, flexUp, halo, kt1, dz);
    forall k | halo - 1 <= k < flexUp.Length
      ensures flexUp[..][k] == Coefficient(dz, dz1, kt1, flexUp.Length - halo, k - (halo - 1))
    {
      SmoothedIs(before, zMid[..], k, halo, dz, dz1, kt1);
    }
  }

  method CheckShifted(zMid: array<real>, flexUp: array<real>, nz: nat, halo: nat, dz: real, dz1: real,
      ghost layers: nat)
    returns (valid: bool)
    requires nz >= 2 && halo >= 1 && Shifts(dz, dz1) && zMid.Length == flexUp.Length == nz + 2 * halo
    requires layers == ForcingLayers(nz, halo, dz, dz1)
    requires AreMidpoints(zMid[..], halo - 1, Centres(dz, dz1), dz1, Passes(layers))
    requires forall k :: halo - 1 <= k < flexUp.Length ==>
               flexUp[k] == Coefficient(dz, dz1, layers, nz + halo, k - (halo - 1))
    ensures valid <==> RisesAbove(dz, dz1, Passes(layers), nz + halo)
  {
    ghost var n := nz + halo;
    valid := CheckGrid(zMid, flexUp, halo);
    ForcingLayersNonNegative(nz, halo, dz, dz1);
    if valid {
      forall i | 0 <= i <= n ensures Coefficient(dz, dz1, layers, n, i) > 0.0 {
        assert flexUp[i + (halo - 1)] == Coefficient(dz, dz1, layers, n, i);
      }
      PositiveRises(dz, dz1, layers, n);
    } else if RisesAbove(dz, dz1, Passes(layers), n) {
      forall k | halo <= k < zMid.Length ensures zMid[k - 1] < zMid[k] {
        assert zMid[..][k - 1] == zMid[k - 1] && zMid[..][k] == zMid[k];
        ShiftedMidpointsIncrease(dz, dz1, Passes(layers), n, k - halo);
      }
      forall k | halo - 1 <= k < flexUp.Length ensures flexUp[k] > 0.0 {
        CoefficientPositive(dz, dz1, layers, n, k - (halo - 1));
      }
    }
  }

  /** With a lowest layer thinner than the others and these below the domain height the shifted grid is
      always accepted. */
  lemma ThinLayersAccepted(dz: real, dz1: real, m: nat, n: int)
    requires Stretches(dz, dz1)
    ensures RisesAbove(dz, dz1, m, n)
  {
    if n > m { AlwaysRises(dz, dz1, n - m); }
  }

  lemma CoefficientMeasures(dz: real, dz1: real, layers: nat, uniform: nat, n: int, i: int)
    requires Usable(dz) && dz1 > 0.0 && uniform == if layers > 2 then layers - 2 else 0
    ensures var coefficient := Coefficient(dz, dz1, layers, n, i);
            var centres := Centres(dz, dz1);
            if i == layers && i < n then MeasuresLayer(dz, coefficient,
              Midpoint(centres, dz1, uniform, i + 1) - Midpoint(centres, dz1, uniform, i))
            else if i <= uniform then coefficient == dz / dz1
            else coefficient == Slopes(dz, dz1)(i - uniform)
  {
    var centres := Centres(dz, dz1);
    RatioMeasures(dz, Midpoint(centres, dz1, uniform, i + 1) - Midpoint(centres, dz1, uniform, i));
  }

  /** The metric coefficients of the shifted grid: dz over the lowest layer in the uniform layers, dz over
      the distance of its midpoints at the replaced interface, and the reciprocal slope above. */
  lemma CoefficientsOf(zMid: seq<real>, zUp: seq<real>, flexUp: seq<real>, first: nat, dz: real, dz1: real,
      layers: nat, uniform: nat, k: nat)
    requires Usable(dz) && dz1 > 0.0 && IsShifted(zMid, zUp, flexUp, first, dz, dz1, layers) && first <= k < |flexUp|
    requires uniform == if layers > 2 then layers - 2 else 0
    ensures k == first + layers < |flexUp| - 1 ==> MeasuresLayer(dz, flexUp[k], zMid[k + 1] - zMid[k])
    ensures !(k == first + layers < |flexUp| - 1) && k <= first + uniform ==> MeasuresLayer(dz, flexUp[k], dz1)
    ensures !(k == first + layers < |flexUp| - 1) && k > first + uniform ==>
              MeasuresSlope(dz, dz1, flexUp[k], k - first - uniform)
  {
    CoefficientMeasures(dz, dz1, layers, uniform, |flexUp| - first - 1, k - first);
    Quotient(dz, dz1);
    StretchedCoefficients(dz, dz1, k - first - uniform);
  }

  /** The default grid: its layers above the lowest grow by the same amount each, its midpoints are off the
      middle by a constant, and its coefficients are the reciprocal slopes. */
  lemma DefaultOf(zMid: seq<real>, zUp: seq<real>, flexUp: seq<real>, first: nat, dz: real, dz1: real, k: nat)
    requires Usable(dz) && IsDefault(zMid, zUp, flexUp, first, dz, dz1) && first <= k < |zUp|
    ensures MeasuresSlope(dz, dz1, flexUp[k], k - first)
    ensures k == first ==> zUp[k] == 0.0 && zMid[k] == 0.0
    ensures k > first ==> ThickerBy(dz, dz1, zUp[k] - zUp[k - 1], k - 1 - first)
    ensures k > first ==> OffMiddle(dz, dz1, (zUp[k - 1] + zUp[k]) / 2.0 - zMid[k])
  {
    StretchedCoefficients(dz, dz1, k - first);
    LowestFaces(dz, dz1);
    if k > first {
      StretchedLayers(dz, dz1, k - 1 - first);
      StretchedMiddles(dz, dz1, k - first);
      assert zUp[k - 1] == Interface(Faces(dz, dz1), dz1, 0, k - 1 - first);
    }
  }

  // ----- The whole call -----

  datatype Outcome = InvalidSpacings | DivisionByZero | UnsupportedType | InvalidGrid | Built

  /** The forcing generator, which raises an error for every outcome but the last. */
  method VvmVerticalGrid(nz: int, halo: int, dz: real, dz1: real, coordinateType: string)
    returns (outcome: Outcome, zMid: array<real>, zUp: array<real>, flexUp: array<real>)
    ensures outcome == InvalidSpacings <==> nz < 2 || halo < 1 || dz <= 0.0 || dz1 <= 0.0
    ensures outcome != InvalidSpacings ==>
              if dz == DOMAIN then outcome == DivisionByZero
              else match coordinateType
                   case "taiwanvvm" =>
                     outcome ==
                       if dz1 == dz then DivisionByZero
                       else if RisesAbove(dz, dz1, ForcingPasses(nz, halo, dz, dz1), nz + halo) then Built
                       else InvalidGrid
                   case "default" => outcome == if Rises(dz, dz1, 0, nz + halo) then Built else InvalidGrid
                   case _ => outcome == UnsupportedType
    ensures outcome == Built ==>
              && nz >= 2 && halo >= 1 && Usable(dz) && dz1 > 0.0
              && zMid.Length == zUp.Length == flexUp.Length == nz + 2 * halo
              && (coordinateType == "default" ==> IsDefault(zMid[..], zUp[..], flexUp[..], halo - 1, dz, dz1))
              && (coordinateType == "taiwanvvm" ==>
                dz1 != dz
                && IsShifted(zMid[..], zUp[..], flexUp[..], halo - 1, dz, dz1, ForcingLayers(nz, halo, dz, dz1)))
  {
    zMid, zUp, flexUp := new real[0], new real[0], new real[0];
    if nz < 2 || halo < 1 || dz <= 0.0 || dz1 <= 0.0 { return InvalidSpacings, zMid, zUp, flexUp; }
    if dz == DOMAIN { return DivisionByZero, zMid, zUp, flexUp; }
    var valid: bool;
    if coordinateType == "default" {
      valid, zMid, zUp, flexUp := DefaultGrid(nz, halo, dz, dz1);
    } else if coordinateType == "taiwanvvm" {
      if dz1 == dz { return DivisionByZero, zMid, zUp, flexUp; }
      valid, zMid, zUp, flexUp := TaiwanVvmGrid(nz, halo, dz, dz1);
    } else {
      return UnsupportedType, zMid, zUp, flexUp;
    }
    outcome := if valid then Built else InvalidGrid;
  }

  // ----- The initial-condition generator -----

  /** Height this generator reads to count its layers. */
  function InitReference(nz: Pos, dz: real, dz1: real): real
    requires Shifts(dz, dz1)
  {
    var i := Max(0, Min(HalfLevel(dz, dz1) - 1, nz - 1));
    if i <= 0 then 0.0 else Faces(dz, dz1)(i)
  }

  function InitLayers(nz: Pos, dz: real, dz1: real): int
    requires Shifts(dz, dz1)
  {
    UniformLayers(InitReference(nz, dz, dz1), dz1)
  }

  function InitPasses(nz: Pos, dz: real, dz1: real): nat
    requires Shifts(dz, dz1)
  {
    Passes(InitLayers(nz, dz, dz1))
  }

  lemma InitReferenceIs(nz: Pos, dz: real, dz1: real)
    requires Shifts(dz, dz1)
    ensures InitReference(nz, dz, dz1) == HeightAt(dz, dz1, HalfLevel(dz, dz1), nz - 1)
  {
  }

  /** Its uniform layers reach the stretched height of the same interface, or of its own top. */
  lemma InitLayersReach(nz: Pos, dz: real, dz1: real, half: int)
    requires Shifts(dz, dz1) && (half as real) * dz <= 7500.0 < ((half + 1) as real) * dz
    ensures var layers := InitLayers(nz, dz, dz1);
            && Reach(HeightAt(dz, dz1, half, nz - 1), dz1, layers)
            && InitPasses(nz, dz, dz1) == if layers > 2 then layers - 2 else 0
  {
    HalfLevelIs(dz, dz1);
    FloorOf(7500.0, dz, half);
    InitReferenceIs(nz, dz, dz1);
    UniformLayersReach(InitReference(nz, dz, dz1), dz1);
  }

  /** The shift passes of this generator, in place over the physical interfaces. */
  method ShiftPhysical(zUp: array<real>, dz1: real, kt1: int)
    modifies zUp
    ensures zUp[..] == RaisedTimes(old(zUp[..]), 0, dz1, Passes(kt1))
  {
    var level := 2;
    while level < kt1
      invariant 2 <= level && (level == 2 || level <= kt1)
      invariant zUp[..] == RaisedTimes(old(zUp[..]), 0, dz1, level - 2)
    {
      Raise(zUp, level - 1, dz1);
      level := level + 1;
    }
  }

  method InitialInterfaces(nz: Pos, dz: real, dz1: real) returns (zUp: array<real>)
    requires Shifts(dz, dz1)
    ensures zUp.Length == nz
    ensures AreInterfaces(zUp[..], 0, Faces(dz, dz1), dz1, InitPasses(nz, dz, dz1))
  {
    HalfLevelIs(dz, dz1);
    zUp := new real[nz](_ => 0.0);
    NextHeight(dz, 1);
    for k := 1 to nz
      invariant forall k' :: 0 <= k' < k ==> zUp[k'] == FaceHeight(dz, k')
    {
      NextHeight(dz, k);
      zUp[k] := zUp[k - 1] + dz;
    }
    for k := 0 to nz
      invariant forall k' :: 0 <= k' < k ==> zUp[k'] == Faces(dz, dz1)(k')
      invariant forall k' :: k <= k' < nz ==> zUp[k'] == FaceHeight(dz, k')
    {
      zUp[k] := Stretch(dz, dz1, zUp[k]);
    }
    var kt := HalfLevel(dz, dz1);
    var i := Max(0, Min(kt - 1, nz - 1));
    var kt1 := UniformLayers(zUp[i], dz1);
    assert zUp[i] == InitReference(nz, dz, dz1);
    zUp[0] := 0.0;
    InterfacesShifted(zUp[..], 0, Faces(dz, dz1), dz1, Passes(kt1));
    ShiftPhysical(zUp, dz1, kt1);
  }

  // ----- The two generators -----

  lemma ReferencesAgree(nz: Pos, halo: Pos, dz: real, dz1: real)
    requires Stretches(dz, dz1)
    ensures HalfLevel(dz, dz1) <= nz ==> InitReference(nz, dz, dz1) == ForcingReference(nz, halo, dz, dz1)
    ensures 0.0 <= InitReference(nz, dz, dz1) <= ForcingReference(nz, halo, dz, dz1)
  {
    HalfLevelIs(dz, dz1);
    var i := Max(0, Min(HalfLevel(dz, dz1) - 1, nz - 1));
    var j := ReferenceLevel(nz, halo, HalfLevel(dz, dz1));
    FacesNonNegative(dz, dz1, i);
    if 0 < i < j { FacesIncrease(dz, dz1, i, j); } else if i < j { FacesNonNegative(dz, dz1, j); }
  }

  lemma FacesIncrease(dz: real, dz1: real, i: int, j: int)
    requires Stretches(dz, dz1) && 1 <= i < j
    ensures Faces(dz, dz1)(i) < Faces(dz, dz1)(j)
  {
    HeightsInOrder(dz, i);
    Scaled(i as real, j as real, dz);
    StretchIncreases(dz, dz1, FaceHeight(dz, i), FaceHeight(dz, j));
  }

  lemma QuotientOrdered(a: real, b: real, d: real)
    requires a <= b && d > 0.0
    ensures a / d <= b / d
  {
    var x, y := a / d, b / d;
    Quotient(a, d);
    Quotient(b, d);
    if x > y { Scaled(y, x, d); }
  }

  lemma PassesOrdered(nz: Pos, halo: Pos, dz: real, dz1: real)
    requires Stretches(dz, dz1)
    ensures InitPasses(nz, dz, dz1) <= ForcingPasses(nz, halo, dz, dz1)
  {
    ReferencesAgree(nz, halo, dz, dz1);
    QuotientOrdered(InitReference(nz, dz, dz1), ForcingReference(nz, halo, dz, dz1), dz1);
  }

  /** Below and one above its uniform layers a grid does not show how many passes built it. */
  lemma UniformBelow(dz: real, dz1: real, m: nat, i: int)
    requires Stretches(dz, dz1) && 0 <= i <= m + 1
    ensures Interface(Faces(dz, dz1), dz1, m, i) == (i as real) * dz1
  {
    NextHeight(dz, 1);
    FirstStep(dz, dz1);
    assert ((m + 1) as real) * dz1 == (m as real) * dz1 + dz1;
  }

  lemma CurvePositive(c: real, x: real)
    requires c > 0.0 && x > 0.0
    ensures c * (x * x) > 0.0
  {
    ProductPositive(c, x);
    ProductPositive(c * x, x);
  }

  /** Two layers above the last pass the layers are thicker. */
  lemma ThickerAbove(dz: real, dz1: real, m: nat)
    requires Stretches(dz, dz1)
    ensures Interface(Faces(dz, dz1), dz1, m, m + 2) > ((m + 2) as real) * dz1
  {
    var z := FaceHeight(dz, 2);
    assert z == 2.0 * dz;
    StretchTwice(dz, dz1);
    FirstStep(dz, dz1);
    assert ((m + 2) as real) * dz1 == (m as real) * dz1 + 2.0 * dz1;
    assert Interface(Faces(dz, dz1), dz1, m, m + 2) == Stretch(dz, dz1, z) + (m as real) * dz1;
  }

  lemma StretchTwice(dz: real, dz1: real)
    requires Stretches(dz, dz1)
    ensures Stretch(dz, dz1, 2.0 * dz) > 2.0 * Stretch(dz, dz1, dz)
  {
    SlopePositive(dz, dz1, dz);
    TwiceTheStep(Cz1(dz, dz1), Cz2(dz, dz1), dz);
  }

  lemma TwiceTheStep(c1: real, c2: real, dz: real)
    requires c2 > 0.0 && dz > 0.0
    ensures (2.0 * dz) * (c1 + c2 * (2.0 * dz)) > 2.0 * (dz * (c1 + c2 * dz))
  {
    CurvePositive(c2, dz);
    assert (2.0 * dz) * (c1 + c2 * (2.0 * dz)) == 2.0 * (dz * (c1 + c2 * dz)) + 2.0 * (c2 * (dz * dz));
  }

  /** The generators give the same physical interfaces exactly when they take the same number of passes
      or the uniform layers reach the top; in particular whenever half the domain lies on the grid. */
  lemma GeneratorsAgreeExactly(nz: Pos, halo: Pos, dz: real, dz1: real)
    requires Stretches(dz, dz1)
    ensures HalfLevel(dz, dz1) <= nz ==> InitPasses(nz, dz, dz1) == ForcingPasses(nz, halo, dz, dz1)
    ensures (forall i :: 0 <= i < nz ==> SameInterface(nz, halo, dz, dz1, i)) <==>
            InitPasses(nz, dz, dz1) == ForcingPasses(nz, halo, dz, dz1) || nz <= InitPasses(nz, dz, dz1) + 2
  {
    ReferencesAgree(nz, halo, dz, dz1);
    PassesOrdered(nz, halo, dz, dz1);
    var m, n := InitPasses(nz, dz, dz1), ForcingPasses(nz, halo, dz, dz1);
    if m < n {
      if nz <= m + 2 {
        forall i | 0 <= i < nz ensures SameInterface(nz, halo, dz, dz1, i) {
          UniformBelow(dz, dz1, m, i);
          UniformBelow(dz, dz1, n, i);
        }
      } else {
        ThickerAbove(dz, dz1, m);
        UniformBelow(dz, dz1, n, m + 2);
        assert !SameInterface(nz, halo, dz, dz1, m + 2);
      }
    }
  }

  ghost predicate SameInterface(nz: Pos, halo: Pos, dz: real, dz1: real, i: int)
    requires Shifts(dz, dz1)
  {
    Interface(Faces(dz, dz1), dz1, InitPasses(nz, dz, dz1), i) ==
      Interface(Faces(dz, dz1), dz1, ForcingPasses(nz, halo, dz, dz1), i)
  }
}
