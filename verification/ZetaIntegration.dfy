/** Vertical integration of the third vorticity component: downward from the top level column by column,
    with one step upward, so that the discrete divergence of (xi, -eta, zeta) vanishes. */
module ZetaIntegration {
  import opened HaloFaces
  import opened HaloExchange
  import opened HaloKernels
  import opened Sums

  /** Spacings: vertical, and the reciprocals of the horizontal ones. */
  datatype Spacing = Spacing(dz: real, rdx: real, rdy: real)

  /** The discrete divergence at a level, from the differences of xi along x, of eta along y and of
      zeta along z. */
  function Divergence(s: Spacing, flex: real, dxi: real, deta: real, dzeta: real): real
    requires s.dz != 0.0
  {
    dxi * s.rdx - deta * s.rdy + dzeta * flex / s.dz
  }

  /** The value below a level, and the value above it, that the integration assigns. */
  function Below(s: Spacing, flex: real, dxi: real, deta: real, upper: real): real
    requires flex != 0.0
  {
    upper + dxi * s.rdx * s.dz / flex - deta * s.rdy * s.dz / flex
  }

  function Above(s: Spacing, flex: real, dxi: real, deta: real, lower: real): real
    requires flex != 0.0
  {
    lower - dxi * s.dz * s.rdx / flex + deta * s.dz * s.rdy / flex
  }

  lemma QuotientTimes(x: real, d: real)
    requires d != 0.0
    ensures x / d * d == x
  {
  }

  lemma ProductOver(x: real, d: real)
    requires d != 0.0
    ensures x * d / d == x
  {
    var q := x * d / d;
    QuotientTimes(x * d, d);
    assert (q - x) * d == 0.0;
  }

  /** The change of zeta over a level that cancels the horizontal part `a - b`. */
  lemma ChangeCancels(a: real, b: real, p: real, q: real, flex: real, dz: real)
    requires dz != 0.0 && p * flex == a * dz && q * flex == b * dz
    ensures a - b + (q - p) * flex / dz == 0.0
  {
    assert (q - p) * flex == (b - a) * dz;
    ProductOver(b - a, dz);
  }

  lemma Regrouped(x: real, dz: real, r: real, flex: real)
    requires flex != 0.0
    ensures x * dz * r / flex == x * r * dz / flex
  {
    assert x * dz * r == x * r * dz;
  }

  /** Either step makes the divergence of its level vanish. */
  lemma StepBalances(s: Spacing, flex: real, dxi: real, deta: real, level: real)
    requires s.dz != 0.0 && flex != 0.0
    ensures Divergence(s, flex, dxi, deta, level - Below(s, flex, dxi, deta, level)) == 0.0
    ensures Divergence(s, flex, dxi, deta, Above(s, flex, dxi, deta, level) - level) == 0.0
  {
    var a, b := dxi * s.rdx, deta * s.rdy;
    var p, q := a * s.dz / flex, b * s.dz / flex;
    QuotientTimes(a * s.dz, flex);
    QuotientTimes(b * s.dz, flex);
    ChangeCancels(a, b, p, q, flex, s.dz);
    assert level - Below(s, flex, dxi, deta, level) == q - p;
    Regrouped(dxi, s.dz, s.rdx, flex);
    Regrouped(deta, s.dz, s.rdy, flex);
    assert Above(s, flex, dxi, deta, level) - level == q - p;
  }

  /** No divergence: what zeta gains over a level is what eta gains along y less what xi gains along x. */
  lemma NoDivergence(s: Spacing, flex: real, dxi: real, deta: real, dzeta: real)
    requires s.dz != 0.0
    ensures Divergence(s, flex, dxi, deta, dzeta) == 0.0 <==> dzeta * flex == (deta * s.rdy - dxi * s.rdx) * s.dz
  {
    var q := dzeta * flex / s.dz;
    QuotientTimes(dzeta * flex, s.dz);
    assert (dxi * s.rdx - deta * s.rdy + q) * s.dz == dzeta * flex - (deta * s.rdy - dxi * s.rdx) * s.dz;
    if dzeta * flex == (deta * s.rdy - dxi * s.rdx) * s.dz { ZeroTimes(dxi * s.rdx - deta * s.rdy + q, s.dz); }
  }

  lemma ZeroTimes(x: real, d: real)
    requires d != 0.0 && x * d == 0.0
    ensures x == 0.0
  {
  }

  /** The divergence at a cell of a rank's fields. */
  ghost function DivergenceAt(zeta: array3<real>, xi: array3<real>, eta: array3<real>, flex: array<real>, s: Spacing,
      k: int, j: int, i: int): real
    requires s.dz != 0.0 && 0 <= k < flex.Length && 0 <= k && k + 1 < zeta.Length0 == xi.Length0 == eta.Length0
    requires 0 <= j && j + 1 < zeta.Length1 == xi.Length1 == eta.Length1 && 0 <= i
      && i + 1 < zeta.Length2 == xi.Length2 == eta.Length2
    reads zeta, xi, eta, flex
  {
    Divergence(s, flex[k], xi[k, j, i + 1] - xi[k, j, i], eta[k, j + 1, i] - eta[k, j, i],
      zeta[k + 1, j, i] - zeta[k, j, i])
  }

  /** The level pair (k, k + 1) of a column is one step of the integration apart: the step below it, or
      above the top physical level. */
  ghost predicate Stepped(zeta: array3<real>, xi: array3<real>, eta: array3<real>, flex: array<real>, s: Spacing,
      nz: int, h: int, k: int, j: int, i: int)
    requires 0 <= k < flex.Length && flex[k] != 0.0 && k + 1 < zeta.Length0 == xi.Length0 == eta.Length0
    requires 0 <= j && j + 1 < zeta.Length1 == xi.Length1 == eta.Length1 && 0 <= i
      && i + 1 < zeta.Length2 == xi.Length2 == eta.Length2
    reads zeta, xi, eta, flex
  {
    var dxi, deta := xi[k, j, i + 1] - xi[k, j, i], eta[k, j + 1, i] - eta[k, j, i];
    if k == nz - h - 1 then zeta[k + 1, j, i] == Above(s, flex[k], dxi, deta, zeta[k, j, i])
    else zeta[k, j, i] == Below(s, flex[k], dxi, deta, zeta[k + 1, j, i])
  }

  /** Extents of all fields, with halos; the physical levels are h..nz-h. */
  predicate Fits(zeta: array3<real>, xi: array3<real>, eta: array3<real>, flex: array<real>, nz: nat, h: nat) {
    && zeta.Length0 == xi.Length0 == eta.Length0 == flex.Length == nz && 1 <= h && 2 * h < nz
    && zeta.Length1 == xi.Length1 == eta.Length1 && zeta.Length2 == xi.Length2 == eta.Length2
  }

  /** Levels no column writes: below the lowest interface, the top physical level, above the one over it. */
  predicate Keeps(nz: int, h: int, k: int) { k < h - 1 || k == nz - h - 1 || k > nz - h }

  predicate Writes(zeta: array3<real>, nz: int, h: int, k: int, j: int, i: int) {
    h <= j < zeta.Length1 - h && h <= i < zeta.Length2 - h && !Keeps(nz, h, k)
  }

  /** Down one column from the top physical level, which keeps its value. */
  method IntegrateDown(zeta: array3<real>, xi: array3<real>, eta: array3<real>, flex: array<real>, s: Spacing,
      nz: nat, h: nat, j: nat, i: nat)
    requires Fits(zeta, xi, eta, flex, nz, h) && zeta != xi && zeta != eta
    requires forall k :: h - 1 <= k < nz - h ==> flex[k] != 0.0
    requires j + 1 < zeta.Length1 && i + 1 < zeta.Length2
    modifies zeta
    ensures forall k :: h - 1 <= k < nz - h - 1 ==> Stepped(zeta, xi, eta, flex, s, nz, h, k, j, i)
    ensures forall k, j', i' ::
              0 <= k < nz && 0 <= j' < zeta.Length1 && 0 <= i' < zeta.Length2 ==>
              (j' != j || i' != i || Keeps(nz, h, k)) ==> zeta[k, j', i'] == old(zeta[k, j', i'])
  {
    var k := nz - h - 2;
    while k >= h - 1
      invariant h - 2 <= k <= nz - h - 2
      invariant forall k' :: k < k' < nz - h - 1 ==> Stepped(zeta, xi, eta, flex, s, nz, h, k', j, i)
      invariant forall k', j', i' ::
                  0 <= k' < nz && 0 <= j' < zeta.Length1 && 0 <= i' < zeta.Length2 ==>
                  (j' != j || i' != i || Keeps(nz, h, k')) ==> zeta[k', j', i'] == old(zeta[k', j', i'])
    {
      var dxi, deta := xi[k, j, i + 1] - xi[k, j, i], eta[k, j + 1, i] - eta[k, j, i];
      label before:
      zeta[k, j, i] := Below(s, flex[k], dxi, deta, zeta[k + 1, j, i]);
      forall k' | k < k' < nz - h - 1 ensures Stepped(zeta, xi, eta, flex, s, nz, h, k', j, i) {
        assert old@before(Stepped(zeta, xi, eta, flex, s, nz, h, k', j, i));
      }
      k := k - 1;
    }
  }

  /** The one step upward. */
  method StepUp(zeta: array3<real>, xi: array3<real>, eta: array3<real>, flex: array<real>, s: Spacing, nz: nat,
      h: nat, j: nat, i: nat)
    requires Fits(zeta, xi, eta, flex, nz, h) && zeta != xi && zeta != eta
    requires forall k :: h - 1 <= k < nz - h ==> flex[k] != 0.0
    requires j + 1 < zeta.Length1 && i + 1 < zeta.Length2
    requires forall k :: h - 1 <= k < nz - h - 1 ==> Stepped(zeta, xi, eta, flex, s, nz, h, k, j, i)
    modifies zeta
    ensures forall k :: h - 1 <= k < nz - h ==> Stepped(zeta, xi, eta, flex, s, nz, h, k, j, i)
    ensures forall k, j', i' ::
              0 <= k < nz && 0 <= j' < zeta.Length1 && 0 <= i' < zeta.Length2 ==>
              (j' != j || i' != i || Keeps(nz, h, k)) ==> zeta[k, j', i'] == old(zeta[k, j', i'])
  {
    var t := nz - h - 1;
    var dxi, deta := xi[t, j, i + 1] - xi[t, j, i], eta[t, j + 1, i] - eta[t, j, i];
    zeta[t + 1, j, i] := Above(s, flex[t], dxi, deta, zeta[t, j, i]);
    forall k | h - 1 <= k < t ensures Stepped(zeta, xi, eta, flex, s, nz, h, k, j, i) {
      assert old(Stepped(zeta, xi, eta, flex, s, nz, h, k, j, i));
    }
  }

  /** One column. */
  method IntegrateColumn(zeta: array3<real>, xi: array3<real>, eta: array3<real>, flex: array<real>, s: Spacing,
      nz: nat, h: nat, j: nat, i: nat)
    requires Fits(zeta, xi, eta, flex, nz, h) && zeta != xi && zeta != eta
    requires forall k :: h - 1 <= k < nz - h ==> flex[k] != 0.0
    requires j + 1 < zeta.Length1 && i + 1 < zeta.Length2
    modifies zeta
    ensures forall k :: h - 1 <= k < nz - h ==> Stepped(zeta, xi, eta, flex, s, nz, h, k, j, i)
    ensures forall k, j', i' ::
              0 <= k < nz && 0 <= j' < zeta.Length1 && 0 <= i' < zeta.Length2 ==>
              (j' != j || i' != i || Keeps(nz, h, k)) ==> zeta[k, j', i'] == old(zeta[k, j', i'])
  {
    IntegrateDown(zeta, xi, eta, flex, s, nz, h, j, i);
    StepUp(zeta, xi, eta, flex, s, nz, h, j, i);
  }

  /** The divergence vanishes at every level of a column from the lowest to the top physical interface. */
  ghost predicate Balanced(zeta: array3<real>, xi: array3<real>, eta: array3<real>, flex: array<real>, s: Spacing,
      nz: nat, h: nat, j: int, i: int)
    requires Fits(zeta, xi, eta, flex, nz, h) && s.dz != 0.0
    reads zeta, xi, eta, flex
  {
    0 <= j && j + 1 < zeta.Length1 && 0 <= i && i + 1 < zeta.Length2 &&
    forall k :: h - 1 <= k < nz - h ==> DivergenceAt(zeta, xi, eta, flex, s, k, j, i) == 0.0
  }

  lemma SteppedIsBalanced(zeta: array3<real>, xi: array3<real>, eta: array3<real>, flex: array<real>, s: Spacing,
      nz: nat, h: nat, j: nat, i: nat)
    requires Fits(zeta, xi, eta, flex, nz, h) && s.dz != 0.0 && j + 1 < zeta.Length1 && i + 1 < zeta.Length2
    requires forall k :: h - 1 <= k < nz - h ==> flex[k] != 0.0
    requires forall k :: h - 1 <= k < nz - h ==> Stepped(zeta, xi, eta, flex, s, nz, h, k, j, i)
    ensures Balanced(zeta, xi, eta, flex, s, nz, h, j, i)
  {
    forall k | h - 1 <= k < nz - h ensures DivergenceAt(zeta, xi, eta, flex, s, k, j, i) == 0.0 {
      assert Stepped(zeta, xi, eta, flex, s, nz, h, k, j, i);
      StepBalances(s, flex[k], xi[k, j, i + 1] - xi[k, j, i], eta[k, j + 1, i] - eta[k, j, i],
        zeta[if k == nz - h - 1 then k else k + 1, j, i]);
    }
  }

  /** The columns of rows h..j, and of row j up to i, are integrated. */
  ghost predicate Integrated(zeta: array3<real>, xi: array3<real>, eta: array3<real>, flex: array<real>, s: Spacing,
      nz: nat, h: nat, j: int, i: int)
    requires Fits(zeta, xi, eta, flex, nz, h) && s.dz != 0.0 && forall k :: h - 1 <= k < nz - h ==> flex[k] != 0.0
    reads zeta, xi, eta, flex
  {
    forall k, j', i' ::
      h - 1 <= k < nz - h && h <= j' < zeta.Length1 - h && h <= i' < zeta.Length2 - h ==>
      j' < j || (j' == j && i' < i) ==> Stepped(zeta, xi, eta, flex, s, nz, h, k, j', i')
  }

  method NextColumn(zeta: array3<real>, xi: array3<real>, eta: array3<real>, flex: array<real>, s: Spacing, nz: nat,
      h: nat, j: nat, i: nat)
    requires Fits(zeta, xi, eta, flex, nz, h) && zeta != xi && zeta != eta && s.dz != 0.0
    requires forall k :: h - 1 <= k < nz - h ==> flex[k] != 0.0
    requires h <= j < zeta.Length1 - h && h <= i < zeta.Length2 - h && Integrated(zeta, xi, eta, flex, s, nz, h, j, i)
    modifies zeta
    ensures Integrated(zeta, xi, eta, flex, s, nz, h, j, i + 1)
    ensures forall k, j', i' ::
              0 <= k < nz && 0 <= j' < zeta.Length1 && 0 <= i' < zeta.Length2 && !Writes(zeta, nz, h, k, j', i') ==>
              zeta[k, j', i'] == old(zeta[k, j', i'])
  {
    IntegrateColumn(zeta, xi, eta, flex, s, nz, h, j, i);
    forall k, j', i' | h - 1 <= k < nz - h && h <= j' < zeta.Length1 - h && h <= i' < zeta.Length2 - h
      && (j' < j || (j' == j && i' < i))
      ensures Stepped(zeta, xi, eta, flex, s, nz, h, k, j', i')
    {
      assert old(Stepped(zeta, xi, eta, flex, s, nz, h, k, j', i'));
    }
  }

  lemma NextRow(zeta: array3<real>, xi: array3<real>, eta: array3<real>, flex: array<real>, s: Spacing, nz: nat,
      h: nat, j: nat, i: nat)
    requires Fits(zeta, xi, eta, flex, nz, h) && s.dz != 0.0 && forall k :: h - 1 <= k < nz - h ==> flex[k] != 0.0
    requires i >= zeta.Length2 - h && Integrated(zeta, xi, eta, flex, s, nz, h, j, i)
    ensures Integrated(zeta, xi, eta, flex, s, nz, h, j + 1, 0)
  {
  }

  /** Column after column; columns are independent, so their order does not matter. */
  method ComputeZeta(zeta: array3<real>, xi: array3<real>, eta: array3<real>, flex: array<real>, s: Spacing, nz: nat,
      h: nat)
    requires Fits(zeta, xi, eta, flex, nz, h) && zeta != xi && zeta != eta && s.dz != 0.0
    requires forall k :: h - 1 <= k < nz - h ==> flex[k] != 0.0
    modifies zeta
    ensures forall j, i :: h <= j < zeta.Length1 - h && h <= i < zeta.Length2 - h ==>
              Balanced(zeta, xi, eta, flex, s, nz, h, j, i)
    ensures forall k, j, i ::
              0 <= k < nz && 0 <= j < zeta.Length1 && 0 <= i < zeta.Length2 ==>
              k < h - 1 || k == nz - h - 1 || k > nz - h
                || !(h <= j < zeta.Length1 - h && h <= i < zeta.Length2 - h) ==>
              zeta[k, j, i] == old(zeta[k, j, i])
  {
    var j := h;
    while j < zeta.Length1 - h
      invariant h <= j && Integrated(zeta, xi, eta, flex, s, nz, h, j, 0)
      invariant forall k, j', i' ::
                  0 <= k < nz && 0 <= j' < zeta.Length1 && 0 <= i' < zeta.Length2 ==>
                  !Writes(zeta, nz, h, k, j', i') ==> zeta[k, j', i'] == old(zeta[k, j', i'])
    {
      var i := h;
      while i < zeta.Length2 - h
        invariant h <= i && Integrated(zeta, xi, eta, flex, s, nz, h, j, i)
        invariant forall k, j', i' ::
                    0 <= k < nz && 0 <= j' < zeta.Length1 && 0 <= i' < zeta.Length2 ==>
                    !Writes(zeta, nz, h, k, j', i') ==> zeta[k, j', i'] == old(zeta[k, j', i'])
      {
        NextColumn(zeta, xi, eta, flex, s, nz, h, j, i);
        i := i + 1;
      }
      NextRow(zeta, xi, eta, flex, s, nz, h, j, i);
      j := j + 1;
    }
    AllBalanced(zeta, xi, eta, flex, s, nz, h, j);
  }

  lemma AllBalanced(zeta: array3<real>, xi: array3<real>, eta: array3<real>, flex: array<real>, s: Spacing, nz: nat,
      h: nat, j: nat)
    requires Fits(zeta, xi, eta, flex, nz, h) && s.dz != 0.0 && forall k :: h - 1 <= k < nz - h ==> flex[k] != 0.0
    requires j >= zeta.Length1 - h && Integrated(zeta, xi, eta, flex, s, nz, h, j, 0)
    ensures forall j', i' :: h <= j' < zeta.Length1 - h && h <= i' < zeta.Length2 - h ==>
              Balanced(zeta, xi, eta, flex, s, nz, h, j', i')
  {
    forall j', i' | h <= j' < zeta.Length1 - h && h <= i' < zeta.Length2 - h
      ensures Balanced(zeta, xi, eta, flex, s, nz, h, j', i')
    {
      SteppedIsBalanced(zeta, xi, eta, flex, s, nz, h, j', i');
    }
  }

  /** A balanced column, written out: over each level, zeta changes by what eta gains to the next row less
      what xi gains to the next column. */
  lemma BalancedColumn(zeta: array3<real>, xi: array3<real>, eta: array3<real>, flex: array<real>, s: Spacing,
      nz: nat, h: nat, j: int, i: int, k: int)
    requires Fits(zeta, xi, eta, flex, nz, h) && s.dz != 0.0 && Balanced(zeta, xi, eta, flex, s, nz, h, j, i)
    requires h - 1 <= k <= nz - h - 1
    ensures (zeta[k + 1, j, i] - zeta[k, j, i]) * flex[k] ==
      ((eta[k, j + 1, i] - eta[k, j, i]) * s.rdy - (xi[k, j, i + 1] - xi[k, j, i]) * s.rdx) * s.dz
  {
    NoDivergence(s, flex[k], xi[k, j, i + 1] - xi[k, j, i], eta[k, j + 1, i] - eta[k, j, i],
      zeta[k + 1, j, i] - zeta[k, j, i]);
    assert DivergenceAt(zeta, xi, eta, flex, s, k, j, i) == 0.0;
  }

  // ----- Conservation -----

  /** Differences to the next cell along each axis of a doubly periodic global field. */
  function Around(n: int, i: int): int { if i + 1 == n then 0 else i + 1 }

  function DiffX(f: (int, int) -> real, nx: int): (int, int) -> real {
    (j: int, i: int) => f(j, Around(nx, i)) - f(j, i)
  }

  function DiffY(f: (int, int) -> real, ny: int): (int, int) -> real {
    (j: int, i: int) => f(Around(ny, j), i) - f(j, i)
  }

  /** On a torus the differences along either axis add up to nothing. */
  lemma DifferencesCancel(f: (int, int) -> real, ny: int, nx: int)
    requires ny >= 1 && nx >= 1
    ensures Total(DiffX(f, nx), ny, nx) == 0.0 && Total(DiffY(f, ny), ny, nx) == 0.0
  {
    forall j | 0 <= j < ny ensures RowSums(DiffX(f, nx), nx)(j) == 0.0 {
      var d, x := Row(DiffX(f, nx), j), Row(f, j);
      forall i | 0 <= i < nx ensures d(i) == x(if i + 1 == nx then 0 else i + 1) - x(i) {
        assert d(i) == DiffX(f, nx)(j, i) == f(j, Around(nx, i)) - f(j, i);
        assert x(Around(nx, i)) == f(j, Around(nx, i));
      }
      RingCancels(d, x, nx);
    }
    SumZero(RowSums(DiffX(f, nx), nx), 0, ny);
    forall j | 0 <= j < ny
      ensures RowSums(DiffY(f, ny), nx)(j) == RowSums(f, nx)(if j + 1 == ny then 0 else j + 1) - RowSums(f, nx)(j)
    {
      SumLinear(Row(DiffY(f, ny), j), Row(f, Around(ny, j)), -1.0, Row(f, j), 0, nx);
    }
    RingCancels(RowSums(DiffY(f, ny), nx), RowSums(f, nx), ny);
  }

  lemma SolvedForZeta(s: Spacing, flex: real, dxi: real, deta: real, dzeta: real)
    requires s.dz != 0.0 && flex != 0.0 && Divergence(s, flex, dxi, deta, dzeta) == 0.0
    ensures dzeta == (-(s.rdx * s.dz / flex)) * dxi + (s.rdy * s.dz / flex) * deta
  {
    var a, b := s.rdx * s.dz / flex, s.rdy * s.dz / flex;
    assert a * flex == s.rdx * s.dz && b * flex == s.rdy * s.dz;
    var q := dzeta * flex / s.dz;
    assert q * s.dz == dzeta * flex;
    assert q == deta * s.rdy - dxi * s.rdx;
    assert (dzeta - (b * deta - a * dxi)) * flex == q * s.dz - (deta * (b * flex) - dxi * (a * flex)) == 0.0;
  }

  function Level(f: Cells<real>, k: int): (int, int) -> real { (j: int, i: int) => f.at(k, j, i) }

  function Combined(f: (int, int) -> real, a: real, g: (int, int) -> real): (int, int) -> real {
    (j: int, i: int) => f(j, i) + a * g(j, i)
  }

  /** The divergence of global fields at a cell of the torus, and of a block's fields at a cell. */
  function TorusDivergence(zeta: Cells<real>, xi: Cells<real>, eta: Cells<real>, s: Spacing, flex: real, k: int,
      ny: int, nx: int, j: int, i: int): real
    requires s.dz != 0.0
  {
    Divergence(s, flex, DiffX(Level(xi, k), nx)(j, i), DiffY(Level(eta, k), ny)(j, i),
      Level(zeta, k + 1)(j, i) - Level(zeta, k)(j, i))
  }

  function BlockDivergence(zeta: Cells<real>, xi: Cells<real>, eta: Cells<real>, s: Spacing, flex: real, k: int,
      j: int, i: int): real
    requires s.dz != 0.0
  {
    Divergence(s, flex, xi.at(k, j, i + 1) - xi.at(k, j, i), eta.at(k, j + 1, i) - eta.at(k, j, i),
      zeta.at(k + 1, j, i) - zeta.at(k, j, i))
  }

  /** Where the divergence vanishes over a whole torus, the horizontal sum of zeta is the same on both
      sides of the level. */
  lemma SumsConserved(zeta: Cells<real>, xi: Cells<real>, eta: Cells<real>, s: Spacing, flex: real, k: int, ny: int,
      nx: int)
    requires ny >= 1 && nx >= 1 && s.dz != 0.0 && flex != 0.0
    requires forall j, i :: 0 <= j < ny && 0 <= i < nx ==>
               TorusDivergence(zeta, xi, eta, s, flex, k, ny, nx, j, i) == 0.0
    ensures Total(Level(zeta, k + 1), ny, nx) == Total(Level(zeta, k), ny, nx)
  {
    var a, b := -(s.rdx * s.dz / flex), s.rdy * s.dz / flex;
    var dx, dy := DiffX(Level(xi, k), nx), DiffY(Level(eta, k), ny);
    var mid := Combined(Level(zeta, k), a, dx);
    DifferencesCancel(Level(xi, k), ny, nx);
    DifferencesCancel(Level(eta, k), ny, nx);
    TotalLinear(mid, Level(zeta, k), a, dx, ny, nx);
    forall j, i | 0 <= j < ny && 0 <= i < nx ensures Level(zeta, k + 1)(j, i) == mid(j, i) + b * dy(j, i) {
      assert TorusDivergence(zeta, xi, eta, s, flex, k, ny, nx, j, i) == 0.0;
      SolvedForZeta(s, flex, dx(j, i), dy(j, i), Level(zeta, k + 1)(j, i) - Level(zeta, k)(j, i));
    }
    TotalLinear(Level(zeta, k + 1), mid, b, dy, ny, nx);
  }

  // ----- From the ranks to the whole domain -----

  /** Periodic, or of one point, along both axes. */
  predicate DoublyPeriodic(g: Layout) { (Singleton(g, Y) || Wraps(g, Y)) && (Singleton(g, X) || Wraps(g, X)) }

  /** On every rank the integrated block is balanced at a level. */
  ghost predicate BlocksBalanced(g: Layout, zeta: Coord -> Cells<real>, xi: Coord -> Cells<real>,
      eta: Coord -> Cells<real>, s: Spacing, flex: real, k: int)
    requires s.dz != 0.0
  {
    forall c, j, i :: InGrid(g, c) && g.h <= j < g.h + SizeAt(g, Y, c) && g.h <= i < g.h + SizeAt(g, X, c) ==>
      BlockDivergence(zeta(c), xi(c), eta(c), s, flex, k, j, i) == 0.0
  }

  /** Blocks whose halos an exchange of depth one or more has filled from a global field. */
  ghost predicate Exchanged(g: Layout, blocks: Coord -> Cells<real>, global: Cells<real>, k: int) {
    forall c, j, i :: InGrid(g, c) && Reached(g, 1, c, j, i) ==> blocks(c).at(k, j, i) == Wrapped(g, global, c, k, j, i)
  }

  ghost predicate Assembles(g: Layout, blocks: Coord -> Cells<real>, global: Cells<real>, k: int) {
    forall c, j, i :: InGrid(g, c) && Reached(g, 0, c, j, i) ==> blocks(c).at(k, j, i) == Wrapped(g, global, c, k, j, i)
  }

  lemma AroundIsMod(n: int, i: int)
    requires 0 <= i < n
    ensures i % n == i && (i + 1) % n == Around(n, i)
  {
  }

  /** The owner of a global cell and the neighbours one up along each axis are all within its reach. */
  lemma OwnerReaches(g: Layout, j: int, i: int) returns (c: Coord)
    requires Valid(g) && DoublyPeriodic(g) && 0 <= j < Points(g, Y) && 0 <= i < Points(g, X)
    ensures InGrid(g, c) && Owned(g, Y, c.y, j) && Owned(g, X, c.x, i)
    ensures var (j', i') := (j - First(g, Y, c.y) + g.h, i - First(g, X, c.x) + g.h);
            && Reached(g, 0, c, j', i') && Reached(g, 1, c, j', i') && Reached(g, 1, c, j' + 1, i')
              && Reached(g, 1, c, j', i' + 1)
            && GlobalOf(g, Y, c.y, j') == j && GlobalOf(g, X, c.x, i') == i
  {
    OneOwner(g, Y, j);
    OneOwner(g, X, i);
    var y: nat :| y < Ranks(g, Y) && Owned(g, Y, y, j);
    var x: nat :| x < Ranks(g, X) && Owned(g, X, x, i);
    c := Coord(y, x);
  }

  /** Balanced blocks with exchanged halos make the global fields balanced on the torus. */
  lemma GloballyBalanced(g: Layout, zetas: Coord -> Cells<real>, xis: Coord -> Cells<real>, etas: Coord -> Cells<real>,
                         zeta: Cells<real>, xi: Cells<real>, eta: Cells<real>, s: Spacing, flex: real, k: int, j: int,
                         i: int)
    requires Valid(g) && DoublyPeriodic(g) && s.dz != 0.0 && BlocksBalanced(g, zetas, xis, etas, s, flex, k)
    requires Exchanged(g, xis, xi, k) && Exchanged(g, etas, eta, k) && Assembles(g, zetas, zeta, k)
      && Assembles(g, zetas, zeta, k + 1)
    requires 0 <= j < Points(g, Y) && 0 <= i < Points(g, X)
    ensures TorusDivergence(zeta, xi, eta, s, flex, k, Points(g, Y), Points(g, X), j, i) == 0.0
  {
    var c := OwnerReaches(g, j, i);
    BalancedFromBlock(g, zetas, xis, etas, zeta, xi, eta, s, flex, k, c, j, i);
  }

  lemma BlockValues(g: Layout, zetas: Coord -> Cells<real>, xis: Coord -> Cells<real>, etas: Coord -> Cells<real>,
                    zeta: Cells<real>, xi: Cells<real>, eta: Cells<real>, k: int, c: Coord, j: int, i: int, j': int,
                    i': int)
    requires Exchanged(g, xis, xi, k) && Exchanged(g, etas, eta, k) && Assembles(g, zetas, zeta, k)
      && Assembles(g, zetas, zeta, k + 1)
    requires InGrid(g, c) && 0 <= j < Points(g, Y) && 0 <= i < Points(g, X) && Owned(g, Y, c.y, j)
      && Owned(g, X, c.x, i)
    requires j' == j - First(g, Y, c.y) + g.h && i' == i - First(g, X, c.x) + g.h
    requires Reached(g, 0, c, j', i') && Reached(g, 1, c, j', i') && Reached(g, 1, c, j' + 1, i')
      && Reached(g, 1, c, j', i' + 1)
    ensures xis(c).at(k, j', i') == xi.at(k, j, i) && xis(c).at(k, j', i' + 1) == xi.at(k, j, Around(Points(g, X), i))
    ensures etas(c).at(k, j', i') == eta.at(k, j, i)
      && etas(c).at(k, j' + 1, i') == eta.at(k, Around(Points(g, Y), j), i)
    ensures zetas(c).at(k, j', i') == zeta.at(k, j, i) && zetas(c).at(k + 1, j', i') == zeta.at(k + 1, j, i)
  {
    ExchangedAt(g, xis, xi, k, c, j, i, j', i');
    ExchangedAt(g, etas, eta, k, c, j, i, j', i');
    AssembledAt(g, zetas, zeta, k, c, j, i, j', i');
    AssembledAt(g, zetas, zeta, k + 1, c, j, i, j', i');
  }

  lemma BalancedFromBlock(g: Layout, zetas: Coord -> Cells<real>, xis: Coord -> Cells<real>, etas: Coord -> Cells<real>,
                          zeta: Cells<real>, xi: Cells<real>, eta: Cells<real>, s: Spacing, flex: real, k: int,
                          c: Coord, j: int, i: int)
    requires s.dz != 0.0 && BlocksBalanced(g, zetas, xis, etas, s, flex, k)
    requires Exchanged(g, xis, xi, k) && Exchanged(g, etas, eta, k) && Assembles(g, zetas, zeta, k)
      && Assembles(g, zetas, zeta, k + 1)
    requires InGrid(g, c) && 0 <= j < Points(g, Y) && 0 <= i < Points(g, X) && Owned(g, Y, c.y, j)
      && Owned(g, X, c.x, i)
    requires var (j', i') := (j - First(g, Y, c.y) + g.h, i - First(g, X, c.x) + g.h);
             Reached(g, 0, c, j', i') && Reached(g, 1, c, j', i') && Reached(g, 1, c, j' + 1, i')
               && Reached(g, 1, c, j', i' + 1)
    ensures TorusDivergence(zeta, xi, eta, s, flex, k, Points(g, Y), Points(g, X), j, i) == 0.0
  {
    var j', i' := j - First(g, Y, c.y) + g.h, i - First(g, X, c.x) + g.h;
    BlockValues(g, zetas, xis, etas, zeta, xi, eta, k, c, j, i, j', i');
    SameDivergence(g, zetas(c), xis(c), etas(c), zeta, xi, eta, s, flex, k, j, i, j', i');
    BlockBalancedAt(g, zetas, xis, etas, s, flex, k, c, j', i');
  }

  lemma BlockBalancedAt(g: Layout, zeta: Coord -> Cells<real>, xi: Coord -> Cells<real>, eta: Coord -> Cells<real>,
      s: Spacing, flex: real, k: int, c: Coord, j: int, i: int)
    requires s.dz != 0.0 && BlocksBalanced(g, zeta, xi, eta, s, flex, k)
    requires InGrid(g, c) && g.h <= j < g.h + SizeAt(g, Y, c) && g.h <= i < g.h + SizeAt(g, X, c)
    ensures BlockDivergence(zeta(c), xi(c), eta(c), s, flex, k, j, i) == 0.0
  {
  }

  lemma SameDivergence(g: Layout, bz: Cells<real>, bx: Cells<real>, be: Cells<real>, zeta: Cells<real>,
      xi: Cells<real>, eta: Cells<real>, s: Spacing, flex: real, k: int, j: int, i: int, j': int, i': int)
    requires s.dz != 0.0
    requires bx.at(k, j', i') == xi.at(k, j, i) && bx.at(k, j', i' + 1) == xi.at(k, j, Around(Points(g, X), i))
    requires be.at(k, j', i') == eta.at(k, j, i) && be.at(k, j' + 1, i') == eta.at(k, Around(Points(g, Y), j), i)
    requires bz.at(k, j', i') == zeta.at(k, j, i) && bz.at(k + 1, j', i') == zeta.at(k + 1, j, i)
    ensures TorusDivergence(zeta, xi, eta, s, flex, k, Points(g, Y), Points(g, X), j, i) ==
            BlockDivergence(bz, bx, be, s, flex, k, j', i')
  {
    assert DiffX(Level(xi, k), Points(g, X))(j, i) == bx.at(k, j', i' + 1) - bx.at(k, j', i');
    assert DiffY(Level(eta, k), Points(g, Y))(j, i) == be.at(k, j' + 1, i') - be.at(k, j', i');
  }

  /** The local cell and its next neighbours hold the global field at the cell and around it. */
  lemma ExchangedAt(g: Layout, blocks: Coord -> Cells<real>, global: Cells<real>, k: int, c: Coord, j: int, i: int,
      j': int, i': int)
    requires Exchanged(g, blocks, global, k) && InGrid(g, c) && 0 <= j < Points(g, Y) && 0 <= i < Points(g, X)
    requires Reached(g, 1, c, j', i') && Reached(g, 1, c, j' + 1, i') && Reached(g, 1, c, j', i' + 1)
    requires GlobalOf(g, Y, c.y, j') == j && GlobalOf(g, X, c.x, i') == i
    ensures blocks(c).at(k, j', i') == global.at(k, j, i)
    ensures blocks(c).at(k, j', i' + 1) == global.at(k, j, Around(Points(g, X), i))
    ensures blocks(c).at(k, j' + 1, i') == global.at(k, Around(Points(g, Y), j), i)
  {
    AroundIsMod(Points(g, Y), j);
    AroundIsMod(Points(g, X), i);
    assert GlobalOf(g, Y, c.y, j' + 1) == j + 1 && GlobalOf(g, X, c.x, i' + 1) == i + 1;
  }

  lemma AssembledAt(g: Layout, blocks: Coord -> Cells<real>, global: Cells<real>, k: int, c: Coord, j: int, i: int,
      j': int, i': int)
    requires Assembles(g, blocks, global, k) && InGrid(g, c) && 0 <= j < Points(g, Y) && 0 <= i < Points(g, X)
    requires Reached(g, 0, c, j', i') && GlobalOf(g, Y, c.y, j') == j && GlobalOf(g, X, c.x, i') == i
    ensures blocks(c).at(k, j', i') == global.at(k, j, i)
  {
    AroundIsMod(Points(g, Y), j);
    AroundIsMod(Points(g, X), i);
  }

  /** After the integration on all ranks of a doubly periodic domain the horizontal sum of zeta over the
      whole domain is the same at both ends of the level, hence at every level. */
  lemma GlobalSumsConserved(g: Layout, zetas: Coord -> Cells<real>, xis: Coord -> Cells<real>,
      etas: Coord -> Cells<real>, zeta: Cells<real>, xi: Cells<real>, eta: Cells<real>, s: Spacing, flex: int -> real,
      lo: int, hi: int)
    requires Valid(g) && DoublyPeriodic(g) && s.dz != 0.0 && lo <= hi
    requires forall k :: lo <= k < hi ==> flex(k) != 0.0 && BlocksBalanced(g, zetas, xis, etas, s, flex(k), k)
    requires forall k :: lo <= k < hi ==> Exchanged(g, xis, xi, k) && Exchanged(g, etas, eta, k)
    requires forall k :: lo <= k <= hi ==> Assembles(g, zetas, zeta, k)
    ensures Total(Level(zeta, hi), Points(g, Y), Points(g, X)) == Total(Level(zeta, lo), Points(g, Y), Points(g, X))
    decreases hi - lo
  {
    if lo < hi {
      var k := hi - 1;
      forall j, i | 0 <= j < Points(g, Y) && 0 <= i < Points(g, X)
        ensures TorusDivergence(zeta, xi, eta, s, flex(k), k, Points(g, Y), Points(g, X), j, i) == 0.0
      {
        GloballyBalanced(g, zetas, xis, etas, zeta, xi, eta, s, flex(k), k, j, i);
      }
      SumsConserved(zeta, xi, eta, s, flex(k), k, Points(g, Y), Points(g, X));
      GlobalSumsConserved(g, zetas, xis, etas, zeta, xi, eta, s, flex, lo, k);
    }
  }

  // ----- From the integration to the whole domain -----

  lemma DeeperReach(g: Layout, d: nat, c: Coord, j: int, i: int)
    requires d >= 1 && Reached(g, 1, c, j, i)
    ensures Reached(g, d, c, j, i)
  {
  }

  /** Fields exchanged to any depth of at least one are exchanged as the integration needs them. */
  lemma ExchangeGivesNeighbours(g: Layout, first: Axis, job: Job, global: Cells<real>, init: Coord -> Cells<real>,
      k: int)
    requires Valid(g) && 1 <= job.depth <= g.h && !job.inner && InLayers(job, k) && Scattered(g, global, init, job)
    ensures Exchanged(g, Result(g, Program(g, first, job), init), global, k)
  {
    var blocks := Result(g, Program(g, first, job), init);
    forall c, j, i | InGrid(g, c) && Reached(g, 1, c, j, i)
      ensures blocks(c).at(k, j, i) == Wrapped(g, global, c, k, j, i)
    {
      DeeperReach(g, job.depth, c, j, i);
      ExchangeFillsHalos(g, first, job, global, init, c, k, j, i);
    }
  }

  /** A rank's fields in memory after the integration: what they hold, and what `ComputeZeta` ensures. */
  ghost predicate IntegratedRank(g: Layout, c: Coord, zeta: array3<real>, xi: array3<real>, eta: array3<real>,
      flex: array<real>, s: Spacing, nz: nat, z: Cells<real>, x: Cells<real>, e: Cells<real>)
    requires s.dz != 0.0
    reads zeta, xi, eta, flex
  {
    && Fits(zeta, xi, eta, flex, nz, g.h) && zeta.Length1 == Extent(g, Y, c) && zeta.Length2 == Extent(g, X, c)
    && Represents(zeta, z) && Represents(xi, x) && Represents(eta, e)
    && forall j, i :: g.h <= j < zeta.Length1 - g.h && g.h <= i < zeta.Length2 - g.h ==>
         Balanced(zeta, xi, eta, flex, s, nz, g.h, j, i)
  }

  lemma RankBalanced(g: Layout, c: Coord, zeta: array3<real>, xi: array3<real>, eta: array3<real>, flex: array<real>,
      s: Spacing, nz: nat, z: Cells<real>, x: Cells<real>, e: Cells<real>, k: int, j: int, i: int)
    requires s.dz != 0.0 && IntegratedRank(g, c, zeta, xi, eta, flex, s, nz, z, x, e) && g.h - 1 <= k < nz - g.h
    requires g.h <= j < zeta.Length1 - g.h && g.h <= i < zeta.Length2 - g.h
    ensures BlockDivergence(z, x, e, s, flex[k], k, j, i) == 0.0
  {
    assert Balanced(zeta, xi, eta, flex, s, nz, g.h, j, i);
    assert DivergenceAt(zeta, xi, eta, flex, s, k, j, i) == 0.0;
  }

  /** When all ranks of a doubly periodic domain have exchanged xi and eta and integrated, the horizontal
      sum of zeta over the whole domain is the same at every level from the lowest to the top one. */
  lemma IntegrationConservesSums(g: Layout, zetas: Coord -> array3<real>, xis: Coord -> array3<real>,
      etas: Coord -> array3<real>, flex: array<real>, s: Spacing, nz: nat, first: Axis, job: Job,
      initXi: Coord -> Cells<real>, initEta: Coord -> Cells<real>, blocks: Coord -> Cells<real>, zeta: Cells<real>,
      xi: Cells<real>, eta: Cells<real>, lo: int, hi: int)
    requires Valid(g) && DoublyPeriodic(g) && s.dz != 0.0 && 1 <= job.depth <= g.h && !job.inner && flex.Length == nz
    requires Scattered(g, xi, initXi, job) && Scattered(g, eta, initEta, job)
    requires forall k :: g.h - 1 <= k < nz - g.h ==> InLayers(job, k) && flex[k] != 0.0
    requires forall c :: InGrid(g, c) ==>
               IntegratedRank(g, c, zetas(c), xis(c), etas(c), flex, s, nz, blocks(c),
                              Result(g, Program(g, first, job), initXi)(c),
                              Result(g, Program(g, first, job), initEta)(c))
    requires g.h - 1 <= lo <= hi <= nz - g.h && forall k :: lo <= k <= hi ==> Assembles(g, blocks, zeta, k)
    ensures Total(Level(zeta, hi), Points(g, Y), Points(g, X)) == Total(Level(zeta, lo), Points(g, Y), Points(g, X))
  {
    var x, e := Result(g, Program(g, first, job), initXi), Result(g, Program(g, first, job), initEta);
    var coefficients: seq<real> := flex[..];
    var f := (k: int) => if 0 <= k < |coefficients| then coefficients[k] else 0.0;
    forall k | lo <= k < hi ensures f(k) != 0.0 && BlocksBalanced(g, blocks, x, e, s, f(k), k) {
      forall c, j, i | InGrid(g, c) && g.h <= j < g.h + SizeAt(g, Y, c) && g.h <= i < g.h + SizeAt(g, X, c)
        ensures BlockDivergence(blocks(c), x(c), e(c), s, f(k), k, j, i) == 0.0
      {
        RankBalanced(g, c, zetas(c), xis(c), etas(c), flex, s, nz, blocks(c), x(c), e(c), k, j, i);
      }
    }
    forall k | lo <= k < hi ensures Exchanged(g, x, xi, k) && Exchanged(g, e, eta, k) {
      ExchangeGivesNeighbours(g, first, job, xi, initXi, k);
      ExchangeGivesNeighbours(g, first, job, eta, initEta, k);
    }
    GlobalSumsConserved(g, blocks, x, e, zeta, xi, eta, s, f, lo, hi);
  }
}
