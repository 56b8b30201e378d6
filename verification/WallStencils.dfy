/** The free-slip wall fill of a contravariant wind on a skew chart: the physical normal flux is reflected
    oddly and vanishes on the wall face, the covariant tangential wind is reflected evenly. */
module WallStencils {
  import opened HaloFaces
  import opened HaloKernels

  /** Metric coefficients by row and column: g11 at the first component, and g12, g11 and the inverse
      Jacobian at the second. */
  datatype Metric = Metric(g11: (int, int) -> real, g12: (int, int) -> real, normalG11: (int, int) -> real,
      normalInvJ: (int, int) -> real)

  /** Extents of a rank's block and the square root used. */
  datatype Chart = Chart(h: nat, ny: nat, nx: nat, metric: Metric, root: real -> real)

  datatype Wall = South | North

  datatype Wind = Wind(q1: Cells<real>, q2: Cells<real>)

  /** A positive square root of every positive number. */
  ghost predicate IsRoot(root: real -> real) { forall x :: x > 0.0 ==> root(x) > 0.0 && root(x) * root(x) == x }

  predicate Inside(c: Chart, j: int, i: int) { 0 <= j < c.ny && 0 <= i < c.nx }

  /** Positive-definite geometry, and blocks of at least h physical rows. */
  ghost predicate Regular(c: Chart) {
    && IsRoot(c.root) && c.h >= 1 && c.ny >= 3 * c.h
    && forall j, i :: Inside(c, j, i) ==>
         c.metric.g11(j, i) > 0.0 && c.metric.normalG11(j, i) > 0.0 && c.metric.normalInvJ(j, i) > 0.0
  }

  function Rows(c: Chart): int { c.ny - 2 * c.h }

  /** The row of the wall face of the second component. */
  function WallRow(c: Chart, side: Wall): int { if side == South then c.h - 1 else c.ny - c.h - 1 }

  /** Rows the fill writes: of the second component with the wall row, of the first without. */
  predicate NormalExterior(c: Chart, side: Wall, j: int) {
    if side == South then 0 <= j <= WallRow(c, side) else WallRow(c, side) <= j < c.ny
  }

  predicate TangentialExterior(c: Chart, side: Wall, j: int) {
    if side == South then 0 <= j <= WallRow(c, side) else WallRow(c, side) < j < c.ny
  }

  /** Their mirror rows about the wall. */
  function NormalMirror(c: Chart, side: Wall, j: int): int { 2 * WallRow(c, side) - j }

  function TangentialMirror(c: Chart, side: Wall, j: int): int { 2 * WallRow(c, side) + 1 - j }

  /** The four-face average of the weighted second component at a face of the first, clamped at the
      edge of the block. */
  function Cross(c: Chart, q2: Cells<real>, k: int, j: int, i: int): real {
    var j2, i2 := if j > 0 then j - 1 else j, if i + 1 < c.nx then i + 1 else i;
    var g := c.metric.g12;
    0.25 * (g(j, i) * q2.at(k, j, i) + g(j2, i) * q2.at(k, j2, i) + g(j, i2) * q2.at(k, j, i2) +
      g(j2, i2) * q2.at(k, j2, i2))
  }

  function Divide(a: real, b: real): real { if b == 0.0 then 0.0 else a / b }

  /** The value a reflected normal component takes. */
  function NormalImage(c: Chart, q: real, from: int, to: int, i: int): real {
    var m := c.metric;
    Divide(-q * c.root(Divide(m.normalG11(to, i), m.normalG11(from, i))) * m.normalInvJ(to, i), m.normalInvJ(from, i))
  }

  /** The covariant tangential wind at a face of the first component. */
  function Covariant(c: Chart, w: Wind, k: int, j: int, i: int): real {
    c.metric.g11(j, i) * w.q1.at(k, j, i) + Cross(c, w.q2, k, j, i)
  }

  function TangentialScale(c: Chart, scalarFlux: bool, from: int, to: int, i: int): real {
    if scalarFlux then c.root(Divide(c.metric.g11(to, i), c.metric.g11(from, i))) else 1.0
  }

  function NormalAt(c: Chart, side: Wall, q2: Cells<real>, k: int, j: int, i: int): real {
    if !(NormalExterior(c, side, j) && 0 <= i < c.nx) then q2.at(k, j, i)
    else if j == WallRow(c, side) then 0.0
    else NormalImage(c, q2.at(k, NormalMirror(c, side, j), i), NormalMirror(c, side, j), j, i)
  }

  function NormalFilled(c: Chart, side: Wall, q2: Cells<real>): Cells<real> {
    Cells((k: int, j: int, i: int) => NormalAt(c, side, q2, k, j, i))
  }

  /** The value the tangential component must be given for a covariant wind `target`. */
  function Solved(c: Chart, q2: Cells<real>, target: real, k: int, j: int, i: int): real {
    Divide(target - Cross(c, q2, k, j, i), c.metric.g11(j, i))
  }

  /** The value a mirrored tangential component takes. */
  function Mirrored(c: Chart, side: Wall, scalarFlux: bool, w: Wind, k: int, j: int, i: int): real {
    var interior := TangentialMirror(c, side, j);
    Solved(c, w.q2, Covariant(c, w, k, interior, i) * TangentialScale(c, scalarFlux, interior, j, i), k, j, i)
  }

  /** `w.q2` is the second component after its own reflection at this wall. */
  function TangentialAt(c: Chart, side: Wall, scalarFlux: bool, w: Wind, k: int, j: int, i: int): real {
    if TangentialExterior(c, side, j) && 0 <= i < c.nx then Mirrored(c, side, scalarFlux, w, k, j, i)
      else w.q1.at(k, j, i)
  }

  function TangentialFilled(c: Chart, side: Wall, scalarFlux: bool, w: Wind): Cells<real> {
    Cells((k: int, j: int, i: int) => TangentialAt(c, side, scalarFlux, w, k, j, i))
  }

  function SideFilled(c: Chart, side: Wall, scalarFlux: bool, w: Wind): Wind {
    var q2 := NormalFilled(c, side, w.q2);
    Wind(TangentialFilled(c, side, scalarFlux, Wind(w.q1, q2)), q2)
  }

  /** The fill of the walls a rank owns, south first. */
  function Filled(c: Chart, south: bool, north: bool, scalarFlux: bool, w: Wind): Wind {
    var w' := if south then SideFilled(c, South, scalarFlux, w) else w;
    if north then SideFilled(c, North, scalarFlux, w') else w'
  }

  // ----- The kernels in place -----

  predicate FitsChart(c: Chart, data: array3<real>) { data.Length1 == c.ny && data.Length2 == c.nx }

  function NormalHere(c: Chart, side: Wall, q2: array3<real>, k: int, j: int, i: int): real
    requires c.h >= 1 && c.ny >= 3 * c.h && FitsChart(c, q2) && 0 <= k < q2.Length0 && NormalExterior(c, side, j)
      && 0 <= i < c.nx
    reads q2
  {
    if j == WallRow(c, side) then 0.0
      else NormalImage(c, q2[k, NormalMirror(c, side, j), i], NormalMirror(c, side, j), j, i)
  }

  method ReflectNormal(c: Chart, side: Wall, q2: array3<real>, ghost f: Cells<real>)
    requires FitsChart(c, q2) && c.h >= 1 && c.ny >= 3 * c.h && Represents(q2, f)
    modifies q2
    ensures Represents(q2, NormalFilled(c, side, f))
  {
    var wall := WallRow(c, side);
    var first, last := if side == South then 0 else wall, if side == South then wall else c.ny - 1;
    forall k, j, i | 0 <= k < q2.Length0 && first <= j <= last && 0 <= i < c.nx
      ensures NormalHere(c, side, q2, k, j, i) == NormalAt(c, side, f, k, j, i)
    {
    }
    forall k, j, i | 0 <= k < q2.Length0 && first <= j <= last && 0 <= i < c.nx {
      q2[k, j, i] := NormalHere(c, side, q2, k, j, i);
    }
  }

  /** The four-face average read from memory. */
  function CrossHere(c: Chart, q2: array3<real>, k: int, j: int, i: int): real
    requires FitsChart(c, q2) && 0 <= k < q2.Length0 && Inside(c, j, i)
    reads q2
  {
    var j2, i2 := if j > 0 then j - 1 else j, if i + 1 < c.nx then i + 1 else i;
    var g := c.metric.g12;
    0.25 * (g(j, i) * q2[k, j, i] + g(j2, i) * q2[k, j2, i] + g(j, i2) * q2[k, j, i2] + g(j2, i2) * q2[k, j2, i2])
  }

  function TangentialHere(c: Chart, scalarFlux: bool, q1: array3<real>, q2: array3<real>, k: int, interior: int,
      exterior: int, i: int): real
    requires FitsChart(c, q1) && FitsChart(c, q2) && 0 <= k < q1.Length0 == q2.Length0 && Inside(c, interior, i)
      && Inside(c, exterior, i)
    reads q1, q2
  {
    var covariant := c.metric.g11(interior, i) * q1[k, interior, i] + CrossHere(c, q2, k, interior, i);
    Divide(covariant * TangentialScale(c, scalarFlux, interior, exterior, i) - CrossHere(c, q2, k, exterior, i),
      c.metric.g11(exterior, i))
  }

  lemma CrossHereIsCross(c: Chart, q2: array3<real>, f: Cells<real>, k: int, j: int, i: int)
    requires FitsChart(c, q2) && 0 <= k < q2.Length0 && Inside(c, j, i) && Represents(q2, f)
    ensures CrossHere(c, q2, k, j, i) == Cross(c, f, k, j, i)
  {
  }

  lemma MirroredFrom(c: Chart, side: Wall, scalarFlux: bool, w: Wind, x: real, y: real, z: real, k: int, j: int, i: int)
    requires var interior := TangentialMirror(c, side, j);
             x == w.q1.at(k, interior, i) && y == Cross(c, w.q2, k, interior, i) && z == Cross(c, w.q2, k, j, i)
    ensures var interior := TangentialMirror(c, side, j);
            Mirrored(c, side, scalarFlux, w, k, j, i) ==
            Divide((c.metric.g11(interior, i) * x + y) * TangentialScale(c, scalarFlux, interior, j, i) - z,
              c.metric.g11(j, i))
  {
  }

  lemma HereIsAt(c: Chart, side: Wall, scalarFlux: bool, q1: array3<real>, q2: array3<real>, w: Wind, k: int, j: int,
      i: int)
    requires FitsChart(c, q1) && FitsChart(c, q2) && 0 <= k < q1.Length0 == q2.Length0 && Represents(q1, w.q1)
      && Represents(q2, w.q2)
    requires TangentialExterior(c, side, j) && Inside(c, TangentialMirror(c, side, j), i) && Inside(c, j, i)
    ensures TangentialHere(c, scalarFlux, q1, q2, k, TangentialMirror(c, side, j), j, i) ==
      TangentialAt(c, side, scalarFlux, w, k, j, i)
  {
    CrossHereIsCross(c, q2, w.q2, k, j, i);
    CrossHereIsCross(c, q2, w.q2, k, TangentialMirror(c, side, j), i);
    MirroredFrom(c, side, scalarFlux, w, q1[k, TangentialMirror(c, side, j), i],
      CrossHere(c, q2, k, TangentialMirror(c, side, j), i), CrossHere(c, q2, k, j, i), k, j, i);
  }

  method ReflectTangential(c: Chart, side: Wall, scalarFlux: bool, q1: array3<real>, q2: array3<real>, ghost w: Wind)
    requires FitsChart(c, q1) && FitsChart(c, q2) && q1 != q2 && q1.Length0 == q2.Length0 && c.h >= 1 && c.ny >= 3 * c.h
    requires Represents(q1, w.q1) && Represents(q2, w.q2)
    modifies q1
    ensures Represents(q1, TangentialFilled(c, side, scalarFlux, w))
  {
    var wall := WallRow(c, side);
    var first, last := if side == South then 0 else wall + 1, if side == South then wall else c.ny - 1;
    forall k, j, i | 0 <= k < q1.Length0 && first <= j <= last && 0 <= i < c.nx
      ensures TangentialHere(c, scalarFlux, q1, q2, k, 2 * wall + 1 - j, j, i) ==
        TangentialAt(c, side, scalarFlux, w, k, j, i)
    {
      HereIsAt(c, side, scalarFlux, q1, q2, w, k, j, i);
    }
    forall k, j, i | 0 <= k < q1.Length0 && first <= j <= last && 0 <= i < c.nx {
      q1[k, j, i] := TangentialHere(c, scalarFlux, q1, q2, k, 2 * wall + 1 - j, j, i);
    }
  }

  /** The fill of both walls in place: nothing without halos or on an axis of one global point; otherwise
      mismatched extents are an error. */
  method FillContravariantWindHalos(c: Chart, singleton: bool, south: bool, north: bool, scalarFlux: bool,
      q1: array3<real>, q2: array3<real>, ghost w: Wind)
    returns (ok: bool)
    requires q1 != q2 && (c.h == 0 || singleton || c.ny >= 3 * c.h) && Represents(q1, w.q1) && Represents(q2, w.q2)
      && FitsChart(c, q1)
    modifies q1, q2
    ensures ok <==>
      c.h == 0 || singleton || (q1.Length0 == q2.Length0 && q1.Length1 == q2.Length1 && q1.Length2 == q2.Length2)
    ensures ok && c.h > 0 && !singleton ==>
              Represents(q1, Filled(c, south, north, scalarFlux, w).q1)
                && Represents(q2, Filled(c, south, north, scalarFlux, w).q2)
    ensures !ok || c.h == 0 || singleton ==> Represents(q1, w.q1) && Represents(q2, w.q2)
  {
    if c.h == 0 || singleton { return true; }
    if q1.Length0 != q2.Length0 || q1.Length1 != q2.Length1 || q1.Length2 != q2.Length2 { return false; }
    ghost var f := w;
    if south {
      FillSide(c, South, scalarFlux, q1, q2, f);
      f := SideFilled(c, South, scalarFlux, f);
    }
    if north {
      FillSide(c, North, scalarFlux, q1, q2, f);
      f := SideFilled(c, North, scalarFlux, f);
    }
    return true;
  }

  method FillSide(c: Chart, side: Wall, scalarFlux: bool, q1: array3<real>, q2: array3<real>, ghost w: Wind)
    requires FitsChart(c, q1) && FitsChart(c, q2) && q1 != q2 && q1.Length0 == q2.Length0 && c.h >= 1 && c.ny >= 3 * c.h
    requires Represents(q1, w.q1) && Represents(q2, w.q2)
    modifies q1, q2
    ensures Represents(q1, SideFilled(c, side, scalarFlux, w).q1)
      && Represents(q2, SideFilled(c, side, scalarFlux, w).q2)
  {
    ReflectNormal(c, side, q2, w.q2);
    ReflectTangential(c, side, scalarFlux, q1, q2, Wind(w.q1, NormalFilled(c, side, w.q2)));
  }

  // ----- What one wall's fill achieves -----

  lemma PositiveRootsUnique(x: real, y: real)
    requires x > 0.0 && y > 0.0 && x * x == y * y
    ensures x == y
  {
    assert (x - y) * (x + y) == 0.0;
  }

  lemma ProductOfPositives(x: real, y: real)
    requires x > 0.0 && y > 0.0
    ensures x * y > 0.0
  {
  }

  lemma QuotientIs(a: real, b: real)
    requires b != 0.0
    ensures Divide(a, b) * b == a
  {
  }

  lemma RootQuotient(root: real -> real, a: real, b: real)
    requires IsRoot(root) && a > 0.0 && b > 0.0
    ensures root(Divide(a, b)) > 0.0 && root(Divide(a, b)) * root(b) == root(a)
  {
    var q := Divide(a, b);
    QuotientIs(a, b);
    var r, s, t := root(q), root(b), root(a);
    ProductOfPositives(r, s);
    assert (r * s) * (r * s) == (r * r) * (s * s) == q * b;
    PositiveRootsUnique(r * s, t);
  }

  /** The physical normal flux: the component over the inverse Jacobian and the length of the face. */
  function Flux(c: Chart, q2: Cells<real>, k: int, j: int, i: int): real {
    Divide(q2.at(k, j, i), c.metric.normalInvJ(j, i) * c.root(c.metric.normalG11(j, i)))
  }

  lemma OppositeQuotients(x: real, y: real, q: real, image: real, r: real, rt: real, rf: real, jFrom: real, jTo: real)
    requires rt > 0.0 && jFrom > 0.0 && jTo > 0.0 && r * rf == rt
    requires image * jFrom == -q * r * jTo && x * (jTo * rt) == image && y * (jFrom * rf) == q
    ensures x == -y
  {
    ProductOfPositives(jTo, rt);
    ProductOfPositives(jTo * rt, jFrom);
    assert x * (jTo * rt * jFrom) == image * jFrom;
    assert q * r * jTo == y * (jFrom * (r * rf) * jTo) == y * (jTo * rt * jFrom);
    assert (x + y) * (jTo * rt * jFrom) == 0.0;
  }

  lemma QuotientsOppose(q: real, r: real, rt: real, rf: real, jFrom: real, jTo: real)
    requires rt > 0.0 && rf > 0.0 && jFrom > 0.0 && jTo > 0.0 && r * rf == rt
    ensures Divide(Divide(-q * r * jTo, jFrom), jTo * rt) == -Divide(q, jFrom * rf)
  {
    ProductOfPositives(jTo, rt);
    ProductOfPositives(jFrom, rf);
    var image := Divide(-q * r * jTo, jFrom);
    QuotientIs(-q * r * jTo, jFrom);
    QuotientIs(image, jTo * rt);
    QuotientIs(q, jFrom * rf);
    OppositeQuotients(Divide(image, jTo * rt), Divide(q, jFrom * rf), q, image, r, rt, rf, jFrom, jTo);
  }

  lemma ImageHasOppositeFlux(root: real -> real, q: real, from: real, to: real, jFrom: real, jTo: real)
    requires IsRoot(root) && from > 0.0 && to > 0.0 && jFrom > 0.0 && jTo > 0.0
    ensures Divide(Divide(-q * root(Divide(to, from)) * jTo, jFrom), jTo * root(to)) == -Divide(q, jFrom * root(from))
  {
    RootQuotient(root, to, from);
    QuotientsOppose(q, root(Divide(to, from)), root(to), root(from), jFrom, jTo);
  }

  lemma ImageFlux(c: Chart, f: Cells<real>, from: int, k: int, j: int, i: int)
    requires IsRoot(c.root) && c.metric.normalG11(from, i) > 0.0 && c.metric.normalG11(j, i) > 0.0
    requires c.metric.normalInvJ(from, i) > 0.0 && c.metric.normalInvJ(j, i) > 0.0
      && f.at(k, j, i) == NormalImage(c, f.at(k, from, i), from, j, i)
    ensures Flux(c, f, k, j, i) == -Flux(c, f, k, from, i)
  {
    var m := c.metric;
    ImageHasOppositeFlux(c.root, f.at(k, from, i), m.normalG11(from, i), m.normalG11(j, i), m.normalInvJ(from, i),
      m.normalInvJ(j, i));
  }

  lemma WallFlux(c: Chart, f: Cells<real>, k: int, j: int, i: int)
    requires f.at(k, j, i) == 0.0
    ensures Flux(c, f, k, j, i) == -Flux(c, f, k, j, i)
  {
  }

  lemma NormalFilledAt(c: Chart, side: Wall, q2: Cells<real>, k: int, j: int, i: int)
    requires c.h >= 1 && c.ny >= 3 * c.h && NormalExterior(c, side, j) && 0 <= i < c.nx
    ensures var (f, from) := (NormalFilled(c, side, q2), NormalMirror(c, side, j));
            && f.at(k, WallRow(c, side), i) == 0.0
            && (j != WallRow(c, side) ==>
              Inside(c, from, i) && Inside(c, j, i) && f.at(k, j, i) == NormalImage(c, f.at(k, from, i), from, j, i))
  {
  }

  /** The normal flux is odd about the wall and zero on it. */
  lemma NormalFluxOdd(c: Chart, side: Wall, q2: Cells<real>, k: int, j: int, i: int)
    requires Regular(c) && NormalExterior(c, side, j) && 0 <= i < c.nx
    ensures var f := NormalFilled(c, side, q2);
            Flux(c, f, k, j, i) == -Flux(c, f, k, NormalMirror(c, side, j), i) && f.at(k, WallRow(c, side), i) == 0.0
  {
    NormalFilledAt(c, side, q2, k, j, i);
    if j == WallRow(c, side) {
      WallFlux(c, NormalFilled(c, side, q2), k, j, i);
    } else {
      ImageFlux(c, NormalFilled(c, side, q2), NormalMirror(c, side, j), k, j, i);
    }
  }

  /** The covariant tangential wind of an exterior face is that of its mirror face, times the scale of
      scalar transport if asked for. */
  ghost predicate EvenAt(c: Chart, side: Wall, scalarFlux: bool, f: Wind, k: int, j: int, i: int) {
    var interior := TangentialMirror(c, side, j);
    Covariant(c, f, k, j, i) == Covariant(c, f, k, interior, i) * TangentialScale(c, scalarFlux, interior, j, i)
  }

  lemma CovariantOf(g: real, q: real, x: real, target: real)
    requires g > 0.0 && q == Divide(target - x, g)
    ensures g * q + x == target
  {
    QuotientIs(target - x, g);
  }

  lemma SolvedMeetsTarget(c: Chart, w: Wind, target: real, k: int, j: int, i: int)
    requires c.metric.g11(j, i) > 0.0 && w.q1.at(k, j, i) == Solved(c, w.q2, target, k, j, i)
    ensures Covariant(c, w, k, j, i) == target
  {
    CovariantOf(c.metric.g11(j, i), w.q1.at(k, j, i), Cross(c, w.q2, k, j, i), target);
  }

  lemma MirrorIsInterior(c: Chart, side: Wall, j: int)
    requires c.h >= 1 && c.ny >= 3 * c.h && TangentialExterior(c, side, j)
    ensures !TangentialExterior(c, side, TangentialMirror(c, side, j)) && 0 <= TangentialMirror(c, side, j) < c.ny
      && 0 <= j < c.ny
  {
  }

  lemma CovariantReads(c: Chart, v: Wind, w: Wind, k: int, j: int, i: int)
    requires v.q1.at(k, j, i) == w.q1.at(k, j, i) && v.q2 == w.q2
    ensures Covariant(c, v, k, j, i) == Covariant(c, w, k, j, i)
  {
  }

  lemma FilledIsMirrored(c: Chart, side: Wall, scalarFlux: bool, w: Wind, k: int, j: int, i: int)
    requires TangentialExterior(c, side, j) && 0 <= i < c.nx
    ensures SideFilled(c, side, scalarFlux, w).q1.at(k, j, i) ==
      Mirrored(c, side, scalarFlux, Wind(w.q1, NormalFilled(c, side, w.q2)), k, j, i)
  {
  }

  lemma InteriorKept(c: Chart, side: Wall, scalarFlux: bool, w: Wind, k: int, j: int, i: int)
    requires !TangentialExterior(c, side, j)
    ensures SideFilled(c, side, scalarFlux, w).q1.at(k, j, i) == w.q1.at(k, j, i)
  {
  }

  lemma EvenFrom(c: Chart, side: Wall, scalarFlux: bool, f: Wind, v: Wind, k: int, j: int, i: int)
    requires c.metric.g11(j, i) > 0.0 && f.q2 == v.q2 && f.q1.at(k, j, i) == Mirrored(c, side, scalarFlux, v, k, j, i)
    requires f.q1.at(k, TangentialMirror(c, side, j), i) == v.q1.at(k, TangentialMirror(c, side, j), i)
    ensures EvenAt(c, side, scalarFlux, f, k, j, i)
  {
    var interior := TangentialMirror(c, side, j);
    CovariantReads(c, f, v, k, interior, i);
    SolvedMeetsTarget(c, f, Covariant(c, v, k, interior, i) * TangentialScale(c, scalarFlux, interior, j, i), k, j, i);
  }

  /** The fill of a wall makes the covariant tangential wind even about it. */
  lemma TangentialEven(c: Chart, side: Wall, scalarFlux: bool, w: Wind, k: int, j: int, i: int)
    requires c.h >= 1 && c.ny >= 3 * c.h && c.metric.g11(j, i) > 0.0 && TangentialExterior(c, side, j) && 0 <= i < c.nx
    ensures EvenAt(c, side, scalarFlux, SideFilled(c, side, scalarFlux, w), k, j, i)
  {
    var f, v := SideFilled(c, side, scalarFlux, w), Wind(w.q1, NormalFilled(c, side, w.q2));
    MirrorIsInterior(c, side, j);
    InteriorKept(c, side, scalarFlux, w, k, TangentialMirror(c, side, j), i);
    FilledIsMirrored(c, side, scalarFlux, w, k, j, i);
    EvenFrom(c, side, scalarFlux, f, v, k, j, i);
  }

  lemma MetricPositive(c: Chart, j: int, i: int)
    requires Regular(c) && Inside(c, j, i)
    ensures c.metric.g11(j, i) > 0.0
  {
  }

  /** With the scale the physical tangential flux is even instead. */
  lemma PhysicalTangentialEven(c: Chart, from: int, to: int, i: int, covariant: real)
    requires Regular(c) && Inside(c, from, i) && Inside(c, to, i)
    ensures Divide(covariant * TangentialScale(c, true, from, to, i), c.root(c.metric.g11(to, i))) ==
      Divide(covariant, c.root(c.metric.g11(from, i)))
  {
    var a, b := c.metric.g11(to, i), c.metric.g11(from, i);
    RootQuotient(c.root, a, b);
    var r, ra, rb := c.root(Divide(a, b)), c.root(a), c.root(b);
    var x, y := Divide(covariant * r, ra), Divide(covariant, rb);
    QuotientIs(covariant * r, ra);
    QuotientIs(covariant, rb);
    assert y * ra == y * rb * r == covariant * r;
    assert (x - y) * ra == 0.0;
  }

  // ----- Both walls -----

  /** A rank that owns both walls has more physical rows than halo rows. */
  predicate WideEnough(c: Chart, south: bool, north: bool) { south && north ==> Rows(c) > c.h }

  predicate Owns(side: Wall, south: bool, north: bool) { if side == South then south else north }

  function AfterSouth(c: Chart, south: bool, scalarFlux: bool, w: Wind): Wind {
    if south then SideFilled(c, South, scalarFlux, w) else w
  }

  /** The north fill leaves the rows below its wall, and the first component of its wall row. */
  lemma NorthKeeps(c: Chart, south: bool, north: bool, scalarFlux: bool, w: Wind, k: int, j: int, i: int)
    ensures var (f, s) := (Filled(c, south, north, scalarFlux, w), AfterSouth(c, south, scalarFlux, w));
            && (j < WallRow(c, North) || !north ==> f.q2.at(k, j, i) == s.q2.at(k, j, i))
            && (j <= WallRow(c, North) || !north ==> f.q1.at(k, j, i) == s.q1.at(k, j, i))
  {
  }

  lemma SouthKeeps(c: Chart, south: bool, scalarFlux: bool, w: Wind, k: int, j: int, i: int)
    requires j >= c.h
    ensures AfterSouth(c, south, scalarFlux, w).q2.at(k, j, i) == w.q2.at(k, j, i)
      && AfterSouth(c, south, scalarFlux, w).q1.at(k, j, i) == w.q1.at(k, j, i)
  {
  }

  /** The faces the clamped four-face average at (j, i) reads. */
  predicate CrossTouches(c: Chart, j: int, i: int, r: int, l: int) {
    (r == j || (r == j - 1 && j > 0)) && (l == i || (l == i + 1 && l < c.nx))
  }

  lemma CrossReads(c: Chart, p: Cells<real>, q: Cells<real>, k: int, j: int, i: int)
    requires forall r, l :: CrossTouches(c, j, i, r, l) ==> p.at(k, r, l) == q.at(k, r, l)
    ensures Cross(c, p, k, j, i) == Cross(c, q, k, j, i)
  {
  }

  lemma SameCovariant(c: Chart, v: Wind, w: Wind, k: int, j: int, i: int)
    requires v.q1.at(k, j, i) == w.q1.at(k, j, i)
    requires forall r, l :: CrossTouches(c, j, i, r, l) ==> v.q2.at(k, r, l) == w.q2.at(k, r, l)
    ensures Covariant(c, v, k, j, i) == Covariant(c, w, k, j, i)
  {
    CrossReads(c, v.q2, w.q2, k, j, i);
  }

  /** After the fill of the walls a rank owns, the normal flux is odd about each of them and zero on it. */
  lemma FilledFluxOdd(c: Chart, south: bool, north: bool, scalarFlux: bool, w: Wind, side: Wall, k: int, j: int, i: int)
    requires Regular(c) && Owns(side, south, north) && NormalExterior(c, side, j) && 0 <= i < c.nx
    ensures var f := Filled(c, south, north, scalarFlux, w);
            Flux(c, f.q2, k, j, i) == -Flux(c, f.q2, k, NormalMirror(c, side, j), i)
              && f.q2.at(k, WallRow(c, side), i) == 0.0
  {
    if side == South {
      NormalFluxOdd(c, South, w.q2, k, j, i);
      NorthKeeps(c, south, north, scalarFlux, w, k, j, i);
      NorthKeeps(c, south, north, scalarFlux, w, k, NormalMirror(c, South, j), i);
      NorthKeeps(c, south, north, scalarFlux, w, k, WallRow(c, South), i);
    } else {
      NormalFluxOdd(c, North, AfterSouth(c, south, scalarFlux, w).q2, k, j, i);
    }
  }

  lemma EvenTransfers(c: Chart, side: Wall, scalarFlux: bool, f: Wind, s: Wind, k: int, j: int, i: int)
    requires Covariant(c, f, k, j, i) == Covariant(c, s, k, j, i)
    requires Covariant(c, f, k, TangentialMirror(c, side, j), i) == Covariant(c, s, k, TangentialMirror(c, side, j), i)
    ensures EvenAt(c, side, scalarFlux, f, k, j, i) <==> EvenAt(c, side, scalarFlux, s, k, j, i)
  {
  }

  /** The row whose reflection reads the opposite wall row: the outermost south row of a rank with exactly
      h rows between both walls. */
  predicate ReadsOtherWall(c: Chart, side: Wall, south: bool, north: bool, j: int) {
    side == South && south && north && Rows(c) == c.h && j == 0
  }

  lemma SouthRowsInReach(c: Chart, north: bool, j: int)
    requires c.h >= 1 && c.ny >= 3 * c.h && TangentialExterior(c, South, j)
    requires !ReadsOtherWall(c, South, true, north, j)
    ensures north ==> j < WallRow(c, North) && TangentialMirror(c, South, j) < WallRow(c, North)
  {
  }

  lemma NorthEven(c: Chart, south: bool, scalarFlux: bool, w: Wind, k: int, j: int, i: int)
    requires c.h >= 1 && c.ny >= 3 * c.h && c.metric.g11(j, i) > 0.0 && TangentialExterior(c, North, j) && 0 <= i < c.nx
    ensures EvenAt(c, North, scalarFlux, Filled(c, south, true, scalarFlux, w), k, j, i)
  {
    TangentialEven(c, North, scalarFlux, AfterSouth(c, south, scalarFlux, w), k, j, i);
  }

  lemma SouthEven(c: Chart, north: bool, scalarFlux: bool, w: Wind, k: int, j: int, i: int)
    requires c.h >= 1 && c.ny >= 3 * c.h && c.metric.g11(j, i) > 0.0 && TangentialExterior(c, South, j)
      && 0 <= i < c.nx && !ReadsOtherWall(c, South, true, north, j)
    ensures EvenAt(c, South, scalarFlux, Filled(c, true, north, scalarFlux, w), k, j, i)
  {
    TangentialEven(c, South, scalarFlux, w, k, j, i);
    SouthEvenSurvives(c, north, scalarFlux, w, k, j, i);
  }

  lemma SouthEvenSurvives(c: Chart, north: bool, scalarFlux: bool, w: Wind, k: int, j: int, i: int)
    requires c.h >= 1 && c.ny >= 3 * c.h && TangentialExterior(c, South, j) && !ReadsOtherWall(c, South, true, north, j)
    ensures EvenAt(c, South, scalarFlux, Filled(c, true, north, scalarFlux, w), k, j, i) <==>
      EvenAt(c, South, scalarFlux, SideFilled(c, South, scalarFlux, w), k, j, i)
  {
    SouthRowsInReach(c, north, j);
    SouthRowsKept(c, true, north, scalarFlux, w, k, j, i);
    SouthRowsKept(c, true, north, scalarFlux, w, k, TangentialMirror(c, South, j), i);
    EvenTransfers(c, South, scalarFlux, Filled(c, true, north, scalarFlux, w), SideFilled(c, South, scalarFlux, w), k,
      j, i);
  }

  /** The covariant wind at the rows of the south reflection survives the north fill. */
  lemma SouthRowsKept(c: Chart, south: bool, north: bool, scalarFlux: bool, w: Wind, k: int, j: int, i: int)
    requires north ==> j < WallRow(c, North)
    ensures Covariant(c, Filled(c, south, north, scalarFlux, w), k, j, i) ==
      Covariant(c, AfterSouth(c, south, scalarFlux, w), k, j, i)
  {
    var f, s := Filled(c, south, north, scalarFlux, w), AfterSouth(c, south, scalarFlux, w);
    NorthKeeps(c, south, north, scalarFlux, w, k, j, i);
    forall r, l | CrossTouches(c, j, i, r, l) ensures f.q2.at(k, r, l) == s.q2.at(k, r, l) {
      NorthKeeps(c, south, north, scalarFlux, w, k, r, l);
    }
    SameCovariant(c, f, s, k, j, i);
  }

  // ----- A rank with exactly h rows between both walls -----

  /** What the wall row contributes to the cross term on it before the north fill clears that row. */
  function Leak(c: Chart, q2: Cells<real>, k: int, i: int): real {
    var (j, i2) := (WallRow(c, North), if i + 1 < c.nx then i + 1 else i);
    c.metric.g12(j, i) * q2.at(k, j, i) + c.metric.g12(j, i2) * q2.at(k, j, i2)
  }

  lemma CrossWithoutWall(c: Chart, p: Cells<real>, q: Cells<real>, k: int, i: int)
    requires var j := WallRow(c, North);
             && j > 0 && p.at(k, j - 1, i) == q.at(k, j - 1, i) && p.at(k, j - 1, i + 1) == q.at(k, j - 1, i + 1)
             && p.at(k, j, i) == 0.0 && (i + 1 < c.nx ==> p.at(k, j, i + 1) == 0.0)
    ensures Cross(c, p, k, WallRow(c, North), i) == Cross(c, q, k, WallRow(c, North), i) - 0.25 * Leak(c, q, k, i)
  {
  }

  lemma EvenWithLeak(x: real, y: real, leak: real, scale: real)
    requires x == y * scale && scale > 0.0
    ensures x == (y - 0.25 * leak) * scale <==> leak == 0.0
  {
    assert (y - 0.25 * leak) * scale == x - 0.25 * (leak * scale);
    if leak > 0.0 { ProductOfPositives(leak, scale); }
    if leak < 0.0 { ProductOfPositives(-leak, scale); }
  }

  lemma ScalePositive(c: Chart, scalarFlux: bool, from: int, to: int, i: int)
    requires Regular(c) && Inside(c, from, i) && Inside(c, to, i)
    ensures TangentialScale(c, scalarFlux, from, to, i) > 0.0
  {
    if scalarFlux { RootQuotient(c.root, c.metric.g11(to, i), c.metric.g11(from, i)); }
  }

  lemma NorthWallCovariant(c: Chart, scalarFlux: bool, w: Wind, k: int, i: int)
    requires c.h >= 1 && c.ny == 3 * c.h && 0 <= i < c.nx
    ensures var (f, s, j) :=
      (Filled(c, true, true, scalarFlux, w), SideFilled(c, South, scalarFlux, w), WallRow(c, North));
            Covariant(c, f, k, j, i) == Covariant(c, s, k, j, i) - 0.25 * Leak(c, w.q2, k, i)
  {
    var f, s, j := Filled(c, true, true, scalarFlux, w), SideFilled(c, South, scalarFlux, w), WallRow(c, North);
    NorthKeeps(c, true, true, scalarFlux, w, k, j, i);
    NorthKeeps(c, true, true, scalarFlux, w, k, j - 1, i);
    NorthKeeps(c, true, true, scalarFlux, w, k, j - 1, i + 1);
    SouthKeeps(c, true, scalarFlux, w, k, j, i);
    SouthKeeps(c, true, scalarFlux, w, k, j, i + 1);
    CrossWithoutWall(c, f.q2, s.q2, k, i);
    assert Leak(c, s.q2, k, i) == Leak(c, w.q2, k, i);
  }

  /** With exactly h physical rows between two walls of one rank, the outermost south row ends even
      exactly when the wall row contributed nothing to the cross term: the fills read it before they
      clear it.  So h rows, which the grid accepts, are not enough. */
  lemma NarrowRankExactlyLeaks(c: Chart, scalarFlux: bool, w: Wind, k: int, i: int)
    requires Regular(c) && Rows(c) == c.h && 0 <= i < c.nx
    ensures EvenAt(c, South, scalarFlux, Filled(c, true, true, scalarFlux, w), k, 0, i) <==> Leak(c, w.q2, k, i) == 0.0
  {
    assert Inside(c, 0, i) && Inside(c, WallRow(c, North), i);
    MetricPositive(c, 0, i);
    ScalePositive(c, scalarFlux, WallRow(c, North), 0, i);
    NarrowRankLeaks(c, scalarFlux, w, k, i);
  }

  lemma LeakBreaksEvenness(c: Chart, scalarFlux: bool, f: Wind, s: Wind, leak: real, k: int, i: int)
    requires var wall := TangentialMirror(c, South, 0);
             && Covariant(c, f, k, 0, i) == Covariant(c, s, k, 0, i)
               && Covariant(c, f, k, wall, i) == Covariant(c, s, k, wall, i) - 0.25 * leak
             && EvenAt(c, South, scalarFlux, s, k, 0, i) && TangentialScale(c, scalarFlux, wall, 0, i) > 0.0
    ensures EvenAt(c, South, scalarFlux, f, k, 0, i) <==> leak == 0.0
  {
    var wall := TangentialMirror(c, South, 0);
    EvenWithLeak(Covariant(c, s, k, 0, i), Covariant(c, s, k, wall, i), leak,
      TangentialScale(c, scalarFlux, wall, 0, i));
  }

  lemma NarrowRankLeaks(c: Chart, scalarFlux: bool, w: Wind, k: int, i: int)
    requires c.h >= 1 && c.ny == 3 * c.h && 0 <= i < c.nx && c.metric.g11(0, i) > 0.0
      && TangentialScale(c, scalarFlux, WallRow(c, North), 0, i) > 0.0
    ensures EvenAt(c, South, scalarFlux, Filled(c, true, true, scalarFlux, w), k, 0, i) <==> Leak(c, w.q2, k, i) == 0.0
  {
    TangentialEven(c, South, scalarFlux, w, k, 0, i);
    SouthRowsKept(c, true, true, scalarFlux, w, k, 0, i);
    NorthWallCovariant(c, scalarFlux, w, k, i);
    LeakBreaksEvenness(c, scalarFlux, Filled(c, true, true, scalarFlux, w), SideFilled(c, South, scalarFlux, w),
      Leak(c, w.q2, k, i), k, i);
  }

  /** After the fill the covariant tangential wind, cross term included, is even about each wall the rank
      owns; in the one row that reads the opposite wall row exactly when that row leaked nothing. */
  lemma FilledTangentialEven(c: Chart, south: bool, north: bool, scalarFlux: bool, w: Wind, side: Wall, k: int,
      j: int, i: int)
    requires Regular(c) && Owns(side, south, north) && TangentialExterior(c, side, j) && 0 <= i < c.nx
    ensures EvenAt(c, side, scalarFlux, Filled(c, south, north, scalarFlux, w), k, j, i) <==>
            (ReadsOtherWall(c, side, south, north, j) ==> Leak(c, w.q2, k, i) == 0.0)
  {
    if ReadsOtherWall(c, side, south, north, j) {
      NarrowRankExactlyLeaks(c, scalarFlux, w, k, i);
    } else {
      EvenElsewhere(c, south, north, scalarFlux, w, side, k, j, i);
    }
  }

  lemma EvenElsewhere(c: Chart, south: bool, north: bool, scalarFlux: bool, w: Wind, side: Wall, k: int, j: int, i: int)
    requires Regular(c) && Owns(side, south, north) && TangentialExterior(c, side, j) && 0 <= i < c.nx
    requires !ReadsOtherWall(c, side, south, north, j)
    ensures EvenAt(c, side, scalarFlux, Filled(c, south, north, scalarFlux, w), k, j, i)
  {
    MetricPositive(c, j, i);
    if side == South {
      SouthEven(c, north, scalarFlux, w, k, j, i);
    } else {
      NorthEven(c, south, scalarFlux, w, k, j, i);
    }
  }

  // ----- A second fill -----

  /** Rows of the unfilled second component that the fill of row j reads. */
  predicate NormalReads(c: Chart, side: Wall, j: int, r: int) {
    var mirror := TangentialMirror(c, side, j);
    if side == South then c.h <= r <= mirror else mirror - 1 <= r < WallRow(c, North)
  }

  /** Two winds that agree where the fill of row j reads them. */
  ghost predicate Agree(c: Chart, side: Wall, j: int, v: Wind, w: Wind) {
    && (forall k, l :: v.q1.at(k, TangentialMirror(c, side, j), l) == w.q1.at(k, TangentialMirror(c, side, j), l))
    && (forall k, r, l :: NormalReads(c, side, j, r) ==> v.q2.at(k, r, l) == w.q2.at(k, r, l))
  }

  lemma SameNormalFill(c: Chart, side: Wall, p: Cells<real>, q: Cells<real>, k: int, r: int, l: int)
    requires 0 <= l < c.nx
    requires if NormalExterior(c, side, r)
      then r == WallRow(c, side) || p.at(k, NormalMirror(c, side, r), l) == q.at(k, NormalMirror(c, side, r), l)
             else p.at(k, r, l) == q.at(k, r, l)
    ensures NormalFilled(c, side, p).at(k, r, l) == NormalFilled(c, side, q).at(k, r, l)
  {
  }

  /** Rows the cross terms of the fill of row j touch. */
  lemma SameCross(c: Chart, side: Wall, j: int, v: Wind, w: Wind, k: int, at: int, i: int)
    requires c.h >= 1 && c.ny >= 3 * c.h && TangentialExterior(c, side, j) && Agree(c, side, j, v, w) && 0 <= i < c.nx
    requires at == j || at == TangentialMirror(c, side, j)
    ensures Cross(c, NormalFilled(c, side, v.q2), k, at, i) == Cross(c, NormalFilled(c, side, w.q2), k, at, i)
  {
    forall r, l | CrossTouches(c, at, i, r, l)
      ensures NormalFilled(c, side, v.q2).at(k, r, l) == NormalFilled(c, side, w.q2).at(k, r, l)
    {
      var source := if NormalExterior(c, side, r) then NormalMirror(c, side, r) else r;
      assert r == WallRow(c, side) || NormalReads(c, side, j, source);
      SameNormalFill(c, side, v.q2, w.q2, k, r, l);
    }
    CrossReads(c, NormalFilled(c, side, v.q2), NormalFilled(c, side, w.q2), k, at, i);
  }

  /** The fill of a row is determined by the rows it reads. */
  lemma SameTangentialFill(c: Chart, side: Wall, scalarFlux: bool, v: Wind, w: Wind, k: int, j: int, i: int)
    requires c.h >= 1 && c.ny >= 3 * c.h && TangentialExterior(c, side, j) && Agree(c, side, j, v, w) && 0 <= i < c.nx
    ensures SideFilled(c, side, scalarFlux, v).q1.at(k, j, i) == SideFilled(c, side, scalarFlux, w).q1.at(k, j, i)
  {
    SameCross(c, side, j, v, w, k, j, i);
    SameCross(c, side, j, v, w, k, TangentialMirror(c, side, j), i);
    FilledIsMirrored(c, side, scalarFlux, v, k, j, i);
    FilledIsMirrored(c, side, scalarFlux, w, k, j, i);
    MirroredFromCross(c, side, scalarFlux, Wind(v.q1, NormalFilled(c, side, v.q2)),
      Wind(w.q1, NormalFilled(c, side, w.q2)), k, j, i);
  }

  lemma CovariantFromCross(c: Chart, v: Wind, w: Wind, k: int, j: int, i: int)
    requires v.q1.at(k, j, i) == w.q1.at(k, j, i) && Cross(c, v.q2, k, j, i) == Cross(c, w.q2, k, j, i)
    ensures Covariant(c, v, k, j, i) == Covariant(c, w, k, j, i)
  {
  }

  lemma SolvedFromCross(c: Chart, p: Cells<real>, q: Cells<real>, target: real, k: int, j: int, i: int)
    requires Cross(c, p, k, j, i) == Cross(c, q, k, j, i)
    ensures Solved(c, p, target, k, j, i) == Solved(c, q, target, k, j, i)
  {
  }

  lemma MirroredFromCross(c: Chart, side: Wall, scalarFlux: bool, v: Wind, w: Wind, k: int, j: int, i: int)
    requires var interior := TangentialMirror(c, side, j);
             && Cross(c, v.q2, k, j, i) == Cross(c, w.q2, k, j, i)
               && Cross(c, v.q2, k, interior, i) == Cross(c, w.q2, k, interior, i)
             && v.q1.at(k, interior, i) == w.q1.at(k, interior, i)
    ensures Mirrored(c, side, scalarFlux, v, k, j, i) == Mirrored(c, side, scalarFlux, w, k, j, i)
  {
    var interior := TangentialMirror(c, side, j);
    CovariantFromCross(c, v, w, k, interior, i);
    SolvedFromCross(c, v.q2, w.q2, Covariant(c, v, k, interior, i) * TangentialScale(c, scalarFlux, interior, j, i),
      k, j, i);
  }

  ghost predicate SameAt(v: Wind, w: Wind, k: int, j: int, i: int) {
    v.q1.at(k, j, i) == w.q1.at(k, j, i) && v.q2.at(k, j, i) == w.q2.at(k, j, i)
  }

  lemma AfterSouthKeepsRow(c: Chart, south: bool, scalarFlux: bool, w: Wind, k: int, j: int, i: int)
    requires !south || j >= c.h
    ensures SameAt(AfterSouth(c, south, scalarFlux, w), w, k, j, i)
  {
    if south { SouthKeeps(c, south, scalarFlux, w, k, j, i); }
  }

  /** The rows the south fill of row j reads are as before the first fill, unless it reads the other wall. */
  lemma SouthReadsAgree(c: Chart, north: bool, scalarFlux: bool, w: Wind, j: int)
    requires c.h >= 1 && c.ny >= 3 * c.h && 0 <= j < c.h && !ReadsOtherWall(c, South, true, north, j)
    ensures Agree(c, South, j, Filled(c, true, north, scalarFlux, w), w)
  {
    var f, mirror := Filled(c, true, north, scalarFlux, w), TangentialMirror(c, South, j);
    forall k, l ensures f.q1.at(k, mirror, l) == w.q1.at(k, mirror, l) {
      NorthKeeps(c, true, north, scalarFlux, w, k, mirror, l);
      SouthKeeps(c, true, scalarFlux, w, k, mirror, l);
    }
    forall k, r, l | NormalReads(c, South, j, r) ensures f.q2.at(k, r, l) == w.q2.at(k, r, l) {
      NorthKeeps(c, true, north, scalarFlux, w, k, r, l);
      SouthKeeps(c, true, scalarFlux, w, k, r, l);
    }
  }

  /** The second component of the south rows: no reflection reads the other wall row. */
  lemma SecondSouthNormal(c: Chart, south: bool, north: bool, scalarFlux: bool, w: Wind, k: int, j: int, i: int)
    requires c.h >= 1 && c.ny >= 3 * c.h && Inside(c, j, i)
    ensures var f := Filled(c, south, north, scalarFlux, w);
            AfterSouth(c, south, scalarFlux, f).q2.at(k, j, i) == f.q2.at(k, j, i)
  {
    var f := Filled(c, south, north, scalarFlux, w);
    if south && j < c.h {
      var mirror := NormalMirror(c, South, j);
      if j != WallRow(c, South) {
        NorthKeeps(c, south, north, scalarFlux, w, k, mirror, i);
        SouthKeeps(c, south, scalarFlux, w, k, mirror, i);
      }
      SameNormalFill(c, South, f.q2, w.q2, k, j, i);
      NorthKeeps(c, south, north, scalarFlux, w, k, j, i);
    } else {
      AfterSouthKeepsRow(c, south, scalarFlux, f, k, j, i);
    }
  }

  /** The first component of the south rows. */
  lemma SecondSouthTangential(c: Chart, south: bool, north: bool, scalarFlux: bool, w: Wind, k: int, j: int, i: int)
    requires c.h >= 1 && c.ny >= 3 * c.h && Inside(c, j, i) && !ReadsOtherWall(c, South, south, north, j)
    ensures var f := Filled(c, south, north, scalarFlux, w);
            AfterSouth(c, south, scalarFlux, f).q1.at(k, j, i) == f.q1.at(k, j, i)
  {
    var f := Filled(c, south, north, scalarFlux, w);
    if south && j < c.h {
      SouthReadsAgree(c, north, scalarFlux, w, j);
      SameTangentialFill(c, South, scalarFlux, f, w, k, j, i);
      NorthKeeps(c, south, north, scalarFlux, w, k, j, i);
    } else {
      AfterSouthKeepsRow(c, south, scalarFlux, f, k, j, i);
    }
  }

  lemma SouthWallIsZero(c: Chart, scalarFlux: bool, w: Wind, k: int, i: int)
    requires c.h >= 1 && c.ny >= 3 * c.h && 0 <= i < c.nx
    ensures SideFilled(c, South, scalarFlux, w).q2.at(k, c.h - 1, i) == 0.0
  {
  }

  /** The rows the north fill reads are the same in both fills: a rank with h rows reads the south wall
      row, which both set to zero. */
  lemma NorthReadsSame(c: Chart, south: bool, scalarFlux: bool, w: Wind, j: int, k: int, r: int, l: int)
    requires c.h >= 1 && c.ny >= 3 * c.h && TangentialExterior(c, North, j) && NormalReads(c, North, j, r)
    ensures var f := Filled(c, south, true, scalarFlux, w);
            AfterSouth(c, south, scalarFlux, f).q2.at(k, r, l) == AfterSouth(c, south, scalarFlux, w).q2.at(k, r, l)
  {
    var f := Filled(c, south, true, scalarFlux, w);
    NorthKeeps(c, south, true, scalarFlux, w, k, r, l);
    if south && r == c.h - 1 && 0 <= l < c.nx {
      SouthWallIsZero(c, scalarFlux, w, k, l);
      SouthWallIsZero(c, scalarFlux, f, k, l);
    } else if south && r == c.h - 1 {
      OutsideColumns(c, scalarFlux, f, k, r, l);
    } else {
      AfterSouthKeepsRow(c, south, scalarFlux, f, k, r, l);
    }
  }

  lemma OutsideColumns(c: Chart, scalarFlux: bool, w: Wind, k: int, r: int, l: int)
    requires !(0 <= l < c.nx)
    ensures SameAt(SideFilled(c, South, scalarFlux, w), w, k, r, l)
  {
  }

  lemma NorthReadsAgree(c: Chart, south: bool, scalarFlux: bool, w: Wind, j: int)
    requires c.h >= 1 && c.ny >= 3 * c.h && TangentialExterior(c, North, j)
    ensures var f := Filled(c, south, true, scalarFlux, w);
            Agree(c, North, j, AfterSouth(c, south, scalarFlux, f), AfterSouth(c, south, scalarFlux, w))
  {
    var f, mirror := Filled(c, south, true, scalarFlux, w), TangentialMirror(c, North, j);
    var (v, s) := (AfterSouth(c, south, scalarFlux, f), AfterSouth(c, south, scalarFlux, w));
    forall k, l ensures v.q1.at(k, mirror, l) == s.q1.at(k, mirror, l) {
      AfterSouthKeepsRow(c, south, scalarFlux, f, k, mirror, l);
      NorthKeeps(c, south, true, scalarFlux, w, k, mirror, l);
    }
    forall k, r, l | NormalReads(c, North, j, r) ensures v.q2.at(k, r, l) == s.q2.at(k, r, l) {
      NorthReadsSame(c, south, scalarFlux, w, j, k, r, l);
    }
  }

  lemma SecondNormal(c: Chart, south: bool, north: bool, scalarFlux: bool, w: Wind, k: int, j: int, i: int)
    requires c.h >= 1 && c.ny >= 3 * c.h && Inside(c, j, i)
    ensures var f := Filled(c, south, north, scalarFlux, w);
            Filled(c, south, north, scalarFlux, f).q2.at(k, j, i) == f.q2.at(k, j, i)
  {
    var f := Filled(c, south, north, scalarFlux, w);
    if north && NormalExterior(c, North, j) {
      var mirror := NormalMirror(c, North, j);
      if j != WallRow(c, North) {
        assert NormalReads(c, North, j, mirror);
        NorthReadsSame(c, south, scalarFlux, w, j, k, mirror, i);
      }
      SameNormalFill(c, North, AfterSouth(c, south, scalarFlux, f).q2, AfterSouth(c, south, scalarFlux, w).q2, k, j, i);
    } else {
      SecondSouthNormal(c, south, north, scalarFlux, w, k, j, i);
      NorthKeeps(c, south, north, scalarFlux, f, k, j, i);
    }
  }

  lemma SecondTangential(c: Chart, south: bool, north: bool, scalarFlux: bool, w: Wind, k: int, j: int, i: int)
    requires c.h >= 1 && c.ny >= 3 * c.h && Inside(c, j, i) && !ReadsOtherWall(c, South, south, north, j)
    ensures var f := Filled(c, south, north, scalarFlux, w);
            Filled(c, south, north, scalarFlux, f).q1.at(k, j, i) == f.q1.at(k, j, i)
  {
    var f := Filled(c, south, north, scalarFlux, w);
    if north && TangentialExterior(c, North, j) {
      NorthReadsAgree(c, south, scalarFlux, w, j);
      SameTangentialFill(c, North, scalarFlux, AfterSouth(c, south, scalarFlux, f),
        AfterSouth(c, south, scalarFlux, w), k, j, i);
    } else {
      SecondSouthTangential(c, south, north, scalarFlux, w, k, j, i);
      NorthKeeps(c, south, north, scalarFlux, f, k, j, i);
    }
  }

  // ----- The second fill of a rank with exactly h rows -----

  lemma EqualCovariant(g11: real, x: real, y: real, cross: real)
    requires g11 > 0.0
    ensures g11 * x + cross == g11 * y + cross <==> x == y
  {
    if g11 * x + cross == g11 * y + cross { assert g11 * (x - y) == 0.0; }
  }

  /** Where the cross term is the same, the covariant wind tells the first component. */
  lemma CovariantTells(c: Chart, v: Wind, w: Wind, k: int, j: int, i: int)
    requires c.metric.g11(j, i) > 0.0 && Cross(c, v.q2, k, j, i) == Cross(c, w.q2, k, j, i)
    ensures Covariant(c, v, k, j, i) == Covariant(c, w, k, j, i) <==> v.q1.at(k, j, i) == w.q1.at(k, j, i)
  {
    EqualCovariant(c.metric.g11(j, i), v.q1.at(k, j, i), w.q1.at(k, j, i), Cross(c, w.q2, k, j, i));
  }

  lemma SecondCross(c: Chart, south: bool, north: bool, scalarFlux: bool, w: Wind, k: int, j: int, i: int)
    requires c.h >= 1 && c.ny >= 3 * c.h && Inside(c, j, i)
    ensures var f := Filled(c, south, north, scalarFlux, w);
            Cross(c, Filled(c, south, north, scalarFlux, f).q2, k, j, i) == Cross(c, f.q2, k, j, i)
  {
    var f := Filled(c, south, north, scalarFlux, w);
    var g := Filled(c, south, north, scalarFlux, f);
    forall r, l | CrossTouches(c, j, i, r, l) ensures g.q2.at(k, r, l) == f.q2.at(k, r, l) {
      SecondNormal(c, south, north, scalarFlux, w, k, r, l);
    }
    CrossReads(c, g.q2, f.q2, k, j, i);
  }

  lemma NothingLeaksAgain(c: Chart, scalarFlux: bool, w: Wind, k: int, i: int)
    requires Regular(c) && 0 <= i < c.nx
    ensures Leak(c, Filled(c, true, true, scalarFlux, w).q2, k, i) == 0.0
  {
    var j, i2 := WallRow(c, North), if i + 1 < c.nx then i + 1 else i;
    FilledFluxOdd(c, true, true, scalarFlux, w, North, k, j, i);
    FilledFluxOdd(c, true, true, scalarFlux, w, North, k, j, i2);
  }

  /** Both evenness relations of the outermost row share the wall's covariant wind. */
  lemma EvenTells(c: Chart, scalarFlux: bool, g: Wind, f: Wind, k: int, i: int)
    requires var wall := TangentialMirror(c, South, 0);
             Covariant(c, g, k, wall, i) == Covariant(c, f, k, wall, i) && EvenAt(c, South, scalarFlux, g, k, 0, i)
    ensures EvenAt(c, South, scalarFlux, f, k, 0, i) <==> Covariant(c, g, k, 0, i) == Covariant(c, f, k, 0, i)
  {
  }

  lemma SecondOutermostRow(c: Chart, scalarFlux: bool, w: Wind, k: int, i: int)
    requires Regular(c) && Rows(c) == c.h && 0 <= i < c.nx
    ensures var f := Filled(c, true, true, scalarFlux, w);
            Filled(c, true, true, scalarFlux, f).q1.at(k, 0, i) == f.q1.at(k, 0, i) <==> Leak(c, w.q2, k, i) == 0.0
  {
    var f := Filled(c, true, true, scalarFlux, w);
    var g, wall := Filled(c, true, true, scalarFlux, f), TangentialMirror(c, South, 0);
    assert Inside(c, 0, i) && Inside(c, wall, i);
    MetricPositive(c, 0, i);
    NarrowRankExactlyLeaks(c, scalarFlux, w, k, i);
    NarrowRankExactlyLeaks(c, scalarFlux, f, k, i);
    NothingLeaksAgain(c, scalarFlux, w, k, i);
    SecondCross(c, true, true, scalarFlux, w, k, 0, i);
    SecondCross(c, true, true, scalarFlux, w, k, wall, i);
    SecondTangential(c, true, true, scalarFlux, w, k, wall, i);
    CovariantFromCross(c, g, f, k, wall, i);
    EvenTells(c, scalarFlux, g, f, k, i);
    CovariantTells(c, g, f, k, 0, i);
  }

  /** A second fill of the same walls leaves every cell, except in the one row that reads the opposite
      wall: it leaves that row exactly where the wall row leaked nothing the first time. */
  lemma SecondFillExactly(c: Chart, south: bool, north: bool, scalarFlux: bool, w: Wind, k: int, j: int, i: int)
    requires Regular(c) && Inside(c, j, i)
    ensures var f := Filled(c, south, north, scalarFlux, w);
            SameAt(Filled(c, south, north, scalarFlux, f), f, k, j, i) <==>
            (ReadsOtherWall(c, South, south, north, j) ==> Leak(c, w.q2, k, i) == 0.0)
  {
    SecondNormal(c, south, north, scalarFlux, w, k, j, i);
    if ReadsOtherWall(c, South, south, north, j) {
      SecondOutermostRow(c, scalarFlux, w, k, i);
    } else {
      SecondTangential(c, south, north, scalarFlux, w, k, j, i);
    }
  }

  /** So a second fill changes no cell exactly when no rank owns both walls with only h rows between
      them, or the north wall row leaks nothing into any column. */
  lemma SecondFillChangesNothing(c: Chart, south: bool, north: bool, scalarFlux: bool, w: Wind)
    requires Regular(c)
    ensures var f := Filled(c, south, north, scalarFlux, w);
            (forall k, j, i :: Inside(c, j, i) ==> SameAt(Filled(c, south, north, scalarFlux, f), f, k, j, i)) <==>
            WideEnough(c, south, north) || forall k, i :: 0 <= i < c.nx ==> Leak(c, w.q2, k, i) == 0.0
  {
    var f := Filled(c, south, north, scalarFlux, w);
    var g := Filled(c, south, north, scalarFlux, f);
    if WideEnough(c, south, north) || forall k, i :: 0 <= i < c.nx ==> Leak(c, w.q2, k, i) == 0.0 {
      forall k, j, i | Inside(c, j, i) ensures SameAt(g, f, k, j, i) {
        SecondFillExactly(c, south, north, scalarFlux, w, k, j, i);
      }
    }
    if !WideEnough(c, south, north) && forall k, j, i :: Inside(c, j, i) ==> SameAt(g, f, k, j, i) {
      forall k, i | 0 <= i < c.nx ensures Leak(c, w.q2, k, i) == 0.0 {
        assert Inside(c, 0, i);
        SecondFillExactly(c, south, north, scalarFlux, w, k, 0, i);
      }
    }
  }

  // ----- The reflections, face by face -----

  /** The covariant wind at a face of the first component: g11 times that component, and a quarter of
      the weighted second component at the face, the face a row below, the face a column to the right
      and the one below that.  The lowest row and the last column take the face they have twice. */
  lemma CovariantFromFaces(c: Chart, w: Wind, k: int, j: int, i: int)
    requires Inside(c, j, i)
    ensures var (cross, g, q) := (Covariant(c, w, k, j, i) - c.metric.g11(j, i) * w.q1.at(k, j, i), c.metric.g12, w.q2);
            && (j > 0 && i < c.nx - 1 ==>
              4.0 * cross == g(j, i) * q.at(k, j, i) + g(j - 1, i) * q.at(k, j - 1, i) +
                             g(j, i + 1) * q.at(k, j, i + 1) + g(j - 1, i + 1) * q.at(k, j - 1, i + 1))
            && (j == 0 && i < c.nx - 1 ==>
              2.0 * cross == g(0, i) * q.at(k, 0, i) + g(0, i + 1) * q.at(k, 0, i + 1))
            && (j > 0 && i == c.nx - 1 ==>
              2.0 * cross == g(j, i) * q.at(k, j, i) + g(j - 1, i) * q.at(k, j - 1, i))
            && (j == 0 && i == c.nx - 1 ==> cross == g(0, i) * q.at(k, 0, i))
  {
  }

  lemma FluxTimesFace(c: Chart, q2: Cells<real>, k: int, j: int, i: int)
    requires Regular(c) && Inside(c, j, i)
    ensures c.metric.normalInvJ(j, i) * c.root(c.metric.normalG11(j, i)) > 0.0
    ensures Flux(c, q2, k, j, i) * (c.metric.normalInvJ(j, i) * c.root(c.metric.normalG11(j, i))) == q2.at(k, j, i)
  {
    ProductOfPositives(c.metric.normalInvJ(j, i), c.root(c.metric.normalG11(j, i)));
    QuotientIs(q2.at(k, j, i), c.metric.normalInvJ(j, i) * c.root(c.metric.normalG11(j, i)));
  }

  lemma CrossMultiplied(x: real, y: real, p: real, q: real, a: real, b: real)
    requires x * a == p && y * b == q && x == -y
    ensures p * b == -q * a
  {
  }

  /** The faces of the second component in two rows carry opposite physical normal fluxes: the component
      over the inverse Jacobian and the root of g11. */
  ghost predicate OppositeFluxes(c: Chart, q2: Cells<real>, k: int, a: int, b: int, i: int) {
    var m := c.metric;
    q2.at(k, a, i) * (m.normalInvJ(b, i) * c.root(m.normalG11(b, i))) ==
    -q2.at(k, b, i) * (m.normalInvJ(a, i) * c.root(m.normalG11(a, i)))
  }

  /** The faces of the first component in two rows have the same covariant wind, or the same covariant
      wind per root of g11 for scalar transport. */
  ghost predicate EvenWinds(c: Chart, scalarFlux: bool, w: Wind, k: int, a: int, b: int, i: int) {
    var g := c.metric.g11;
    if scalarFlux then Covariant(c, w, k, a, i) * c.root(g(b, i)) == Covariant(c, w, k, b, i) * c.root(g(a, i))
      else Covariant(c, w, k, a, i) == Covariant(c, w, k, b, i)
  }

  lemma OddWrittenOut(c: Chart, q2: Cells<real>, k: int, a: int, b: int, i: int)
    requires Regular(c) && Inside(c, a, i) && Inside(c, b, i) && Flux(c, q2, k, a, i) == -Flux(c, q2, k, b, i)
    ensures OppositeFluxes(c, q2, k, a, b, i)
  {
    FluxTimesFace(c, q2, k, a, i);
    FluxTimesFace(c, q2, k, b, i);
    CrossMultiplied(Flux(c, q2, k, a, i), Flux(c, q2, k, b, i), q2.at(k, a, i), q2.at(k, b, i),
      c.metric.normalInvJ(a, i) * c.root(c.metric.normalG11(a, i)),
      c.metric.normalInvJ(b, i) * c.root(c.metric.normalG11(b, i)));
  }

  lemma Scaled(x: real, y: real, r: real, a: real, b: real)
    requires r * b == a && b > 0.0
    ensures x == y * r <==> x * b == y * a
  {
    assert y * r * b == y * a;
    if x * b == y * a { assert (x - y * r) * b == 0.0; }
  }

  lemma EvenWrittenOut(c: Chart, side: Wall, scalarFlux: bool, f: Wind, k: int, a: int, b: int, i: int)
    requires Regular(c) && Inside(c, a, i) && Inside(c, b, i) && b == TangentialMirror(c, side, a)
    ensures EvenAt(c, side, scalarFlux, f, k, a, i) <==> EvenWinds(c, scalarFlux, f, k, a, b, i)
  {
    var g, h := c.metric.g11(a, i), c.metric.g11(b, i);
    RootQuotient(c.root, g, h);
    Scaled(Covariant(c, f, k, a, i), Covariant(c, f, k, b, i), c.root(Divide(g, h)), c.root(g), c.root(h));
  }

  lemma WindReflected(c: Chart, south: bool, north: bool, scalarFlux: bool, w: Wind, side: Wall, k: int, a: int,
      b: int, i: int)
    requires Regular(c) && Owns(side, south, north) && TangentialExterior(c, side, a) && Inside(c, a, i)
      && b == TangentialMirror(c, side, a) && Inside(c, b, i)
    ensures EvenWinds(c, scalarFlux, Filled(c, south, north, scalarFlux, w), k, a, b, i) <==>
            (ReadsOtherWall(c, side, south, north, a) ==> Leak(c, w.q2, k, i) == 0.0)
  {
    FilledTangentialEven(c, south, north, scalarFlux, w, side, k, a, i);
    EvenWrittenOut(c, side, scalarFlux, Filled(c, south, north, scalarFlux, w), k, a, b, i);
  }

  /** A south wall: the second component vanishes on its row h - 1, and rows a and b, as far below and
      above it, carry opposite physical normal fluxes. */
  lemma SouthFluxReflected(c: Chart, north: bool, scalarFlux: bool, w: Wind, k: int, a: int, b: int, i: int)
    requires Regular(c) && 0 <= a < c.h && a + b == 2 * (c.h - 1) && 0 <= i < c.nx
    ensures var q2 := Filled(c, true, north, scalarFlux, w).q2;
            q2.at(k, c.h - 1, i) == 0.0 && OppositeFluxes(c, q2, k, a, b, i)
  {
    FilledFluxOdd(c, true, north, scalarFlux, w, South, k, a, i);
    OddWrittenOut(c, Filled(c, true, north, scalarFlux, w).q2, k, a, b, i);
  }

  /** A north wall: the second component vanishes on its row ny - h - 1, and rows a and b, as far above
      and below it, carry opposite physical normal fluxes. */
  lemma NorthFluxReflected(c: Chart, south: bool, scalarFlux: bool, w: Wind, k: int, a: int, b: int, i: int)
    requires Regular(c) && c.ny - c.h - 1 <= a < c.ny && a + b == 2 * (c.ny - c.h - 1) && 0 <= i < c.nx
    ensures var q2 := Filled(c, south, true, scalarFlux, w).q2;
            q2.at(k, c.ny - c.h - 1, i) == 0.0 && OppositeFluxes(c, q2, k, a, b, i)
  {
    FilledFluxOdd(c, south, true, scalarFlux, w, North, k, a, i);
    OddWrittenOut(c, Filled(c, south, true, scalarFlux, w).q2, k, a, b, i);
  }

  /** The two faces of a row beside a face of the first component add nothing to its cross term. */
  ghost predicate AddNothing(c: Chart, q2: Cells<real>, k: int, j: int, i: int) {
    var (g, i2) := (c.metric.g12, if i == c.nx - 1 then i else i + 1);
    g(j, i) * q2.at(k, j, i) + g(j, i2) * q2.at(k, j, i2) == 0.0
  }

  lemma LeakWrittenOut(c: Chart, q2: Cells<real>, k: int, i: int)
    requires 0 <= i < c.nx
    ensures Leak(c, q2, k, i) == 0.0 <==> AddNothing(c, q2, k, c.ny - c.h - 1, i)
  {
  }

  /** A south wall: the winds along it in rows a and b, as far below and above its row h - 1/2, are even.
      Where a north wall stands h rows away, the outermost row is so exactly if the two faces of that
      wall added nothing to the cross term. */
  lemma SouthWindReflected(c: Chart, north: bool, scalarFlux: bool, w: Wind, k: int, a: int, b: int, i: int)
    requires Regular(c) && 0 <= a < c.h && a + b == 2 * c.h - 1 && 0 <= i < c.nx
    ensures EvenWinds(c, scalarFlux, Filled(c, true, north, scalarFlux, w), k, a, b, i) <==>
            (north && c.ny == 3 * c.h && a == 0 ==> AddNothing(c, w.q2, k, c.ny - c.h - 1, i))
  {
    WindReflected(c, true, north, scalarFlux, w, South, k, a, b, i);
    LeakWrittenOut(c, w.q2, k, i);
  }

  /** A north wall: the winds along it in rows a and b, as far above and below its row ny - h - 1/2, are
      even. */
  lemma NorthWindReflected(c: Chart, south: bool, scalarFlux: bool, w: Wind, k: int, a: int, b: int, i: int)
    requires Regular(c) && c.ny - c.h <= a < c.ny && a + b == 2 * (c.ny - c.h) - 1 && 0 <= i < c.nx
    ensures EvenWinds(c, scalarFlux, Filled(c, south, true, scalarFlux, w), k, a, b, i)
  {
    WindReflected(c, south, true, scalarFlux, w, North, k, a, b, i);
  }

  /** Every other face keeps its value: rows h and up at a south wall, rows below ny - h - 1 of the
      second component and below ny - h of the first at a north wall, every row without a wall. */
  lemma FillKeepsRest(c: Chart, south: bool, north: bool, scalarFlux: bool, w: Wind, k: int, j: int, i: int)
    requires c.h >= 1 && c.ny >= 3 * c.h && Inside(c, j, i) && (south ==> j >= c.h)
    ensures north ==> j < c.ny - c.h - 1 ==> Filled(c, south, north, scalarFlux, w).q2.at(k, j, i) == w.q2.at(k, j, i)
    ensures north ==> j < c.ny - c.h ==> Filled(c, south, north, scalarFlux, w).q1.at(k, j, i) == w.q1.at(k, j, i)
    ensures !north ==> SameAt(Filled(c, south, north, scalarFlux, w), w, k, j, i)
  {
    NorthKeeps(c, south, north, scalarFlux, w, k, j, i);
    if south { SouthKeeps(c, south, scalarFlux, w, k, j, i); }
  }
}
