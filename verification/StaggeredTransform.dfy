/** Matrix transforms of a vector whose two components sit on different faces of a cell: the other
    component is weighted at its own faces and averaged over the four nearest. */
module StaggeredTransform {
  import opened HaloFaces

  /** A geometry coefficient, stored once or per face. */
  datatype Coefficient = Constant(value: real) | Varying(at: (int, int) -> real) {
    function At(j: int, i: int): real { match this case Constant(c) => c case Varying(f) => f(j, i) }
  }

  datatype Matrix = Matrix(a11: Coefficient, a12: Coefficient, a21: Coefficient, a22: Coefficient)

  /** Rows and columns of the block. */
  datatype Extent = Extent(nj: nat, ni: nat)

  datatype Pair = Pair(first: Cells<real>, second: Cells<real>)

  /** The arguments of a transform: where the first component sits, the matrices at both faces and the
      sign the cross terms carry. */
  datatype Map = Map(firstAtU: bool, e: Extent, atFirst: Matrix, atSecond: Matrix, sign: real)

  // ----- The four-face average -----

  /** The second row and column the average reads, clamped at the edge of the block. */
  function OtherRow(targetU: bool, e: Extent, j: int): int {
    if targetU then (if j > 0 then j - 1 else j) else if j + 1 < e.nj then j + 1 else j
  }

  function OtherColumn(targetU: bool, e: Extent, i: int): int {
    if targetU then (if i + 1 < e.ni then i + 1 else i) else if i > 0 then i - 1 else i
  }

  function WeightedCross(targetU: bool, e: Extent, source: Cells<real>, c: Coefficient, k: int, j: int, i: int): real {
    var j2, i2 := OtherRow(targetU, e, j), OtherColumn(targetU, e, i);
    0.25 * (c.At(j, i) * source.at(k, j, i) + c.At(j2, i) * source.at(k, j2, i) + c.At(j, i2) * source.at(k, j, i2) +
      c.At(j2, i2) * source.at(k, j2, i2))
  }

  // ----- The transform -----

  /** The fast path is taken on stored zeros only. */
  predicate Diagonal(m: Map) { m.atSecond.a12 == Constant(0.0) && m.atFirst.a21 == Constant(0.0) }

  function Component(targetU: bool, e: Extent, diagonal: bool, own: Coefficient, other: Coefficient, sign: real,
      direct: Cells<real>, cross: Cells<real>, k: int, j: int, i: int): real
  {
    if diagonal then own.At(j, i) * direct.at(k, j, i)
    else own.At(j, i) * direct.at(k, j, i) + sign * WeightedCross(targetU, e, cross, other, k, j, i)
  }

  function FirstAt(m: Map, v: Pair, k: int, j: int, i: int): real {
    Component(m.firstAtU, m.e, Diagonal(m), m.atFirst.a11, m.atSecond.a12, m.sign, v.first, v.second, k, j, i)
  }

  function SecondAt(m: Map, v: Pair, k: int, j: int, i: int): real {
    Component(!m.firstAtU, m.e, Diagonal(m), m.atSecond.a22, m.atFirst.a21, m.sign, v.second, v.first, k, j, i)
  }

  function Transformed(m: Map, v: Pair): Pair {
    Pair(Cells((k: int, j: int, i: int) => FirstAt(m, v, k, j, i)),
      Cells((k: int, j: int, i: int) => SecondAt(m, v, k, j, i)))
  }

  function Plus(f: Cells<real>, g: Cells<real>): Cells<real> {
    Cells((k: int, j: int, i: int) => f.at(k, j, i) + g.at(k, j, i))
  }

  function Minus(f: Cells<real>, g: Cells<real>): Cells<real> {
    Cells((k: int, j: int, i: int) => f.at(k, j, i) - g.at(k, j, i))
  }

  function Sum(v: Pair, w: Pair): Pair { Pair(Plus(v.first, w.first), Plus(v.second, w.second)) }

  /** What adding the transform of `v` makes of `out`. */
  function Imported(m: Map, v: Pair, out: Pair): Pair { Sum(out, Transformed(m, v)) }

  ghost predicate SameAt(v: Pair, w: Pair, k: int, j: int, i: int) {
    v.first.at(k, j, i) == w.first.at(k, j, i) && v.second.at(k, j, i) == w.second.at(k, j, i)
  }

  // ----- Linearity -----

  lemma CrossOfSum(targetU: bool, e: Extent, f: Cells<real>, g: Cells<real>, c: Coefficient, k: int, j: int, i: int)
    ensures WeightedCross(targetU, e, Plus(f, g), c, k, j, i) ==
      WeightedCross(targetU, e, f, c, k, j, i) + WeightedCross(targetU, e, g, c, k, j, i)
  {
  }

  lemma ComponentOfSum(targetU: bool, e: Extent, diagonal: bool, own: Coefficient, other: Coefficient, sign: real,
                       f: Cells<real>, g: Cells<real>, p: Cells<real>, q: Cells<real>, k: int, j: int, i: int)
    ensures Component(targetU, e, diagonal, own, other, sign, Plus(f, g), Plus(p, q), k, j, i) ==
            Component(targetU, e, diagonal, own, other, sign, f, p, k, j, i) +
              Component(targetU, e, diagonal, own, other, sign, g, q, k, j, i)
  {
    CrossOfSum(targetU, e, p, q, other, k, j, i);
    var a, b := WeightedCross(targetU, e, p, other, k, j, i), WeightedCross(targetU, e, q, other, k, j, i);
    assert sign * (a + b) == sign * a + sign * b;
  }

  /** The transform of a sum is the sum of the transforms. */
  lemma TransformIsAdditive(m: Map, v: Pair, w: Pair, k: int, j: int, i: int)
    ensures SameAt(Transformed(m, Sum(v, w)), Sum(Transformed(m, v), Transformed(m, w)), k, j, i)
  {
    ComponentOfSum(m.firstAtU, m.e, Diagonal(m), m.atFirst.a11, m.atSecond.a12, m.sign, v.first, w.first, v.second,
      w.second, k, j, i);
    ComponentOfSum(!m.firstAtU, m.e, Diagonal(m), m.atSecond.a22, m.atFirst.a21, m.sign, v.second, w.second, v.first,
      w.first, k, j, i);
  }

  function Zero(): Pair { Pair(Cells((k: int, j: int, i: int) => 0.0), Cells((k: int, j: int, i: int) => 0.0)) }

  function Total(increments: seq<Pair>): Pair {
    if increments == [] then Zero() else Sum(Total(increments[..|increments| - 1]), increments[|increments| - 1])
  }

  /** The canonical pair after a run of imports. */
  function ImportedAll(m: Map, increments: seq<Pair>, out: Pair): Pair {
    if increments == [] then out
      else Imported(m, increments[|increments| - 1], ImportedAll(m, increments[..|increments| - 1], out))
  }

  ghost predicate IsZero(v: Pair) { forall k, j, i :: v.first.at(k, j, i) == 0.0 && v.second.at(k, j, i) == 0.0 }

  /** Zero increments leave the canonical pair as it is. */
  lemma ZeroImportsNothing(m: Map, v: Pair, out: Pair, k: int, j: int, i: int)
    requires IsZero(v)
    ensures SameAt(Imported(m, v, out), out, k, j, i)
  {
    ComponentOfZero(m.firstAtU, m.e, Diagonal(m), m.atFirst.a11, m.atSecond.a12, m.sign, v, k, j, i);
    ComponentOfZero(!m.firstAtU, m.e, Diagonal(m), m.atSecond.a22, m.atFirst.a21, m.sign, v, k, j, i);
  }

  lemma ComponentOfZero(targetU: bool, e: Extent, diagonal: bool, own: Coefficient, other: Coefficient, sign: real,
      v: Pair, k: int, j: int, i: int)
    requires IsZero(v)
    ensures Component(targetU, e, diagonal, own, other, sign, v.first, v.second, k, j, i) == 0.0
    ensures Component(targetU, e, diagonal, own, other, sign, v.second, v.first, k, j, i) == 0.0
  {
    assert WeightedCross(targetU, e, v.first, other, k, j, i) == 0.0;
    assert WeightedCross(targetU, e, v.second, other, k, j, i) == 0.0;
  }

  /** Any run of imports is one import of the total increment; a run of zero increments changes nothing. */
  lemma {:induction false} ImportsAddUp(m: Map, increments: seq<Pair>, out: Pair, k: int, j: int, i: int)
    ensures SameAt(ImportedAll(m, increments, out), Imported(m, Total(increments), out), k, j, i)
  {
    if increments == [] {
      ZeroImportsNothing(m, Zero(), out, k, j, i);
    } else {
      var before, last := increments[..|increments| - 1], increments[|increments| - 1];
      ImportsAddUp(m, before, out, k, j, i);
      TransformIsAdditive(m, Total(before), last, k, j, i);
    }
  }

  // ----- The fast path -----

  /** Coefficients that are zero at every face, however stored. */
  ghost predicate ZeroEverywhere(c: Coefficient) { forall j, i :: c.At(j, i) == 0.0 }

  lemma CrossOfZeroCoefficient(targetU: bool, e: Extent, f: Cells<real>, c: Coefficient, k: int, j: int, i: int)
    requires ZeroEverywhere(c)
    ensures WeightedCross(targetU, e, f, c, k, j, i) == 0.0
  {
  }

  /** On a diagonal chart the fast path and the general one agree, so storing zeros once or per face is
      the same, and every sign gives the same. */
  lemma FastPathRefines(m: Map, v: Pair, k: int, j: int, i: int)
    requires ZeroEverywhere(m.atSecond.a12) && ZeroEverywhere(m.atFirst.a21)
    ensures FirstAt(m, v, k, j, i) ==
      Component(m.firstAtU, m.e, true, m.atFirst.a11, m.atSecond.a12, m.sign, v.first, v.second, k, j, i)
    ensures FirstAt(m, v, k, j, i) ==
      Component(m.firstAtU, m.e, false, m.atFirst.a11, m.atSecond.a12, m.sign, v.first, v.second, k, j, i)
    ensures SecondAt(m, v, k, j, i) ==
      Component(!m.firstAtU, m.e, true, m.atSecond.a22, m.atFirst.a21, m.sign, v.second, v.first, k, j, i)
    ensures SecondAt(m, v, k, j, i) ==
      Component(!m.firstAtU, m.e, false, m.atSecond.a22, m.atFirst.a21, m.sign, v.second, v.first, k, j, i)
  {
    CrossOfZeroCoefficient(m.firstAtU, m.e, v.second, m.atSecond.a12, k, j, i);
    CrossOfZeroCoefficient(!m.firstAtU, m.e, v.first, m.atFirst.a21, k, j, i);
  }

  // ----- Round trips -----

  ghost predicate DiagonalChart(m: Map) { ZeroEverywhere(m.atSecond.a12) && ZeroEverywhere(m.atFirst.a21) }

  lemma DiagonalValue(m: Map, v: Pair, k: int, j: int, i: int)
    requires DiagonalChart(m)
    ensures FirstAt(m, v, k, j, i) == m.atFirst.a11.At(j, i) * v.first.at(k, j, i)
    ensures SecondAt(m, v, k, j, i) == m.atSecond.a22.At(j, i) * v.second.at(k, j, i)
  {
    FastPathRefines(m, v, k, j, i);
  }

  lemma DiagonalBack(back: Map, a11: real, a22: real, v: Pair, w: Pair, k: int, j: int, i: int)
    requires DiagonalChart(back) && w.first.at(k, j, i) == a11 * v.first.at(k, j, i)
      && w.second.at(k, j, i) == a22 * v.second.at(k, j, i)
    requires back.atFirst.a11.At(j, i) * a11 == 1.0 && back.atSecond.a22.At(j, i) * a22 == 1.0
    ensures FirstAt(back, w, k, j, i) == v.first.at(k, j, i) && SecondAt(back, w, k, j, i) == v.second.at(k, j, i)
  {
    DiagonalValue(back, w, k, j, i);
    Cancels(back.atFirst.a11.At(j, i), a11, v.first.at(k, j, i), w.first.at(k, j, i));
    Cancels(back.atSecond.a22.At(j, i), a22, v.second.at(k, j, i), w.second.at(k, j, i));
  }

  /** On a diagonal chart, going there and back is the identity at every face where the diagonal entries
      are reciprocal. */
  lemma DiagonalRoundTrip(there: Map, back: Map, v: Pair, k: int, j: int, i: int)
    requires DiagonalChart(there) && DiagonalChart(back)
    requires back.atFirst.a11.At(j, i) * there.atFirst.a11.At(j, i) == 1.0
      && back.atSecond.a22.At(j, i) * there.atSecond.a22.At(j, i) == 1.0
    ensures SameAt(Transformed(back, Transformed(there, v)), v, k, j, i)
  {
    DiagonalValue(there, v, k, j, i);
    DiagonalBack(back, there.atFirst.a11.At(j, i), there.atSecond.a22.At(j, i), v, Transformed(there, v), k, j, i);
  }

  lemma Cancels(b: real, a: real, x: real, y: real)
    requires b * a == 1.0 && y == a * x
    ensures b * y == x
  {
    assert b * (a * x) == (b * a) * x;
  }

  /** The basis of an affine chart, with positive determinant. */
  datatype Basis = Basis(b0: real, b1: real, b2: real, b3: real)

  function Determinant(b: Basis): real { b.b0 * b.b3 - b.b1 * b.b2 }

  function Uniform(a11: real, a12: real, a21: real, a22: real): Matrix {
    Matrix(Constant(a11), Constant(a12), Constant(a21), Constant(a22))
  }

  function ToPhysical(b: Basis): Matrix { Uniform(b.b0, b.b1, b.b2, b.b3) }

  function ToContravariant(b: Basis): Matrix
    requires Determinant(b) > 0.0
  {
    var d := Determinant(b);
    Uniform(b.b3 / d, -b.b1 / d, -b.b2 / d, b.b0 / d)
  }

  lemma Quotient(a: real, d: real, x: real)
    requires d != 0.0
    ensures x * (a / d) * d == x * a
  {
    var q := a / d;
    assert q * d == a;
  }

  /** The two matrices of the chart are inverse to each other. */
  lemma BasisInverts(b: Basis)
    requires Determinant(b) > 0.0
    ensures var a := ToContravariant(b);
            && b.b0 * a.a11.value + b.b1 * a.a21.value == 1.0 && b.b0 * a.a12.value + b.b1 * a.a22.value == 0.0
            && b.b2 * a.a11.value + b.b3 * a.a21.value == 0.0 && b.b2 * a.a12.value + b.b3 * a.a22.value == 1.0
  {
    var d := Determinant(b);
    var p, q, r, s := b.b3 / d, -b.b1 / d, -b.b2 / d, b.b0 / d;
    Quotient(b.b3, d, b.b0); Quotient(-b.b2, d, b.b1);
    Quotient(-b.b1, d, b.b0); Quotient(b.b0, d, b.b1);
    Quotient(b.b3, d, b.b2); Quotient(-b.b2, d, b.b3);
    Quotient(-b.b1, d, b.b2); Quotient(b.b0, d, b.b3);
    NonzeroCancels(d, b.b0 * p + b.b1 * r, 1.0);
    NonzeroCancels(d, b.b0 * q + b.b1 * s, 0.0);
    NonzeroCancels(d, b.b2 * p + b.b3 * r, 0.0);
    NonzeroCancels(d, b.b2 * q + b.b3 * s, 1.0);
  }

  lemma NonzeroCancels(d: real, x: real, y: real)
    requires d != 0.0 && x * d == y * d
    ensures x == y
  {
    assert (x - y) * d == 0.0;
  }

  /** The four faces of the average. */
  function Faces(targetU: bool, e: Extent, j: int, i: int): seq<(int, int)> {
    var j2, i2 := OtherRow(targetU, e, j), OtherColumn(targetU, e, i);
    [(j, i), (j2, i), (j, i2), (j2, i2)]
  }

  function SumFaces(f: Cells<real>, k: int, faces: seq<(int, int)>): real {
    if faces == [] then 0.0
      else SumFaces(f, k, faces[..|faces| - 1]) + f.at(k, faces[|faces| - 1].0, faces[|faces| - 1].1)
  }

  /** The plain average over the four faces. */
  function Average(targetU: bool, e: Extent, f: Cells<real>, k: int, j: int, i: int): real {
    0.25 * SumFaces(f, k, Faces(targetU, e, j, i))
  }

  function Averaged(targetU: bool, e: Extent, f: Cells<real>): Cells<real> {
    Cells((k: int, j: int, i: int) => Average(targetU, e, f, k, j, i))
  }

  lemma SumOfFour(f: Cells<real>, k: int, p: (int, int), q: (int, int), r: (int, int), s: (int, int))
    ensures SumFaces(f, k, [p, q, r, s]) ==
      f.at(k, p.0, p.1) + f.at(k, q.0, q.1) + f.at(k, r.0, r.1) + f.at(k, s.0, s.1)
  {
    assert [p, q, r, s][..3] == [p, q, r] && [p, q, r][..2] == [p, q] && [p, q][..1] == [p] && [p][..0] == [];
    assert SumFaces(f, k, [p]) == f.at(k, p.0, p.1);
    assert SumFaces(f, k, [p, q]) == SumFaces(f, k, [p]) + f.at(k, q.0, q.1);
    assert SumFaces(f, k, [p, q, r]) == SumFaces(f, k, [p, q]) + f.at(k, r.0, r.1);
  }

  lemma FourTimes(c: real, p: real, q: real, r: real, s: real)
    ensures 0.25 * (c * p + c * q + c * r + c * s) == c * (0.25 * (p + q + r + s))
  {
  }

  lemma UniformCross(targetU: bool, e: Extent, f: Cells<real>, c: real, k: int, j: int, i: int)
    ensures WeightedCross(targetU, e, f, Constant(c), k, j, i) == c * Average(targetU, e, f, k, j, i)
  {
    var j2, i2 := OtherRow(targetU, e, j), OtherColumn(targetU, e, i);
    SumOfFour(f, k, (j, i), (j2, i), (j, i2), (j2, i2));
    FourTimes(c, f.at(k, j, i), f.at(k, j2, i), f.at(k, j, i2), f.at(k, j2, i2));
  }

  predicate In(e: Extent, k: int, j: int, i: int) { 0 <= j < e.nj && 0 <= i < e.ni }

  ghost predicate TransformsAt(m: Map, v: Pair, w: Pair, k: int, j: int, i: int) {
    w.first.at(k, j, i) == FirstAt(m, v, k, j, i) && w.second.at(k, j, i) == SecondAt(m, v, k, j, i)
  }

  /** `w` is the transform of `v` on the block. */
  ghost predicate IsTransform(m: Map, v: Pair, w: Pair) {
    forall k, j, i {:trigger TransformsAt(m, v, w, k, j, i)} :: In(m.e, k, j, i) ==> TransformsAt(m, v, w, k, j, i)
  }

  /** The numbers by which a map of an affine chart mixes components, the sign with the cross terms. */
  datatype Mix = Mix(p: real, q: real, r: real, s: real)

  /** The mix with the components exchanged. */
  function Flipped(x: Mix): Mix { Mix(x.s, x.r, x.q, x.p) }

  ghost predicate MixesBy(m: Map, x: Mix) {
    && m.atFirst == m.atSecond && m.atFirst.a11 == Constant(x.p) && m.atFirst.a22 == Constant(x.s)
    && m.atFirst.a12.Constant? && m.sign * m.atFirst.a12.value == x.q
    && m.atFirst.a21.Constant? && m.sign * m.atFirst.a21.value == x.r
  }

  lemma Regroup(s: real, a: real, x: real)
    ensures s * (a * x) == (s * a) * x
  {
  }

  lemma UniformFirst(m: Map, x: Mix, v: Pair, w: Pair, k: int, j: int, i: int)
    requires MixesBy(m, x) && IsTransform(m, v, w) && In(m.e, k, j, i)
    ensures w.first.at(k, j, i) == x.p * v.first.at(k, j, i) + x.q * Average(m.firstAtU, m.e, v.second, k, j, i)
  {
    assert TransformsAt(m, v, w, k, j, i);
    UniformCross(m.firstAtU, m.e, v.second, m.atFirst.a12.value, k, j, i);
    Regroup(m.sign, m.atFirst.a12.value, Average(m.firstAtU, m.e, v.second, k, j, i));
  }

  lemma UniformSecond(m: Map, x: Mix, v: Pair, w: Pair, k: int, j: int, i: int)
    requires MixesBy(m, x) && IsTransform(m, v, w) && In(m.e, k, j, i)
    ensures w.second.at(k, j, i) == x.s * v.second.at(k, j, i) + x.r * Average(!m.firstAtU, m.e, v.first, k, j, i)
  {
    assert TransformsAt(m, v, w, k, j, i);
    UniformCross(!m.firstAtU, m.e, v.first, m.atFirst.a21.value, k, j, i);
    Regroup(m.sign, m.atFirst.a21.value, Average(!m.firstAtU, m.e, v.first, k, j, i));
  }

  predicate Combines(w: Cells<real>, a: real, f: Cells<real>, b: real, g: Cells<real>, k: int, j: int, i: int) {
    w.at(k, j, i) == a * f.at(k, j, i) + b * g.at(k, j, i)
  }

  ghost predicate CombinesOn(w: Cells<real>, a: real, f: Cells<real>, b: real, g: Cells<real>, k: int,
      faces: seq<(int, int)>)
  {
    forall t :: 0 <= t < |faces| ==> Combines(w, a, f, b, g, k, faces[t].0, faces[t].1)
  }

  lemma {:induction false} SumOfCombination(w: Cells<real>, a: real, f: Cells<real>, b: real, g: Cells<real>, k: int,
      faces: seq<(int, int)>)
    requires CombinesOn(w, a, f, b, g, k, faces)
    ensures SumFaces(w, k, faces) == a * SumFaces(f, k, faces) + b * SumFaces(g, k, faces)
  {
    if faces == [] {
    } else {
      var n := |faces| - 1;
      SumOfCombination(w, a, f, b, g, k, faces[..n]);
      assert Combines(w, a, f, b, g, k, faces[n].0, faces[n].1);
    }
  }

  lemma AverageOfCombination(targetU: bool, e: Extent, w: Cells<real>, a: real, f: Cells<real>, b: real,
      g: Cells<real>, k: int, j: int, i: int)
    requires CombinesOn(w, a, f, b, g, k, Faces(targetU, e, j, i))
    ensures Average(targetU, e, w, k, j, i) == a * Average(targetU, e, f, k, j, i) + b * Average(targetU, e, g, k, j, i)
  {
    SumOfCombination(w, a, f, b, g, k, Faces(targetU, e, j, i));
  }

  /** A field averaged to the other component's faces and back. */
  function Filter(targetU: bool, e: Extent, f: Cells<real>, k: int, j: int, i: int): real {
    Average(targetU, e, Averaged(!targetU, e, f), k, j, i)
  }

  lemma AverageOfSecond(m: Map, x: Mix, v: Pair, w: Pair, k: int, j: int, i: int)
    requires MixesBy(m, x) && IsTransform(m, v, w) && In(m.e, k, j, i)
    ensures Average(m.firstAtU, m.e, w.second, k, j, i) ==
      x.s * Average(m.firstAtU, m.e, v.second, k, j, i) + x.r * Filter(m.firstAtU, m.e, v.first, k, j, i)
  {
    var faces, g := Faces(m.firstAtU, m.e, j, i), Averaged(!m.firstAtU, m.e, v.first);
    forall t | 0 <= t < 4 ensures Combines(w.second, x.s, v.second, x.r, g, k, faces[t].0, faces[t].1) {
      UniformSecond(m, x, v, w, k, faces[t].0, faces[t].1);
    }
    AverageOfCombination(m.firstAtU, m.e, w.second, x.s, v.second, x.r, g, k, j, i);
  }

  lemma AverageOfFirst(m: Map, x: Mix, v: Pair, w: Pair, k: int, j: int, i: int)
    requires MixesBy(m, x) && IsTransform(m, v, w) && In(m.e, k, j, i)
    ensures Average(!m.firstAtU, m.e, w.first, k, j, i) ==
      x.p * Average(!m.firstAtU, m.e, v.first, k, j, i) + x.q * Filter(!m.firstAtU, m.e, v.second, k, j, i)
  {
    var faces, g := Faces(!m.firstAtU, m.e, j, i), Averaged(m.firstAtU, m.e, v.second);
    forall t | 0 <= t < 4 ensures Combines(w.first, x.p, v.first, x.q, g, k, faces[t].0, faces[t].1) {
      UniformFirst(m, x, v, w, k, faces[t].0, faces[t].1);
    }
    AverageOfCombination(!m.firstAtU, m.e, w.first, x.p, v.first, x.q, g, k, j, i);
  }

  /** The first row of `b` times `a` is that of the identity; `skew` is the product off the diagonal. */
  predicate InverseRow(b: Mix, a: Mix, skew: real) {
    b.p * a.p + b.q * a.r == 1.0 && b.p * a.q + b.q * a.s == 0.0 && b.q * a.r == skew
  }

  /** The two maps mix by matrices inverse to each other. */
  predicate Inverse(b: Mix, a: Mix, skew: real) {
    InverseRow(b, a, skew) && InverseRow(Flipped(b), Flipped(a), skew)
  }

  /** One component there and back: `x` the value, `y` the other component's average, `z` the value
      averaged twice; `x1` and `y1` what they become on the way there. */
  lemma ThereAndBack(b: Mix, a: Mix, skew: real, x: real, y: real, z: real, x1: real, y1: real)
    requires InverseRow(b, a, skew) && x1 == a.p * x + a.q * y && y1 == a.s * y + a.r * z
    ensures b.p * x1 + b.q * y1 == x + skew * (z - x)
  {
    assert b.p * x1 == (b.p * a.p) * x + (b.p * a.q) * y;
    assert b.q * y1 == (b.q * a.r) * z + (b.q * a.s) * y;
    assert (b.p * a.q) * y + (b.q * a.s) * y == (b.p * a.q + b.q * a.s) * y == 0.0;
    assert (b.p * a.p) * x == x - (b.q * a.r) * x;
  }

  lemma FirstComesBack(there: Map, back: Map, a: Mix, b: Mix, skew: real, v: Pair, w: Pair, u: Pair, k: int, j: int,
      i: int)
    requires MixesBy(there, a) && MixesBy(back, b) && InverseRow(b, a, skew)
    requires there.firstAtU == back.firstAtU && there.e == back.e && In(there.e, k, j, i)
    requires IsTransform(there, v, w) && IsTransform(back, w, u)
    ensures u.first.at(k, j, i) ==
      v.first.at(k, j, i) + skew * (Filter(there.firstAtU, there.e, v.first, k, j, i) - v.first.at(k, j, i))
  {
    UniformFirst(there, a, v, w, k, j, i);
    AverageOfSecond(there, a, v, w, k, j, i);
    UniformFirst(back, b, w, u, k, j, i);
    ThereAndBack(b, a, skew, v.first.at(k, j, i), Average(there.firstAtU, there.e, v.second, k, j, i),
      Filter(there.firstAtU, there.e, v.first, k, j, i), w.first.at(k, j, i),
      Average(there.firstAtU, there.e, w.second, k, j, i));
  }

  lemma SecondComesBack(there: Map, back: Map, a: Mix, b: Mix, skew: real, v: Pair, w: Pair, u: Pair, k: int, j: int,
      i: int)
    requires MixesBy(there, a) && MixesBy(back, b) && InverseRow(Flipped(b), Flipped(a), skew)
    requires there.firstAtU == back.firstAtU && there.e == back.e && In(there.e, k, j, i)
    requires IsTransform(there, v, w) && IsTransform(back, w, u)
    ensures u.second.at(k, j, i) ==
      v.second.at(k, j, i) + skew * (Filter(!there.firstAtU, there.e, v.second, k, j, i) - v.second.at(k, j, i))
  {
    UniformSecond(there, a, v, w, k, j, i);
    AverageOfFirst(there, a, v, w, k, j, i);
    UniformSecond(back, b, w, u, k, j, i);
    ThereAndBack(Flipped(b), Flipped(a), skew, v.second.at(k, j, i),
      Average(!there.firstAtU, there.e, v.first, k, j, i), Filter(!there.firstAtU, there.e, v.second, k, j, i),
      w.second.at(k, j, i), Average(!there.firstAtU, there.e, w.first, k, j, i));
  }

  /** A component is what it was, with `skew` times the change its double average makes. */
  ghost predicate Skewed(targetU: bool, e: Extent, skew: real, f: Cells<real>, g: Cells<real>, k: int, j: int, i: int)
  {
    g.at(k, j, i) == f.at(k, j, i) + skew * (Filter(targetU, e, f, k, j, i) - f.at(k, j, i))
  }

  lemma BothComeBack(there: Map, back: Map, a: Mix, b: Mix, skew: real, v: Pair, w: Pair, u: Pair, k: int, j: int,
      i: int)
    requires MixesBy(there, a) && MixesBy(back, b) && Inverse(b, a, skew)
    requires there.firstAtU == back.firstAtU && there.e == back.e && In(there.e, k, j, i)
    requires IsTransform(there, v, w) && IsTransform(back, w, u)
    ensures Skewed(there.firstAtU, there.e, skew, v.first, u.first, k, j, i)
    ensures Skewed(!there.firstAtU, there.e, skew, v.second, u.second, k, j, i)
  {
    FirstComesBack(there, back, a, b, skew, v, w, u, k, j, i);
    SecondComesBack(there, back, a, b, skew, v, w, u, k, j, i);
  }

  function Through(a: Matrix, firstAtU: bool, e: Extent, sign: real): Map { Map(firstAtU, e, a, a, sign) }

  /** How much of its own double average a chart mixes into a component on the way there and back. */
  function Skew(b: Basis): real
    requires Determinant(b) > 0.0
  {
    b.b1 * (-b.b2 / Determinant(b))
  }

  function Signed(x: Mix, sign: real): Mix { Mix(x.p, sign * x.q, sign * x.r, x.s) }

  function BackEntries(b: Basis): Mix { Mix(b.b0, b.b1, b.b2, b.b3) }

  function ThereEntries(b: Basis): Mix
    requires Determinant(b) > 0.0
  {
    var d := Determinant(b);
    Mix(b.b3 / d, -b.b1 / d, -b.b2 / d, b.b0 / d)
  }

  /** What the two maps of a chart mix by. */
  function BackMix(b: Basis, sign: real): Mix { Signed(BackEntries(b), sign) }

  function ThereMix(b: Basis, sign: real): Mix
    requires Determinant(b) > 0.0
  {
    Signed(ThereEntries(b), sign)
  }

  lemma EntriesInvert(b: Basis)
    requires Determinant(b) > 0.0
    ensures Inverse(BackEntries(b), ThereEntries(b), Skew(b))
  {
    BasisInverts(b);
    SkewIsSymmetric(b);
  }

  lemma SignedInverse(b: Basis, sign: real)
    requires Determinant(b) > 0.0 && sign * sign == 1.0
    ensures Inverse(BackMix(b, sign), ThereMix(b, sign), Skew(b))
  {
    EntriesInvert(b);
    SignedEntries(sign, BackEntries(b), ThereEntries(b), Skew(b));
  }

  lemma SignedRow(sign: real, b: Mix, a: Mix, skew: real)
    requires sign * sign == 1.0 && InverseRow(b, a, skew)
    ensures InverseRow(Signed(b, sign), Signed(a, sign), skew)
  {
    SignsCancel(sign, b.q, a.r);
    assert b.p * (sign * a.q) + (sign * b.q) * a.s == sign * (b.p * a.q + b.q * a.s);
  }

  lemma SignedEntries(sign: real, b: Mix, a: Mix, skew: real)
    requires sign * sign == 1.0 && Inverse(b, a, skew)
    ensures Inverse(Signed(b, sign), Signed(a, sign), skew)
  {
    SignedRow(sign, b, a, skew);
    SignedRow(sign, Flipped(b), Flipped(a), skew);
    assert Flipped(Signed(b, sign)) == Signed(Flipped(b), sign) && Flipped(Signed(a, sign)) == Signed(Flipped(a), sign);
  }

  lemma SignsCancel(sign: real, x: real, y: real)
    requires sign * sign == 1.0
    ensures (sign * x) * (sign * y) == x * y
  {
    assert (sign * x) * (sign * y) == (sign * sign) * (x * y);
  }

  lemma SkewIsSymmetric(b: Basis)
    requires Determinant(b) > 0.0
    ensures b.b2 * (-b.b1 / Determinant(b)) == Skew(b)
  {
    var d := Determinant(b);
    Quotient(-b.b1, d, b.b2);
    Quotient(-b.b2, d, b.b1);
    NonzeroCancels(d, b.b2 * (-b.b1 / d), b.b1 * (-b.b2 / d));
  }

  /** `u` is what becomes of the physical pair `v` on the block when it is made contravariant, as `w`,
      and physical again. */
  ghost predicate ComesBack(b: Basis, firstAtU: bool, e: Extent, sign: real, v: Pair, w: Pair, u: Pair)
    requires Determinant(b) > 0.0
  {
    IsTransform(Through(ToContravariant(b), firstAtU, e, sign), v, w)
      && IsTransform(Through(ToPhysical(b), firstAtU, e, sign), w, u)
  }

  lemma MapsMix(b: Basis, firstAtU: bool, e: Extent, sign: real)
    requires Determinant(b) > 0.0
    ensures MixesBy(Through(ToContravariant(b), firstAtU, e, sign), ThereMix(b, sign))
    ensures MixesBy(Through(ToPhysical(b), firstAtU, e, sign), BackMix(b, sign))
  {
  }

  /** On an affine chart a physical pair comes back with `Skew` times the change its double average
      makes, clamped edges and either sign of the cross terms included. */
  lemma AffineRoundTrip(b: Basis, firstAtU: bool, e: Extent, sign: real, v: Pair, w: Pair, u: Pair, k: int, j: int,
      i: int)
    requires Determinant(b) > 0.0 && sign * sign == 1.0 && ComesBack(b, firstAtU, e, sign, v, w, u) && In(e, k, j, i)
    ensures Skewed(firstAtU, e, Skew(b), v.first, u.first, k, j, i)
    ensures Skewed(!firstAtU, e, Skew(b), v.second, u.second, k, j, i)
  {
    MapsMix(b, firstAtU, e, sign);
    SignedInverse(b, sign);
    BothComeBack(Through(ToContravariant(b), firstAtU, e, sign), Through(ToPhysical(b), firstAtU, e, sign),
      ThereMix(b, sign), BackMix(b, sign), Skew(b), v, w, u, k, j, i);
  }

  /** So the round trip is the identity at a face exactly when the chart does not mix or the double
      average leaves that face alone. */
  lemma AffineRoundTripExactly(b: Basis, firstAtU: bool, e: Extent, sign: real, v: Pair, w: Pair, u: Pair, k: int,
      j: int, i: int)
    requires Determinant(b) > 0.0 && sign * sign == 1.0 && ComesBack(b, firstAtU, e, sign, v, w, u) && In(e, k, j, i)
    ensures u.first.at(k, j, i) == v.first.at(k, j, i) <==>
      b.b1 == 0.0 || b.b2 == 0.0 || Filter(firstAtU, e, v.first, k, j, i) == v.first.at(k, j, i)
    ensures u.second.at(k, j, i) == v.second.at(k, j, i) <==>
      b.b1 == 0.0 || b.b2 == 0.0 || Filter(!firstAtU, e, v.second, k, j, i) == v.second.at(k, j, i)
  {
    AffineRoundTrip(b, firstAtU, e, sign, v, w, u, k, j, i);
    SkewVanishes(b);
    ProductVanishes(Skew(b), Filter(firstAtU, e, v.first, k, j, i) - v.first.at(k, j, i));
    ProductVanishes(Skew(b), Filter(!firstAtU, e, v.second, k, j, i) - v.second.at(k, j, i));
  }

  lemma ProductVanishes(x: real, y: real)
    ensures x * y == 0.0 <==> x == 0.0 || y == 0.0
  {
  }

  lemma SkewVanishes(b: Basis)
    requires Determinant(b) > 0.0
    ensures Skew(b) == 0.0 <==> b.b1 == 0.0 || b.b2 == 0.0
  {
    var d := Determinant(b);
    Quotient(-b.b2, d, b.b1);
    ProductVanishes(b.b1, b.b2);
    ProductVanishes(Skew(b), d);
  }

  lemma AverageOfUniform(targetU: bool, e: Extent, f: Cells<real>, x: real, k: int, j: int, i: int)
    requires forall t :: 0 <= t < 4 ==> f.at(k, Faces(targetU, e, j, i)[t].0, Faces(targetU, e, j, i)[t].1) == x
    ensures Average(targetU, e, f, k, j, i) == x
  {
    var faces := Faces(targetU, e, j, i);
    assert faces[0] == (j, i) && faces[1] == (OtherRow(targetU, e, j), i)
      && faces[2] == (j, OtherColumn(targetU, e, i));
    SumOfFour(f, k, faces[0], faces[1], faces[2], faces[3]);
    assert f.at(k, faces[0].0, faces[0].1) == x && f.at(k, faces[1].0, faces[1].1) == x
      && f.at(k, faces[2].0, faces[2].1) == x && f.at(k, faces[3].0, faces[3].1) == x;
  }

  ghost predicate IsConstant(e: Extent, f: Cells<real>, x: real) {
    forall k, j, i {:trigger f.at(k, j, i)} :: In(e, k, j, i) ==> f.at(k, j, i) == x
  }

  lemma FilterOfUniform(targetU: bool, e: Extent, f: Cells<real>, x: real, k: int, j: int, i: int)
    requires IsConstant(e, f, x) && In(e, k, j, i)
    ensures Filter(targetU, e, f, k, j, i) == x
  {
    var faces := Faces(targetU, e, j, i);
    forall t | 0 <= t < 4 ensures Averaged(!targetU, e, f).at(k, faces[t].0, faces[t].1) == x {
      AverageOfUniform(!targetU, e, f, x, k, faces[t].0, faces[t].1);
    }
    AverageOfUniform(targetU, e, Averaged(!targetU, e, f), x, k, j, i);
  }

  /** A uniform pair comes back unchanged on every affine chart, at the clamped edges too. */
  lemma UniformPairComesBack(b: Basis, firstAtU: bool, e: Extent, sign: real, v: Pair, w: Pair, u: Pair, x: real,
      y: real, k: int, j: int, i: int)
    requires Determinant(b) > 0.0 && sign * sign == 1.0 && ComesBack(b, firstAtU, e, sign, v, w, u) && In(e, k, j, i)
    requires IsConstant(e, v.first, x) && IsConstant(e, v.second, y)
    ensures SameAt(u, v, k, j, i)
  {
    FilterOfUniform(firstAtU, e, v.first, x, k, j, i);
    FilterOfUniform(!firstAtU, e, v.second, y, k, j, i);
    AffineRoundTripExactly(b, firstAtU, e, sign, v, w, u, k, j, i);
  }

  // ----- Which faces are read -----

  /** A coefficient times a field at a face. */
  function Weighted(c: Coefficient, f: Cells<real>, k: int, j: int, i: int): real { c.At(j, i) * f.at(k, j, i) }

  /** The cross term at a U face reads the other component's faces in its own row and the row before, in its
      own column and the column after; beyond the edge of the block the nearest face counts again. */
  lemma CrossAtU(e: Extent, f: Cells<real>, c: Coefficient, k: int, j: int, i: int)
    requires In(e, k, j, i)
    ensures j > 0 && i < e.ni - 1 ==>
              WeightedCross(true, e, f, c, k, j, i) ==
              (Weighted(c, f, k, j, i) + Weighted(c, f, k, j - 1, i) + Weighted(c, f, k, j, i + 1) +
                Weighted(c, f, k, j - 1, i + 1)) / 4.0
    ensures j == 0 && i < e.ni - 1 ==>
              WeightedCross(true, e, f, c, k, j, i) == (Weighted(c, f, k, 0, i) + Weighted(c, f, k, 0, i + 1)) / 2.0
    ensures j > 0 && i == e.ni - 1 ==>
              WeightedCross(true, e, f, c, k, j, i) == (Weighted(c, f, k, j, i) + Weighted(c, f, k, j - 1, i)) / 2.0
    ensures j == 0 && i == e.ni - 1 ==> WeightedCross(true, e, f, c, k, j, i) == Weighted(c, f, k, 0, i)
  {
  }

  /** At a V face: its own row and the row after, its own column and the column before. */
  lemma CrossAtV(e: Extent, f: Cells<real>, c: Coefficient, k: int, j: int, i: int)
    requires In(e, k, j, i)
    ensures j < e.nj - 1 && i > 0 ==>
              WeightedCross(false, e, f, c, k, j, i) ==
              (Weighted(c, f, k, j, i) + Weighted(c, f, k, j + 1, i) + Weighted(c, f, k, j, i - 1) +
                Weighted(c, f, k, j + 1, i - 1)) / 4.0
    ensures j == e.nj - 1 && i > 0 ==>
              WeightedCross(false, e, f, c, k, j, i) == (Weighted(c, f, k, j, i) + Weighted(c, f, k, j, i - 1)) / 2.0
    ensures j < e.nj - 1 && i == 0 ==>
              WeightedCross(false, e, f, c, k, j, i) == (Weighted(c, f, k, j, 0) + Weighted(c, f, k, j + 1, 0)) / 2.0
    ensures j == e.nj - 1 && i == 0 ==> WeightedCross(false, e, f, c, k, j, i) == Weighted(c, f, k, j, 0)
  {
  }

  predicate Interior(e: Extent, j: int, i: int) { 0 < j < e.nj - 1 && 0 < i < e.ni - 1 }

  lemma ComponentValue(targetU: bool, m: Map, own: Coefficient, other: Coefficient, f: Cells<real>, g: Cells<real>,
      k: int, j: int, i: int)
    requires Diagonal(m) ==> other == Constant(0.0)
    ensures Component(targetU, m.e, Diagonal(m), own, other, m.sign, f, g, k, j, i) ==
      own.At(j, i) * f.at(k, j, i) + m.sign * WeightedCross(targetU, m.e, g, other, k, j, i)
  {
    if Diagonal(m) { CrossOfZeroCoefficient(targetU, m.e, g, other, k, j, i); }
  }

  /** A transform whose first component sits at U, in the interior: each output adds to its own component,
      weighted at its own face, the signed mean of the four faces of the other one around it, weighted there. */
  lemma TransformFromU(m: Map, v: Pair, k: int, j: int, i: int)
    requires m.firstAtU && Interior(m.e, j, i)
    ensures var (w, a, b) := (Transformed(m, v), m.atSecond.a12, m.atFirst.a21);
            && w.first.at(k, j, i) ==
              m.atFirst.a11.At(j, i) * v.first.at(k, j, i) + m.sign * ((Weighted(a, v.second, k, j, i) +
                Weighted(a, v.second, k, j - 1, i) + Weighted(a, v.second, k, j, i + 1) +
                Weighted(a, v.second, k, j - 1, i + 1)) / 4.0)
            && w.second.at(k, j, i) ==
              m.atSecond.a22.At(j, i) * v.second.at(k, j, i) + m.sign * ((Weighted(b, v.first, k, j, i) +
                Weighted(b, v.first, k, j + 1, i) + Weighted(b, v.first, k, j, i - 1) +
                Weighted(b, v.first, k, j + 1, i - 1)) / 4.0)
  {
    ComponentValue(true, m, m.atFirst.a11, m.atSecond.a12, v.first, v.second, k, j, i);
    ComponentValue(false, m, m.atSecond.a22, m.atFirst.a21, v.second, v.first, k, j, i);
    CrossAtU(m.e, v.second, m.atSecond.a12, k, j, i);
    CrossAtV(m.e, v.first, m.atFirst.a21, k, j, i);
  }

  /** One whose first component sits at V. */
  lemma TransformFromV(m: Map, v: Pair, k: int, j: int, i: int)
    requires !m.firstAtU && Interior(m.e, j, i)
    ensures var (w, a, b) := (Transformed(m, v), m.atSecond.a12, m.atFirst.a21);
            && w.first.at(k, j, i) ==
              m.atFirst.a11.At(j, i) * v.first.at(k, j, i) + m.sign * ((Weighted(a, v.second, k, j, i) +
                Weighted(a, v.second, k, j + 1, i) + Weighted(a, v.second, k, j, i - 1) +
                Weighted(a, v.second, k, j + 1, i - 1)) / 4.0)
            && w.second.at(k, j, i) ==
              m.atSecond.a22.At(j, i) * v.second.at(k, j, i) + m.sign * ((Weighted(b, v.first, k, j, i) +
                Weighted(b, v.first, k, j - 1, i) + Weighted(b, v.first, k, j, i + 1) +
                Weighted(b, v.first, k, j - 1, i + 1)) / 4.0)
  {
    ComponentValue(false, m, m.atFirst.a11, m.atSecond.a12, v.first, v.second, k, j, i);
    ComponentValue(true, m, m.atSecond.a22, m.atFirst.a21, v.second, v.first, k, j, i);
    CrossAtV(m.e, v.second, m.atSecond.a12, k, j, i);
    CrossAtU(m.e, v.first, m.atFirst.a21, k, j, i);
  }

  lemma AverageIsCross(targetU: bool, e: Extent, f: Cells<real>, k: int, j: int, i: int)
    ensures Average(targetU, e, f, k, j, i) == WeightedCross(targetU, e, f, Constant(1.0), k, j, i)
  {
    UniformCross(targetU, e, f, 1.0, k, j, i);
  }

  lemma AverageAtU(e: Extent, f: Cells<real>, k: int, j: int, i: int)
    requires 0 < j < e.nj && 0 <= i < e.ni - 1
    ensures Average(true, e, f, k, j, i) ==
      (f.at(k, j, i) + f.at(k, j - 1, i) + f.at(k, j, i + 1) + f.at(k, j - 1, i + 1)) / 4.0
  {
    AverageIsCross(true, e, f, k, j, i);
    CrossAtU(e, f, Constant(1.0), k, j, i);
  }

  lemma AverageAtV(e: Extent, f: Cells<real>, k: int, j: int, i: int)
    requires 0 <= j < e.nj - 1 && 0 < i < e.ni
    ensures Average(false, e, f, k, j, i) ==
      (f.at(k, j, i) + f.at(k, j + 1, i) + f.at(k, j, i - 1) + f.at(k, j + 1, i - 1)) / 4.0
  {
    AverageIsCross(false, e, f, k, j, i);
    CrossAtV(e, f, Constant(1.0), k, j, i);
  }

  /** Three faces of a row weighted one, two, one. */
  function OneTwoOne(f: Cells<real>, k: int, j: int, i: int): real {
    f.at(k, j, i - 1) + 2.0 * f.at(k, j, i) + f.at(k, j, i + 1)
  }

  /** Averaging to the other component's faces and back is, in the interior, the one-two-one filter along both
      axes. */
  lemma FilterIsStencil(targetU: bool, e: Extent, f: Cells<real>, k: int, j: int, i: int)
    requires Interior(e, j, i)
    ensures Filter(targetU, e, f, k, j, i) ==
      (OneTwoOne(f, k, j - 1, i) + 2.0 * OneTwoOne(f, k, j, i) + OneTwoOne(f, k, j + 1, i)) / 16.0
  {
    var g := Averaged(!targetU, e, f);
    if targetU {
      AverageAtU(e, g, k, j, i);
      AverageAtV(e, f, k, j, i);
      AverageAtV(e, f, k, j - 1, i);
      AverageAtV(e, f, k, j, i + 1);
      AverageAtV(e, f, k, j - 1, i + 1);
    } else {
      AverageAtV(e, g, k, j, i);
      AverageAtU(e, f, k, j, i);
      AverageAtU(e, f, k, j + 1, i);
      AverageAtU(e, f, k, j, i - 1);
      AverageAtU(e, f, k, j + 1, i - 1);
    }
  }

  // ----- What the basis means -----

  lemma CrossOfConstant(targetU: bool, e: Extent, f: Cells<real>, x: real, c: real, k: int, j: int, i: int)
    requires IsConstant(e, f, x) && In(e, k, j, i)
    ensures WeightedCross(targetU, e, f, Constant(c), k, j, i) == c * x
  {
    UniformCross(targetU, e, f, c, k, j, i);
    AverageOfUniform(targetU, e, f, x, k, j, i);
  }

  /** A uniform contravariant pair (x, y) is the physical vector x times the first basis vector plus y times
      the second. */
  lemma PhysicalOfUniform(b: Basis, firstAtU: bool, e: Extent, v: Pair, x: real, y: real, k: int, j: int, i: int)
    requires IsConstant(e, v.first, x) && IsConstant(e, v.second, y) && In(e, k, j, i)
    ensures var w := Transformed(Through(ToPhysical(b), firstAtU, e, 1.0), v);
            w.first.at(k, j, i) == b.b0 * x + b.b1 * y && w.second.at(k, j, i) == b.b2 * x + b.b3 * y
  {
    var m := Through(ToPhysical(b), firstAtU, e, 1.0);
    ComponentValue(firstAtU, m, Constant(b.b0), Constant(b.b1), v.first, v.second, k, j, i);
    ComponentValue(!firstAtU, m, Constant(b.b3), Constant(b.b2), v.second, v.first, k, j, i);
    CrossOfConstant(firstAtU, e, v.second, y, b.b1, k, j, i);
    CrossOfConstant(!firstAtU, e, v.first, x, b.b2, k, j, i);
  }

  /** The covariant metric of the chart, and the contravariant one times the determinant. */
  function CovariantMetric(b: Basis): (real, real, real) {
    (b.b0 * b.b0 + b.b2 * b.b2, b.b0 * b.b1 + b.b2 * b.b3, b.b1 * b.b1 + b.b3 * b.b3)
  }

  function DensityMetric(b: Basis): (real, real, real)
    requires Determinant(b) > 0.0
  {
    var (g11, g12, g22) := CovariantMetric(b);
    (g22 / Determinant(b), -g12 / Determinant(b), g11 / Determinant(b))
  }

  /** The covariant metric gives the squared length of the physical vector. */
  lemma MetricMeasures(b: Basis, x: real, y: real)
    ensures var ((g11, g12, g22), p, q) := (CovariantMetric(b), b.b0 * x + b.b1 * y, b.b2 * x + b.b3 * y);
            g11 * (x * x) + 2.0 * (g12 * (x * y)) + g22 * (y * y) == p * p + q * q
  {
    SquareOfSum(b.b0, x, b.b1, y);
    SquareOfSum(b.b2, x, b.b3, y);
    assert (b.b0 * b.b1 + b.b2 * b.b3) * (x * y) == (b.b0 * b.b1) * (x * y) + (b.b2 * b.b3) * (x * y);
  }

  lemma SquareOfSum(a: real, x: real, c: real, y: real)
    ensures (a * x + c * y) * (a * x + c * y) ==
      (a * a) * (x * x) + 2.0 * ((a * c) * (x * y)) + (c * c) * (y * y)
  {
    assert (a * x) * (c * y) == (a * c) * (x * y);
    assert (a * x) * (a * x) == (a * a) * (x * x) && (c * y) * (c * y) == (c * c) * (y * y);
  }

  /** Its determinant is the square of that of the basis. */
  lemma MetricDeterminant(b: Basis)
    ensures var (g11, g12, g22) := CovariantMetric(b); g11 * g22 - g12 * g12 == Determinant(b) * Determinant(b)
  {
    var p, q, r, s := b.b0 * b.b3, b.b1 * b.b2, b.b0 * b.b1, b.b2 * b.b3;
    assert p * q == r * s;
    assert CovariantMetric(b).0 * CovariantMetric(b).2 == r * r + p * p + q * q + s * s by {
      SquareOfProduct(b.b0, b.b1);
      SquareOfProduct(b.b0, b.b3);
      SquareOfProduct(b.b2, b.b1);
      SquareOfProduct(b.b2, b.b3);
    }
  }

  lemma SquareOfProduct(x: real, y: real)
    ensures (x * y) * (x * y) == (x * x) * (y * y)
  {
  }

  /** The two metrics are inverse up to the determinant. */
  lemma MetricsInvert(b: Basis)
    requires Determinant(b) > 0.0
    ensures var ((g11, g12, g22), (c11, c12, c22)) := (CovariantMetric(b), DensityMetric(b));
            && g11 * c11 + g12 * c12 == Determinant(b) && g11 * c12 + g12 * c22 == 0.0
            && g12 * c11 + g22 * c12 == 0.0 && g12 * c12 + g22 * c22 == Determinant(b)
  {
    var (g11, g12, g22) := CovariantMetric(b);
    var d := Determinant(b);
    MetricDeterminant(b);
    Quotient(g22, d, g11);
    Quotient(-g12, d, g12);
    Quotient(-g12, d, g11);
    Quotient(g11, d, g12);
    Quotient(g22, d, g12);
    Quotient(-g12, d, g22);
    Quotient(g11, d, g22);
    NonzeroCancels(d, g11 * (g22 / d) + g12 * (-g12 / d), d);
    NonzeroCancels(d, g11 * (-g12 / d) + g12 * (g11 / d), 0.0);
    NonzeroCancels(d, g12 * (g22 / d) + g22 * (-g12 / d), 0.0);
    NonzeroCancels(d, g12 * (-g12 / d) + g22 * (g11 / d), d);
  }
}
