/** The staggered transform in memory, and the import of physical vorticity increments into the canonical
    pair: a copy is saved before the physics and its change transformed and added afterwards. */
module VorticityImport {
  import opened HaloFaces
  import opened HaloKernels
  import opened StaggeredTransform

  /** What a transform reads: a field in memory, or the change of one since a saved copy. */
  datatype Volume = Stored(data: array3<real>) | Increment(current: array3<real>, before: array3<real>)

  function Arrays(v: Volume): set<array3<real>> {
    match v case Stored(data) => {data} case Increment(current, before) => {current, before}
  }

  predicate Fits(a: array3<real>, nk: nat, e: Extent) { a.Length0 == nk && a.Length1 == e.nj && a.Length2 == e.ni }

  predicate VolumeFits(v: Volume, nk: nat, e: Extent) {
    match v
    case Stored(data) => Fits(data, nk, e)
    case Increment(current, before) => Fits(current, nk, e) && Fits(before, nk, e)
  }

  function Read(v: Volume, nk: nat, e: Extent, k: int, j: int, i: int): real
    requires VolumeFits(v, nk, e) && 0 <= k < nk && 0 <= j < e.nj && 0 <= i < e.ni
    reads Arrays(v)
  {
    match v case Stored(data) => data[k, j, i] case Increment(current, before) => current[k, j, i] - before[k, j, i]
  }

  ghost predicate Shows(v: Volume, nk: nat, e: Extent, f: Cells<real>)
    requires VolumeFits(v, nk, e)
    reads Arrays(v)
  {
    forall k, j, i :: 0 <= k < nk && 0 <= j < e.nj && 0 <= i < e.ni ==> Read(v, nk, e, k, j, i) == f.at(k, j, i)
  }

  function CrossHere(targetU: bool, v: Volume, nk: nat, e: Extent, c: Coefficient, k: int, j: int, i: int): real
    requires VolumeFits(v, nk, e) && 0 <= k < nk && 0 <= j < e.nj && 0 <= i < e.ni
    reads Arrays(v)
  {
    var j2, i2 := OtherRow(targetU, e, j), OtherColumn(targetU, e, i);
    0.25 * (c.At(j, i) * Read(v, nk, e, k, j, i) + c.At(j2, i) * Read(v, nk, e, k, j2, i) +
      c.At(j, i2) * Read(v, nk, e, k, j, i2) + c.At(j2, i2) * Read(v, nk, e, k, j2, i2))
  }

  function CellHere(targetU: bool, nk: nat, e: Extent, diagonal: bool, own: Coefficient, other: Coefficient,
      sign: real, direct: Volume, cross: Volume, k: int, j: int, i: int): real
    requires VolumeFits(direct, nk, e) && VolumeFits(cross, nk, e) && 0 <= k < nk && 0 <= j < e.nj && 0 <= i < e.ni
    reads Arrays(direct), Arrays(cross)
  {
    if diagonal then own.At(j, i) * Read(direct, nk, e, k, j, i)
    else own.At(j, i) * Read(direct, nk, e, k, j, i) + sign * CrossHere(targetU, cross, nk, e, other, k, j, i)
  }

  lemma CrossHereIsCross(targetU: bool, v: Volume, nk: nat, e: Extent, f: Cells<real>, c: Coefficient, k: int, j: int,
      i: int)
    requires VolumeFits(v, nk, e) && Shows(v, nk, e, f) && 0 <= k < nk && 0 <= j < e.nj && 0 <= i < e.ni
    ensures CrossHere(targetU, v, nk, e, c, k, j, i) == WeightedCross(targetU, e, f, c, k, j, i)
  {
  }

  lemma CellHereIsComponent(targetU: bool, nk: nat, e: Extent, diagonal: bool, own: Coefficient, other: Coefficient,
      sign: real, direct: Volume, cross: Volume, f: Cells<real>, g: Cells<real>, k: int, j: int, i: int)
    requires VolumeFits(direct, nk, e) && VolumeFits(cross, nk, e) && 0 <= k < nk && 0 <= j < e.nj && 0 <= i < e.ni
    requires Shows(direct, nk, e, f) && Shows(cross, nk, e, g)
    ensures CellHere(targetU, nk, e, diagonal, own, other, sign, direct, cross, k, j, i) ==
      Component(targetU, e, diagonal, own, other, sign, f, g, k, j, i)
  {
    CrossHereIsCross(targetU, cross, nk, e, g, other, k, j, i);
    ComponentFrom(targetU, e, diagonal, own, other, sign, f, g, Read(direct, nk, e, k, j, i),
      CrossHere(targetU, cross, nk, e, other, k, j, i), k, j, i);
  }

  lemma ComponentFrom(targetU: bool, e: Extent, diagonal: bool, own: Coefficient, other: Coefficient, sign: real,
      f: Cells<real>, g: Cells<real>, x: real, y: real, k: int, j: int, i: int)
    requires x == f.at(k, j, i) && y == WeightedCross(targetU, e, g, other, k, j, i)
    ensures Component(targetU, e, diagonal, own, other, sign, f, g, k, j, i) ==
      (if diagonal then own.At(j, i) * x else own.At(j, i) * x + sign * y)
  {
  }

  function Result(add: bool, o: Cells<real>, f: Cells<real>): Cells<real> { if add then Plus(o, f) else f }

  function ComponentCells(targetU: bool, e: Extent, diagonal: bool, own: Coefficient, other: Coefficient, sign: real,
      f: Cells<real>, g: Cells<real>): Cells<real>
  {
    Cells((k: int, j: int, i: int) => Component(targetU, e, diagonal, own, other, sign, f, g, k, j, i))
  }

  /** One kernel, of the general path or of the fast one; the output must not be part of what is read. */
  method WriteComponent(targetU: bool, nk: nat, e: Extent, diagonal: bool, own: Coefficient, other: Coefficient,
      sign: real, direct: Volume, cross: Volume, add: bool, out: array3<real>, ghost f: Cells<real>,
      ghost g: Cells<real>, ghost o: Cells<real>)
    requires VolumeFits(direct, nk, e) && VolumeFits(cross, nk, e) && Fits(out, nk, e)
      && out !in Arrays(direct) + Arrays(cross)
    requires Shows(direct, nk, e, f) && Shows(cross, nk, e, g) && Represents(out, o)
    modifies out
    ensures Represents(out, Result(add, o, ComponentCells(targetU, e, diagonal, own, other, sign, f, g)))
  {
    ghost var h := ComponentCells(targetU, e, diagonal, own, other, sign, f, g);
    forall k, j, i | 0 <= k < nk && 0 <= j < e.nj && 0 <= i < e.ni
      ensures CellHere(targetU, nk, e, diagonal, own, other, sign, direct, cross, k, j, i) == h.at(k, j, i)
    {
      CellHereIsComponent(targetU, nk, e, diagonal, own, other, sign, direct, cross, f, g, k, j, i);
    }
    if add {
      forall k, j, i | 0 <= k < nk && 0 <= j < e.nj && 0 <= i < e.ni {
        out[k, j, i] := out[k, j, i] + CellHere(targetU, nk, e, diagonal, own, other, sign, direct, cross, k, j, i);
      }
    } else {
      forall k, j, i | 0 <= k < nk && 0 <= j < e.nj && 0 <= i < e.ni {
        out[k, j, i] := CellHere(targetU, nk, e, diagonal, own, other, sign, direct, cross, k, j, i);
      }
    }
  }

  function ResultPair(add: bool, m: Map, v: Pair, o: Pair): Pair {
    if add then Imported(m, v, o) else Transformed(m, v)
  }

  /** The whole transform: assigned, or added to the outputs. */
  method TransformStaggeredVector(m: Map, nk: nat, first: Volume, second: Volume, out1: array3<real>,
      out2: array3<real>, add: bool, ghost v: Pair, ghost o: Pair)
    requires VolumeFits(first, nk, m.e) && VolumeFits(second, nk, m.e) && Fits(out1, nk, m.e) && Fits(out2, nk, m.e)
    requires out1 != out2 && out1 !in Arrays(first) + Arrays(second) && out2 !in Arrays(first) + Arrays(second)
    requires Shows(first, nk, m.e, v.first) && Shows(second, nk, m.e, v.second) && Represents(out1, o.first)
      && Represents(out2, o.second)
    modifies out1, out2
    ensures Represents(out1, ResultPair(add, m, v, o).first) && Represents(out2, ResultPair(add, m, v, o).second)
  {
    var diagonal := m.atSecond.a12 == Constant(0.0) && m.atFirst.a21 == Constant(0.0);
    WriteComponent(m.firstAtU, nk, m.e, diagonal, m.atFirst.a11, m.atSecond.a12, m.sign, first, second, add, out1,
      v.first, v.second, o.first);
    WriteComponent(!m.firstAtU, nk, m.e, diagonal, m.atSecond.a22, m.atFirst.a21, m.sign, second, first, add, out2,
      v.second, v.first, o.second);
  }

  method Copy(from: array3<real>, to: array3<real>, ghost f: Cells<real>)
    requires from != to && from.Length0 == to.Length0 && from.Length1 == to.Length1 && from.Length2 == to.Length2
      && Represents(from, f)
    modifies to
    ensures Represents(to, f)
  {
    forall k, j, i | 0 <= k < to.Length0 && 0 <= j < to.Length1 && 0 <= i < to.Length2 {
      to[k, j, i] := from[k, j, i];
    }
  }

  /** Physical and canonical vorticity of the dynamical core, with the saved copies of the physical pair
      where the chart needs them. */
  class DynamicalCore {
    const xi: array3<real>
    const eta: array3<real>
    const zeta: array3<real>
    const xiCon: array3<real>
    const etaCon: array3<real>
    const zetaCon: array3<real>
    const before: Option<(array3<real>, array3<real>)>
    const cartesian: bool
    const nk: nat
    /** xi sits at V, and its sign convention makes the cross terms negative. */
    const transform: Map

    function Saved(): set<array3<real>> { if before.Some? then {before.value.0, before.value.1} else {} }

    /** All fields have one shape, and none that is written is another that is read. */
    ghost predicate Valid() {
      && transform.firstAtU == false && transform.sign == -1.0
      && Fits(xi, nk, transform.e) && Fits(eta, nk, transform.e) && Fits(zeta, nk, transform.e)
      && Fits(xiCon, nk, transform.e) && Fits(etaCon, nk, transform.e) && Fits(zetaCon, nk, transform.e)
      && (before.Some? ==> Fits(before.value.0, nk, transform.e) && Fits(before.value.1, nk, transform.e))
      && {xi, eta, zeta} !! {xiCon, etaCon, zetaCon} && {xi, eta, zeta} !! Saved()
        && {xiCon, etaCon, zetaCon} !! Saved()
      && xiCon != etaCon && xiCon != zetaCon && etaCon != zetaCon && (before.Some? ==> before.value.0 != before.value.1)
    }

    constructor (xi: array3<real>, eta: array3<real>, zeta: array3<real>, xiCon: array3<real>, etaCon: array3<real>,
        zetaCon: array3<real>, before: Option<(array3<real>, array3<real>)>, cartesian: bool, nk: nat, transform: Map)
      ensures this.xi == xi && this.eta == eta && this.zeta == zeta && this.xiCon == xiCon && this.etaCon == etaCon
        && this.zetaCon == zetaCon
      ensures this.before == before && this.cartesian == cartesian && this.nk == nk && this.transform == transform
    {
      this.xi, this.eta, this.zeta, this.xiCon, this.etaCon, this.zetaCon := xi, eta, zeta, xiCon, etaCon, zetaCon;
      this.before, this.cartesian, this.nk, this.transform := before, cartesian, nk, transform;
    }

    /** Saves the physical pair, if the chart needs it. */
    method BeginPhysicalVorticityUpdate(ghost v: Pair)
      requires Valid() && Represents(xi, v.first) && Represents(eta, v.second)
      modifies Saved()
      ensures before.Some? ==> Represents(before.value.0, v.first) && Represents(before.value.1, v.second)
    {
      if before.None? { return; }
      Copy(xi, before.value.0, v.first);
      Copy(eta, before.value.1, v.second);
    }

    /** Imports what the physics changed since the copy was saved; without saved copies the Cartesian
        chart takes the physical pair over and any other chart keeps the canonical pair. */
    method FinishPhysicalVorticityUpdate(ghost saved: Pair, ghost v: Pair, ghost z: Cells<real>, ghost canonical: Pair)
      requires Valid() && Represents(xi, v.first) && Represents(eta, v.second) && Represents(zeta, z)
      requires Represents(xiCon, canonical.first) && Represents(etaCon, canonical.second)
      requires before.Some? ==> Represents(before.value.0, saved.first) && Represents(before.value.1, saved.second)
      modifies xiCon, etaCon, zetaCon
      ensures Represents(xiCon, Finished(saved, v, canonical).first)
        && Represents(etaCon, Finished(saved, v, canonical).second) && Represents(zetaCon, z)
    {
      if before.None? {
        if cartesian {
          Copy(xi, xiCon, v.first);
          Copy(eta, etaCon, v.second);
        }
        Copy(zeta, zetaCon, z);
        return;
      }
      TransformStaggeredVector(transform, nk, Increment(xi, before.value.0), Increment(eta, before.value.1), xiCon,
        etaCon, true, Change(saved, v), canonical);
      Copy(zeta, zetaCon, z);
    }

    function Finished(saved: Pair, v: Pair, canonical: Pair): Pair {
      if before.Some? then Imported(transform, Change(saved, v), canonical) else if cartesian then v else canonical
    }

    /** What the import leaves at an interior face: the canonical value, plus the physical increment weighted at
        the face, minus the mean of the other component's increments weighted at the four faces around it;
        around a face of the first component, which sits at V, these are its own row and the row after. */
    lemma FinishedReads(saved: Pair, v: Pair, canonical: Pair, k: int, j: int, i: int)
      requires Valid() && Interior(transform.e, j, i)
      ensures var (w, a, b) := (Finished(saved, v, canonical), transform.atSecond.a12, transform.atFirst.a21);
              before.Some? ==>
                && w.first.at(k, j, i) ==
                  canonical.first.at(k, j, i) + Gain(transform.atFirst.a11, saved.first, v.first, k, j, i) -
                  (Gain(a, saved.second, v.second, k, j, i) + Gain(a, saved.second, v.second, k, j + 1, i) +
                    Gain(a, saved.second, v.second, k, j, i - 1) +
                    Gain(a, saved.second, v.second, k, j + 1, i - 1)) / 4.0
                && w.second.at(k, j, i) ==
                  canonical.second.at(k, j, i) + Gain(transform.atSecond.a22, saved.second, v.second, k, j, i) -
                  (Gain(b, saved.first, v.first, k, j, i) + Gain(b, saved.first, v.first, k, j - 1, i) +
                    Gain(b, saved.first, v.first, k, j, i + 1) + Gain(b, saved.first, v.first, k, j - 1, i + 1)) / 4.0
      ensures before.None? && cartesian ==> Finished(saved, v, canonical) == v
      ensures before.None? && !cartesian ==> Finished(saved, v, canonical) == canonical
    {
      TransformFromV(transform, Change(saved, v), k, j, i);
    }
  }

  /** The increment of a component at a face, weighted there. */
  function Gain(c: Coefficient, saved: Cells<real>, now: Cells<real>, k: int, j: int, i: int): real {
    c.At(j, i) * (now.at(k, j, i) - saved.at(k, j, i))
  }

  /** The increments of the physical pair. */
  function Change(saved: Pair, v: Pair): Pair { Pair(Minus(v.first, saved.first), Minus(v.second, saved.second)) }

  /** Physics that changes nothing leaves every canonical cell as it is, whatever the chart: the import
      does not filter it. */
  lemma NoChangeImportsNothing(m: Map, v: Pair, canonical: Pair, k: int, j: int, i: int)
    ensures SameAt(Imported(m, Change(v, v), canonical), canonical, k, j, i)
  {
    ZeroImportsNothing(m, Change(v, v), canonical, k, j, i);
  }

  /** The canonical pair after updates that took the physical pair from each saved to each final value. */
  function AfterUpdates(m: Map, saved: seq<Pair>, final: seq<Pair>, canonical: Pair): Pair
    requires |saved| == |final|
  {
    ImportedAll(m, seq(|saved|, n requires 0 <= n < |saved| => Change(saved[n], final[n])), canonical)
  }

  /** When nothing else touches the physical pair between the updates of a run, the run imports its
      overall change once. */
  lemma UpdatesTelescope(m: Map, states: seq<Pair>, canonical: Pair, k: int, j: int, i: int)
    requires |states| > 0
    ensures SameAt(AfterUpdates(m, states[..|states| - 1], states[1..], canonical),
      Imported(m, Change(states[0], states[|states| - 1]), canonical), k, j, i)
  {
    var n := |states| - 1;
    var saved, final := states[..n], states[1..];
    var increments := seq(|saved|, t requires 0 <= t < |saved| => Change(saved[t], final[t]));
    ImportsAddUp(m, increments, canonical, k, j, i);
    TotalIsChange(states, increments);
    SameTransform(m, Total(increments), Change(states[0], states[n]), k, j, i);
  }

  ghost predicate Alike(f: Cells<real>, g: Cells<real>) { forall k, j, i :: f.at(k, j, i) == g.at(k, j, i) }

  lemma TotalIsChange(states: seq<Pair>, increments: seq<Pair>)
    requires |states| == |increments| + 1
      && forall t :: 0 <= t < |increments| ==> increments[t] == Change(states[t], states[t + 1])
    ensures var c := Change(states[0], states[|increments|]);
            Alike(Total(increments).first, c.first) && Alike(Total(increments).second, c.second)
  {
    assert increments[..|increments|] == increments;
    var total, c := Total(increments), Change(states[0], states[|increments|]);
    forall k, j, i
      ensures total.first.at(k, j, i) == c.first.at(k, j, i) && total.second.at(k, j, i) == c.second.at(k, j, i)
    {
      TotalTelescopes(states, increments, |increments|, k, j, i);
    }
  }

  lemma {:induction false} TotalTelescopes(states: seq<Pair>, increments: seq<Pair>, n: nat, k: int, j: int, i: int)
    requires |states| == |increments| + 1 && n <= |increments|
    requires forall t :: 0 <= t < |increments| ==> increments[t] == Change(states[t], states[t + 1])
    ensures SameAt(Total(increments[..n]), Change(states[0], states[n]), k, j, i)
  {
    if n > 0 {
      TotalTelescopes(states, increments, n - 1, k, j, i);
      assert increments[..n][..n - 1] == increments[..n - 1];
    }
  }

  lemma AlikeComponents(targetU: bool, e: Extent, diagonal: bool, own: Coefficient, other: Coefficient, sign: real,
      f: Cells<real>, g: Cells<real>, p: Cells<real>, q: Cells<real>, k: int, j: int, i: int)
    requires Alike(f, p) && Alike(g, q)
    ensures Component(targetU, e, diagonal, own, other, sign, f, g, k, j, i) ==
      Component(targetU, e, diagonal, own, other, sign, p, q, k, j, i)
  {
    assert WeightedCross(targetU, e, g, other, k, j, i) == WeightedCross(targetU, e, q, other, k, j, i);
  }

  lemma SameTransform(m: Map, v: Pair, w: Pair, k: int, j: int, i: int)
    requires Alike(v.first, w.first) && Alike(v.second, w.second)
    ensures SameAt(Transformed(m, v), Transformed(m, w), k, j, i)
  {
    AlikeComponents(m.firstAtU, m.e, Diagonal(m), m.atFirst.a11, m.atSecond.a12, m.sign, v.first, v.second, w.first,
      w.second, k, j, i);
    AlikeComponents(!m.firstAtU, m.e, Diagonal(m), m.atSecond.a22, m.atFirst.a21, m.sign, v.second, v.first, w.second,
      w.first, k, j, i);
  }
}
