/** Output of a window of the global field: every rank clips the window to its block and writes the
    clipped part; together the ranks write each window cell once. */
module OutputWindow {
  import opened HaloFaces
  import opened HaloExchange

  /** The configured window, ends included; it may reach past the domain or be empty. */
  datatype Window = Window(zStart: nat, zEnd: nat, yStart: nat, yEnd: nat, xStart: nat, xEnd: nat)

  function Max(a: nat, b: nat): nat { if a > b then a else b }

  function Min(a: nat, b: nat): nat { if a < b then a else b }

  predicate InWindow(w: Window, k: int, j: int, i: int) {
    w.zStart <= k <= w.zEnd && w.yStart <= j <= w.yEnd && w.xStart <= i <= w.xEnd
  }

  /** A rank is responsible for the window cells of its own block. */
  predicate Writes(g: Layout, nz: nat, w: Window, c: Coord, k: int, j: int, i: int) {
    InWindow(w, k, j, i) && 0 <= k < nz && Owned(g, Y, c.y, j) && Owned(g, X, c.x, i)
  }

  /** Start and number of the indices of off..off+n that lie in start..end. */
  method Clip(off: nat, n: nat, start: nat, end: nat) returns (first: nat, count: nat)
    requires n >= 1
    ensures forall x :: In(first, count, x) <==> In(off, n, x) && start <= x <= end
    ensures first == if off > start then off else start
  {
    first := Max(off, start);
    var last := Min(off + n - 1, end);
    count := if last >= first then last - first + 1 else 0;
  }

  class OutputManager<T(0)> {
    const layout: Layout
    const me: Coord
    const nz: Pos
    const window: Window
    var defined: bool
    var starts: (nat, nat, nat)
    var counts: (nat, nat, nat)

    ghost predicate Valid()
      reads this
    {
      && InGrid(layout, me) && HaloExchange.Valid(layout) && SizeAt(layout, Y, me) >= 1 && SizeAt(layout, X, me) >= 1
      && (defined ==>
            && starts ==
              (window.zStart, Max(First(layout, Y, me.y), window.yStart), Max(First(layout, X, me.x), window.xStart))
            && forall k, j, i :: Covers(starts, counts, k, j, i) <==> Writes(layout, nz, window, me, k, j, i))
    }

    constructor (layout: Layout, me: Coord, nz: Pos, window: Window)
      requires InGrid(layout, me) && HaloExchange.Valid(layout) && SizeAt(layout, Y, me) >= 1
        && SizeAt(layout, X, me) >= 1
      ensures Valid() && this.layout == layout && this.me == me && this.nz == nz && this.window == window
    {
      this.layout, this.me, this.nz, this.window := layout, me, nz, window;
      defined, starts, counts := false, (0, 0, 0), (0, 0, 0);
    }

    static predicate Covers(start: (nat, nat, nat), count: (nat, nat, nat), k: int, j: int, i: int) {
      In(start.0, count.0, k) && In(start.1, count.1, j) && In(start.2, count.2, i)
    }

    /** Declares the block this rank will write. */
    method DefineVariables()
      requires Valid()
      modifies this
      ensures Valid() && defined
    {
      var z, countZ := Clip(0, nz, window.zStart, window.zEnd);
      var y, countY := Clip(First(layout, Y, me.y), SizeAt(layout, Y, me), window.yStart, window.yEnd);
      var x, countX := Clip(First(layout, X, me.x), SizeAt(layout, X, me), window.xStart, window.xEnd);
      starts, counts := (z, y, x), (countZ, countY, countX);
      defined := true;
      forall k, j, i ensures Covers(starts, counts, k, j, i) <==> Writes(layout, nz, window, me, k, j, i) {
        assert In(z, countZ, k) <==> In(0, nz, k) && window.zStart <= k <= window.zEnd;
      }
    }

    /** Copies the declared block out of the field: `start` and the buffer are what reaches the file. */
    method Write(data: array3<T>) returns (start: (nat, nat, nat), buffer: array3<T>)
      requires Valid() && data.Length0 == nz + 2 * layout.h && data.Length1 == Extent(layout, Y, me)
        && data.Length2 == Extent(layout, X, me)
      modifies this
      ensures Valid() && fresh(buffer)
      ensures forall k, j, i :: Covers(start, (buffer.Length0, buffer.Length1, buffer.Length2), k, j, i) <==>
                Writes(layout, nz, window, me, k, j, i)
      ensures forall k, j, i :: Writes(layout, nz, window, me, k, j, i) ==>
                && Covers(start, (buffer.Length0, buffer.Length1, buffer.Length2), k, j, i)
                && buffer[k - start.0, j - start.1, i - start.2] ==
                   data[k + layout.h, j - First(layout, Y, me.y) + layout.h, i - First(layout, X, me.x) + layout.h]
    {
      if !defined { DefineVariables(); }
      var h := layout.h;
      start := (Max(0, window.zStart), Max(First(layout, Y, me.y), window.yStart),
        Max(First(layout, X, me.x), window.xStart));
      var kStart, jStart, iStart :=
        start.0 + h, start.1 - First(layout, Y, me.y) + h, start.2 - First(layout, X, me.x) + h;
      if counts.0 > 0 && counts.1 > 0 && counts.2 > 0 { BlockInField(counts); }
      buffer := CopyBlock(data, kStart, jStart, iStart, counts);
      ghost var c := counts;
      forall k, j, i | Writes(layout, nz, window, me, k, j, i)
        ensures Covers(start, c, k, j, i)
        ensures buffer[k - start.0, j - start.1, i - start.2] ==
          data[k + h, j - First(layout, Y, me.y) + h, i - First(layout, X, me.x) + h]
      {
        assert Covers(start, c, k, j, i);
      }
    }

    static method CopyBlock(data: array3<T>, kStart: int, jStart: int, iStart: int, count: (nat, nat, nat))
        returns (buffer: array3<T>)
      requires count.0 > 0 && count.1 > 0 && count.2 > 0 ==>
                 && 0 <= kStart && kStart + count.0 <= data.Length0 && 0 <= jStart && jStart + count.1 <= data.Length1
                 && 0 <= iStart && iStart + count.2 <= data.Length2
      ensures fresh(buffer) && buffer.Length0 == count.0 && buffer.Length1 == count.1 && buffer.Length2 == count.2
      ensures forall k, j, i :: 0 <= k < count.0 && 0 <= j < count.1 && 0 <= i < count.2 ==>
                buffer[k, j, i] == data[kStart + k, jStart + j, iStart + i]
    {
      buffer := new T[count.0, count.1, count.2];
      forall k, j, i | 0 <= k < count.0 && 0 <= j < count.1 && 0 <= i < count.2 {
        buffer[k, j, i] := data[kStart + k, jStart + j, iStart + i];
      }
    }

    /** The first and the last cell of a nonempty block are cells to write, hence physical cells. */
    lemma BlockInField(c: (nat, nat, nat))
      requires Valid() && defined && c == counts && c.0 > 0 && c.1 > 0 && c.2 > 0
      ensures starts.0 + c.0 <= nz
      ensures First(layout, Y, me.y) <= starts.1 && starts.1 + c.1 <= First(layout, Y, me.y) + SizeAt(layout, Y, me)
      ensures First(layout, X, me.x) <= starts.2 && starts.2 + c.2 <= First(layout, X, me.x) + SizeAt(layout, X, me)
    {
      assert Covers(starts, c, starts.0, starts.1, starts.2);
      assert Covers(starts, c, starts.0 + c.0 - 1, starts.1 + c.1 - 1, starts.2 + c.2 - 1);
    }
  }

  // ----- All ranks together -----

  predicate InDomain(g: Layout, nz: nat, k: int, j: int, i: int) {
    0 <= k < nz && 0 <= j < Points(g, Y) && 0 <= i < Points(g, X)
  }

  /** Each cell of the window inside the domain is written by exactly one rank, and no rank writes
      any other cell. */
  lemma WindowIsTiled(g: Layout, nz: nat, w: Window, k: int, j: int, i: int)
    requires Valid(g)
    ensures InWindow(w, k, j, i) && InDomain(g, nz, k, j, i) <==>
      exists c :: InGrid(g, c) && Writes(g, nz, w, c, k, j, i)
    ensures forall c, c' ::
              InGrid(g, c) && InGrid(g, c') && Writes(g, nz, w, c, k, j, i) && Writes(g, nz, w, c', k, j, i) ==> c == c'
  {
    OneOwner(g, Y, j);
    OneOwner(g, X, i);
    if InWindow(w, k, j, i) && InDomain(g, nz, k, j, i) {
      var y: nat :| y < Ranks(g, Y) && Owned(g, Y, y, j);
      var x: nat :| x < Ranks(g, X) && Owned(g, X, x, i);
      assert InGrid(g, Coord(y, x)) && Writes(g, nz, w, Coord(y, x), k, j, i);
    }
  }

  /** What some rank puts in the file at a global cell. */
  ghost predicate FileHolds<T>(g: Layout, nz: nat, w: Window, blocks: Coord -> Cells<T>, k: int, j: int, i: int, v: T) {
    exists c :: InGrid(g, c) && Writes(g, nz, w, c, k, j, i)
      && v == blocks(c).at(k + g.h, j - First(g, Y, c.y) + g.h, i - First(g, X, c.x) + g.h)
  }

  lemma WrittenIsGlobal<T>(g: Layout, nz: nat, w: Window, global: Cells<T>, blocks: Coord -> Cells<T>, job: Job,
      c: Coord, k: int, j: int, i: int)
    requires Valid(g) && job.layer == g.h && job.layers == nz && Scattered(g, global, blocks, job)
    requires InGrid(g, c) && Writes(g, nz, w, c, k, j, i)
    ensures blocks(c).at(k + g.h, j - First(g, Y, c.y) + g.h, i - First(g, X, c.x) + g.h) == global.at(k + g.h, j, i)
  {
    var j', i' := j - First(g, Y, c.y) + g.h, i - First(g, X, c.x) + g.h;
    assert GlobalOf(g, Y, c.y, j') == j && GlobalOf(g, X, c.x, i') == i && InLayers(job, k + g.h);
  }

  /** Assembled from all ranks, the file is the global field restricted to the window: each window cell
      holds its global value and nothing else, and no other cell is written. */
  lemma FileIsGlobalWindow<T>(g: Layout, nz: nat, w: Window, global: Cells<T>, blocks: Coord -> Cells<T>, job: Job,
      k: int, j: int, i: int, v: T)
    requires Valid(g) && job.layer == g.h && job.layers == nz && Scattered(g, global, blocks, job)
    ensures FileHolds(g, nz, w, blocks, k, j, i, v) <==>
      && w.zStart <= k <= w.zEnd && w.yStart <= j <= w.yEnd && w.xStart <= i <= w.xEnd
      && 0 <= k < nz && 0 <= j < Points(g, Y) && 0 <= i < Points(g, X) && v == global.at(k + g.h, j, i)
  {
    WindowIsTiled(g, nz, w, k, j, i);
    forall c | InGrid(g, c) && Writes(g, nz, w, c, k, j, i)
      ensures blocks(c).at(k + g.h, j - First(g, Y, c.y) + g.h, i - First(g, X, c.x) + g.h) == global.at(k + g.h, j, i)
    {
      WrittenIsGlobal(g, nz, w, global, blocks, job, c, k, j, i);
    }
  }
}
