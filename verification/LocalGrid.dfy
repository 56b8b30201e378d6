/** Construction of a rank's local grid: the process grid, the periodicity, the rank's block on each
    axis and the checks on it. */
module LocalGrid {
  import opened Decomposition
  import opened HaloFaces
  import opened HaloExchange

  /** What the configuration says of the domain. */
  datatype Domain = Domain(nz: Pos, ny: Pos, nx: Pos, halo: nat, wrapsQ2: bool, wrapsQ1: bool, radiation: bool)

  /** One axis of the local grid. */
  datatype Dimension = Dimension(globalSize: Pos, start: int, end: int, size: nat, halo: nat)

  datatype Failure =
    | DimsCreateFailed
    | UnevenForRadiation
    | NoCartesianCommunicator
    | NarrowerThanHalo

  /** Processes along (y, x).  `factors` is what MPI_Dims_create answers. */
  function ProcessDims(dom: Domain, ranks: Pos, factors: (Pos, Pos)): (Pos, Pos) {
    if dom.ny > 1 && dom.nx > 1 then factors
    else if dom.nx > 1 then (1, ranks)
    else if dom.ny > 1 then (ranks, 1)
    else (1, 1)
  }

  function Split(n: Pos, p: Pos): (s: seq<nat>)
    ensures |s| == p + 1 && forall c: nat :: c <= p ==> s[c] == StartOf(n, p, c)
  {
    seq(p + 1, (c: nat) => StartOf(n, p, c))
  }

  /** Periods of the communicator along (y, x): never along a singleton axis. */
  function PeriodsOf(dom: Domain): (bool, bool) {
    (dom.ny > 1 && dom.wrapsQ2, dom.nx > 1 && dom.wrapsQ1)
  }

  /** The decomposition that the ranks' local grids add up to. */
  function LayoutOf(dom: Domain, dims: (Pos, Pos)): Layout {
    Layout(Split(dom.ny, dims.0), Split(dom.nx, dims.1), dom.halo, PeriodsOf(dom).0, PeriodsOf(dom).1)
  }

  function GlobalPoints(dom: Domain, a: Axis): Pos { if a == Y then dom.ny else dom.nx }

  function ProcessesAlong(dims: (Pos, Pos), a: Axis): Pos { if a == Y then dims.0 else dims.1 }

  predicate Divides(p: Pos, n: Pos) { n % p == 0 }

  predicate InProcesses(dims: (Pos, Pos), c: Coord) { c.y < dims.0 && c.x < dims.1 }

  /** The block of a rank is at least as wide as the halo along every axis of more than one point. */
  predicate HoldsHalo(g: Layout, c: Coord) {
    (Singleton(g, Y) || SizeAt(g, Y, c) >= g.h) && (Singleton(g, X) || SizeAt(g, X, c) >= g.h)
  }

  /** The block of a place on an axis. */
  predicate IsBlock(d: Dimension, g: Layout, a: Axis, place: nat) {
    && d.globalSize == Points(g, a) && d.halo == g.h
    && d.start == First(g, a, place) && d.size == Size(g, a, place) && d.end == d.start + d.size - 1
  }

  lemma SplitTiles(n: Pos, p: Pos)
    ensures Tiled(Split(n, p)) && Split(n, p)[p] == n
    ensures forall c: nat :: c < p ==> Split(n, p)[c + 1] - Split(n, p)[c] == SizeOf(n, p, c)
  {
    var s := Split(n, p);
    BlocksTouch(n, p, 0);
    forall i, j | 0 <= i <= j < |s| ensures s[i] <= s[j] { StartsAscend(n, p, i, j); }
    forall c: nat | c < p ensures s[c + 1] - s[c] == SizeOf(n, p, c) { BlocksTouch(n, p, c); }
  }

  /** A layout's axis has the split's points, ranks, starts and sizes. */
  lemma LayoutAxis(dom: Domain, dims: (Pos, Pos), a: Axis, c: nat)
    requires c < ProcessesAlong(dims, a)
    ensures var (n, p, g) := (GlobalPoints(dom, a), ProcessesAlong(dims, a), LayoutOf(dom, dims));
            Ranks(g, a) == p && Points(g, a) == n && First(g, a, c) == StartOf(n, p, c)
              && Size(g, a, c) == SizeOf(n, p, c) && Tiled(SplitOf(g, a))
  {
    SplitTiles(GlobalPoints(dom, a), ProcessesAlong(dims, a));
  }

  /** The communicator wraps an axis exactly when the topology does and the axis has several points. */
  lemma LayoutWraps(dom: Domain, dims: (Pos, Pos), a: Axis)
    ensures Wraps(LayoutOf(dom, dims), a) <==> GlobalPoints(dom, a) > 1 && (if a == Y then dom.wrapsQ2 else dom.wrapsQ1)
  {
    LayoutAxis(dom, dims, a, 0);
  }

  /** Radiation needs processes that divide both axes evenly. */
  predicate Refused(dom: Domain, dims: (Pos, Pos)) {
    dom.radiation && !(Divides(dims.0, dom.ny) && Divides(dims.1, dom.nx))
  }

  class Grid {
    const domain: Domain
    var dimZ: Dimension
    var dimY: Dimension
    var dimX: Dimension
    var processes: (Pos, Pos)
    var periods: (bool, bool)

    predicate Valid()
      reads this
    {
      && dimZ.globalSize == domain.nz && dimY.globalSize == domain.ny && dimX.globalSize == domain.nx
      && dimZ.halo == domain.halo && dimY.halo == domain.halo && dimX.halo == domain.halo
    }

    constructor (domain: Domain)
      ensures Valid() && this.domain == domain
    {
      this.domain := domain;
      dimZ := Dimension(domain.nz, 0, 0, 0, domain.halo);
      dimY := Dimension(domain.ny, 0, 0, 0, domain.halo);
      dimX := Dimension(domain.nx, 0, 0, 0, domain.halo);
      processes := (1, 1);
      periods := (false, false);
    }

    method DecomposeY(c: nat)
      requires Valid() && c < processes.0
      modifies `dimY
      ensures Valid()
      ensures IsBlock(dimY, LayoutOf(domain, processes), Y, c)
    {
      LayoutAxis(domain, processes, Y, c);
      var axis := dimY;
      if processes.0 == 1 {
        dimY := axis.(size := axis.globalSize, start := 0, end := axis.globalSize - 1);
      } else {
        var base, remainder := axis.globalSize / processes.0, axis.globalSize % processes.0;
        var start := c * base + if c < remainder then c else remainder;
        var size := base + if c < remainder then 1 else 0;
        dimY := axis.(start := start, size := size, end := start + size - 1);
      }
    }

    method DecomposeX(c: nat)
      requires Valid() && c < processes.1 && (domain.nx == 1 ==> processes.1 == 1)
      modifies `dimX
      ensures Valid()
      ensures IsBlock(dimX, LayoutOf(domain, processes), X, c)
    {
      LayoutAxis(domain, processes, X, c);
      var axis := dimX;
      if axis.globalSize == 1 {
        dimX := axis.(size := axis.globalSize, start := 0, end := axis.globalSize - 1);
      } else {
        var base, remainder := axis.globalSize / processes.1, axis.globalSize % processes.1;
        var start := c * base + if c < remainder then c else remainder;
        var size := base + if c < remainder then 1 else 0;
        dimX := axis.(start := start, size := size, end := start + size - 1);
      }
    }

    /** Process grid and periodicity; `factors` is the answer of MPI_Dims_create, if it succeeds. */
    method ChooseProcesses(ranks: Pos, factors: Option<(Pos, Pos)>) returns (ok: bool)
      requires Valid()
      modifies `processes, `periods
      ensures Valid() && (ok <==> domain.ny == 1 || domain.nx == 1 || factors.Some?)
      ensures ok ==> processes == ProcessDims(domain, ranks, factors.GetOr((1, 1))) && periods == PeriodsOf(domain)
      ensures ok && (domain.ny > 1 || domain.nx > 1)
                && (factors.Some? ==> factors.value.0 * factors.value.1 == ranks) ==>
                processes.0 * processes.1 == ranks
      ensures ok && domain.ny > 1 && domain.nx > 1 ==> Some(processes) == factors
    {
      var py: Pos, px: Pos := 1, 1;
      periods := (domain.ny > 1 && domain.wrapsQ2, domain.nx > 1 && domain.wrapsQ1);
      if dimY.globalSize == 1 && dimX.globalSize > 1 {
        py, px := 1, ranks;
        periods := (false, periods.1);
      } else if dimX.globalSize == 1 && dimY.globalSize > 1 {
        py, px := ranks, 1;
        periods := (periods.0, false);
      } else if dimX.globalSize > 1 && dimY.globalSize > 1 {
        if factors.None? { return false; }
        py, px := factors.value.0, factors.value.1;
      }
      processes := (py, px);
      return true;
    }

    method DecomposeAxes(c: Coord) returns (wide: bool)
      requires Valid() && c.y < processes.0 && c.x < processes.1 && (domain.nx == 1 ==> processes.1 == 1)
      modifies `dimY, `dimX
      ensures Valid()
      ensures IsBlock(dimY, LayoutOf(domain, processes), Y, c.y) && IsBlock(dimX, LayoutOf(domain, processes), X, c.x)
      ensures wide <==> HoldsHalo(LayoutOf(domain, processes), c)
    {
      DecomposeY(c.y);
      DecomposeX(c.x);
      wide := !((dimY.globalSize > 1 && dimY.size < dimZ.halo) || (dimX.globalSize > 1 && dimX.size < dimZ.halo));
    }

    /** `factors` is the answer of MPI_Dims_create and `coords` the rank's Cartesian coordinates if it
        belongs to the Cartesian communicator; both are MPI's choice, within MPI's own contract. */
    method CalculateLocalGridDistribution(ranks: Pos, factors: Option<(Pos, Pos)>, coords: Option<Coord>)
        returns (failure: Option<Failure>)
      requires Valid()
      requires factors.Some? ==> factors.value.0 * factors.value.1 == ranks
      requires coords.Some? ==> InProcesses(ProcessDims(domain, ranks, factors.GetOr((1, 1))), coords.value)
      modifies this
      ensures Valid()
      ensures var dims := ProcessDims(domain, ranks, factors.GetOr((1, 1)));
              && (failure == Some(DimsCreateFailed) <==> domain.ny > 1 && domain.nx > 1 && factors.None?)
              && (failure != Some(DimsCreateFailed) ==>
                    && processes == dims && periods == PeriodsOf(domain)
                    && (domain.ny > 1 || domain.nx > 1 ==> processes.0 * processes.1 == ranks)
                    && (failure == Some(UnevenForRadiation) <==> Refused(domain, dims))
                    && (!Refused(domain, dims) ==>
                          && (failure == Some(NoCartesianCommunicator) <==> coords.None?)
                          && (coords.Some? ==>
                                && (failure == Some(NarrowerThanHalo) <==>
                                  !HoldsHalo(LayoutOf(domain, dims), coords.value))
                                && dimZ == Dimension(domain.nz, 0, domain.nz - 1, domain.nz, domain.halo)
                                && IsBlock(dimY, LayoutOf(domain, dims), Y, coords.value.y)
                                && IsBlock(dimX, LayoutOf(domain, dims), X, coords.value.x))))
    {
      dimZ := dimZ.(size := dimZ.globalSize, start := 0, end := dimZ.globalSize - 1);
      var ok := ChooseProcesses(ranks, factors);
      if !ok { return Some(DimsCreateFailed); }
      if dimX.globalSize % processes.1 != 0 || dimY.globalSize % processes.0 != 0 {
        if domain.radiation { return Some(UnevenForRadiation); }
      }
      if coords.None? { return Some(NoCartesianCommunicator); }
      var wide := DecomposeAxes(coords.value);
      return if wide then None else Some(NarrowerThanHalo);
    }
  }

  // ----- All ranks together -----

  lemma LastIsSmallest(n: Pos, p: Pos, h: nat)
    ensures (forall c: nat :: c < p ==> SizeOf(n, p, c) >= h) <==> n / p >= h
  {
    assert SizeOf(n, p, p - 1) == n / p by { BlocksTouch(n, p, 0); }
  }

  lemma AxisAccepts(dom: Domain, dims: (Pos, Pos), a: Axis)
    requires (dom.ny == 1 ==> dims.0 == 1) && (dom.nx == 1 ==> dims.1 == 1)
    ensures ValidAxis(LayoutOf(dom, dims), a) <==>
      GlobalPoints(dom, a) > 1 ==> GlobalPoints(dom, a) / ProcessesAlong(dims, a) >= dom.halo
  {
    var n, p, g := GlobalPoints(dom, a), ProcessesAlong(dims, a), LayoutOf(dom, dims);
    forall c: nat | c < p ensures Size(g, a, c) == SizeOf(n, p, c) { LayoutAxis(dom, dims, a, c); }
    LayoutAxis(dom, dims, a, 0);
    LastIsSmallest(n, p, dom.halo);
  }

  lemma AllHoldHalo(g: Layout)
    requires Tiled(g.y) && Tiled(g.x) && (Singleton(g, Y) ==> Ranks(g, Y) == 1)
      && (Singleton(g, X) ==> Ranks(g, X) == 1)
    ensures Valid(g) <==> forall c :: InGrid(g, c) ==> HoldsHalo(g, c)
  {
    if forall c :: InGrid(g, c) ==> HoldsHalo(g, c) {
      forall place: nat | place < Ranks(g, Y) && !Singleton(g, Y) ensures Size(g, Y, place) >= g.h {
        assert HoldsHalo(g, Coord(place, 0));
      }
      forall place: nat | place < Ranks(g, X) && !Singleton(g, X) ensures Size(g, X, place) >= g.h {
        assert HoldsHalo(g, Coord(0, place));
      }
    }
  }

  /** Every rank accepts its block exactly when the quotient of the split is at least the halo width on
      every axis of more than one point, and exactly then the layout is what the halo exchange needs. */
  lemma AllRanksAccept(dom: Domain, ranks: Pos, factors: (Pos, Pos))
    ensures var dims := ProcessDims(dom, ranks, factors);
            var g := LayoutOf(dom, dims);
            && (Valid(g) <==>
              (dom.ny > 1 ==> dom.ny / dims.0 >= dom.halo) && (dom.nx > 1 ==> dom.nx / dims.1 >= dom.halo))
            && (Valid(g) <==> forall c :: InGrid(g, c) ==> HoldsHalo(g, c))
  {
    var dims := ProcessDims(dom, ranks, factors);
    AxisAccepts(dom, dims, Y);
    AxisAccepts(dom, dims, X);
    LayoutAxis(dom, dims, Y, 0);
    LayoutAxis(dom, dims, X, 0);
    AllHoldHalo(LayoutOf(dom, dims));
  }

  // ----- Every rank has a place and every point a rank -----

  /** All ranks are in the process grid, unless the domain is a single column, which every rank copies; an
      axis of one point is not divided, and where both are MPI's answer is taken. */
  lemma ProcessesAreRanks(dom: Domain, ranks: Pos, factors: (Pos, Pos))
    requires factors.0 * factors.1 == ranks
    ensures var dims := ProcessDims(dom, ranks, factors);
            && (dom.ny > 1 || dom.nx > 1 ==> dims.0 * dims.1 == ranks)
            && (dom.ny == 1 ==> dims.0 == 1) && (dom.nx == 1 ==> dims.1 == 1)
            && (dom.ny > 1 && dom.nx > 1 ==> dims == factors)
  {
  }

  /** The coordinates of a rank of the Cartesian communicator, numbered row by row. */
  function CoordsOf(rank: nat, px: Pos): Coord { Coord(rank / px, rank % px) }

  /** The rank's block contains the global point. */
  predicate HasPoint(dom: Domain, dims: (Pos, Pos), rank: nat, j: int, i: int) {
    var (g, c) := (LayoutOf(dom, dims), CoordsOf(rank, dims.1));
    Owned(g, Y, c.y, j) && Owned(g, X, c.x, i)
  }

  lemma RankAt(c: Coord, dims: (Pos, Pos), ranks: nat) returns (rank: nat)
    requires InProcesses(dims, c) && dims.0 * dims.1 == ranks
    ensures rank < ranks && CoordsOf(rank, dims.1) == c
  {
    rank := c.y * dims.1 + c.x;
    DivMod(c.y, c.x, dims.1);
    MulLess(c.y, c.x, dims.0, dims.1);
  }

  lemma CoordsInside(rank: nat, dims: (Pos, Pos), ranks: nat)
    requires rank < ranks && dims.0 * dims.1 == ranks
    ensures InProcesses(dims, CoordsOf(rank, dims.1)) && rank == (rank / dims.1) * dims.1 + rank % dims.1
  {
    DivBelow(rank, dims.0, dims.1);
  }

  lemma SamePlace(dom: Domain, dims: (Pos, Pos), ranks: nat, r: nat, q: nat, j: int, i: int)
    requires dims.0 * dims.1 == ranks && r < ranks && q < ranks
    requires HasPoint(dom, dims, r, j, i) && HasPoint(dom, dims, q, j, i)
    requires Tiled(LayoutOf(dom, dims).y) && Tiled(LayoutOf(dom, dims).x)
    ensures r == q
  {
    var g := LayoutOf(dom, dims);
    CoordsInside(r, dims, ranks);
    CoordsInside(q, dims, ranks);
    LayoutAxis(dom, dims, Y, 0);
    LayoutAxis(dom, dims, X, 0);
    OneBlock(g, Y, CoordsOf(r, dims.1).y, CoordsOf(q, dims.1).y, j);
    OneBlock(g, X, CoordsOf(r, dims.1).x, CoordsOf(q, dims.1).x, i);
  }

  lemma OneBlock(g: Layout, a: Axis, p: nat, q: nat, x: int)
    requires Tiled(SplitOf(g, a)) && p < Ranks(g, a) && q < Ranks(g, a) && Owned(g, a, p, x) && Owned(g, a, q, x)
    ensures p == q
  {
  }

  lemma AxisOwner(dom: Domain, dims: (Pos, Pos), a: Axis, x: nat) returns (place: nat)
    requires x < GlobalPoints(dom, a)
    ensures place < ProcessesAlong(dims, a) && Owned(LayoutOf(dom, dims), a, place, x)
  {
    LayoutAxis(dom, dims, a, 0);
    BlocksTile(GlobalPoints(dom, a), ProcessesAlong(dims, a), x);
    place :| place < ProcessesAlong(dims, a) && Owns(GlobalPoints(dom, a), ProcessesAlong(dims, a), place, x);
    LayoutAxis(dom, dims, a, place);
  }

  /** Whatever factors MPI picks, each point of a domain of several columns is in the block of exactly one
      of the ranks. */
  lemma RanksTileDomain(dom: Domain, ranks: Pos, factors: (Pos, Pos), j: nat, i: nat)
    requires factors.0 * factors.1 == ranks && (dom.ny > 1 || dom.nx > 1) && j < dom.ny && i < dom.nx
    ensures var dims := ProcessDims(dom, ranks, factors);
            && (exists r: nat :: r < ranks && HasPoint(dom, dims, r, j, i))
            && forall r: nat, q: nat ::
                 r < ranks && q < ranks && HasPoint(dom, dims, r, j, i) && HasPoint(dom, dims, q, j, i) ==> r == q
  {
    var dims := ProcessDims(dom, ranks, factors);
    ProcessesAreRanks(dom, ranks, factors);
    var y := AxisOwner(dom, dims, Y, j);
    var x := AxisOwner(dom, dims, X, i);
    var rank := RankAt(Coord(y, x), dims, ranks);
    assert HasPoint(dom, dims, rank, j, i);
    LayoutAxis(dom, dims, Y, 0);
    LayoutAxis(dom, dims, X, 0);
    forall r: nat, q: nat
      | r < ranks && q < ranks && HasPoint(dom, dims, r, j, i) && HasPoint(dom, dims, q, j, i)
      ensures r == q
    {
      SamePlace(dom, dims, ranks, r, q, j, i);
    }
  }

  lemma EvenSizes(n: Pos, p: Pos)
    ensures Divides(p, n) <==> forall c: nat, d: nat :: c < p && d < p ==> SizeOf(n, p, c) == SizeOf(n, p, d)
  {
    if !Divides(p, n) { assert SizeOf(n, p, 0) != SizeOf(n, p, p - 1); }
  }

  lemma EvenAxis(dom: Domain, dims: (Pos, Pos), a: Axis)
    ensures Divides(ProcessesAlong(dims, a), GlobalPoints(dom, a)) <==>
      forall c: nat, d: nat :: c < ProcessesAlong(dims, a) && d < ProcessesAlong(dims, a) ==>
        Size(LayoutOf(dom, dims), a, c) == Size(LayoutOf(dom, dims), a, d)
  {
    var n, p, g := GlobalPoints(dom, a), ProcessesAlong(dims, a), LayoutOf(dom, dims);
    EvenSizes(n, p);
    forall c: nat | c < p ensures Size(g, a, c) == SizeOf(n, p, c) { LayoutAxis(dom, dims, a, c); }
    if forall c: nat, d: nat :: c < p && d < p ==> Size(g, a, c) == Size(g, a, d) {
      forall c: nat, d: nat | c < p && d < p ensures SizeOf(n, p, c) == SizeOf(n, p, d) {
        assert Size(g, a, c) == Size(g, a, d);
      }
    }
  }

  /** The blocks of two ranks differ in size. */
  predicate Differ(g: Layout, c: Coord, d: Coord) {
    SizeAt(g, Y, c) != SizeAt(g, Y, d) || SizeAt(g, X, c) != SizeAt(g, X, d)
  }

  lemma UnevenRanks(dom: Domain, dims: (Pos, Pos), a: Axis) returns (c: Coord, d: Coord)
    requires !Divides(ProcessesAlong(dims, a), GlobalPoints(dom, a))
    ensures InProcesses(dims, c) && InProcesses(dims, d) && Differ(LayoutOf(dom, dims), c, d)
  {
    EvenAxis(dom, dims, a);
    var g, p := LayoutOf(dom, dims), ProcessesAlong(dims, a);
    var x: nat, y: nat :| x < p && y < p && Size(g, a, x) != Size(g, a, y);
    c, d := Move(Coord(0, 0), a, x), Move(Coord(0, 0), a, y);
  }

  lemma EvenRanks(dom: Domain, dims: (Pos, Pos), c: Coord, d: Coord)
    requires Divides(dims.0, dom.ny) && Divides(dims.1, dom.nx) && InProcesses(dims, c) && InProcesses(dims, d)
    ensures !Differ(LayoutOf(dom, dims), c, d)
  {
    EvenAxis(dom, dims, Y);
    EvenAxis(dom, dims, X);
  }

  /** With radiation on a process grid is refused exactly when two ranks would have blocks of different
      sizes. */
  lemma RadiationNeedsEqualBlocks(dom: Domain, dims: (Pos, Pos))
    requires dom.radiation
    ensures Refused(dom, dims) <==>
      exists c, d :: InProcesses(dims, c) && InProcesses(dims, d) && Differ(LayoutOf(dom, dims), c, d)
  {
    if Divides(dims.0, dom.ny) && Divides(dims.1, dom.nx) {
      forall c, d | InProcesses(dims, c) && InProcesses(dims, d) ensures !Differ(LayoutOf(dom, dims), c, d) {
        EvenRanks(dom, dims, c, d);
      }
    } else {
      var c, d := UnevenRanks(dom, dims, if !Divides(dims.0, dom.ny) then Y else X);
    }
  }

  /** A block's start and end enclose exactly the points it owns. */
  lemma BlockEncloses(d: Dimension, g: Layout, a: Axis, place: nat, x: int)
    requires IsBlock(d, g, a, place)
    ensures Owned(g, a, place, x) <==> d.start <= x <= d.end
  {
  }
}
