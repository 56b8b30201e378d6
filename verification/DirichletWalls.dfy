/** The fill of a streamfunction's walls with constant values: the wall row takes the value, the halo
    rows the odd reflection about it. */
module DirichletWalls {
  datatype Plane = Plane(at: (int, int) -> real)

  /** A rank's rows and columns with their halos, the walls it owns, and whether the axis has a single
      point globally. */
  datatype Block = Block(h: nat, ny: nat, nx: nat, south: bool, north: bool, singleton: bool)

  datatype Wall = South | North

  /** Halos of at least one row around at least h physical rows; a single point is next to both walls. */
  predicate Valid(b: Block) {
    if b.singleton then b.h >= 1 && b.ny == 2 * b.h + 1 && b.south && b.north else b.h >= 1 && b.ny >= 3 * b.h
  }

  predicate Owns(b: Block, side: Wall) { if side == South then b.south else b.north }

  function WallRow(b: Block, side: Wall): int { if side == South then b.h - 1 else b.ny - b.h - 1 }

  /** The wall row and the halo rows behind it. */
  predicate Behind(b: Block, side: Wall, j: int) {
    if side == South then 0 <= j <= WallRow(b, side) else WallRow(b, side) <= j < b.ny
  }

  predicate Written(b: Block, side: Wall, j: int, i: int) { Owns(b, side) && Behind(b, side, j) && 0 <= i < b.nx }

  function Mirror(b: Block, side: Wall, j: int): int { 2 * WallRow(b, side) - j }

  function OddAt(b: Block, side: Wall, f: Plane, j: int, i: int): real {
    if !Written(b, side, j, i) then f.at(j, i) else if j == WallRow(b, side) then 0.0 else -f.at(Mirror(b, side, j), i)
  }

  function Odd(b: Block, side: Wall, f: Plane): Plane { Plane((j: int, i: int) => OddAt(b, side, f, j, i)) }

  /** The homogeneous fill: south first. */
  function Homogeneous(b: Block, f: Plane): Plane { if b.singleton then f else Odd(b, North, Odd(b, South, f)) }

  function RaisedAt(b: Block, side: Wall, value: real, f: Plane, j: int, i: int): real {
    if !Written(b, side, j, i) then f.at(j, i) else f.at(j, i) + (if j == WallRow(b, side) then 1.0 else 2.0) * value
  }

  function Raised(b: Block, side: Wall, value: real, f: Plane): Plane {
    if value == 0.0 then f else Plane((j: int, i: int) => RaisedAt(b, side, value, f, j, i))
  }

  function Filled(b: Block, vs: real, vn: real, f: Plane): Plane {
    Raised(b, North, vn, Raised(b, South, vs, Homogeneous(b, f)))
  }

  // ----- The fills in place -----

  ghost predicate Holds(data: array2<real>, f: Plane)
    reads data
  {
    forall j, i :: 0 <= j < data.Length0 && 0 <= i < data.Length1 ==> data[j, i] == f.at(j, i)
  }

  function OddHere(b: Block, side: Wall, data: array2<real>, j: int, i: int): real
    requires b.h >= 1 && b.ny >= 3 * b.h && data.Length0 == b.ny && data.Length1 == b.nx && Behind(b, side, j)
      && 0 <= i < b.nx
    reads data
  {
    if j == WallRow(b, side) then 0.0 else -data[Mirror(b, side, j), i]
  }

  method ReflectOdd(b: Block, side: Wall, data: array2<real>, ghost f: Plane)
    requires b.h >= 1 && b.ny >= 3 * b.h && data.Length0 == b.ny && data.Length1 == b.nx && Holds(data, f)
      && Owns(b, side)
    modifies data
    ensures Holds(data, Odd(b, side, f))
  {
    var wall := WallRow(b, side);
    var first, last := if side == South then 0 else wall, if side == South then wall else b.ny - 1;
    forall j, i | first <= j <= last && 0 <= i < b.nx ensures OddHere(b, side, data, j, i) == OddAt(b, side, f, j, i) {
    }
    forall j, i | first <= j <= last && 0 <= i < b.nx {
      data[j, i] := OddHere(b, side, data, j, i);
    }
  }

  method FillHomogeneous(b: Block, data: array2<real>, ghost f: Plane)
    requires Valid(b) && data.Length0 == b.ny && data.Length1 == b.nx && Holds(data, f)
    modifies data
    ensures Holds(data, Homogeneous(b, f))
  {
    if b.h == 0 || b.singleton { return; }
    if b.south { ReflectOdd(b, South, data, f); }
    if b.north { ReflectOdd(b, North, data, Odd(b, South, f)); }
  }

  method Raise(b: Block, side: Wall, value: real, data: array2<real>, ghost f: Plane)
    requires Valid(b) && data.Length0 == b.ny && data.Length1 == b.nx && Holds(data, f)
    modifies data
    ensures Holds(data, Raised(b, side, value, f))
  {
    if value != 0.0 && Owns(b, side) {
      var wall := WallRow(b, side);
      var first, last := if side == South then 0 else wall, if side == South then wall else b.ny - 1;
      forall j, i | first <= j <= last && 0 <= i < b.nx {
        data[j, i] := data[j, i] + (if j == wall then 1.0 else 2.0) * value;
      }
    }
  }

  method FillDirichlet(b: Block, vs: real, vn: real, data: array2<real>, ghost f: Plane)
    requires Valid(b) && data.Length0 == b.ny && data.Length1 == b.nx && Holds(data, f)
    modifies data
    ensures Holds(data, Filled(b, vs, vn, f))
  {
    FillHomogeneous(b, data, f);
    Raise(b, South, vs, data, Homogeneous(b, f));
    Raise(b, North, vn, data, Raised(b, South, vs, Homogeneous(b, f)));
  }

  // ----- What the fill achieves -----

  function Value(side: Wall, vs: real, vn: real): real { if side == South then vs else vn }

  /** The wall row holds the wall's value and this row and its mirror average to it. */
  predicate Reflects(b: Block, side: Wall, value: real, f: Plane, j: int, i: int) {
    f.at(WallRow(b, side), i) == value && f.at(j, i) + f.at(Mirror(b, side, j), i) == 2.0 * value
  }

  /** The one row whose mirror is the opposite wall: a rank between both walls with exactly h rows. */
  predicate MirrorsOtherWall(b: Block, side: Wall, j: int) {
    side == North && b.south && b.ny == 3 * b.h && j == b.ny - 1
  }

  /** The fill reflects about each wall the rank owns, except where a halo row mirrors the opposite
      wall: there it does exactly when that wall's value is zero. */
  lemma FillReflects(b: Block, vs: real, vn: real, f: Plane, side: Wall, j: int, i: int)
    requires Valid(b) && !b.singleton && Written(b, side, j, i)
    ensures Reflects(b, side, Value(side, vs, vn), Filled(b, vs, vn, f), j, i) <==>
      (MirrorsOtherWall(b, side, j) ==> vs == 0.0)
  {
    FilledRow(b, vs, vn, f, j, i);
    FilledRow(b, vs, vn, f, Mirror(b, side, j), i);
    FilledRow(b, vs, vn, f, WallRow(b, side), i);
  }

  /** A filled cell in terms of the unfilled field. */
  lemma FilledRow(b: Block, vs: real, vn: real, f: Plane, j: int, i: int)
    requires Valid(b) && !b.singleton
    ensures Filled(b, vs, vn, f).at(j, i) ==
            if Written(b, North, j, i) then
              if j == WallRow(b, North) then vn
              else if MirrorsOtherWall(b, North, j) then 2.0 * vn else 2.0 * vn - f.at(Mirror(b, North, j), i)
            else if Written(b, South, j, i)
              then (if j == WallRow(b, South) then vs else 2.0 * vs - f.at(Mirror(b, South, j), i))
            else f.at(j, i)
  {
  }

  /** A second fill changes no cell; on a single point it does not exactly when both values are zero,
      since there the homogeneous fill resets nothing and the values are added again. */
  lemma SecondFill(b: Block, vs: real, vn: real, f: Plane)
    requires Valid(b) && b.nx > 0
    ensures (forall j, i :: Filled(b, vs, vn, Filled(b, vs, vn, f)).at(j, i) == Filled(b, vs, vn, f).at(j, i)) <==>
      (b.singleton ==> vs == 0.0 && vn == 0.0)
  {
    var g := Filled(b, vs, vn, f);
    if !b.singleton {
      forall j, i ensures Filled(b, vs, vn, g).at(j, i) == g.at(j, i) { SecondFillRow(b, vs, vn, f, j, i); }
    } else if vs == 0.0 && vn == 0.0 {
      assert g == f && Filled(b, vs, vn, g) == g;
    } else {
      SingletonAdds(b, vs, vn, f);
      SingletonAdds(b, vs, vn, g);
      if vs != 0.0 {
        assert Filled(b, vs, vn, g).at(b.h - 1, 0) != g.at(b.h - 1, 0);
      } else {
        assert Filled(b, vs, vn, g).at(b.h, 0) != g.at(b.h, 0);
      }
    }
  }

  lemma SecondFillRow(b: Block, vs: real, vn: real, f: Plane, j: int, i: int)
    requires Valid(b) && !b.singleton
    ensures Filled(b, vs, vn, Filled(b, vs, vn, f)).at(j, i) == Filled(b, vs, vn, f).at(j, i)
  {
    var g := Filled(b, vs, vn, f);
    FilledRow(b, vs, vn, f, j, i);
    FilledRow(b, vs, vn, g, j, i);
    FilledRow(b, vs, vn, f, Mirror(b, South, j), i);
    FilledRow(b, vs, vn, f, Mirror(b, North, j), i);
  }

  lemma SingletonAdds(b: Block, vs: real, vn: real, f: Plane)
    requires Valid(b) && b.singleton && b.nx > 0
    ensures Filled(b, vs, vn, f).at(b.h - 1, 0) == f.at(b.h - 1, 0) + vs
      && Filled(b, vs, vn, f).at(b.h, 0) == f.at(b.h, 0) + vn
  {
  }

  // ----- The reflections, row by row -----

  /** A south wall: its row h - 1 takes the value, and rows a and b, as far below and above it, average
      to it. */
  lemma SouthWallReflects(block: Block, vs: real, vn: real, f: Plane, a: int, b: int, i: int)
    requires Valid(block) && !block.singleton && block.south && 0 <= a < block.h && a + b == 2 * (block.h - 1)
      && 0 <= i < block.nx
    ensures var g := Filled(block, vs, vn, f);
            g.at(block.h - 1, i) == vs && g.at(a, i) + g.at(b, i) == 2.0 * vs
  {
    FillReflects(block, vs, vn, f, South, a, i);
  }

  /** A north wall: its row ny - h - 1 takes the value, and rows a and b, as far above and below it,
      average to it.  Where row b is a south wall the outermost row takes twice the value, so the two
      average to it exactly if the south value is zero. */
  lemma NorthWallReflects(block: Block, vs: real, vn: real, f: Plane, a: int, b: int, i: int)
    requires Valid(block) && !block.singleton && block.north && 0 <= i < block.nx
    requires block.ny - block.h - 1 <= a < block.ny && a + b == 2 * (block.ny - block.h - 1)
    ensures var (g, other) := (Filled(block, vs, vn, f), block.south && b == block.h - 1);
            && g.at(block.ny - block.h - 1, i) == vn
            && (other ==> g.at(a, i) == 2.0 * vn)
            && (g.at(a, i) + g.at(b, i) == 2.0 * vn <==> (other ==> vs == 0.0))
  {
    FillReflects(block, vs, vn, f, North, a, i);
    FilledRow(block, vs, vn, f, a, i);
  }

  /** The rows between the walls, and all rows of a rank without them, keep their values. */
  lemma FillKeepsRest(block: Block, vs: real, vn: real, f: Plane, j: int, i: int)
    requires Valid(block) && !block.singleton
    requires (block.south ==> j >= block.h) && (block.north ==> j < block.ny - block.h - 1)
    ensures Filled(block, vs, vn, f).at(j, i) == f.at(j, i)
  {
    FilledRow(block, vs, vn, f, j, i);
  }

  /** A single point has no reflection: each wall's value is added once on its row and twice behind it. */
  lemma SinglePointAdds(block: Block, vs: real, vn: real, f: Plane, j: int, i: int)
    requires Valid(block) && block.singleton && 0 <= j < block.ny && 0 <= i < block.nx
    ensures Filled(block, vs, vn, f).at(j, i) - f.at(j, i) ==
            if j < block.h - 1 then 2.0 * vs else if j == block.h - 1 then vs else if j == block.h then vn else 2.0 * vn
  {
    var south := Raised(block, South, vs, f);
    assert south.at(j, i) - f.at(j, i) == if j < block.h - 1 then 2.0 * vs else if j == block.h - 1 then vs else 0.0;
  }
}
