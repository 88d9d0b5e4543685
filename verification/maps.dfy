/** The level grid and its blocking maintenance
    (Assets/Scripts/GameData/GameMap.cs). */
module Maps {

  import opened Directions
  import opened Tiles

  /** One slot of `mapTiles`: a fresh C# array holds null references. */
  datatype Cell = Null | Placed(tile: Tile)

  /** A `GameMap`: `cells[x][y]` is `mapTiles[x, y]`. */
  datatype Grid = Grid(sizeX: int, sizeY: int, cells: seq<seq<Cell>>)

  /** The array has the declared shape. A map with no rows or no columns is not
      modelled: the game only builds 32 x 18 maps. */
  predicate Valid(g: Grid) {
    && g.sizeX >= 1 && g.sizeY >= 1
    && |g.cells| == g.sizeX
    && forall x :: 0 <= x < |g.cells| ==> |g.cells[x]| == g.sizeY
  }

  predicate InRange(g: Grid, x: int, y: int) {
    0 <= x < g.sizeX && 0 <= y < g.sizeY
  }

  function At(g: Grid, x: int, y: int): Cell
    requires Valid(g) && InRange(g, x, y)
  {
    g.cells[x][y]
  }

  /** No slot of the array is null. */
  predicate Populated(g: Grid)
    requires Valid(g)
  {
    forall x, y | 0 <= x < g.sizeX && 0 <= y < g.sizeY :: At(g, x, y).Placed?
  }

  /** Two grids have the same shape and the same tile type in every slot. */
  ghost predicate SameLayout(g: Grid, h: Grid)
    requires Valid(g) && Valid(h)
  {
    && g.sizeX == h.sizeX && g.sizeY == h.sizeY
    && forall x, y :: InRange(g, x, y) ==>
         (At(g, x, y).Placed? <==> At(h, x, y).Placed?)
         && (At(g, x, y).Placed? ==> At(g, x, y).tile.tileType == At(h, x, y).tile.tileType)
  }

  lemma SameLayoutTrans(g: Grid, h: Grid, k: Grid)
    requires Valid(g) && Valid(h) && Valid(k) && SameLayout(g, h) && SameLayout(h, k)
    ensures SameLayout(g, k)
  {
  }

  /** `new GameMap(sizeX, sizeY)`: every slot starts null. */
  function NewGrid(sizeX: int, sizeY: int): (g: Grid)
    requires sizeX >= 1 && sizeY >= 1
    ensures Valid(g) && g.sizeX == sizeX && g.sizeY == sizeY
    ensures forall x, y :: InRange(g, x, y) ==> At(g, x, y) == Null
  {
    Grid(sizeX, sizeY, seq(sizeX, _ => seq(sizeY, _ => Null)))
  }

  /** Replaces the one slot (x, y). */
  function SetCell(g: Grid, x: int, y: int, c: Cell): (r: Grid)
    requires Valid(g) && InRange(g, x, y)
    ensures Valid(r) && r.sizeX == g.sizeX && r.sizeY == g.sizeY
    ensures At(r, x, y) == c
    ensures forall i, j :: InRange(g, i, j) && (i != x || j != y) ==> At(r, i, j) == At(g, i, j)
  {
    g.(cells := g.cells[x := g.cells[x][y := c]])
  }

  /** `UpdateMapTile`: the slot gets a copy of the lookup tile for `t`, which is
      never occupied. */
  function UpdateMapTile(g: Grid, x: int, y: int, t: TileType): (r: Grid)
    requires Valid(g) && InRange(g, x, y)
    ensures Valid(r) && r.sizeX == g.sizeX && r.sizeY == g.sizeY
    ensures At(r, x, y).Placed? && At(r, x, y).tile.tileType == t && !At(r, x, y).tile.blocked
    ensures forall i, j :: InRange(g, i, j) && (i != x || j != y) ==> At(r, i, j) == At(g, i, j)
  {
    SetCell(g, x, y, Placed(CopyTile(NewTile(t))))
  }

  /** `SetBlocked`: only the flag of slot (x, y) changes, to true. */
  function SetBlocked(g: Grid, x: int, y: int): (r: Grid)
    requires Valid(g) && InRange(g, x, y) && At(g, x, y).Placed?
    ensures Valid(r) && r.sizeX == g.sizeX && r.sizeY == g.sizeY
    ensures At(r, x, y) == Placed(At(g, x, y).tile.(blocked := true))
    ensures forall i, j :: InRange(g, i, j) && (i != x || j != y) ==> At(r, i, j) == At(g, i, j)
  {
    SetCell(g, x, y, Placed(At(g, x, y).tile.(blocked := true)))
  }

  /** `SetUnblocked`: only the flag of slot (x, y) changes, to false. */
  function SetUnblocked(g: Grid, x: int, y: int): (r: Grid)
    requires Valid(g) && InRange(g, x, y) && At(g, x, y).Placed?
    ensures Valid(r) && r.sizeX == g.sizeX && r.sizeY == g.sizeY
    ensures At(r, x, y) == Placed(At(g, x, y).tile.(blocked := false))
    ensures forall i, j :: InRange(g, i, j) && (i != x || j != y) ==> At(r, i, j) == At(g, i, j)
  {
    SetCell(g, x, y, Placed(At(g, x, y).tile.(blocked := false)))
  }

  /** Applies `f` to the tile of every slot (the nested x/y loops of the
      blocking methods; their order does not matter as each slot is visited
      once and read only for itself). */
  function MapTiles(g: Grid, f: Tile -> Tile): (r: Grid)
    requires Valid(g) && Populated(g)
    ensures Valid(r) && r.sizeX == g.sizeX && r.sizeY == g.sizeY && Populated(r)
    ensures forall x, y :: InRange(g, x, y) ==> At(r, x, y) == Placed(f(At(g, x, y).tile))
  {
    Grid(g.sizeX, g.sizeY,
      seq(g.sizeX, x requires 0 <= x < g.sizeX =>
        seq(g.sizeY, y requires 0 <= y < g.sizeY => Placed(f(At(g, x, y).tile)))))
  }

  /** `ClearBlocks`: every flag is cleared; nothing else changes. */
  function ClearBlocks(g: Grid): (r: Grid)
    requires Valid(g) && Populated(g)
    ensures Valid(r) && Populated(r) && SameLayout(g, r)
    ensures forall x, y :: InRange(g, x, y) ==> At(r, x, y).tile == At(g, x, y).tile.(blocked := false)
  {
    MapTiles(g, (t: Tile) => t.(blocked := false))
  }

  /** `SetupBlocks`: a slot is marked occupied when it is logically blocked
      and cleared otherwise, so it never loses occupancy. */
  function SetupBlocks(g: Grid): (r: Grid)
    requires Valid(g) && Populated(g)
    ensures Valid(r) && Populated(r) && SameLayout(g, r)
    ensures forall x, y :: InRange(g, x, y) ==>
      At(r, x, y).tile == At(g, x, y).tile.(blocked := At(g, x, y).tile.blocked || BlocksByType(At(g, x, y).tile.tileType))
  {
    MapTiles(g, (t: Tile) => t.(blocked := IsBlockedTile(t)))
  }

  /** Clearing and then setting up the blocks leaves exactly the Dirt and seed
      slots occupied. */
  lemma ClearThenSetup(g: Grid)
    requires Valid(g) && Populated(g)
    ensures var r := SetupBlocks(ClearBlocks(g));
      && SameLayout(g, r)
      && forall x, y :: InRange(g, x, y) ==>
           At(r, x, y).tile.blocked == (At(g, x, y).tile.tileType == Dirt || IsRootTile(At(g, x, y).tile))
  {
  }
}
