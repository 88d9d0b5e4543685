/** One map cell: its tile type and its occupancy flag
    (Assets/Scripts/GameData/GameTile.cs). */
module Tiles {

  import opened Directions

  /** `TileType`, in declaration order. */
  datatype TileType =
    | Blank | Dirt | Water | Poison
    | ReflectorTL | ReflectorTR | ReflectorBL | ReflectorBR
    | RootDown | RootUp | RootLeft | RootRight

  /** A `GameTile`. The predicates of the source read `config.Type`; every tile
      the game creates is copied from a lookup tile whose `config.Type` equals
      its `tileType`, so the model keeps the one type. `enterSide` and
      `exitSide` stand for `rootEnterDirection`/`rootExitDirection`, which are
      read by Root.cs but not declared in GameTile.cs (an assumption of this
      model). */
  datatype Tile = Tile(tileType: TileType, blocked: bool, enterSide: Direction, exitSide: Direction)

  /** `new GameTile(type)`: only the type is set, every other field keeps its
      default. */
  function NewTile(t: TileType): (r: Tile)
    ensures r.tileType == t && !r.blocked
    ensures r.enterSide == None && r.exitSide == None
  {
    Tile(t, false, None, None)
  }

  /** `new GameTile(source)`: copies the type and the occupancy flag; fields the
      copy constructor does not mention keep their defaults. */
  function CopyTile(source: Tile): (r: Tile)
    ensures r.tileType == source.tileType && r.blocked == source.blocked
  {
    Tile(source.tileType, source.blocked, None, None)
  }

  /** Copying a fresh tile gives the same fresh tile. */
  lemma CopyOfNewTile(t: TileType)
    ensures CopyTile(NewTile(t)) == NewTile(t)
  {
  }

  /** `IsDestination`. */
  predicate IsDestination(t: Tile) {
    t.tileType == Water
  }

  /** The four root seed types. */
  predicate IsSeed(t: TileType) {
    t == RootDown || t == RootUp || t == RootLeft || t == RootRight
  }

  /** `IsRootTile`: the tile is one of the four root seeds. */
  predicate IsRootTile(t: Tile) {
    IsSeed(t.tileType)
  }

  /** `IsBlockedTile`: new growth cannot enter this tile. */
  predicate IsBlockedTile(t: Tile) {
    t.blocked || t.tileType == Dirt || IsRootTile(t)
  }

  /** Whether a tile type blocks growth by itself, written as a table over all
      twelve types. */
  function BlocksByType(t: TileType): bool {
    match t
    case Blank => false
    case Dirt => true
    case Water => false
    case Poison => false
    case ReflectorTL => false
    case ReflectorTR => false
    case ReflectorBL => false
    case ReflectorBR => false
    case RootDown => true
    case RootUp => true
    case RootLeft => true
    case RootRight => true
  }

  /** Dirt and seed tiles are blocked whatever their flag says; every other tile
      is blocked exactly when its flag is set. */
  lemma BlockedTileByType(t: Tile)
    ensures IsBlockedTile(t) == (t.blocked || BlocksByType(t.tileType))
    ensures BlocksByType(t.tileType) ==> IsBlockedTile(t)
    ensures !BlocksByType(t.tileType) ==> (IsBlockedTile(t) <==> t.blocked)
  {
  }

  /** Seeds are exactly the four Root types, and no seed is a destination. */
  lemma RootTilesExactly(t: Tile)
    ensures IsRootTile(t) <==> t.tileType in {RootDown, RootUp, RootLeft, RootRight}
    ensures IsRootTile(t) ==> !IsDestination(t)
  {
  }

  /** Assumption: `IsDeathTile`, used by Root.cs but not declared in
      GameTile.cs, holds for Poison tiles. */
  predicate IsDeathTile(t: Tile) {
    t.tileType == Poison
  }

  /** Assumption: `IsRedirectTile`, used by Root.cs but not declared in
      GameTile.cs, holds for the four reflectors. */
  predicate IsRedirectTile(t: Tile) {
    t.tileType == ReflectorTL || t.tileType == ReflectorTR || t.tileType == ReflectorBL || t.tileType == ReflectorBR
  }

  /** Assumption: `Enter(side)`, not declared in GameTile.cs, records the side a
      root came in by and marks the tile occupied. */
  function Enter(t: Tile, side: Direction): (r: Tile)
    ensures r.tileType == t.tileType && r.blocked && IsBlockedTile(r)
    ensures r.enterSide == side && r.exitSide == t.exitSide
  {
    t.(enterSide := side, blocked := true)
  }

  /** Assumption: `Exit(side)`, not declared in GameTile.cs, records the side a
      root left by. */
  function Exit(t: Tile, side: Direction): (r: Tile)
    ensures r.tileType == t.tileType && r.blocked == t.blocked
    ensures r.exitSide == side && r.enterSide == t.enterSide
  {
    t.(exitSide := side)
  }
}
