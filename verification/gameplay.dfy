/** Turn and undo bookkeeping of `GameplayManager`
    (Assets/Scripts/Managers/GameplayManager.cs) over the roots and the map.
    Sprites, sounds, the undo button animation and the pause view are left
    out; keyboard reads become an `Input` parameter. */
module Gameplay {

  import opened Directions
  import opened Tiles
  import opened Maps
  import opened GameStatus
  import opened Roots
  import opened History
  import Options
  import MapText

  /** A copy of the map's tiles as kept by `GameMap.previousMapTiles`. */
  type Snapshot = seq<seq<Cell>>

  /** The manager's state: its scalar fields, the active map, the active roots
      in `activeRoots` order, the map's history stack, and the root records
      each root's `ResetPosition` returns to (the k-th record belongs to the
      k-th root; the records live in the root objects and go with them). */
  datatype Game = Game(
    status: Status,
    activeMap: Grid,
    roots: seq<Root>,
    mapHistory: HistoryStack<Snapshot>,
    rootsBackup: seq<Root>)

  /** The shape every operation keeps: a framed map, every root tip and every
      backed-up tip off the edge, and a history stack with room whose every
      snapshot is a framed map of the same size. */
  predicate Consistent(game: Game) {
    && Framed(game.activeMap)
    && (forall i | 0 <= i < |game.roots| :: Interior(game.activeMap, game.roots[i].tip))
    && (forall i | 0 <= i < |game.rootsBackup| :: Interior(game.activeMap, game.rootsBackup[i].tip))
    && Bounded(game.mapHistory)
    && SnapshotsFramed(game.activeMap.sizeX, game.activeMap.sizeY, game.mapHistory.items)
  }

  /** Every snapshot is a framed `sizeX` by `sizeY` map. */
  predicate SnapshotsFramed(sizeX: int, sizeY: int, items: seq<Snapshot>) {
    forall i | 0 <= i < |items| :: Framed(Grid(sizeX, sizeY, items[i]))
  }

  /** Pushing a framed snapshot keeps every snapshot framed. */
  lemma PushKeepsFramed(sizeX: int, sizeY: int, h: HistoryStack<Snapshot>, cells: Snapshot)
    requires Bounded(h) && SnapshotsFramed(sizeX, sizeY, h.items) && Framed(Grid(sizeX, sizeY, cells))
    ensures SnapshotsFramed(sizeX, sizeY, Push(h, cells).stack.items)
  {
    var items := Push(h, cells).stack.items;
    forall i | 0 <= i < |items| ensures Framed(Grid(sizeX, sizeY, items[i])) {
      if |h.items| == h.capacity {
        if i < |h.items| - 1 { assert items[i] == h.items[i + 1]; } else { assert items[i] == cells; }
      } else {
        if i < |h.items| { assert items[i] == h.items[i]; } else { assert items[i] == cells; }
      }
    }
  }

  /** Popping keeps every remaining snapshot framed, and the one popped is
      framed too. */
  lemma PopKeepsFramed(sizeX: int, sizeY: int, h: HistoryStack<Snapshot>)
    requires SnapshotsFramed(sizeX, sizeY, h.items)
    ensures SnapshotsFramed(sizeX, sizeY, Pop(h).stack.items)
    ensures Pop(h).item.Some? ==> Framed(Grid(sizeX, sizeY, Pop(h).item.value))
  {
    var items := Pop(h).stack.items;
    if h.items != [] {
      assert Framed(Grid(sizeX, sizeY, h.items[|h.items| - 1]));
      forall i | 0 <= i < |items| ensures Framed(Grid(sizeX, sizeY, items[i])) {
        assert items[i] == h.items[i];
      }
    }
  }

  /** The undo flags never both hold: an undo that has been used is never on
      offer. */
  predicate UndoFlagsOk(s: Status) {
    s.usedUndo ==> !s.undoAvailable
  }

  // ---------------------------------------------------------------- placing roots

  /** The direction `AddRoot` gives a seed: the way its arrow points, and
      South for anything else. */
  function InitialDirection(t: TileType): (d: Direction)
    ensures Cardinal(d)
    ensures t == RootUp ==> d == North
    ensures t == RootDown ==> d == South
    ensures t == RootLeft ==> d == West
    ensures t == RootRight ==> d == East
    ensures !IsSeed(t) ==> d == South
  {
    match t
    case RootUp => North
    case RootDown => South
    case RootLeft => West
    case RootRight => East
    case _ => South
  }

  /** The four seeds point four different ways, so the direction a root starts
      in names its seed. */
  lemma SeedsPointApart(a: TileType, b: TileType)
    requires IsSeed(a) && IsSeed(b) && a != b
    ensures InitialDirection(a) != InitialDirection(b)
  {
  }

  /** `AddRoot`: a new, idle root on seed `t` at `p`. The fields that `Start`
      sets later keep their defaults (the tip at the origin, no direction). */
  function AddRoot(t: TileType, p: Pos): (r: Root)
    ensures r.start == p && r.seed == t && r.baseDirection == InitialDirection(t)
    ensures !r.growing && !r.latched
  {
    Root(p, Pos(0, 0), InitialDirection(t), None, None, t, false, false)
  }

  /** The start positions of a list of roots. */
  function Starts(rs: seq<Root>): set<Pos> {
    set i | 0 <= i < |rs| :: rs[i].start
  }

  lemma StartsConcat(a: seq<Root>, b: seq<Root>)
    ensures Starts(a + b) == Starts(a) + Starts(b)
  {
    forall p | p in Starts(a) ensures p in Starts(a + b) {
      var i :| 0 <= i < |a| && a[i].start == p;
      assert (a + b)[i].start == p;
    }
    forall p | p in Starts(b) ensures p in Starts(a + b) {
      var i :| 0 <= i < |b| && b[i].start == p;
      assert (a + b)[|a| + i].start == p;
    }
    forall p | p in Starts(a + b) ensures p in Starts(a) || p in Starts(b) {
      var i :| 0 <= i < |a + b| && (a + b)[i].start == p;
      if i < |a| {
        assert a[i].start == p;
      } else {
        assert b[i - |a|].start == p;
      }
    }
  }

  /** Slot `p` comes before slot `q` in the scan of `PlaceRoots`: by column,
      then by row. */
  predicate ScanBefore(p: Pos, q: Pos) {
    p.x < q.x || (p.x == q.x && p.y < q.y)
  }

  /** Each root was added by `AddRoot` for the seed at its start slot, which
      lies in columns `x0` to `x1 - 1` and rows `y0` up. */
  predicate AllAdded(g: Grid, rs: seq<Root>, x0: int, x1: int, y0: int)
    requires Valid(g) && Populated(g) && 0 <= x0 && x1 <= g.sizeX && 0 <= y0
  {
    forall i | 0 <= i < |rs| ::
      && x0 <= rs[i].start.x < x1 && y0 <= rs[i].start.y < g.sizeY
      && IsRootTile(At(g, rs[i].start.x, rs[i].start.y).tile)
      && rs[i] == AddRoot(At(g, rs[i].start.x, rs[i].start.y).tile.tileType, rs[i].start)
  }

  /** The roots stand in the order of the scan, so on distinct slots. */
  predicate InScanOrder(rs: seq<Root>) {
    forall i, j | 0 <= i < j < |rs| :: ScanBefore(rs[i].start, rs[j].start)
  }

  /** Every seed in columns `x0` to `x1 - 1`, rows `y0` up, has a root. */
  predicate SeedsCovered(g: Grid, rs: seq<Root>, x0: int, x1: int, y0: int)
    requires Valid(g) && Populated(g)
  {
    forall xx, yy | x0 <= xx < x1 && y0 <= yy < g.sizeY && InRange(g, xx, yy) && IsRootTile(At(g, xx, yy).tile) ::
      Pos(xx, yy) in Starts(rs)
  }

  /** The inner loop of `PlaceRoots`: the seeds of column `x` from row `y`
      up. */
  function ColumnSeeds(g: Grid, x: int, y: int): (rs: seq<Root>)
    requires Valid(g) && Populated(g) && 0 <= x < g.sizeX && 0 <= y <= g.sizeY
    ensures |rs| <= g.sizeY - y
    decreases g.sizeY - y
  {
    if y == g.sizeY then []
    else
      var here := if IsRootTile(At(g, x, y).tile) then [AddRoot(At(g, x, y).tile.tileType, Pos(x, y))] else [];
      here + ColumnSeeds(g, x, y + 1)
  }

  /** The column scan finds every seed of column `x` from row `y` up, once
      each, bottom to top, and nothing else. */
  lemma ColumnSeedsExactly(g: Grid, x: int, y: int)
    requires Valid(g) && Populated(g) && 0 <= x < g.sizeX && 0 <= y <= g.sizeY
    ensures AllAdded(g, ColumnSeeds(g, x, y), x, x + 1, y)
    ensures InScanOrder(ColumnSeeds(g, x, y))
    ensures SeedsCovered(g, ColumnSeeds(g, x, y), x, x + 1, y)
  {
    ColumnSeedsAdded(g, x, y);
    ColumnSeedsOrdered(g, x, y);
    ColumnSeedsCover(g, x, y);
  }

  /** Every root of the column scan was added for a seed of that column. */
  lemma {:induction false} ColumnSeedsAdded(g: Grid, x: int, y: int)
    requires Valid(g) && Populated(g) && 0 <= x < g.sizeX && 0 <= y <= g.sizeY
    ensures AllAdded(g, ColumnSeeds(g, x, y), x, x + 1, y)
    decreases g.sizeY - y
  {
    if y < g.sizeY {
      var rest := ColumnSeeds(g, x, y + 1);
      ColumnSeedsAdded(g, x, y + 1);
      AllAddedWeaken(g, rest, x, x + 1, y + 1, x, x + 1, y);
      if IsRootTile(At(g, x, y).tile) {
        var here := [AddRoot(At(g, x, y).tile.tileType, Pos(x, y))];
        assert ColumnSeeds(g, x, y) == here + rest;
        AllAddedConcat(g, here, rest, x, x + 1, y);
      } else {
        assert ColumnSeeds(g, x, y) == rest;
      }
    }
  }

  /** The column scan lists its roots bottom to top. */
  lemma {:induction false} ColumnSeedsOrdered(g: Grid, x: int, y: int)
    requires Valid(g) && Populated(g) && 0 <= x < g.sizeX && 0 <= y <= g.sizeY
    ensures InScanOrder(ColumnSeeds(g, x, y))
    decreases g.sizeY - y
  {
    if y < g.sizeY {
      var rest := ColumnSeeds(g, x, y + 1);
      ColumnSeedsOrdered(g, x, y + 1);
      if IsRootTile(At(g, x, y).tile) {
        var here := [AddRoot(At(g, x, y).tile.tileType, Pos(x, y))];
        assert ColumnSeeds(g, x, y) == here + rest;
        ColumnSeedsAdded(g, x, y + 1);
        assert forall j | 0 <= j < |rest| :: rest[j].start.x == x && rest[j].start.y > y;
        ScanOrderConcat(here, rest);
      } else {
        assert ColumnSeeds(g, x, y) == rest;
      }
    }
  }

  /** The column scan misses no seed of its column. */
  lemma {:induction false} ColumnSeedsCover(g: Grid, x: int, y: int)
    requires Valid(g) && Populated(g) && 0 <= x < g.sizeX && 0 <= y <= g.sizeY
    ensures SeedsCovered(g, ColumnSeeds(g, x, y), x, x + 1, y)
    decreases g.sizeY - y
  {
    if y < g.sizeY {
      var rest := ColumnSeeds(g, x, y + 1);
      ColumnSeedsCover(g, x, y + 1);
      if IsRootTile(At(g, x, y).tile) {
        var here := [AddRoot(At(g, x, y).tile.tileType, Pos(x, y))];
        assert ColumnSeeds(g, x, y) == here + rest;
        StartsConcat(here, rest);
        assert here[0].start == Pos(x, y);
        ColumnCovered(g, here + rest, rest, x, y);
      } else {
        assert ColumnSeeds(g, x, y) == rest;
        ColumnCovered(g, rest, rest, x, y);
      }
    }
  }

  /** Coverage of a column from row `y` up: the seed at row `y`, if any, and
      the coverage from row `y + 1` up. */
  lemma ColumnCovered(g: Grid, rs: seq<Root>, rest: seq<Root>, x: int, y: int)
    requires Valid(g) && Populated(g) && 0 <= x < g.sizeX && 0 <= y < g.sizeY
    requires SeedsCovered(g, rest, x, x + 1, y + 1) && Starts(rest) <= Starts(rs)
    requires IsRootTile(At(g, x, y).tile) ==> Pos(x, y) in Starts(rs)
    ensures SeedsCovered(g, rs, x, x + 1, y)
  {
  }

  lemma AllAddedWeaken(g: Grid, rs: seq<Root>, x0: int, x1: int, y0: int, x0': int, x1': int, y0': int)
    requires Valid(g) && Populated(g) && 0 <= x0' <= x0 && x1 <= x1' <= g.sizeX && 0 <= y0' <= y0
    requires AllAdded(g, rs, x0, x1, y0)
    ensures AllAdded(g, rs, x0', x1', y0')
  {
  }

  lemma AllAddedConcat(g: Grid, a: seq<Root>, b: seq<Root>, x0: int, x1: int, y0: int)
    requires Valid(g) && Populated(g) && 0 <= x0 && x1 <= g.sizeX && 0 <= y0
    requires AllAdded(g, a, x0, x1, y0) && AllAdded(g, b, x0, x1, y0)
    ensures AllAdded(g, a + b, x0, x1, y0)
  {
    forall i | 0 <= i < |a + b|
      ensures && x0 <= (a + b)[i].start.x < x1 && y0 <= (a + b)[i].start.y < g.sizeY
              && IsRootTile(At(g, (a + b)[i].start.x, (a + b)[i].start.y).tile)
              && (a + b)[i] == AddRoot(At(g, (a + b)[i].start.x, (a + b)[i].start.y).tile.tileType, (a + b)[i].start)
    {
      if i < |a| { assert (a + b)[i] == a[i]; } else { assert (a + b)[i] == b[i - |a|]; }
    }
  }

  lemma ScanOrderConcat(a: seq<Root>, b: seq<Root>)
    requires InScanOrder(a) && InScanOrder(b)
    requires forall i, j | 0 <= i < |a| && 0 <= j < |b| :: ScanBefore(a[i].start, b[j].start)
    ensures InScanOrder(a + b)
  {
    forall i, j | 0 <= i < j < |a + b| ensures ScanBefore((a + b)[i].start, (a + b)[j].start) {
      if j < |a| {
        assert (a + b)[i] == a[i] && (a + b)[j] == a[j];
      } else if i < |a| {
        assert (a + b)[i] == a[i] && (a + b)[j] == b[j - |a|];
      } else {
        assert (a + b)[i] == b[i - |a|] && (a + b)[j] == b[j - |a|];
      }
    }
  }

  /** The outer loop of `PlaceRoots`: the seeds of columns `x` onwards. */
  function SeedRoots(g: Grid, x: int): (rs: seq<Root>)
    requires Valid(g) && Populated(g) && 0 <= x <= g.sizeX
    ensures |rs| <= (g.sizeX - x) * g.sizeY
    decreases g.sizeX - x
  {
    if x == g.sizeX then []
    else ColumnSeeds(g, x, 0) + SeedRoots(g, x + 1)
  }

  /** The whole scan finds every seed of columns `x` onwards, once each, in
      column-then-row order, and nothing else. */
  lemma {:induction false} SeedRootsExactly(g: Grid, x: int)
    requires Valid(g) && Populated(g) && 0 <= x <= g.sizeX
    ensures AllAdded(g, SeedRoots(g, x), x, g.sizeX, 0)
    ensures InScanOrder(SeedRoots(g, x))
    ensures SeedsCovered(g, SeedRoots(g, x), x, g.sizeX, 0)
    decreases g.sizeX - x
  {
    if x < g.sizeX {
      var col := ColumnSeeds(g, x, 0);
      var rest := SeedRoots(g, x + 1);
      ColumnSeedsExactly(g, x, 0);
      SeedRootsExactly(g, x + 1);
      assert SeedRoots(g, x) == col + rest;
      AllAddedWeaken(g, col, x, x + 1, 0, x, g.sizeX, 0);
      AllAddedWeaken(g, rest, x + 1, g.sizeX, 0, x, g.sizeX, 0);
      AllAddedConcat(g, col, rest, x, g.sizeX, 0);
      forall i, j | 0 <= i < |col| && 0 <= j < |rest| ensures ScanBefore(col[i].start, rest[j].start) {
        assert col[i].start.x == x && rest[j].start.x > x;
      }
      ScanOrderConcat(col, rest);
      StartsConcat(col, rest);
    }
  }


  /** The effect of each new root's `Start`, which the engine runs before
      the root's first frame. */
  function StartAll(rs: seq<Root>, g: Grid): (out: (seq<Root>, Grid))
    requires Valid(g) && forall i | 0 <= i < |rs| :: Present(g, rs[i].start)
    ensures |out.0| == |rs|
    ensures forall i | 0 <= i < |rs| ::
      out.0[i] == rs[i].(currentDirection := rs[i].baseDirection, growthDirection := rs[i].baseDirection, tip := rs[i].start)
    ensures Valid(out.1) && SameLayout(g, out.1)
    ensures forall i | 0 <= i < |rs| :: Present(out.1, rs[i].start) && TileAt(out.1, rs[i].start).blocked
    ensures forall x, y | InRange(g, x, y) && Pos(x, y) !in Starts(rs) :: At(out.1, x, y) == At(g, x, y)
    decreases |rs|
  {
    if rs == [] then ([], g)
    else
      var first := Start(rs[0], g);
      PresentAllKept(rs[1..], g, first.1);
      var rest := StartAll(rs[1..], first.1);
      StartAllStep(rs, g, first.1, rest.1);
      var roots := [first.0] + rest.0;
      (roots, rest.1)
  }

  lemma PresentAllKept(rs: seq<Root>, g: Grid, g1: Grid)
    requires Valid(g) && Valid(g1) && SameLayout(g, g1)
    requires forall i | 0 <= i < |rs| :: Present(g, rs[i].start)
    ensures forall i | 0 <= i < |rs| :: Present(g1, rs[i].start)
  {
    forall i | 0 <= i < |rs| ensures Present(g1, rs[i].start) {
      PresentKept(g, g1, rs[i].start);
    }
  }

  /** The first root started, then the rest: every start slot ends occupied,
      and every other slot keeps what it had. */
  lemma StartAllStep(rs: seq<Root>, g: Grid, g1: Grid, g2: Grid)
    requires rs != [] && Valid(g) && Valid(g1) && Valid(g2) && SameLayout(g, g1) && SameLayout(g1, g2)
    requires Present(g1, rs[0].start) && TileAt(g1, rs[0].start).blocked
    requires forall x, y :: InRange(g, x, y) && Pos(x, y) != rs[0].start ==> At(g1, x, y) == At(g, x, y)
    requires forall i | 0 <= i < |rs[1..]| :: Present(g2, rs[1..][i].start) && TileAt(g2, rs[1..][i].start).blocked
    requires forall x, y | InRange(g1, x, y) && Pos(x, y) !in Starts(rs[1..]) :: At(g2, x, y) == At(g1, x, y)
    ensures SameLayout(g, g2)
    ensures forall i | 0 <= i < |rs| :: Present(g2, rs[i].start) && TileAt(g2, rs[i].start).blocked
    ensures forall x, y | InRange(g, x, y) && Pos(x, y) !in Starts(rs) :: At(g2, x, y) == At(g, x, y)
  {
    SameLayoutTrans(g, g1, g2);
    assert rs == [rs[0]] + rs[1..];
    StartsConcat([rs[0]], rs[1..]);
    assert Starts([rs[0]]) == {rs[0].start};
    forall i | 0 <= i < |rs| ensures Present(g2, rs[i].start) && TileAt(g2, rs[i].start).blocked {
      if i > 0 {
        assert rs[1..][i - 1] == rs[i];
      } else {
        var p := rs[0].start;
        assert InRange(g1, p.x, p.y);
        if p !in Starts(rs[1..]) {
          assert At(g2, p.x, p.y) == At(g1, p.x, p.y);
        } else {
          var j :| 0 <= j < |rs[1..]| && rs[1..][j].start == p;
        }
      }
    }
  }

  lemma StartsSame(a: seq<Root>, b: seq<Root>)
    requires |a| == |b| && forall i | 0 <= i < |a| :: a[i].start == b[i].start
    ensures Starts(a) == Starts(b)
  {
    forall p | p in Starts(a) ensures p in Starts(b) {
      var i :| 0 <= i < |a| && a[i].start == p;
      assert b[i].start == p;
    }
    forall p | p in Starts(b) ensures p in Starts(a) {
      var i :| 0 <= i < |b| && b[i].start == p;
      assert a[i].start == p;
    }
  }

  /** A root as `PlaceRoots` and `Start` leave it: standing on its seed,
      idle, and facing the way the seed points. */
  predicate ReadyOnSeed(g: Grid, r: Root)
    requires Valid(g) && Populated(g)
  {
    && InRange(g, r.start.x, r.start.y)
    && var t := At(g, r.start.x, r.start.y).tile.tileType;
    && IsSeed(t) && r.seed == t && r.tip == r.start
    && r.baseDirection == InitialDirection(t)
    && r.currentDirection == r.baseDirection && r.growthDirection == r.baseDirection
    && !r.growing && !r.latched
  }

  /** On a framed map a seed is never on the edge. */
  lemma SeedIsInterior(g: Grid, p: Pos)
    requires Framed(g) && InRange(g, p.x, p.y) && IsRootTile(At(g, p.x, p.y).tile)
    ensures Interior(g, p)
  {
  }

  /** `PlaceRoots`, followed by each new root's `Start`: one root per seed in
      the order of the column-by-column scan, appended to the active roots,
      and `totalRoots` set to their count. */
  function PlaceRoots(game: Game): (out: Game)
    requires Framed(game.activeMap)
    ensures Framed(out.activeMap) && SameLayout(game.activeMap, out.activeMap)
    ensures out.status == game.status.(totalRoots := |out.roots|)
    ensures out.mapHistory == game.mapHistory && out.rootsBackup == game.rootsBackup
    ensures |game.roots| <= |out.roots| && out.roots[..|game.roots|] == game.roots
    ensures forall i | |game.roots| <= i < |out.roots| :: ReadyOnSeed(game.activeMap, out.roots[i])
    ensures InScanOrder(out.roots[|game.roots|..])
    ensures SeedsCovered(game.activeMap, out.roots[|game.roots|..], 0, game.activeMap.sizeX, 0)
    ensures forall x, y | InRange(game.activeMap, x, y) ::
      At(out.activeMap, x, y).tile.blocked == (At(game.activeMap, x, y).tile.blocked || IsRootTile(At(game.activeMap, x, y).tile))
  {
    var g := game.activeMap;
    var added := SeedRoots(g, 0);
    SeedRootsExactly(g, 0);
    var started := StartAll(added, g);
    FramedKept(g, started.1);
    StartsSame(added, started.0);
    var roots := game.roots + started.0;
    assert roots[..|game.roots|] == game.roots;
    assert roots[|game.roots|..] == started.0;
    game.(roots := roots, activeMap := started.1, status := game.status.(totalRoots := |roots|))
  }

  /** `ClearRoots`: the active roots are destroyed, and with them the
      records their `ResetPosition` would return to. */
  function ClearRoots(game: Game): (out: Game)
    ensures out.roots == [] && out.rootsBackup == []
    ensures out == game.(roots := out.roots, rootsBackup := out.rootsBackup)
  {
    game.(roots := [], rootsBackup := [])
  }

  /** `ClearBlocks` then `SetupBlocks`: occupancy comes back to what the
      tile types alone decide, on a map that stays framed. */
  function RebuildBlocks(g: Grid): (r: Grid)
    requires Framed(g)
    ensures Framed(r) && SameLayout(g, r)
    ensures forall x, y | InRange(g, x, y) :: At(r, x, y).tile.blocked == BlocksByType(At(g, x, y).tile.tileType)
  {
    ClearThenSetup(g);
    var r := SetupBlocks(ClearBlocks(g));
    FramedKept(g, r);
    r
  }

  /** Readiness and seed coverage read only the tile types. */
  lemma PlacementSameLayout(g: Grid, h: Grid, rs: seq<Root>)
    requires Valid(g) && Populated(g) && Valid(h) && Populated(h) && SameLayout(g, h)
    requires forall i | 0 <= i < |rs| :: ReadyOnSeed(h, rs[i])
    requires SeedsCovered(h, rs, 0, h.sizeX, 0)
    ensures forall i | 0 <= i < |rs| :: ReadyOnSeed(g, rs[i])
    ensures SeedsCovered(g, rs, 0, g.sizeX, 0)
  {
    forall i | 0 <= i < |rs| ensures ReadyOnSeed(g, rs[i]) {
      assert ReadyOnSeed(h, rs[i]);
      assert At(g, rs[i].start.x, rs[i].start.y).tile.tileType == At(h, rs[i].start.x, rs[i].start.y).tile.tileType;
    }
    forall xx, yy | 0 <= xx < g.sizeX && 0 <= yy < g.sizeY && InRange(g, xx, yy) && IsRootTile(At(g, xx, yy).tile)
      ensures Pos(xx, yy) in Starts(rs)
    {
      assert At(g, xx, yy).tile.tileType == At(h, xx, yy).tile.tileType;
    }
  }

  /** `ResetMap`: counters and undo flags cleared, occupancy rebuilt from the
      tile types, and one fresh root per seed, in scan order, each off the
      edge. */
  function ResetMap(game: Game): (out: Game)
    requires Consistent(game)
    ensures out.status == game.status.(
      usedUndo := false, undoAvailable := false, movesCounter := 0, totalRootsAtDestination := 0,
      totalRootsStuck := 0, prevTotalRootsStuck := 0, totalRoots := |out.roots|)
    ensures Framed(out.activeMap) && SameLayout(game.activeMap, out.activeMap)
    ensures forall i | 0 <= i < |out.roots| :: ReadyOnSeed(game.activeMap, out.roots[i])
    ensures InScanOrder(out.roots) && SeedsCovered(game.activeMap, out.roots, 0, game.activeMap.sizeX, 0)
    ensures forall x, y | InRange(game.activeMap, x, y) ::
      At(out.activeMap, x, y).tile.blocked == BlocksByType(At(game.activeMap, x, y).tile.tileType)
    ensures out.mapHistory == game.mapHistory && out.rootsBackup == []
  {
    var s := game.status.(
      usedUndo := false, undoAvailable := false, movesCounter := 0, totalRootsAtDestination := 0,
      totalRootsStuck := 0, prevTotalRootsStuck := 0);
    var g := game.activeMap;
    var cleared := RebuildBlocks(g);
    var out := PlaceRoots(ClearRoots(game.(status := s, activeMap := cleared)));
    assert out.roots[0..] == out.roots;
    SameLayoutTrans(g, cleared, out.activeMap);
    PlacementSameLayout(g, cleared, out.roots);
    assert forall x, y | InRange(g, x, y) ::
      At(out.activeMap, x, y).tile.blocked == BlocksByType(At(g, x, y).tile.tileType) by {
      forall x, y | InRange(g, x, y)
        ensures At(out.activeMap, x, y).tile.blocked == BlocksByType(At(g, x, y).tile.tileType)
      {
        assert At(cleared, x, y).tile.tileType == At(g, x, y).tile.tileType;
      }
    }
    out
  }

  /** A reset leaves a consistent game, with every root off the edge and the
      undo flags cleared. */
  lemma ResetKeepsConsistent(game: Game)
    requires Consistent(game)
    ensures Consistent(ResetMap(game)) && UndoFlagsOk(ResetMap(game).status)
  {
    var out := ResetMap(game);
    var g := game.activeMap;
    assert out.activeMap.sizeX == g.sizeX && out.activeMap.sizeY == g.sizeY;
    forall i | 0 <= i < |out.roots| ensures Interior(out.activeMap, out.roots[i].tip) {
      assert ReadyOnSeed(g, out.roots[i]);
      SeedIsInterior(g, out.roots[i].tip);
    }
  }

  // ---------------------------------------------------------------- loading a level

  /** A level load on the active map: the game afterwards, and the error that
      stopped the import, if any. */
  datatype Loaded = Loaded(game: Game, error: Options.Option<MapText.ImportError>)

  /** `GameMap.ImportMapData` run on the active map, with the call it makes to
      `GameplayManager.ClearRoots` between the write loop and `SetupBlocks`.
      An unknown symbol throws inside the write loop, and a slot left null
      throws as `ClearRoots` reads it, before any root is destroyed: a failed
      load keeps the roots and leaves the partly written map. A load that
      succeeds destroys every root. */
  function LoadActiveMap(game: Game, text: string): (out: Loaded)
    requires Valid(game.activeMap)
    ensures out.error.None? <==> MapText.ImportMapData(game.activeMap, text).Imported?
    ensures out.game.activeMap == MapText.GridOf(MapText.ImportMapData(game.activeMap, text))
    ensures out.error.None? ==> out.game.roots == [] && out.game.rootsBackup == []
    ensures out.error.Some? ==>
      && out.game.roots == game.roots && out.game.rootsBackup == game.rootsBackup
      && out.error.value == MapText.ImportMapData(game.activeMap, text).error
    ensures out.game.status == game.status && out.game.mapHistory == game.mapHistory
  {
    match MapText.ImportMapData(game.activeMap, text)
    case Imported(g) => Loaded(ClearRoots(game).(activeMap := g), Options.None)
    case Failed(partial, e) => Loaded(game.(activeMap := partial), Options.Some(e))
  }

  /** Loading the text exported from any map of the same size succeeds,
      destroys every root and leaves that map's tile types with exactly the
      Dirt and seed slots occupied. */
  lemma LoadExportedLevel(game: Game, g: Maps.Grid, nl: MapText.NewLine)
    requires Valid(game.activeMap) && Valid(g) && Populated(g)
    requires g.sizeX == game.activeMap.sizeX && g.sizeY == game.activeMap.sizeY
    ensures var out := LoadActiveMap(game, MapText.ExportMapData(g, nl));
      && out.error.None? && out.game.roots == []
      && SameLayout(g, out.game.activeMap)
      && forall x, y :: InRange(g, x, y) ==>
           At(out.game.activeMap, x, y).tile.blocked == BlocksByType(At(g, x, y).tile.tileType)
  {
    MapText.ExportImportRoundTrip(g, game.activeMap, nl);
  }

  // ---------------------------------------------------------------- a move

  /** Assumption: `Root.CanRootGrow(d)`, which the source calls but does not
      define, is taken as "`d` is not blocked for this root". */
  predicate CanRootGrow(r: Root, g: Grid, d: Direction)
    requires Framed(g) && Interior(g, r.tip)
  {
    !DirectionBlocked(r, g, d)
  }

  predicate CanAnyRootGrow(rs: seq<Root>, g: Grid, d: Direction)
    requires Framed(g) && forall i | 0 <= i < |rs| :: Interior(g, rs[i].tip)
  {
    exists i | 0 <= i < |rs| :: CanRootGrow(rs[i], g, d)
  }

  /** Assumption: `Root.TryGrow(d)`, which the source calls but does not define,
      is taken as the idle branch of `Root.Update`: an idle root takes `d` and
      grows; a root with a step in flight is left alone. */
  function TryGrow(r: Root, g: Grid, s: Status, d: Direction): (out: Step)
    requires Framed(g) && Interior(g, r.tip)
    ensures Framed(out.grid) && Interior(out.grid, out.root.tip) && SameLayout(g, out.grid)
    ensures r.latched || r.growing ==> out == Step(r, g, s)
    ensures !r.latched && !r.growing && !DirectionBlocked(r, g, d) ==>
      out.root.tip == Destination(r.tip, d) && out.root.growthDirection == d
    ensures out.status == s.(state := out.status.state, totalRootsStuck := out.status.totalRootsStuck,
                             totalRootsAtDestination := out.status.totalRootsAtDestination)
    ensures s.totalRootsStuck <= out.status.totalRootsStuck && s.totalRootsAtDestination <= out.status.totalRootsAtDestination
  {
    if r.latched || r.growing then Step(r, g, s)
    else
      var r1 := r.(currentDirection := d);
      FramedGrow(r1, g, s);
      GrowCounts(r1, g, s);
      Grow(r1, g, s)
  }

  /** Which roots, map and manager state a pass over all roots leaves. */
  datatype Turn = Turn(roots: seq<Root>, grid: Grid, status: Status)

  /** Every tip in `rs` is off the edge of `g`. */
  predicate InteriorAll(g: Grid, rs: seq<Root>) {
    forall i | 0 <= i < |rs| :: Interior(g, rs[i].tip)
  }

  /** The tips after the first stay off the edge of a map of the same size. */
  lemma InteriorTail(g: Grid, h: Grid, rs: seq<Root>)
    requires rs != [] && InteriorAll(g, rs) && h.sizeX == g.sizeX && h.sizeY == g.sizeY
    ensures InteriorAll(h, rs[1..])
  {
    forall i | 0 <= i < |rs[1..]| ensures Interior(h, rs[1..][i].tip) {
      assert rs[1..][i] == rs[i + 1];
    }
  }

  /** Putting an interior root in front keeps every tip interior. */
  lemma InteriorCons(g: Grid, r: Root, rs: seq<Root>)
    requires Interior(g, r.tip) && InteriorAll(g, rs)
    ensures InteriorAll(g, [r] + rs)
  {
    forall i | 0 <= i < |[r] + rs| ensures Interior(g, ([r] + rs)[i].tip) {
      if i > 0 { assert ([r] + rs)[i] == rs[i - 1]; }
    }
  }

  /** The `TryGrow` loop of `MakeRootsGrow`, root by root in list order, each
      seeing the map and counters the previous ones left. */
  function GrowAll(rs: seq<Root>, g: Grid, s: Status, d: Direction): (out: Turn)
    requires Framed(g) && forall i | 0 <= i < |rs| :: Interior(g, rs[i].tip)
    ensures |out.roots| == |rs|
    ensures Framed(out.grid) && SameLayout(g, out.grid)
    ensures forall i | 0 <= i < |out.roots| :: Interior(out.grid, out.roots[i].tip)
    ensures out.status == s.(state := out.status.state, totalRootsStuck := out.status.totalRootsStuck,
                             totalRootsAtDestination := out.status.totalRootsAtDestination)
    ensures s.totalRootsStuck <= out.status.totalRootsStuck && s.totalRootsAtDestination <= out.status.totalRootsAtDestination
    ensures rs == [] ==> out == Turn([], g, s)
    ensures rs != [] ==>
      var first := TryGrow(rs[0], g, s, d);
      && out.roots[0] == first.root
      && InteriorAll(first.grid, rs[1..])
      && var rest := GrowAll(rs[1..], first.grid, first.status, d);
         out == Turn([first.root] + rest.roots, rest.grid, rest.status)
    decreases |rs|
  {
    if rs == [] then Turn([], g, s)
    else
      var first := TryGrow(rs[0], g, s, d);
      InteriorTail(g, first.grid, rs);
      var rest := GrowAll(rs[1..], first.grid, first.status, d);
      SameLayoutTrans(g, first.grid, rest.grid);
      var roots := [first.root] + rest.roots;
      InteriorCons(rest.grid, first.root, rest.roots);
      Turn(roots, rest.grid, rest.status)
  }

  /** `BackupLastRootHistory`. Assumption: `GameMap.BackupTiles`, which the
      source calls but does not define, pushes a copy of the tiles onto
      `previousMapTiles`; and the roots are saved for their `ResetPosition`. */
  function BackupLastRootHistory(game: Game): (out: Game)
    requires Bounded(game.mapHistory)
    ensures out.status == game.status.(historyRecorded := true, prevTotalRootsStuck := game.status.totalRootsStuck)
    ensures out.activeMap == game.activeMap && out.roots == game.roots && out.rootsBackup == game.roots
    ensures Bounded(out.mapHistory) && Pop(out.mapHistory).item == Options.Some(game.activeMap.cells)
    ensures out.mapHistory.capacity == game.mapHistory.capacity
  {
    PushKeepsBound(game.mapHistory, game.activeMap.cells);
    PopAfterPush(game.mapHistory, game.activeMap.cells);
    var pushed := Push(game.mapHistory, game.activeMap.cells).stack;
    game.(status := game.status.(historyRecorded := true, prevTotalRootsStuck := game.status.totalRootsStuck),
          mapHistory := pushed, rootsBackup := game.roots)
  }

  /** `MakeRootsGrow`: nothing at all unless some root can grow in `d`; then,
      unless undo has been used, the state is backed up and undo offered, and
      every root tries to grow. */
  function MakeRootsGrow(game: Game, d: Direction): (out: Game)
    requires Consistent(game)
    ensures !CanAnyRootGrow(game.roots, game.activeMap, d) ==> out == game
    ensures CanAnyRootGrow(game.roots, game.activeMap, d) && !game.status.usedUndo ==>
      && out.status.undoAvailable && out.status.historyRecorded && !out.status.usedUndo
      && out.status.prevTotalRootsStuck == game.status.totalRootsStuck
      && out.rootsBackup == game.roots
      && Pop(out.mapHistory).item == Options.Some(game.activeMap.cells)
    ensures game.status.usedUndo ==>
      && out.status.usedUndo && out.status.undoAvailable == game.status.undoAvailable
      && out.status.historyRecorded == game.status.historyRecorded
      && out.status.prevTotalRootsStuck == game.status.prevTotalRootsStuck
      && out.mapHistory == game.mapHistory && out.rootsBackup == game.rootsBackup
    ensures CanAnyRootGrow(game.roots, game.activeMap, d) ==>
      var backed := if game.status.usedUndo then game.status
                    else game.status.(historyRecorded := true, undoAvailable := true,
                                      prevTotalRootsStuck := game.status.totalRootsStuck);
      var t := GrowAll(game.roots, game.activeMap, backed, d);
      out.roots == t.roots && out.activeMap == t.grid && out.status == t.status
    ensures |out.roots| == |game.roots|
    ensures out.status.totalRoots == game.status.totalRoots && out.status.rootsGrowing == game.status.rootsGrowing
    ensures game.status.totalRootsStuck <= out.status.totalRootsStuck
    ensures game.status.totalRootsAtDestination <= out.status.totalRootsAtDestination
    ensures Consistent(out)
  {
    if !CanAnyRootGrow(game.roots, game.activeMap, d) then game
    else
      BackupKeepsConsistent(game);
      var backed :=
        if game.status.usedUndo then game
        else
          var b := BackupLastRootHistory(game);
          b.(status := b.status.(undoAvailable := true));
      var t := GrowAll(backed.roots, backed.activeMap, backed.status, d);
      TurnKeepsConsistent(backed, t);
      backed.(roots := t.roots, activeMap := t.grid, status := t.status)
  }

  /** A backup keeps the game consistent: the snapshot pushed is the current,
      framed map. */
  lemma BackupKeepsConsistent(game: Game)
    requires Consistent(game)
    ensures Consistent(BackupLastRootHistory(game))
  {
    var g := game.activeMap;
    assert g == Grid(g.sizeX, g.sizeY, g.cells);
    PushKeepsFramed(g.sizeX, g.sizeY, game.mapHistory, g.cells);
  }

  /** Putting the roots and map a pass left back into a consistent game keeps
      it consistent. */
  lemma TurnKeepsConsistent(game: Game, t: Turn)
    requires Consistent(game) && Framed(t.grid) && SameLayout(game.activeMap, t.grid)
    requires forall i | 0 <= i < |t.roots| :: Interior(t.grid, t.roots[i].tip)
    ensures Consistent(game.(roots := t.roots, activeMap := t.grid, status := t.status))
  {
    assert t.grid.sizeX == game.activeMap.sizeX && t.grid.sizeY == game.activeMap.sizeY;
  }

  // ---------------------------------------------------------------- undo

  /** `RestoreRootHistory`. Assumption: `GameMap.RestoreTiles`, which the
      source calls but does not define, pops `previousMapTiles` and puts the
      popped tiles back, and leaves the map alone when the stack is empty. */
  function RestoreRootHistory(game: Game): (out: Game)
    ensures out.status == game.status.(totalRootsStuck := game.status.prevTotalRootsStuck)
    ensures out.mapHistory == Pop(game.mapHistory).stack
    ensures out.activeMap == match Pop(game.mapHistory).item
                       case Some(cells) => game.activeMap.(cells := cells)
                       case None => game.activeMap
    ensures out.roots == game.roots && out.rootsBackup == game.rootsBackup
  {
    var popped := Pop(game.mapHistory);
    var restored := match popped.item
      case Some(cells) => game.activeMap.(cells := cells)
      case None => game.activeMap;
    game.(status := game.status.(totalRootsStuck := game.status.prevTotalRootsStuck),
          activeMap := restored, mapHistory := popped.stack)
  }

  /** `PerformUndo`: undo is used up, the stuck count and the map go back to
      the last backup, and `ResetLastRootPositions` resets every root still
      active, so that no root is brought back. Assumption:
      `Root.ResetPosition`, which the source calls but does not define, puts
      the root back to its record saved at the backup, and leaves a root
      that has no record where it is. */
  function PerformUndo(game: Game): (out: Game)
    ensures out.status.usedUndo && !out.status.undoAvailable
    ensures out.status.totalRootsStuck == game.status.prevTotalRootsStuck
    ensures out.status == game.status.(usedUndo := true, undoAvailable := false,
                                       totalRootsStuck := game.status.prevTotalRootsStuck)
    ensures out.mapHistory == Pop(game.mapHistory).stack
    ensures out.activeMap.sizeX == game.activeMap.sizeX && out.activeMap.sizeY == game.activeMap.sizeY
    ensures Pop(game.mapHistory).item.Some? ==> out.activeMap.cells == Pop(game.mapHistory).item.value
    ensures Pop(game.mapHistory).item.None? ==> out.activeMap == game.activeMap
    ensures out.rootsBackup == game.rootsBackup
    ensures |out.roots| == |game.roots|
    ensures forall i | 0 <= i < |game.roots| && i < |game.rootsBackup| :: out.roots[i] == game.rootsBackup[i]
    ensures forall i | |game.rootsBackup| <= i < |game.roots| :: out.roots[i] == game.roots[i]
    ensures |game.rootsBackup| == |game.roots| ==> out.roots == game.rootsBackup
  {
    var r := RestoreRootHistory(game.(status := game.status.(usedUndo := true, undoAvailable := false)));
    r.(roots := ResetPositions(game.roots, game.rootsBackup))
  }

  /** `ResetLastRootPositions`: each active root in turn goes back to its
      saved record, if it has one. */
  function ResetPositions(roots: seq<Root>, saved: seq<Root>): (out: seq<Root>)
    ensures |out| == |roots|
    ensures forall i | 0 <= i < |roots| :: out[i] == if i < |saved| then saved[i] else roots[i]
    decreases |roots|
  {
    if roots == [] then []
    else [if 0 < |saved| then saved[0] else roots[0]]
         + ResetPositions(roots[1..], if 0 < |saved| then saved[1..] else [])
  }

  /** `UndoPress`: acts only when undo is on offer and no root is growing. */
  function UndoPress(game: Game): (out: Game)
    ensures !(game.status.undoAvailable && !game.status.rootsGrowing) ==> out == game
    ensures game.status.undoAvailable && !game.status.rootsGrowing ==> out == PerformUndo(game)
  {
    if game.status.undoAvailable && !game.status.rootsGrowing then PerformUndo(game) else game
  }

  /** A second press straight after the first does nothing. */
  lemma UndoPressTwice(game: Game)
    ensures UndoPress(UndoPress(game)) == UndoPress(game)
  {
  }

  /** An undo straight after a backup gives back the map, the roots and the
      stuck count that were backed up, and, when the stack had room, the
      history too. */
  lemma UndoInvertsBackup(game: Game)
    requires Bounded(game.mapHistory)
    ensures var undone := PerformUndo(BackupLastRootHistory(game));
      && undone.activeMap == game.activeMap && undone.roots == game.roots
      && undone.status.totalRootsStuck == game.status.totalRootsStuck
      && (|game.mapHistory.items| < game.mapHistory.capacity ==> undone.mapHistory == game.mapHistory)
  {
    var g := game.activeMap;
    PopAfterPush(game.mapHistory, g.cells);
    if |game.mapHistory.items| < game.mapHistory.capacity {
      PushThenPop(game.mapHistory, g.cells);
    }
    assert g == Grid(g.sizeX, g.sizeY, g.cells);
  }

  /** Once a load has destroyed the roots, an undo restores the map but
      brings no root back. */
  lemma UndoAfterLoadBringsNoRoots(game: Game, text: string)
    requires Valid(game.activeMap) && LoadActiveMap(game, text).error.None?
    ensures UndoPress(LoadActiveMap(game, text).game).roots == []
  {
  }

  /** Undo keeps the game consistent and the undo flags apart. */
  lemma UndoKeepsConsistent(game: Game)
    requires Consistent(game)
    ensures Consistent(UndoPress(game))
    ensures UndoFlagsOk(game.status) ==> UndoFlagsOk(UndoPress(game).status)
  {
    var out := UndoPress(game);
    if game.status.undoAvailable && !game.status.rootsGrowing {
      var g := game.activeMap;
      PopKeepsFramed(g.sizeX, g.sizeY, game.mapHistory);
      match Pop(game.mapHistory).item
      case Some(top) =>
        assert out.activeMap == Grid(g.sizeX, g.sizeY, top);
      case None =>
      assert out.activeMap.sizeX == g.sizeX && out.activeMap.sizeY == g.sizeY;
      forall i | 0 <= i < |out.roots| ensures Interior(out.activeMap, out.roots[i].tip) {
        if i < |game.rootsBackup| {
          assert out.roots[i] == game.rootsBackup[i];
        } else {
          assert out.roots[i] == game.roots[i];
        }
      }
    }
  }

  // ---------------------------------------------------------------- frames

  /** What the manager's `Update` reads from the keyboard in one frame. */
  datatype Input = NoKey | Escape | UndoKey | Arrow(direction: Direction)

  /** `RootsGrowing`. */
  predicate AnyGrowing(rs: seq<Root>) {
    exists i | 0 <= i < |rs| :: rs[i].growing
  }

  /** The key handling of `GameplayManager.Update` while the game is being
      played and no root grows: Escape pauses, the undo key undoes when undo
      is on offer, an arrow makes the roots grow. */
  function Command(game: Game, input: Input): (out: Game)
    requires Consistent(game)
    ensures Consistent(out)
    ensures input == NoKey ==> out == game
    ensures input == Escape ==> out == game.(status := game.status.(state := Paused))
    ensures input == UndoKey ==> out == (if game.status.undoAvailable then UndoPress(game) else game)
    ensures input.Arrow? ==>
      out == (if Cardinal(input.direction) then MakeRootsGrow(game, input.direction) else game)
    ensures UndoFlagsOk(game.status) ==> UndoFlagsOk(out.status)
    ensures game.status.usedUndo && UndoFlagsOk(game.status) ==>
      && out.status.usedUndo && out.mapHistory == game.mapHistory && out.rootsBackup == game.rootsBackup
    ensures game.status.totalRootsAtDestination <= out.status.totalRootsAtDestination
  {
    match input
    case Escape => game.(status := game.status.(state := Paused))
    case UndoKey =>
      if game.status.undoAvailable then (UndoKeepsConsistent(game); UndoPress(game)) else game
    case Arrow(d) => if Cardinal(d) then MakeRootsGrow(game, d) else game
    case NoKey => game
  }

  /** `GameplayManager.Update` for one frame: input is taken only while the
      game is being played and no root is growing; while paused, Escape
      resumes. */
  function Frame(game: Game, input: Input): (out: Game)
    requires Consistent(game)
    ensures Consistent(out)
    ensures out.status.rootsGrowing == AnyGrowing(out.roots)
    ensures AnyGrowing(game.roots) && game.status.state != Paused ==>
      out == game.(status := game.status.(rootsGrowing := true))
    ensures game.status.state == Playing && !AnyGrowing(game.roots) ==>
      var command := Command(game.(status := game.status.(rootsGrowing := false)), input);
      out == command.(status := command.status.(rootsGrowing := AnyGrowing(command.roots)))
    ensures game.status.state == Paused ==>
      out == game.(status := game.status.(state := if input == Escape then Playing else Paused,
                                          rootsGrowing := AnyGrowing(game.roots)))
    ensures game.status.state !in {Playing, Paused} ==>
      out == game.(status := game.status.(rootsGrowing := AnyGrowing(game.roots)))
    ensures UndoFlagsOk(game.status) ==> UndoFlagsOk(out.status)
    ensures game.status.usedUndo && UndoFlagsOk(game.status) ==>
      && out.status.usedUndo && out.mapHistory == game.mapHistory && out.rootsBackup == game.rootsBackup
    ensures game.status.totalRootsAtDestination <= out.status.totalRootsAtDestination
  {
    var growing := AnyGrowing(game.roots);
    var g0 := game.(status := game.status.(rootsGrowing := growing));
    if g0.status.state == Playing then
      if growing then g0
      else
        var g1 := Command(g0, input);
        g1.(status := g1.status.(rootsGrowing := AnyGrowing(g1.roots)))
    else if g0.status.state == Paused && input == Escape then
      g0.(status := g0.status.(state := Playing))
    else g0
  }

  /** One root's `Update` in a frame, with the arrow key it reads. */
  function RootFrame(game: Game, i: int, key: Direction): (out: Game)
    requires Consistent(game) && 0 <= i < |game.roots|
    ensures Consistent(out)
    ensures |out.roots| == |game.roots|
    ensures forall j | 0 <= j < |game.roots| && j != i :: out.roots[j] == game.roots[j]
    ensures out.mapHistory == game.mapHistory && out.rootsBackup == game.rootsBackup
    ensures out.status == game.status.(state := out.status.state, totalRootsStuck := out.status.totalRootsStuck,
                                       totalRootsAtDestination := out.status.totalRootsAtDestination)
    ensures game.status.totalRootsStuck <= out.status.totalRootsStuck
    ensures game.status.totalRootsAtDestination <= out.status.totalRootsAtDestination
  {
    var r := game.roots[i];
    var st := Update(r, game.activeMap, game.status, key);
    UpdateKeepsFramed(r, game.activeMap, game.status, key);
    UpdateCounts(r, game.activeMap, game.status, key);
    game.(roots := game.roots[i := st.root], activeMap := st.grid, status := st.status)
  }

  /** A run of root frames, each naming the root and the key it reads. */
  function RunRoots(game: Game, frames: seq<(int, Direction)>): (out: Game)
    requires Consistent(game)
    requires forall k | 0 <= k < |frames| :: 0 <= frames[k].0 < |game.roots|
    ensures Consistent(out) && |out.roots| == |game.roots|
    decreases |frames|
  {
    if frames == [] then game
    else RunRoots(RootFrame(game, frames[0].0, frames[0].1), frames[1..])
  }

  /** Root frames never touch the undo bookkeeping. */
  lemma {:induction false} RunRootsKeepsHistory(game: Game, frames: seq<(int, Direction)>)
    requires Consistent(game)
    requires forall k | 0 <= k < |frames| :: 0 <= frames[k].0 < |game.roots|
    ensures var out := RunRoots(game, frames);
      && out.mapHistory == game.mapHistory && out.rootsBackup == game.rootsBackup
      && out.status == game.status.(state := out.status.state, totalRootsStuck := out.status.totalRootsStuck,
                                    totalRootsAtDestination := out.status.totalRootsAtDestination)
      && game.status.totalRootsAtDestination <= out.status.totalRootsAtDestination
    decreases |frames|
  {
    if frames != [] {
      RunRootsKeepsHistory(RootFrame(game, frames[0].0, frames[0].1), frames[1..]);
    }
  }

  /** Undo after a move: if a move was made before undo was used, then
      whatever the roots did afterwards, the undo key in the first manager
      frame that finds the game still being played and no root growing puts
      the map, the roots and the stuck count back as they were just before
      the move. */
  lemma {:induction false} UndoRevertsMove(game: Game, d: Direction, frames: seq<(int, Direction)>)
    requires Consistent(game) && !game.status.usedUndo && CanAnyRootGrow(game.roots, game.activeMap, d)
    requires forall k | 0 <= k < |frames| :: 0 <= frames[k].0 < |game.roots|
    ensures var after := RunRoots(MakeRootsGrow(game, d), frames);
      after.status.state == Playing && !AnyGrowing(after.roots) ==>
        var undone := Frame(after, UndoKey);
        && undone.status.usedUndo && !undone.status.undoAvailable
        && undone.status.totalRootsStuck == game.status.totalRootsStuck
        && undone.roots == game.roots
        && undone.activeMap.cells == game.activeMap.cells
  {
    var after := RunRoots(MakeRootsGrow(game, d), frames);
    MoveIsBackedUp(game, d, frames);
    if after.status.state == Playing && !AnyGrowing(after.roots) {
      UndoKeyFrame(after);
    }
  }

  /** A move made before undo was used leaves, through any root frames, undo
      on offer with the state of just before the move saved. */
  lemma {:induction false} MoveIsBackedUp(game: Game, d: Direction, frames: seq<(int, Direction)>)
    requires Consistent(game) && !game.status.usedUndo && CanAnyRootGrow(game.roots, game.activeMap, d)
    requires forall k | 0 <= k < |frames| :: 0 <= frames[k].0 < |game.roots|
    ensures var after := RunRoots(MakeRootsGrow(game, d), frames);
      && after.status.undoAvailable && after.rootsBackup == game.roots && |after.roots| == |game.roots|
      && after.status.prevTotalRootsStuck == game.status.totalRootsStuck
      && Pop(after.mapHistory).item == Options.Some(game.activeMap.cells)
  {
    RunRootsKeepsHistory(MakeRootsGrow(game, d), frames);
  }

  /** The undo key, in a frame that finds the game being played, no root
      growing and undo on offer, performs the undo. */
  lemma UndoKeyFrame(game: Game)
    requires Consistent(game) && game.status.state == Playing && !AnyGrowing(game.roots)
    requires game.status.undoAvailable
    ensures var undone := Frame(game, UndoKey);
      && undone.status.usedUndo && !undone.status.undoAvailable
      && undone.status.totalRootsStuck == game.status.prevTotalRootsStuck
      && |undone.roots| == |game.roots|
      && (forall i | 0 <= i < |game.roots| && i < |game.rootsBackup| :: undone.roots[i] == game.rootsBackup[i])
      && (|game.rootsBackup| == |game.roots| ==> undone.roots == game.rootsBackup)
      && (Pop(game.mapHistory).item.Some? ==> undone.activeMap.cells == Pop(game.mapHistory).item.value)
  {
    var g0 := game.(status := game.status.(rootsGrowing := false));
    assert Command(g0, UndoKey) == PerformUndo(g0);
  }

  /** Once undo has been used, no run of frames backs up again or offers undo
      again: the history, the saved roots and the flags stay as they are. Only
      `ResetMap` clears them. */
  lemma {:induction false} UsedUndoSticks(game: Game, inputs: seq<Input>)
    requires Consistent(game) && game.status.usedUndo && UndoFlagsOk(game.status)
    ensures var out := Play(game, inputs);
      && out.status.usedUndo && !out.status.undoAvailable
      && out.mapHistory == game.mapHistory && out.rootsBackup == game.rootsBackup
    decreases |inputs|
  {
    if inputs != [] {
      UsedUndoSticks(Frame(game, inputs[0]), inputs[1..]);
    }
  }

  /** A run of manager frames. */
  function Play(game: Game, inputs: seq<Input>): (out: Game)
    requires Consistent(game)
    ensures Consistent(out)
    ensures UndoFlagsOk(game.status) ==> UndoFlagsOk(out.status)
    decreases |inputs|
  {
    if inputs == [] then game else Play(Frame(game, inputs[0]), inputs[1..])
  }

  /** A level once won stays won until the map is reset: no frame of the
      manager or of a root lowers the count of roots at Water. */
  lemma {:induction false} WinIsKept(game: Game, inputs: seq<Input>)
    requires Consistent(game) && CheckIfWon(game.status)
    ensures CheckIfWon(Play(game, inputs).status)
    decreases |inputs|
  {
    if inputs != [] {
      WinIsKept(Frame(game, inputs[0]), inputs[1..]);
    }
  }

  /** While a root is still growing and the game is not paused, every
      frame of the manager ignores its input, however long the run: while a
      root stays growing (as one stuck while others are free does), the
      manager ignores all input. */
  lemma {:induction false} GrowingIgnoresInput(game: Game, inputs: seq<Input>, i: int)
    requires Consistent(game) && game.status.state != Paused && 0 <= i < |game.roots| && game.roots[i].growing
    ensures inputs != [] ==> Play(game, inputs) == game.(status := game.status.(rootsGrowing := true))
    decreases |inputs|
  {
    if inputs != [] {
      var next := Frame(game, inputs[0]);
      GrowingIgnoresInput(next, inputs[1..], i);
    }
  }

}
