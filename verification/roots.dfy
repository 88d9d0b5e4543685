/** A root agent and its single growth step over the shared map
    (Assets/Scripts/GameData/Root.cs). Tilemap, audio and the coroutine delay
    are left out: one `Grow` is one atomic step. */
module Roots {

  import opened Directions
  import opened Tiles
  import opened Maps
  import opened GameStatus

  /** A `Root`: `start` and `tip` are `stageStartPosition` and
      `stageTipPosition`; `seed` is its `tileType`; `latched` is the private
      `blocked` flag that keeps `Update` from starting a second step while one
      is in flight. */
  datatype Root = Root(
    start: Pos,
    tip: Pos,
    baseDirection: Direction,
    growthDirection: Direction,
    currentDirection: Direction,
    seed: TileType,
    growing: bool,
    latched: bool)

  /** What one step leaves behind: the root, the map and the manager state. */
  datatype Step = Step(root: Root, grid: Grid, status: Status)

  /** Slot `p` exists and is not null. */
  predicate Present(g: Grid, p: Pos) {
    Valid(g) && InRange(g, p.x, p.y) && At(g, p.x, p.y).Placed?
  }

  function TileAt(g: Grid, p: Pos): Tile
    requires Present(g, p)
  {
    At(g, p.x, p.y).tile
  }

  predicate BlockedAt(g: Grid, p: Pos)
    requires Present(g, p)
  {
    IsBlockedTile(TileAt(g, p))
  }

  /** The four neighbours of `p` exist and are not null. */
  predicate NeighboursPresent(g: Grid, p: Pos) {
    && Present(g, Destination(p, North)) && Present(g, Destination(p, East))
    && Present(g, Destination(p, South)) && Present(g, Destination(p, West))
  }

  /** `DirectionBlocked`: `d` goes straight back the way the root last grew, or
      its target slot is logically blocked. The map is read only when the first
      test fails, so only then must the target exist. */
  predicate DirectionBlocked(r: Root, g: Grid, d: Direction)
    requires d == Opposite(r.growthDirection) || Present(g, Destination(r.tip, d))
  {
    d == Opposite(r.growthDirection) || BlockedAt(g, Destination(r.tip, d))
  }

  /** `IsStuck`: the three sides other than straight back, as seen from
      `currentDirection`. */
  predicate IsStuck(r: Root, g: Grid)
    requires NeighboursPresent(g, r.tip)
  {
    var north := DirectionBlocked(r, g, North);
    var south := DirectionBlocked(r, g, South);
    var east := DirectionBlocked(r, g, East);
    var west := DirectionBlocked(r, g, West);
    match r.currentDirection
    case North => north && east && west
    case South => south && east && west
    case East => east && north && south
    case West => west && north && south
    case None => false
  }

  /** A root is stuck exactly when it has a direction and the way ahead and
      both quarter turns from it are blocked. */
  lemma IsStuckMeaning(r: Root, g: Grid)
    requires NeighboursPresent(g, r.tip)
    ensures IsStuck(r, g) <==>
      && Cardinal(r.currentDirection)
      && DirectionBlocked(r, g, r.currentDirection)
      && DirectionBlocked(r, g, Clockwise(r.currentDirection))
      && DirectionBlocked(r, g, Anticlockwise(r.currentDirection))
  {
  }

  /** `GetRedirectDirection`: the way out of a reflector, keyed by the side the
      root came in by; any other pair gives None. */
  function GetRedirectDirection(enterDirection: Direction, redirType: TileType): Direction {
    match redirType
    case ReflectorBL =>
      if enterDirection == North then East else if enterDirection == East then North else None
    case ReflectorBR =>
      if enterDirection == North then West else if enterDirection == West then North else None
    case ReflectorTL =>
      if enterDirection == East then South else if enterDirection == South then East else None
    case ReflectorTR =>
      if enterDirection == West then South else if enterDirection == South then West else None
    case _ => None
  }

  /** The sides a reflector joins: BL and BR the north side with east or west,
      TL and TR the south side with east or west. */
  function JoinedSides(t: TileType): set<Direction> {
    match t
    case ReflectorBL => {North, East}
    case ReflectorBR => {North, West}
    case ReflectorTL => {South, East}
    case ReflectorTR => {South, West}
    case _ => {}
  }

  /** The table holds exactly eight entries: a reflector leads from each of its
      two joined sides to the other one, a quarter turn away, and every other
      pair leads nowhere. */
  lemma RedirectTable(enter: Direction, t: TileType)
    ensures GetRedirectDirection(enter, t) != None <==> enter in JoinedSides(t)
    ensures enter in JoinedSides(t) ==>
      && GetRedirectDirection(enter, t) in JoinedSides(t)
      && Perpendicular(GetRedirectDirection(enter, t), enter)
      && GetRedirectDirection(GetRedirectDirection(enter, t), t) == enter
    ensures |JoinedSides(t)| == if t in {ReflectorTL, ReflectorTR, ReflectorBL, ReflectorBR} then 2 else 0
  {
  }

  /** The redirect branch of `Update`: on a reflector the next direction comes
      from the side the root came in by, the reverse of `currentDirection`. */
  function Redirected(r: Root, g: Grid): (r': Root)
    requires Present(g, r.tip)
    ensures !IsRedirectTile(TileAt(g, r.tip)) ==> r' == r
    ensures r' == r.(currentDirection := r'.currentDirection)
  {
    if IsRedirectTile(TileAt(g, r.tip))
    then r.(currentDirection := GetRedirectDirection(Opposite(r.currentDirection), TileAt(g, r.tip).tileType))
    else r
  }

  /** A root travelling in `d` onto a reflector turns a quarter turn when it
      came in by one of the reflector's joined sides and is left without a
      direction otherwise. */
  lemma RedirectByTravel(r: Root, g: Grid)
    requires Present(g, r.tip) && IsRedirectTile(TileAt(g, r.tip)) && Cardinal(r.currentDirection)
    ensures var t := TileAt(g, r.tip).tileType;
      if Opposite(r.currentDirection) in JoinedSides(t)
      then Perpendicular(Redirected(r, g).currentDirection, r.currentDirection)
        && Redirected(r, g).currentDirection in JoinedSides(t)
      else Redirected(r, g).currentDirection == None
  {
    RedirectTable(Opposite(r.currentDirection), TileAt(g, r.tip).tileType);
  }

  /** The calls `Exit` on the tip and `Enter` on the next slot. */
  function Occupy(g: Grid, from: Pos, to: Pos, d: Direction): (g': Grid)
    requires Present(g, from) && Present(g, to)
    ensures Valid(g') && SameLayout(g, g') && Populated(g') == Populated(g)
    ensures Present(g', to) && BlockedAt(g', to)
    ensures from != to ==> TileAt(g', from).blocked == TileAt(g, from).blocked
    ensures forall x, y :: InRange(g, x, y) && Pos(x, y) != from && Pos(x, y) != to ==> At(g', x, y) == At(g, x, y)
  {
    var g0 := SetCell(g, from.x, from.y, Placed(Exit(TileAt(g, from), d)));
    SetCell(g0, to.x, to.y, Placed(Enter(TileAt(g0, to), Opposite(d))))
  }

  /** The slots one step reads exist: the tip, the target unless the direction
      is straight back, and after a move onto a tile other than Poison the
      four neighbours of the new tip. */
  predicate GrowInRange(r: Root, g: Grid) {
    && Present(g, r.tip)
    && (r.currentDirection == Opposite(r.growthDirection) || Present(g, Destination(r.tip, r.currentDirection)))
    && (!DirectionBlocked(r, g, r.currentDirection) && !IsDeathTile(TileAt(g, Destination(r.tip, r.currentDirection)))
        ==> NeighboursPresent(g, Destination(r.tip, r.currentDirection)))
  }

  /** The root moved by this step. */
  predicate Moved(r: Root, g: Grid)
    requires GrowInRange(r, g)
  {
    !DirectionBlocked(r, g, r.currentDirection)
  }

  lemma PresentKept(g: Grid, g': Grid, p: Pos)
    requires Valid(g) && Valid(g') && SameLayout(g, g') && Present(g, p)
    ensures Present(g', p) && TileAt(g', p).tileType == TileAt(g, p).tileType
  {
  }

  lemma NeighboursKept(g: Grid, g': Grid, p: Pos)
    requires Valid(g) && Valid(g') && SameLayout(g, g')
    ensures NeighboursPresent(g, p) ==> NeighboursPresent(g', p)
  {
    if NeighboursPresent(g, p) {
      PresentKept(g, g', Destination(p, North));
      PresentKept(g, g', Destination(p, East));
      PresentKept(g, g', Destination(p, South));
      PresentKept(g, g', Destination(p, West));
    }
  }

  /** The first half of a step that is not blocked: `Exit` on the tip,
      `Enter` on the next slot, and the root moves there, recording the
      direction it grew in and latching until the step is settled. */
  function Advance(r: Root, g: Grid, s: Status): (out: Step)
    requires GrowInRange(r, g) && Moved(r, g)
    ensures Valid(out.grid) && SameLayout(g, out.grid) && out.status == s
    ensures out.root == r.(tip := Destination(r.tip, r.currentDirection), growthDirection := r.currentDirection,
                           growing := true, latched := true)
    ensures Present(out.grid, out.root.tip) && BlockedAt(out.grid, out.root.tip)
    ensures TileAt(out.grid, out.root.tip).tileType == TileAt(g, out.root.tip).tileType
    ensures forall x, y :: InRange(g, x, y) && Pos(x, y) != r.tip && Pos(x, y) != out.root.tip ==>
      At(out.grid, x, y) == At(g, x, y)
    ensures r.tip != out.root.tip ==> TileAt(out.grid, r.tip).blocked == TileAt(g, r.tip).blocked
    ensures !IsDeathTile(TileAt(out.grid, out.root.tip)) ==> NeighboursPresent(out.grid, out.root.tip)
  {
    var d := r.currentDirection;
    var dest := Destination(r.tip, d);
    var g1 := Occupy(g, r.tip, dest, d);
    PresentKept(g, g1, dest);
    NeighboursKept(g, g1, dest);
    Step(r.(latched := true, growing := true, growthDirection := d, tip := dest), g1, s)
  }

  /** What `Grow` does after the move, checked in this order: Poison ends the
      game; being stuck off Water counts the root as stuck (and ends the game
      once every root is stuck); Water with the way ahead blocked counts the
      root as arrived and wins; anything else releases the latch so the next
      step can run. */
  function Settle(r: Root, g: Grid, s: Status): (out: Step)
    requires Present(g, r.tip)
    requires !IsDeathTile(TileAt(g, r.tip)) ==> NeighboursPresent(g, r.tip)
    ensures out.grid == g
    ensures out.root == r.(growing := out.root.growing, latched := out.root.latched)
    ensures out.status == s.(state := out.status.state, totalRootsStuck := out.status.totalRootsStuck,
                             totalRootsAtDestination := out.status.totalRootsAtDestination)
    // 1. Poison
    ensures IsDeathTile(TileAt(g, r.tip)) ==>
      out.status == SetGameOver(s) && !out.root.growing && out.root.latched == r.latched
    // 2. stuck and not on Water
    ensures !IsDeathTile(TileAt(g, r.tip)) && IsStuck(r, g) && !IsDestination(TileAt(g, r.tip)) ==>
      && out.status.totalRootsStuck == s.totalRootsStuck + 1
      && out.status.totalRootsAtDestination == s.totalRootsAtDestination
      && out.root.latched == r.latched
      && (if CheckIfGameOver(out.status) then out.status.state == GameOver && !out.root.growing
          else out.status.state == s.state && out.root.growing == r.growing)
    // 3. Water with the way ahead blocked
    ensures && !IsDeathTile(TileAt(g, r.tip)) && !(IsStuck(r, g) && !IsDestination(TileAt(g, r.tip)))
            && IsDestination(TileAt(g, r.tip)) && DirectionBlocked(r, g, r.growthDirection) ==>
      && out.status.totalRootsAtDestination == s.totalRootsAtDestination + 1
      && out.status.totalRootsStuck == s.totalRootsStuck
      && out.status.state == (if CheckIfWon(out.status) then WonGame else s.state)
      && !out.root.growing && out.root.latched == r.latched
    // 4. none of these: release the latch
    ensures && !IsDeathTile(TileAt(g, r.tip)) && !(IsStuck(r, g) && !IsDestination(TileAt(g, r.tip)))
            && !(IsDestination(TileAt(g, r.tip)) && DirectionBlocked(r, g, r.growthDirection)) ==>
      out.status == s && out.root.growing == r.growing && !out.root.latched
  {
    if IsDeathTile(TileAt(g, r.tip)) then Step(r.(growing := false), g, SetGameOver(s))
    else SettleAlive(r, g, s)
  }

  /** `Settle` off Poison, where the four neighbours exist. */
  function SettleAlive(r: Root, g: Grid, s: Status): (out: Step)
    requires Present(g, r.tip) && NeighboursPresent(g, r.tip) && !IsDeathTile(TileAt(g, r.tip))
    ensures out.grid == g
    ensures out.root == r.(growing := out.root.growing, latched := out.root.latched)
    ensures out.status == s.(state := out.status.state, totalRootsStuck := out.status.totalRootsStuck,
                             totalRootsAtDestination := out.status.totalRootsAtDestination)
    ensures IsStuck(r, g) && !IsDestination(TileAt(g, r.tip)) ==>
      && out.status.totalRootsStuck == s.totalRootsStuck + 1
      && out.status.totalRootsAtDestination == s.totalRootsAtDestination
      && out.root.latched == r.latched
      && (if CheckIfGameOver(out.status) then out.status.state == GameOver && !out.root.growing
          else out.status.state == s.state && out.root.growing == r.growing)
    ensures && !(IsStuck(r, g) && !IsDestination(TileAt(g, r.tip)))
            && IsDestination(TileAt(g, r.tip)) && DirectionBlocked(r, g, r.growthDirection) ==>
      && out.status.totalRootsAtDestination == s.totalRootsAtDestination + 1
      && out.status.totalRootsStuck == s.totalRootsStuck
      && out.status.state == (if CheckIfWon(out.status) then WonGame else s.state)
      && !out.root.growing && out.root.latched == r.latched
    ensures && !(IsStuck(r, g) && !IsDestination(TileAt(g, r.tip)))
            && !(IsDestination(TileAt(g, r.tip)) && DirectionBlocked(r, g, r.growthDirection)) ==>
      out.status == s && out.root.growing == r.growing && !out.root.latched
  {
    var here := TileAt(g, r.tip);
    if IsStuck(r, g) && !IsDestination(here) then
      var s1 := s.(totalRootsStuck := s.totalRootsStuck + 1);
      if CheckIfGameOver(s1) then Step(r.(growing := false), g, SetGameOver(s1)) else Step(r, g, s1)
    else if IsDestination(here) && DirectionBlocked(r, g, r.growthDirection) then
      var s1 := s.(totalRootsAtDestination := s.totalRootsAtDestination + 1);
      Step(r.(growing := false), g, if CheckIfWon(s1) then SetGameWon(s1) else s1)
    else Step(r.(latched := false), g, s)
  }

  /** The logical part of `Grow`. A blocked way ahead ends the growth in place
      and changes nothing else; otherwise the root moves one slot on in its
      current direction, which becomes its growth direction, and the step is
      settled there. */
  function Grow(r: Root, g: Grid, s: Status): (out: Step)
    requires GrowInRange(r, g)
    ensures Valid(out.grid) && SameLayout(g, out.grid)
    ensures out.root == r.(tip := out.root.tip, growthDirection := out.root.growthDirection,
                           growing := out.root.growing, latched := out.root.latched)
    ensures out.status == s.(state := out.status.state, totalRootsStuck := out.status.totalRootsStuck,
                             totalRootsAtDestination := out.status.totalRootsAtDestination)
    ensures !Moved(r, g) ==> out == Step(r.(growing := false), g, s)
    ensures Moved(r, g) ==>
      && out.root.tip == Destination(r.tip, r.currentDirection)
      && out.root.growthDirection == r.currentDirection
      && Present(out.grid, out.root.tip) && BlockedAt(out.grid, out.root.tip)
      && (forall x, y :: InRange(g, x, y) && Pos(x, y) != r.tip && Pos(x, y) != out.root.tip ==>
            At(out.grid, x, y) == At(g, x, y))
      && (r.tip != out.root.tip ==> TileAt(out.grid, r.tip).blocked == TileAt(g, r.tip).blocked)
    ensures Moved(r, g) ==>
      var a := Advance(r, g, s);
      out == Settle(a.root, a.grid, s)
  {
    if DirectionBlocked(r, g, r.currentDirection) then Step(r.(growing := false), g, s)
    else
      var a := Advance(r, g, s);
      Settle(a.root, a.grid, s)
  }

  /** A step never takes a root straight back the way it last grew. */
  lemma GrowNeverReverses(r: Root, g: Grid)
    requires GrowInRange(r, g) && Moved(r, g)
    ensures r.currentDirection != Opposite(r.growthDirection)
  {
  }

  /** `Update` for one frame, with the arrow key read that frame passed in
      (`None` for no key). Nothing happens unless the game is being played and
      no step is in flight. An idle root takes the key as its direction and
      tries to grow; a growing root is first redirected if it stands on a
      reflector and then grows again. A step started from a key never
      continues in the same frame: the source sets `growing` only after the
      step's delay. */
  function Update(r: Root, g: Grid, s: Status, key: Direction): (out: Step)
    requires Framed(g) && Interior(g, r.tip)
    ensures s.state != Playing || r.latched ==> out == Step(r, g, s)
    ensures !r.growing && !Cardinal(key) ==> out == Step(r, g, s)
    ensures s.state == Playing && !r.latched && !r.growing && Cardinal(key) ==>
      out == Grow(r.(currentDirection := key), g, s)
    ensures s.state == Playing && !r.latched && r.growing ==> out == Grow(Redirected(r, g), g, s)
  {
    if s.state != Playing || r.latched then Step(r, g, s)
    else if !r.growing then
      if Cardinal(key) then
        var r1 := r.(currentDirection := key);
        FramedGrow(r1, g, s);
        Grow(r1, g, s)
      else Step(r, g, s)
    else
      var r1 := Redirected(r, g);
      FramedGrow(r1, g, s);
      Grow(r1, g, s)
  }

  /** Every frame keeps the map framed and the tip off the edge. */
  lemma UpdateKeepsFramed(r: Root, g: Grid, s: Status, key: Direction)
    requires Framed(g) && Interior(g, r.tip)
    ensures Framed(Update(r, g, s, key).grid) && Interior(Update(r, g, s, key).grid, Update(r, g, s, key).root.tip)
    ensures SameLayout(g, Update(r, g, s, key).grid)
  {
    if s.state == Playing && !r.latched {
      if r.growing {
        FramedGrow(Redirected(r, g), g, s);
      } else if Cardinal(key) {
        FramedGrow(r.(currentDirection := key), g, s);
      }
    }
  }

  // ---------------------------------------------------------------- edges

  predicate OnBorder(g: Grid, x: int, y: int) {
    x == 0 || y == 0 || x == g.sizeX - 1 || y == g.sizeY - 1
  }

  /** The neighbour lookups of the source are unchecked, so the model keeps
      roots off the edge: the map is populated and its outermost ring is
      Dirt. */
  predicate Framed(g: Grid) {
    && Valid(g) && Populated(g)
    && forall x, y | 0 <= x < g.sizeX && 0 <= y < g.sizeY :: OnBorder(g, x, y) ==> At(g, x, y).tile.tileType == Dirt
  }

  predicate Interior(g: Grid, p: Pos) {
    0 < p.x < g.sizeX - 1 && 0 < p.y < g.sizeY - 1
  }

  lemma FramedKept(g: Grid, g': Grid)
    requires Framed(g) && Valid(g') && SameLayout(g, g')
    ensures Framed(g')
  {
  }

  /** On a framed map every step from an interior tip stays in range, lands on
      an interior slot and leaves the map framed. */
  lemma FramedGrow(r: Root, g: Grid, s: Status)
    requires Framed(g) && Interior(g, r.tip)
    ensures GrowInRange(r, g)
    ensures Framed(Grow(r, g, s).grid) && Interior(Grow(r, g, s).grid, Grow(r, g, s).root.tip)
  {
    var dest := Destination(r.tip, r.currentDirection);
    assert Present(g, dest);
    if !DirectionBlocked(r, g, r.currentDirection) {
      assert !OnBorder(g, dest.x, dest.y);
    }
    FramedKept(g, Grow(r, g, s).grid);
  }

  // ---------------------------------------------------------------- lifecycle

  /** `Start`: the root takes its base direction, stands on its seed slot,
      `Enter`s it and marks it occupied. */
  function Start(r: Root, g: Grid): (out: (Root, Grid))
    requires Present(g, r.start)
    ensures out.0 == r.(currentDirection := r.baseDirection, growthDirection := r.baseDirection, tip := r.start)
    ensures Valid(out.1) && SameLayout(g, out.1)
    ensures Present(out.1, r.start) && TileAt(out.1, r.start).blocked
    ensures forall x, y :: InRange(g, x, y) && Pos(x, y) != r.start ==> At(out.1, x, y) == At(g, x, y)
  {
    var r1 := r.(currentDirection := r.baseDirection, growthDirection := r.baseDirection, tip := r.start);
    var g1 := SetCell(g, r.start.x, r.start.y, Placed(Enter(TileAt(g, r.start), Opposite(r.baseDirection))));
    (r1, SetBlocked(g1, r.start.x, r.start.y))
  }

  // ---------------------------------------------------------------- properties

  /** A root that is well placed: off the edge, on an occupied slot, and with
      a real last growth direction. */
  predicate RootOk(r: Root, g: Grid) {
    Framed(g) && Interior(g, r.tip) && BlockedAt(g, r.tip) && Cardinal(r.growthDirection)
  }

  /** Occupancy only grows and tile types never change: every slot that was
      logically blocked before a step still is after it. */
  lemma GrowKeepsBlocked(r: Root, g: Grid, s: Status, p: Pos)
    requires Framed(g) && Interior(g, r.tip) && Present(g, p) && BlockedAt(g, p)
    ensures GrowInRange(r, g)
    ensures Present(Grow(r, g, s).grid, p) && BlockedAt(Grow(r, g, s).grid, p)
  {
    FramedGrow(r, g, s);
    PresentKept(g, Grow(r, g, s).grid, p);
  }

  /** A step keeps a well-placed root well placed, and keeps every other
      well-placed root (which it does not move) well placed. */
  lemma GrowKeepsRootOk(r: Root, g: Grid, s: Status, other: Root)
    requires RootOk(r, g) && RootOk(other, g)
    ensures GrowInRange(r, g)
    ensures RootOk(Grow(r, g, s).root, Grow(r, g, s).grid)
    ensures RootOk(other, Grow(r, g, s).grid)
  {
    FramedGrow(r, g, s);
    var out := Grow(r, g, s);
    GrowKeepsBlocked(r, g, s, r.tip);
    GrowKeepsBlocked(r, g, s, other.tip);
  }

  /** A growing root that comes onto a reflector by a side the reflector does
      not join loses its direction, and its next step stops it where it is:
      the tip is occupied, so the way "ahead" is blocked. */
  lemma UnlistedEntryStops(r: Root, g: Grid, s: Status, key: Direction)
    requires RootOk(r, g) && s.state == Playing && r.growing && !r.latched
    requires IsRedirectTile(TileAt(g, r.tip)) && Opposite(r.currentDirection) !in JoinedSides(TileAt(g, r.tip).tileType)
    ensures Update(r, g, s, key) == Step(r.(currentDirection := None, growing := false), g, s)
  {
    RedirectTable(Opposite(r.currentDirection), TileAt(g, r.tip).tileType);
    FramedGrow(Redirected(r, g), g, s);
  }

  /** A root that gets stuck while another root is still free keeps both its
      latch and its `growing` flag: from then on every `Update` leaves it
      unchanged, and it still reports that it is growing. */
  lemma StuckRootStaysGrowing(r: Root, g: Grid, s: Status, key: Direction)
    requires Framed(g) && Interior(g, r.tip) && !r.latched && r.growing
    requires GrowInRange(r, g) && Moved(r, g)
    requires
      var a := Advance(r, g, s);
      && !IsDeathTile(TileAt(a.grid, a.root.tip)) && IsStuck(a.root, a.grid) && !IsDestination(TileAt(a.grid, a.root.tip))
      && s.totalRootsStuck + 1 != s.totalRoots
    ensures Framed(Grow(r, g, s).grid) && Interior(Grow(r, g, s).grid, Grow(r, g, s).root.tip)
    ensures
      var out := Grow(r, g, s);
      && out.root.growing && out.root.latched
      && Update(out.root, out.grid, out.status, key) == out
  {
    FramedGrow(r, g, s);
  }

  /** One step counts its root at most once: each counter grows by at most
      one, never both, and neither ever goes down. */
  lemma GrowCounts(r: Root, g: Grid, s: Status)
    requires GrowInRange(r, g)
    ensures
      var out := Grow(r, g, s).status;
      && s.totalRootsStuck <= out.totalRootsStuck && s.totalRootsAtDestination <= out.totalRootsAtDestination
      && (out.totalRootsStuck - s.totalRootsStuck) + (out.totalRootsAtDestination - s.totalRootsAtDestination) <= 1
  {
  }

  /** A frame changes only the game state and the two counters, and never
      lowers either counter. */
  lemma UpdateCounts(r: Root, g: Grid, s: Status, key: Direction)
    requires Framed(g) && Interior(g, r.tip)
    ensures var out := Update(r, g, s, key).status;
      && out == s.(state := out.state, totalRootsStuck := out.totalRootsStuck,
                   totalRootsAtDestination := out.totalRootsAtDestination)
      && s.totalRootsStuck <= out.totalRootsStuck && s.totalRootsAtDestination <= out.totalRootsAtDestination
  {
    if s.state == Playing && !r.latched {
      if r.growing {
        FramedGrow(Redirected(r, g), g, s);
        GrowCounts(Redirected(r, g), g, s);
      } else if Cardinal(key) {
        FramedGrow(r.(currentDirection := key), g, s);
        GrowCounts(r.(currentDirection := key), g, s);
      }
    }
  }
}
