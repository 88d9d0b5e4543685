/** The four growth directions of a root and the grid positions they move
    between (Assets/Scripts/GameData/Root.cs). North is +y, East is +x. */
module Directions {

  /** `GrowthDirection`; `None` is the enum's default value. */
  datatype Direction = None | North | East | South | West

  /** A grid coordinate (`Vector3Int` with z ignored). */
  datatype Pos = Pos(x: int, y: int)

  predicate Cardinal(d: Direction) {
    d != None
  }

  /** `GetOppositeDirection`: reverses a cardinal direction, keeps None. */
  function Opposite(d: Direction): (r: Direction)
    ensures Cardinal(d) <==> Cardinal(r)
    ensures Cardinal(d) ==> r != d
  {
    match d
    case North => South
    case South => North
    case East => West
    case West => East
    case None => None
  }

  /** Reversing twice gives back the original direction. */
  lemma OppositeInvolution(d: Direction)
    ensures Opposite(Opposite(d)) == d
  {
  }

  /** `GetDestination`: the neighbouring cell in direction `d`. */
  function Destination(p: Pos, d: Direction): (q: Pos)
    ensures d == None ==> q == p
    ensures d == North ==> q.x == p.x && q.y == p.y + 1
    ensures d == South ==> q.x == p.x && q.y == p.y - 1
    ensures d == East ==> q.y == p.y && q.x == p.x + 1
    ensures d == West ==> q.y == p.y && q.x == p.x - 1
  {
    match d
    case North => Pos(p.x, p.y + 1)
    case East => Pos(p.x + 1, p.y)
    case West => Pos(p.x - 1, p.y)
    case South => Pos(p.x, p.y - 1)
    case None => p
  }

  /** Taxicab distance between two positions. */
  function Distance(p: Pos, q: Pos): nat {
    (if p.x <= q.x then q.x - p.x else p.x - q.x) + (if p.y <= q.y then q.y - p.y else p.y - q.y)
  }

  /** A cardinal step covers exactly one unit along one axis, and stepping back
      the opposite way returns to the start. */
  lemma DestinationIsUnitStep(p: Pos, d: Direction)
    ensures Distance(p, Destination(p, d)) == if Cardinal(d) then 1 else 0
    ensures Destination(Destination(p, d), Opposite(d)) == p
  {
  }

  /** The direction a quarter turn clockwise (None stays None). */
  function Clockwise(d: Direction): Direction {
    match d
    case North => East
    case East => South
    case South => West
    case West => North
    case None => None
  }

  /** The direction a quarter turn anticlockwise (None stays None). */
  function Anticlockwise(d: Direction): Direction {
    match d
    case North => West
    case West => South
    case South => East
    case East => North
    case None => None
  }

  /** `a` and `b` are cardinal and at right angles. */
  predicate Perpendicular(a: Direction, b: Direction) {
    Cardinal(a) && Cardinal(b) && a != b && a != Opposite(b)
  }

  /** The two quarter turns of a cardinal direction are its two
      perpendiculars, and every perpendicular is one of them. */
  lemma QuarterTurns(d: Direction)
    requires Cardinal(d)
    ensures Perpendicular(Clockwise(d), d) && Perpendicular(Anticlockwise(d), d)
    ensures Clockwise(d) != Anticlockwise(d)
    ensures forall e :: Perpendicular(e, d) ==> e == Clockwise(d) || e == Anticlockwise(d)
  {
  }
}
