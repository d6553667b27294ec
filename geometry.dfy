/** Optional values: the model's stand-in for a Java reference that may be null. */
module Wrappers {
  datatype Option<+T> = None | Some(value: T)
}

/**
 * Coordinates, Manhattan distance, the dead-unit sentinel and the units
 * reported by the judge each turn.
 */
module Geometry {

  /** A grid position; `x` is the column, `y` the row. */
  datatype Coord = Coord(x: int, y: int)

  /** The position the judge reports for a destroyed unit. */
  const Dead := Coord(-1, -1)

  function Abs(n: int): (r: nat)
    ensures r == n || r == -n
  {
    if n < 0 then -n else n
  }

  /** Manhattan distance between two positions. */
  function Distance(a: Coord, b: Coord): (d: nat)
    ensures d == 0 <==> a == b
    ensures d >= Abs(a.x - b.x) && d >= Abs(a.y - b.y)
  {
    Abs(a.x - b.x) + Abs(a.y - b.y)
  }

  /** Chebyshev (king-move) distance. */
  function Chebyshev(a: Coord, b: Coord): (d: nat)
    ensures d <= Distance(a, b) <= 2 * d
    ensures d == 0 <==> a == b
  {
    var dx, dy := Abs(a.x - b.x), Abs(a.y - b.y);
    if dx < dy then dy else dx
  }

  lemma DistanceSymmetric(a: Coord, b: Coord)
    ensures Distance(a, b) == Distance(b, a)
  {
  }

  lemma DistanceTriangle(a: Coord, b: Coord, c: Coord)
    ensures Distance(a, c) <= Distance(a, b) + Distance(b, c)
  {
  }

  /** No element occurs twice. */
  predicate NoDup<T(==)>(s: seq<T>)
  {
    forall i, j :: 0 <= i < j < |s| ==> s[i] != s[j]
  }

  /** What a unit is, or what it carries. */
  datatype EntityType = Nothing | AllyRobot | EnemyRobot | Radar | Trap | Amadeusium

  /** One unit of the turn snapshot. */
  datatype Entity = Entity(id: int, kind: EntityType, pos: Coord, item: EntityType)

  /**
   * A unit is alive unless it stands on the sentinel; a dead unit therefore
   * always lies off the grid, to the left of column 0.
   */
  function IsAlive(e: Entity): (alive: bool)
    ensures !alive ==> e.pos.x < 0 && e.pos.y < 0
    ensures e.pos.x >= 0 ==> alive
  {
    e.pos != Dead
  }
}
