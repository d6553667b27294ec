/**
 * The turn snapshot handed to the planners: the cell grid, the devices and
 * the units. It is rebuilt from the judge's input every turn and only read by
 * the planning core, so it is a value here.
 */
module Boards {
  import opened Geometry

  /** One grid cell: whether its ore is known, the ore count, whether it was dug. */
  datatype Cell = Cell(known: bool, ore: int, hole: bool)

  datatype Board = Board(
    width: int,
    height: int,
    cells: seq<seq<Cell>>,       // cells[y][x], as the source stores them
    myRadarPos: seq<Coord>,
    myTrapPos: seq<Coord>,
    myRadarCooldown: int,
    myTrapCooldown: int,
    myRobots: seq<Entity>,
    enemyRobots: seq<Entity>)

  /**
   * What the judge guarantees of a snapshot: the grid has the announced
   * dimensions, ore counts are not negative and an unknown cell reads as no
   * ore, every placed device and every live opponent robot stands on the
   * grid, and robot ids are not negative.
   */
  ghost predicate WellFormed(b: Board)
  {
    && b.width >= 0 && b.height >= 0
    && |b.cells| == b.height
    && (forall y :: 0 <= y < b.height ==> |b.cells[y]| == b.width)
    && (forall y, x :: 0 <= y < b.height && 0 <= x < b.width ==>
          b.cells[y][x].ore >= 0 && (!b.cells[y][x].known ==> b.cells[y][x].ore == 0))
    && (forall k :: 0 <= k < |b.myRadarPos| ==> CellExist(b, b.myRadarPos[k]))
    && (forall k :: 0 <= k < |b.myTrapPos| ==> CellExist(b, b.myTrapPos[k]))
    && (forall k :: 0 <= k < |b.myRobots| ==> b.myRobots[k].id >= 0)
    && (forall k :: 0 <= k < |b.enemyRobots| && IsAlive(b.enemyRobots[k]) ==> CellExist(b, b.enemyRobots[k].pos))
  }

  /** The bounds check that guards every grid access. */
  function CellExist(b: Board, p: Coord): (e: bool)
    ensures e ==> p != Dead
  {
    (p.x >= 0) && (p.y >= 0) && (p.x < b.width) && (p.y < b.height)
  }

  function GetCell(b: Board, p: Coord): Cell
    requires WellFormed(b) && CellExist(b, p)
  {
    b.cells[p.y][p.x]
  }

  /** Column-major scan order: by column, then by row. */
  predicate ColumnMajorBefore(p: Coord, q: Coord)
  {
    p.x < q.x || (p.x == q.x && p.y < q.y)
  }

  /** Row-major scan order: by row, then by column. */
  predicate RowMajorBefore(p: Coord, q: Coord)
  {
    p.y < q.y || (p.y == q.y && p.x < q.x)
  }

  /** A placed device never stands on the dead sentinel. */
  lemma DeadIsNoDevice(b: Board)
    requires WellFormed(b)
    ensures Dead !in b.myRadarPos && Dead !in b.myTrapPos
  {
  }
}
