/**
 * The planner's memory across turns: the radar coverage grid, the opponent
 * forecast grid, the radar waypoint queue and the dig records; and the
 * planning operations that read and update them.
 */
module Planning {
  import opened Wrappers
  import opened Geometry
  import opened Boards
  import opened Footprint
  import opened TrapPlanning
  import opened Forecast
  import opened Digging

  /** The seven radar waypoints, in the order they are queued. */
  const Waypoints: seq<Coord> :=
    [Coord(4, 7), Coord(9, 4), Coord(9, 10), Coord(17, 4), Coord(17, 10), Coord(25, 4), Coord(25, 10)]

  /** The waypoints are distinct, and none of them is the sentinel. */
  lemma WaypointsDistinct()
    ensures NoDup(Waypoints) && Dead !in Waypoints
  {
  }

  /** Every cell of `G` plus the heat the robots `es` add to it. */
  function HeatedGrid(G: seq<seq<int>>, es: seq<Entity>): (H: seq<seq<int>>)
    ensures |H| == |G| && forall y :: 0 <= y < |G| ==> |H[y]| == |G[y]|
  {
    seq(|G|, (y: int) requires 0 <= y < |G| =>
      seq(|G[y]|, (x: int) requires 0 <= x < |G[y]| => G[y][x] + Heat(es, Coord(x, y))))
  }

  /** The total ore count around each coordinate of `ps`, in order. */
  ghost function Totals(b: Board, ps: seq<Coord>): (t: seq<int>)
    ensures |t| == |ps|
  {
    if ps == [] then [] else Totals(b, ps[..|ps| - 1]) + [OreCounts(b, ps[|ps| - 1]).Total()]
  }

  lemma {:induction false} TotalsAt(b: Board, ps: seq<Coord>, m: int)
    requires 0 <= m < |ps|
    ensures Totals(b, ps)[m] == OreCounts(b, ps[m]).Total()
    decreases |ps|
  {
    if m < |ps| - 1 {
      TotalsAt(b, ps[..|ps| - 1], m);
    }
  }

  /** vals[k] is the largest value, and every earlier value is strictly smaller: ties go to the first. */
  ghost predicate IsFirstMax(vals: seq<int>, k: int)
  {
    && 0 <= k < |vals|
    && (forall m :: 0 <= m < |vals| ==> vals[m] <= vals[k])
    && (forall m :: 0 <= m < k ==> vals[m] < vals[k])
  }

  /**
   * Waypoints[k] is the first waypoint that no radar of ours stands on:
   * the one a refill of the empty queue picks.
   */
  ghost predicate FirstFreeWaypoint(radars: seq<Coord>, k: int)
  {
    && 0 <= k < |Waypoints|
    && Waypoints[k] !in radars
    && forall m :: 0 <= m < k ==> Waypoints[m] in radars
  }

  /**
   * The first waypoint from index i on that no radar of ours stands on, or
   * the sentinel when every one of them is taken.
   */
  function FreeWaypointFrom(radars: seq<Coord>, i: nat): (p: Coord)
    ensures p == Dead <==> forall k :: i <= k < |Waypoints| ==> Waypoints[k] in radars
    ensures p != Dead ==> exists k :: i <= k < |Waypoints| && p == Waypoints[k] && Waypoints[k] !in radars
                                      && forall m :: i <= m < k ==> Waypoints[m] in radars
    decreases |Waypoints| - i
  {
    WaypointsDistinct();
    if i >= |Waypoints| then Dead
    else if Waypoints[i] !in radars then Waypoints[i]
    else FreeWaypointFrom(radars, i + 1)
  }

  /**
   * The radar target a request takes and the queue it leaves: the head of a
   * non-empty queue, else the first free waypoint (the sentinel when none
   * is free) with the queue left empty. Targets and queue entries stay
   * waypoints.
   */
  function NextTarget(queue: seq<Coord>, radars: seq<Coord>): (r: (Coord, seq<Coord>))
    ensures (forall k :: 0 <= k < |queue| ==> queue[k] in Waypoints) ==>
              && (r.0 == Dead || r.0 in Waypoints)
              && forall k :: 0 <= k < |r.1| ==> r.1[k] in Waypoints
    ensures queue != [] ==> r.0 == queue[0] && r.1 == queue[1..]
    ensures queue == [] ==> r.1 == [] && (r.0 == Dead <==> forall k :: 0 <= k < |Waypoints| ==> Waypoints[k] in radars)
    ensures queue == [] && r.0 != Dead ==> exists k :: FirstFreeWaypoint(radars, k) && r.0 == Waypoints[k]
  {
    if queue != [] then (queue[0], queue[1..]) else (FreeWaypointFrom(radars, 0), [])
  }

  class Support {
    const width: int
    const height: int
    /** coveredByRadar[y, x]: some radar's footprint covers (x, y). */
    const coveredByRadar: array2<bool>
    /** forecastMatrix[y, x]: the opponent heat accumulated on (x, y). */
    const forecastMatrix: array2<int>
    /** Every waypoint, in queue order. */
    const totRadPos: seq<Coord>
    /** The waypoint queue, head first. */
    var radPos: seq<Coord>
    /** Cells we dug ore out of. */
    var myDig: seq<Coord>
    /** Cells we believe the opponent dug. */
    var enemyDig: seq<Coord>
    /** Dig targets our robots already brought ore back from. */
    var alreadyVisited: seq<Coord>
    /** Robot id to its last dig target, as two separate records. */
    var storyRobotPos: map<int, Coord>
    var coveragePos: map<int, Coord>

    /** The two grids have the planner's dimensions. */
    ghost predicate Shaped()
    {
      && width >= 0 && height >= 0
      && coveredByRadar.Length0 == height && coveredByRadar.Length1 == width
      && forecastMatrix.Length0 == height && forecastMatrix.Length1 == width
    }

    /**
     * The planner's invariant: the grids are shaped, the waypoint list is
     * fixed, the queue only holds waypoints, and the dig records have no
     * repetitions.
     */
    ghost predicate Valid()
      reads this
    {
      && Shaped()
      && totRadPos == Waypoints
      && (forall k :: 0 <= k < |radPos| ==> radPos[k] in Waypoints)
      && NoDup(myDig) && NoDup(enemyDig)
    }

    /** The snapshot `b` has the dimensions the planner was built for. */
    predicate Fits(b: Board)
    {
      b.width == width && b.height == height
    }

    /** The coverage grid as a value, indexed [y][x]. */
    ghost function CoverGrid(): (g: seq<seq<bool>>)
      reads coveredByRadar
      requires Shaped()
      ensures |g| == height && forall y :: 0 <= y < height ==> |g[y]| == width
      ensures forall y, x :: 0 <= y < height && 0 <= x < width ==> g[y][x] == coveredByRadar[y, x]
    {
      seq(height, (y: int) requires 0 <= y < height reads coveredByRadar =>
        seq(width, (x: int) requires 0 <= x < width reads coveredByRadar => coveredByRadar[y, x]))
    }

    /** The forecast grid as a value, indexed [y][x]. */
    ghost function ForecastGrid(): (H: seq<seq<int>>)
      reads forecastMatrix
      requires Shaped()
      ensures |H| == height && forall y :: 0 <= y < height ==> |H[y]| == width
      ensures forall y, x :: 0 <= y < height && 0 <= x < width ==> H[y][x] == forecastMatrix[y, x]
    {
      seq(height, (y: int) requires 0 <= y < height reads forecastMatrix =>
        seq(width, (x: int) requires 0 <= x < width reads forecastMatrix => forecastMatrix[y, x]))
    }

    /** The covered cells of the grid. */
    ghost function Covered(): iset<Coord>
      reads coveredByRadar
      requires Shaped()
    {
      iset p: Coord | 0 <= p.y < height && 0 <= p.x < width && coveredByRadar[p.y, p.x]
    }

    /**
     * A planner for a width x height grid: nothing covered, no heat, every
     * waypoint queued, no dig records.
     */
    constructor (width: int, height: int)
      requires width >= 0 && height >= 0
      ensures Valid() && this.width == width && this.height == height
      ensures fresh(coveredByRadar) && fresh(forecastMatrix)
      ensures forall y, x :: 0 <= y < height && 0 <= x < width ==> !coveredByRadar[y, x] && forecastMatrix[y, x] == 0
      ensures radPos == Waypoints
      ensures myDig == [] && enemyDig == [] && alreadyVisited == []
      ensures storyRobotPos == map[] && coveragePos == map[]
    {
      this.width := width;
      this.height := height;
      coveredByRadar := new bool[height, width]((y, x) => false);
      forecastMatrix := new int[height, width]((y, x) => 0);
      totRadPos := Waypoints;
      radPos := Waypoints;
      myDig := [];
      enemyDig := [];
      alreadyVisited := [];
      storyRobotPos := map[];
      coveragePos := map[];
    }

    // -------------------------------------------------------------------
    // Coverage

    /**
     * Marks the footprint of a radar at `c`: the on-grid cells less than
     * RANGE rows away and within Manhattan distance RANGE. Cells are only
     * ever set, never cleared.
     */
    method UpdateRadarBoard(b: Board, c: Coord)
      requires Shaped() && WellFormed(b) && Fits(b)
      modifies coveredByRadar
      ensures CoverGrid() == Marked(old(CoverGrid()), c)
    {
      ghost var g0 := CoverGrid();
      var i := 0;
      while i < RANGE
        invariant 0 <= i <= RANGE
        invariant forall y, x :: 0 <= y < height && 0 <= x < width ==>
                    coveredByRadar[y, x] == (old(coveredByRadar[y, x]) ||
                      (Abs(y - c.y) < i && Abs(x - c.x) + Abs(y - c.y) <= RANGE))
      {
        MarkRow(b, c, i);
        i := i + 1;
      }
      forall y | 0 <= y < height ensures CoverGrid()[y] == Marked(g0, c)[y] {
      }
    }

    /** Marks row `i` of the footprint: offsets 0 .. RANGE-i, below and above `c`. */
    method MarkRow(b: Board, c: Coord, i: nat)
      requires Shaped() && WellFormed(b) && Fits(b) && i < RANGE
      modifies coveredByRadar
      ensures forall y, x :: 0 <= y < height && 0 <= x < width ==>
                coveredByRadar[y, x] == (old(coveredByRadar[y, x]) || (Abs(y - c.y) == i && Abs(x - c.x) <= RANGE - i))
    {
      var j := 0;
      while j <= RANGE - i
        invariant 0 <= j <= RANGE - i + 1
        invariant forall y, x :: 0 <= y < height && 0 <= x < width ==>
                    coveredByRadar[y, x] == (old(coveredByRadar[y, x]) || (Abs(y - c.y) == i && Abs(x - c.x) < j))
      {
        MarkPair(b, c, Down, i, j);
        MarkPair(b, c, Up, i, j);
        j := j + 1;
      }
    }

    /** Marks the on-grid cells at offsets +j and -j of row `i` of fan `d`. */
    method MarkPair(b: Board, c: Coord, d: Dir, i: int, j: int)
      requires Shaped() && WellFormed(b) && Fits(b)
      modifies coveredByRadar
      ensures forall y, x :: 0 <= y < height && 0 <= x < width ==>
                coveredByRadar[y, x] == (old(coveredByRadar[y, x]) ||
                  Coord(x, y) == FanCell(c, d, i, j) || Coord(x, y) == FanCell(c, d, i, -j))
    {
      var p, q := FanCell(c, d, i, j), FanCell(c, d, i, -j);
      if CellExist(b, p) {
        coveredByRadar[p.y, p.x] := true;
      }
      if CellExist(b, q) {
        coveredByRadar[q.y, q.x] := true;
      }
    }

    /** Marks the footprint of every radar of the snapshot, in order. */
    method ConstructRadarBoard(b: Board)
      requires Shaped() && WellFormed(b) && Fits(b)
      modifies coveredByRadar
      ensures CoverGrid() == MarkedAll(old(CoverGrid()), b.myRadarPos)
    {
      ghost var g0 := CoverGrid();
      var radarCoord := b.myRadarPos;
      var i := 0;
      while i < |radarCoord|
        invariant 0 <= i <= |radarCoord|
        invariant CoverGrid() == MarkedAll(g0, radarCoord[..i])
      {
        UpdateRadarBoard(b, radarCoord[i]);
        assert radarCoord[..i + 1][..i] == radarCoord[..i];
        i := i + 1;
      }
      assert radarCoord[..i] == radarCoord;
    }

    /**
     * The number of covered cells the footprint sweep around `c` meets,
     * counted the way the sweep counts them.
     */
    method CalculateVisible(b: Board, c: Coord) returns (cont: int)
      requires Shaped() && WellFormed(b) && Fits(b)
      ensures cont == VisibleCount(CoverGrid(), c)
      ensures cont == Fan(Covered(), c, Down) + Fan(Covered(), c, Up)
    {
      ghost var cov := Covered();
      cont := 0;
      var i := 0;
      while i < RANGE
        invariant 0 <= i <= RANGE
        invariant cont == FanSum(cov, c, Down, i) + FanSum(cov, c, Up, i)
      {
        var row := VisibleRow(b, c, i);
        cont := cont + row;
        i := i + 1;
      }
      assert Covered() == CoveredCells(CoverGrid());
    }

    /** Row `i` of the coverage sweep: offsets 0 .. RANGE-i, below and above `c`. */
    method VisibleRow(b: Board, c: Coord, i: nat) returns (n: int)
      requires Shaped() && WellFormed(b) && Fits(b) && i < RANGE
      ensures n == RowSum(Covered(), c, Down, i, RowWidth(i))
                   + RowSum(Covered(), c, Up, i, RowWidth(i))
    {
      n := 0;
      var j := 0;
      while j <= RANGE - i
        invariant 0 <= j <= RANGE - i + 1
        invariant n == RowSum(Covered(), c, Down, i, j) + RowSum(Covered(), c, Up, i, j)
      {
        var below := CoveredPair(b, c, Down, i, j);
        var above := CoveredPair(b, c, Up, i, j);
        n := n + below + above;
        j := j + 1;
      }
    }

    /** The two covered-cell probes at offsets +j and -j of row `i` of fan `d`: what step j adds to the row. */
    method CoveredPair(b: Board, c: Coord, d: Dir, i: int, j: int) returns (n: int)
      requires Shaped() && WellFormed(b) && Fits(b) && j >= 0
      ensures n == RowSum(Covered(), c, d, i, j + 1) - RowSum(Covered(), c, d, i, j)
    {
      n := 0;
      var p, q := FanCell(c, d, i, j), FanCell(c, d, i, -j);
      if CellExist(b, p) && coveredByRadar[p.y, p.x] {
        n := n + 1;
      }
      if CellExist(b, q) && coveredByRadar[q.y, q.x] {
        n := n + 1;
      }
    }

    // -------------------------------------------------------------------
    // Ore counting

    /** The four ore counters of the sweeps around `c`. */
    method CountOre(b: Board, c: Coord) returns (ore: OreCount)
      requires WellFormed(b)
      ensures ore == OreCounts(b, c)
    {
      var up, down := VerticalOreSweep(b, c);
      var right, left := HorizontalOreSweep(b, c);
      ore := OreCount(up, down, left, right);
    }

    /** The up and down ore counters: rows 0 .. RANGE-1 above and below `c`. */
    method VerticalOreSweep(b: Board, c: Coord) returns (up: nat, down: nat)
      requires WellFormed(b)
      ensures up == Fan(OreCells(b), c, Up) && down == Fan(OreCells(b), c, Down)
    {
      ghost var ore := OreCells(b);
      up, down := 0, 0;
      var i := 0;
      while i < RANGE
        invariant 0 <= i <= RANGE
        invariant up == FanSum(ore, c, Up, i) && down == FanSum(ore, c, Down, i)
      {
        var u, dn := VerticalOreRow(b, c, i);
        up, down := up + u, down + dn;
        i := i + 1;
      }
    }

    /** The right and left ore counters: columns 0 .. RANGE-1 right and left of `c`. */
    method HorizontalOreSweep(b: Board, c: Coord) returns (right: nat, left: nat)
      requires WellFormed(b)
      ensures right == Fan(OreCells(b), c, Right) && left == Fan(OreCells(b), c, Left)
    {
      ghost var ore := OreCells(b);
      right, left := 0, 0;
      var i := 0;
      while i < RANGE
        invariant 0 <= i <= RANGE
        invariant right == FanSum(ore, c, Right, i) && left == FanSum(ore, c, Left, i)
      {
        var r, lf := HorizontalOreRow(b, c, i);
        right, left := right + r, left + lf;
        i := i + 1;
      }
    }

    /** Row `i` of the up and down ore sweeps. */
    method VerticalOreRow(b: Board, c: Coord, i: nat) returns (up: int, down: int)
      requires WellFormed(b) && i < RANGE
      ensures up == RowSum(OreCells(b), c, Up, i, RowWidth(i))
      ensures down == RowSum(OreCells(b), c, Down, i, RowWidth(i))
    {
      ghost var ore := OreCells(b);
      up, down := 0, 0;
      var j := 0;
      while j <= RANGE - i
        invariant 0 <= j <= RANGE - i + 1
        invariant up == RowSum(ore, c, Up, i, j)
        invariant down == RowSum(ore, c, Down, i, j)
      {
        var u := OrePair(b, c, Up, i, j);
        var dn := OrePair(b, c, Down, i, j);
        up, down := up + u, down + dn;
        j := j + 1;
      }
    }

    /** Row `i` of the right and left ore sweeps. */
    method HorizontalOreRow(b: Board, c: Coord, i: nat) returns (right: int, left: int)
      requires WellFormed(b) && i < RANGE
      ensures right == RowSum(OreCells(b), c, Right, i, RowWidth(i))
      ensures left == RowSum(OreCells(b), c, Left, i, RowWidth(i))
    {
      ghost var ore := OreCells(b);
      right, left := 0, 0;
      var j := 0;
      while j <= RANGE - i
        invariant 0 <= j <= RANGE - i + 1
        invariant right == RowSum(ore, c, Right, i, j)
        invariant left == RowSum(ore, c, Left, i, j)
      {
        var r := OrePair(b, c, Right, i, j);
        var lf := OrePair(b, c, Left, i, j);
        right, left := right + r, left + lf;
        j := j + 1;
      }
    }

    /** The two ore probes at offsets +j and -j of row `i` of fan `d`: what step j adds to the row. */
    method OrePair(b: Board, c: Coord, d: Dir, i: int, j: int) returns (n: int)
      requires WellFormed(b) && j >= 0
      ensures n == RowSum(OreCells(b), c, d, i, j + 1) - RowSum(OreCells(b), c, d, i, j)
    {
      n := 0;
      var p, q := FanCell(c, d, i, j), FanCell(c, d, i, -j);
      if CellExist(b, p) && GetCell(b, p).ore > 0 {
        n := n + 1;
      }
      if CellExist(b, q) && GetCell(b, q).ore > 0 {
        n := n + 1;
      }
    }

    /** The coordinate of `ps` with the most ore around it, the first on ties; None for no coordinate. */
    method BestCoord(b: Board, ps: seq<Coord>) returns (best: Option<Coord>)
      requires WellFormed(b)
      ensures best.None? <==> ps == []
      ensures best.Some? ==> exists k :: IsFirstMax(Totals(b, ps), k) && best.value == ps[k]
    {
      ghost var tot := Totals(b, ps);
      best := None;
      ghost var k := 0;
      var i := 0;
      while i < |ps|
        invariant 0 <= i <= |ps|
        invariant best.None? <==> i == 0
        invariant best.Some? ==> 0 <= k < i && best.value == ps[k]
        invariant best.Some? ==> forall m :: 0 <= m < i ==> tot[m] <= tot[k]
        invariant best.Some? ==> forall m :: 0 <= m < k ==> tot[m] < tot[k]
      {
        if best.None? {
          best := Some(ps[i]);
          k := i;
        } else {
          var richer := Outranks(b, ps, best.value, k, i);
          if richer {
            best := Some(ps[i]);
            k := i;
          }
        }
        i := i + 1;
      }
      assert best.Some? ==> IsFirstMax(tot, k);
    }

    /** Whether the ore around ps[i] strictly exceeds the ore around ps[k], counted afresh for both. */
    method Outranks(b: Board, ps: seq<Coord>, current: Coord, ghost k: int, i: int) returns (richer: bool)
      requires WellFormed(b) && 0 <= k < |ps| && 0 <= i < |ps| && current == ps[k]
      ensures richer <==> Totals(b, ps)[k] < Totals(b, ps)[i]
    {
      var mine := CountOre(b, current);
      var theirs := CountOre(b, ps[i]);
      TotalsAt(b, ps, k);
      TotalsAt(b, ps, i);
      richer := (mine.up + mine.down + mine.right + mine.left) - (theirs.up + theirs.down + theirs.right + theirs.left) < 0;
    }

    // -------------------------------------------------------------------
    // Radar waypoints

    /**
     * The next radar target. The queue head is taken when the queue holds
     * one; an empty queue is first refilled with the first waypoint that no
     * radar of ours stands on; with none left the sentinel is returned.
     */
    method ThinkRadar2(radars: seq<Coord>) returns (p: Coord)
      requires Valid()
      modifies this`radPos
      ensures Valid()
      ensures p == Dead || p in Waypoints
      ensures old(radPos) != [] ==> p == old(radPos)[0] && radPos == old(radPos)[1..]
      ensures old(radPos) == [] ==> radPos == []
      ensures old(radPos) == [] && p != Dead ==>
                exists k :: FirstFreeWaypoint(radars, k) && p == Waypoints[k]
      ensures p == Dead <==> old(radPos) == [] && forall k :: 0 <= k < |Waypoints| ==> Waypoints[k] in radars
      ensures (p, radPos) == NextTarget(old(radPos), radars)
    {
      WaypointsDistinct();
      var updatedRadarPos := radars;
      if radPos == [] {
        var i := 0;
        while i < |totRadPos| && radPos == []
          invariant 0 <= i <= |totRadPos|
          invariant forall m :: 0 <= m < i - 1 ==> totRadPos[m] in updatedRadarPos
          invariant radPos == [] ==> forall m :: 0 <= m < i ==> totRadPos[m] in updatedRadarPos
          invariant radPos != [] ==> 0 < i && radPos == [totRadPos[i - 1]] && FirstFreeWaypoint(updatedRadarPos, i - 1)
        {
          if totRadPos[i] !in updatedRadarPos {
            radPos := radPos + [totRadPos[i]];
          }
          i := i + 1;
        }
      }
      if radPos == [] {
        p := Dead;
      } else {
        p := radPos[0];
        radPos := radPos[1..];
      }
    }

    // -------------------------------------------------------------------
    // Dig records

    /** The dig-history test: the cell was dug by us, or has no hole. */
    function CheckHole(b: Board, c: Coord): (ok: bool)
      reads this
      requires WellFormed(b) && CellExist(b, c)
      ensures ok == Diggable(b, myDig, c)
    {
      c in myDig || !GetCell(b, c).hole
    }

    /** Records a cell we dug, once. */
    method AddHole(c: Coord)
      requires NoDup(myDig)
      modifies this`myDig
      ensures NoDup(myDig) && c in myDig
      ensures myDig == if c in old(myDig) then old(myDig) else old(myDig) + [c]
    {
      if c !in myDig {
        myDig := myDig + [c];
      }
    }

    /** Records robot `id`'s dig target, in both records. */
    method AddPos(id: int, c: Coord)
      modifies this`storyRobotPos
      ensures storyRobotPos == old(storyRobotPos)[id := c]
    {
      storyRobotPos := storyRobotPos[id := c];
    }

    method AddPosToDig(id: int, c: Coord)
      modifies this`coveragePos
      ensures coveragePos == old(coveragePos)[id := c]
    {
      coveragePos := coveragePos[id := c];
    }

    /** Records a dig target a robot brought ore back from. */
    method AddVisited(c: Coord)
      modifies this`alreadyVisited
      ensures alreadyVisited == old(alreadyVisited) + [c]
    {
      alreadyVisited := alreadyVisited + [c];
    }

    // -------------------------------------------------------------------
    // Grid scans

    /**
     * The first cell of columns `from` and up, column by column and top to
     * bottom in each column, that meets the criterion; None when there is none.
     */
    method FirstSpot(b: Board, crit: Criterion, from: int) returns (r: Option<Coord>)
      requires WellFormed(b) && from >= 0
      ensures r.None? ==> NoSpot(b, myDig, alreadyVisited, crit, from)
      ensures r.Some? ==> IsFirstSpot(b, myDig, alreadyVisited, crit, from, r.value)
      ensures r == FirstSpotOf(b, myDig, alreadyVisited, crit, from)
    {
      var x := from;
      while x < b.width
        invariant from <= x
        invariant forall q :: CellExist(b, q) && from <= q.x < x ==> !Wanted(b, myDig, alreadyVisited, crit, q)
      {
        var row := ColumnSpot(b, crit, x);
        if row.Some? {
          FirstSpotOfIs(b, myDig, alreadyVisited, crit, from, Coord(x, row.value));
          return Some(Coord(x, row.value));
        }
        x := x + 1;
      }
      return None;
    }

    /** The first row of column `x` whose cell meets the criterion. */
    method ColumnSpot(b: Board, crit: Criterion, x: int) returns (r: Option<int>)
      requires WellFormed(b) && 0 <= x < b.width
      ensures r.None? ==> forall y :: 0 <= y < b.height ==> !Wanted(b, myDig, alreadyVisited, crit, Coord(x, y))
      ensures r.Some? ==> 0 <= r.value < b.height && Wanted(b, myDig, alreadyVisited, crit, Coord(x, r.value))
      ensures r.Some? ==> forall y :: 0 <= y < r.value ==> !Wanted(b, myDig, alreadyVisited, crit, Coord(x, y))
    {
      var y := 0;
      while y < b.height
        invariant 0 <= y <= b.height
        invariant forall y' :: 0 <= y' < y ==> !Wanted(b, myDig, alreadyVisited, crit, Coord(x, y'))
      {
        if Wanted(b, myDig, alreadyVisited, crit, Coord(x, y)) {
          return Some(y);
        }
        y := y + 1;
      }
      return None;
    }

    /**
     * A trap spot for the turn: the first cell of columns 1 and up, in
     * column-major order, with more than one ore, no radar and no trap of
     * ours, that passes the dig-history test.
     */
    method Estimate(b: Board) returns (r: Option<Coord>)
      requires WellFormed(b)
      ensures r.None? ==> NoSpot(b, myDig, alreadyVisited, TrapSpot, 1)
      ensures r.Some? ==> IsFirstSpot(b, myDig, alreadyVisited, TrapSpot, 1, r.value)
      ensures r == FirstSpotOf(b, myDig, alreadyVisited, TrapSpot, 1)
    {
      r := FirstSpot(b, TrapSpot, 1);
    }

    // -------------------------------------------------------------------
    // Trap planning

    /** The trap candidates of the grid that are not in `seen`, in scan order. */
    method CollectCandidates(b: Board, seen: seq<Coord>) returns (cands: seq<Coord>)
      requires WellFormed(b)
      ensures cands == Candidates(b, myDig, seen)
    {
      cands := [];
      var x := 1;
      while x < b.width
        invariant 1 <= x && (x <= b.width || x == 1)
        invariant cands == ScanCandidates(b, myDig, seen, x)
      {
        var col := ColumnCollect(b, seen, x);
        cands := cands + col;
        x := x + 1;
      }
    }

    method ColumnCollect(b: Board, seen: seq<Coord>, x: int) returns (col: seq<Coord>)
      requires WellFormed(b) && 0 <= x < b.width
      ensures col == ColumnCandidates(b, myDig, seen, x, b.height)
    {
      col := [];
      var y := 0;
      while y < b.height
        invariant 0 <= y <= b.height
        invariant col == ColumnCandidates(b, myDig, seen, x, y)
      {
        var p := Coord(x, y);
        if GetCell(b, p).hole && p !in myDig && p !in b.myRadarPos && p !in b.myTrapPos && p !in seen {
          col := col + [p];
        }
        y := y + 1;
      }
    }

    /**
     * Picks where to lay a trap: the 1-median of the trap candidates not
     * recorded yet, which are then appended to the record. On the first call
     * the record is empty and the candidates are collected straight into it.
     */
    method PlaceTrap(b: Board) returns (best: Option<Coord>)
      requires WellFormed(b) && Valid()
      modifies this`enemyDig
      ensures Valid()
      ensures enemyDig == old(enemyDig) + Candidates(b, myDig, old(enemyDig))
      ensures best.None? <==> Candidates(b, myDig, old(enemyDig)) == []
      ensures best.Some? ==> exists k :: IsFirstMedian(Candidates(b, myDig, old(enemyDig)), k)
                                          && best.value == Candidates(b, myDig, old(enemyDig))[k]
      ensures best == MedianOf(Candidates(b, myDig, old(enemyDig)))
    {
      FoldKeepsNoDup(b, myDig, enemyDig);
      if |enemyDig| == 0 {
        enemyDig := CollectCandidates(b, []);
        best := FirstMedian(enemyDig);
      } else {
        var tempEnemyDig := CollectCandidates(b, enemyDig);
        best := FirstMedian(tempEnemyDig);
        enemyDig := enemyDig + tempEnemyDig;
      }
    }

    // -------------------------------------------------------------------
    // Opponent forecast

    /** Adds `n` to the forecast at `p` when `p` is on the grid. */
    method BumpIfOn(b: Board, p: Coord, n: int)
      requires Shaped() && Fits(b)
      modifies forecastMatrix
      ensures forall y, x :: 0 <= y < height && 0 <= x < width ==>
                forecastMatrix[y, x] == old(forecastMatrix[y, x]) + (if Coord(x, y) == p then n else 0)
    {
      if CellExist(b, p) {
        forecastMatrix[p.y, p.x] := forecastMatrix[p.y, p.x] + n;
      }
    }

    /** Adds one robot's heat: 3 on its cell, 1 on each on-grid cell around it. */
    method AddHeat(b: Board, e: Entity)
      requires Shaped() && WellFormed(b) && Fits(b) && (IsAlive(e) ==> CellExist(b, e.pos))
      modifies forecastMatrix
      ensures forall y, x :: 0 <= y < height && 0 <= x < width ==>
                forecastMatrix[y, x] == old(forecastMatrix[y, x]) + Contribution(e, Coord(x, y))
    {
      if IsAlive(e) {
        var c := e.pos;
        forecastMatrix[c.y, c.x] := forecastMatrix[c.y, c.x] + 3;
        BumpSides(b, c);
        BumpCorners(b, c);
      }
    }

    /** The four on-grid cells beside `c` get 1 more each. */
    method BumpSides(b: Board, c: Coord)
      requires Shaped() && Fits(b)
      modifies forecastMatrix
      ensures forall y, x :: 0 <= y < height && 0 <= x < width ==>
                forecastMatrix[y, x] == old(forecastMatrix[y, x]) + (if Distance(c, Coord(x, y)) == 1 then 1 else 0)
    {
      BumpIfOn(b, Coord(c.x + 1, c.y), 1);
      BumpIfOn(b, Coord(c.x - 1, c.y), 1);
      BumpIfOn(b, Coord(c.x, c.y + 1), 1);
      BumpIfOn(b, Coord(c.x, c.y - 1), 1);
    }

    /** The four on-grid cells diagonal to `c` get 1 more each. */
    method BumpCorners(b: Board, c: Coord)
      requires Shaped() && Fits(b)
      modifies forecastMatrix
      ensures forall y, x :: 0 <= y < height && 0 <= x < width ==>
                forecastMatrix[y, x] == old(forecastMatrix[y, x]) +
                  (if Abs(x - c.x) == 1 && Abs(y - c.y) == 1 then 1 else 0)
    {
      BumpIfOn(b, Coord(c.x - 1, c.y - 1), 1);
      BumpIfOn(b, Coord(c.x + 1, c.y - 1), 1);
      BumpIfOn(b, Coord(c.x + 1, c.y + 1), 1);
      BumpIfOn(b, Coord(c.x - 1, c.y + 1), 1);
    }

    /** Adds the heat of every opponent robot of the snapshot, in order. */
    method Warm(b: Board)
      requires Shaped() && WellFormed(b) && Fits(b)
      modifies forecastMatrix
      ensures ForecastGrid() == HeatedGrid(old(ForecastGrid()), b.enemyRobots)
    {
      ghost var G0 := ForecastGrid();
      var enemy := b.enemyRobots;
      var i := 0;
      while i < |enemy|
        invariant 0 <= i <= |enemy|
        invariant forall y, x :: 0 <= y < height && 0 <= x < width ==>
                    forecastMatrix[y, x] == G0[y][x] + Heat(enemy[..i], Coord(x, y))
      {
        HeatNext(b, G0, enemy, i);
        i := i + 1;
      }
      assert enemy[..i] == enemy;
      forall y | 0 <= y < height ensures ForecastGrid()[y] == HeatedGrid(G0, enemy)[y] {
      }
    }

    /** Adds the heat of enemy[i] to a grid holding G0 plus the heat of enemy[..i]. */
    method HeatNext(b: Board, ghost G0: seq<seq<int>>, enemy: seq<Entity>, i: int)
      requires Shaped() && WellFormed(b) && Fits(b) && enemy == b.enemyRobots && 0 <= i < |enemy|
      requires |G0| == height && forall y :: 0 <= y < height ==> |G0[y]| == width
      requires forall y, x :: 0 <= y < height && 0 <= x < width ==>
                 forecastMatrix[y, x] == G0[y][x] + Heat(enemy[..i], Coord(x, y))
      modifies forecastMatrix
      ensures forall y, x :: 0 <= y < height && 0 <= x < width ==>
                forecastMatrix[y, x] == G0[y][x] + Heat(enemy[..i + 1], Coord(x, y))
    {
      AddHeat(b, enemy[i]);
      assert enemy[..i + 1] == enemy[..i] + [enemy[i]];
      forall y, x | 0 <= y < height && 0 <= x < width
        ensures Heat(enemy[..i + 1], Coord(x, y)) == Heat(enemy[..i], Coord(x, y)) + Contribution(enemy[i], Coord(x, y))
      {
        HeatSnoc(enemy[..i], enemy[i], Coord(x, y));
      }
    }

    /**
     * The row-major scan of columns 1 and up for the hottest cell. Every new
     * running maximum is zeroed as it is met; the last one is the answer.
     */
    method TakeHottest(ghost H: seq<seq<int>>) returns (best: Option<Coord>)
      requires Shaped() && ForecastGrid() == H
      modifies forecastMatrix
      ensures best.None? <==> GridMax(H, height) == 0
      ensures best.Some? ==> IsHottest(H, best.value) && forecastMatrix[best.value.y, best.value.x] == 0
      ensures forall y, x :: 0 <= y < height && 0 <= x < width ==>
                forecastMatrix[y, x] == if IsRecord(H, y, x) then 0 else H[y][x]
    {
      best := None;
      var numVisit := 0;
      var y := 0;
      while y < height
        invariant 0 <= y <= height
        invariant numVisit == GridMax(H, y)
        invariant best.None? <==> numVisit == 0
        invariant best.Some? ==> IsRecord(H, best.value.y, best.value.x) && H[best.value.y][best.value.x] == numVisit
        invariant forall y', x :: 0 <= y' < height && 0 <= x < width ==>
                    forecastMatrix[y', x] == if y' < y && IsRecord(H, y', x) then 0 else H[y'][x]
      {
        numVisit, best := ScanRow(H, y, numVisit, best);
        y := y + 1;
      }
      if best.Some? {
        RecordAtMaxIsHottest(H, best.value);
      }
    }

    /** Row `y` of the scan for the hottest cell. */
    method ScanRow(ghost H: seq<seq<int>>, y: int, numVisit: int, best: Option<Coord>)
      returns (numVisit': int, best': Option<Coord>)
      requires Shaped() && |H| == height && 0 <= y < height && |H[y]| == width
      requires forall x :: 0 <= x < width ==> forecastMatrix[y, x] == H[y][x]
      requires numVisit == GridMax(H, y)
      requires best.None? <==> numVisit == 0
      requires best.Some? ==> IsRecord(H, best.value.y, best.value.x) && H[best.value.y][best.value.x] == numVisit
      modifies forecastMatrix
      ensures numVisit' == GridMax(H, y + 1)
      ensures best'.None? <==> numVisit' == 0
      ensures best'.Some? ==> IsRecord(H, best'.value.y, best'.value.x) && H[best'.value.y][best'.value.x] == numVisit'
      ensures forall y', x :: 0 <= y' < height && 0 <= x < width ==>
                forecastMatrix[y', x] == if y' == y && IsRecord(H, y, x) then 0 else old(forecastMatrix[y', x])
    {
      numVisit', best' := numVisit, best;
      var j := 1;
      while j < forecastMatrix.Length1
        invariant 1 <= j && (j <= width || j == 1)
        invariant numVisit' == MaxBefore(H, y, j)
        invariant best'.None? <==> numVisit' == 0
        invariant best'.Some? ==> IsRecord(H, best'.value.y, best'.value.x) && H[best'.value.y][best'.value.x] == numVisit'
        invariant forall y', x :: 0 <= y' < height && 0 <= x < width ==>
                    forecastMatrix[y', x] == if y' == y && x < j && IsRecord(H, y, x) then 0 else old(forecastMatrix[y', x])
      {
        assert forecastMatrix[y, j] == H[y][j];
        if numVisit' < forecastMatrix[y, j] {
          assert IsRecord(H, y, j);
          numVisit' := forecastMatrix[y, j];
          forecastMatrix[y, j] := 0;
          best' := Some(Coord(j, y));
        }
        j := j + 1;
      }
    }

    /**
     * The opponent forecast of the turn: heats the grid around every live
     * opponent robot, then takes the hottest cell of columns 1 and up.
     */
    method EstimateFromEnemies(b: Board) returns (best: Option<Coord>)
      requires Shaped() && WellFormed(b) && Fits(b)
      modifies forecastMatrix
      ensures var H := HeatedGrid(old(ForecastGrid()), b.enemyRobots);
              && (best.None? <==> GridMax(H, height) == 0)
              && (best.Some? ==> IsHottest(H, best.value) && forecastMatrix[best.value.y, best.value.x] == 0)
              && forall y, x :: 0 <= y < height && 0 <= x < width ==>
                   forecastMatrix[y, x] == if IsRecord(H, y, x) then 0 else H[y][x]
    {
      ghost var H := HeatedGrid(old(ForecastGrid()), b.enemyRobots);
      Warm(b);
      best := TakeHottest(H);
    }
  }
}
