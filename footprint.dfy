/**
 * The radar's sensing footprint and the four "fans" that the ore and
 * coverage counters sweep around a coordinate.
 *
 * Every sweep of the planner has the same shape: rows i = 0 .. RANGE-1 along
 * an axis, and in row i the offsets j = 0 .. RANGE-i across it, each probed
 * at +j and at -j. The j = 0 probe is therefore made twice, and the i = 0
 * row is shared by opposite fans.
 */
module Footprint {
  import opened Geometry
  import opened Boards

  /** The sensing radius. */
  const RANGE := 4

  /**
   * The cells a radar at `c` marks as covered: rows less than RANGE away,
   * and within them Manhattan distance at most RANGE. The two vertical tips
   * at distance exactly RANGE are not part of it.
   */
  predicate InFootprint(c: Coord, p: Coord)
  {
    Abs(p.y - c.y) < RANGE && Abs(p.x - c.x) + Abs(p.y - c.y) <= RANGE
  }

  /** The four sweep directions, in the source's order UP, DOWN, LEFT, RIGHT. */
  datatype Dir = Up | Down | Left | Right

  /** The cell `i` steps along direction `d` and `j` steps across it. */
  function FanCell(c: Coord, d: Dir, i: int, j: int): Coord
  {
    match d
    case Up => Coord(c.x + j, c.y - i)
    case Down => Coord(c.x + j, c.y + i)
    case Right => Coord(c.x + i, c.y + j)
    case Left => Coord(c.x - i, c.y + j)
  }

  /** The region a fan sweeps, described without the sweep. */
  predicate InFan(c: Coord, d: Dir, p: Coord)
  {
    match d
    case Up => 0 <= c.y - p.y < RANGE && Abs(p.x - c.x) + (c.y - p.y) <= RANGE
    case Down => 0 <= p.y - c.y < RANGE && Abs(p.x - c.x) + (p.y - c.y) <= RANGE
    case Right => 0 <= p.x - c.x < RANGE && Abs(p.y - c.y) + (p.x - c.x) <= RANGE
    case Left => 0 <= c.x - p.x < RANGE && Abs(p.y - c.y) + (c.x - p.x) <= RANGE
  }

  /** The probes of row `i` for offsets 0 .. m-1, each at +j and at -j. */
  function RowSum(hits: iset<Coord>, c: Coord, d: Dir, i: int, m: nat): nat
  {
    if m == 0 then 0
    else RowSum(hits, c, d, i, m - 1) + Probe(hits, FanCell(c, d, i, m - 1)) + Probe(hits, FanCell(c, d, i, -(m - 1)))
  }

  /** The number of offsets row `i` of a fan visits: 0 .. RANGE-i. */
  function RowWidth(i: nat): nat
    requires i <= RANGE
  {
    RANGE - i + 1
  }

  /** The probes of rows 0 .. n-1 of a fan. */
  function FanSum(hits: iset<Coord>, c: Coord, d: Dir, n: nat): nat
    requires n <= RANGE
  {
    if n == 0 then 0 else FanSum(hits, c, d, n - 1) + RowSum(hits, c, d, n - 1, RowWidth(n - 1))
  }

  /** The whole fan. */
  function Fan(hits: iset<Coord>, c: Coord, d: Dir): nat
  {
    FanSum(hits, c, d, RANGE)
  }

  // ---------------------------------------------------------------------
  // What the sweeps visit

  lemma FanCellInFan(c: Coord, d: Dir, i: int, j: int)
    requires 0 <= i < RANGE && Abs(j) <= RANGE - i
    ensures InFan(c, d, FanCell(c, d, i, j))
  {
  }

  /** Every cell of the region is visited by the sweep. */
  lemma InFanIsFanCell(c: Coord, d: Dir, p: Coord) returns (i: int, j: int)
    requires InFan(c, d, p)
    ensures 0 <= i < RANGE && Abs(j) <= RANGE - i && p == FanCell(c, d, i, j)
  {
    match d
    case Up => i, j := c.y - p.y, p.x - c.x;
    case Down => i, j := p.y - c.y, p.x - c.x;
    case Right => i, j := p.x - c.x, p.y - c.y;
    case Left => i, j := c.x - p.x, p.y - c.y;
  }

  /** The radar footprint is exactly the union of the up and down fans. */
  lemma FootprintIsVerticalFans(c: Coord, p: Coord)
    ensures InFootprint(c, p) <==> InFan(c, Up, p) || InFan(c, Down, p)
  {
  }

  // ---------------------------------------------------------------------
  // Zero exactly when nothing is hit

  lemma {:induction false} RowSumZero(hits: iset<Coord>, c: Coord, d: Dir, i: int, m: nat)
    ensures RowSum(hits, c, d, i, m) == 0 <==>
              forall j: int :: -(m as int) < j < m ==> Probe(hits, FanCell(c, d, i, j)) == 0
  {
    if m > 0 {
      RowSumZero(hits, c, d, i, m - 1);
      if RowSum(hits, c, d, i, m) == 0 {
        assert Probe(hits, FanCell(c, d, i, m - 1)) == 0 && Probe(hits, FanCell(c, d, i, -(m - 1))) == 0;
        forall j: int | -(m as int) < j < m ensures Probe(hits, FanCell(c, d, i, j)) == 0 {
          if j != m - 1 && j != -(m - 1) {
            assert -(m - 1) < j < m - 1;
          }
        }
      }
    }
  }

  lemma {:induction false} FanSumZero(hits: iset<Coord>, c: Coord, d: Dir, n: nat)
    requires n <= RANGE
    ensures FanSum(hits, c, d, n) == 0 <==>
              forall i: int, j: int :: 0 <= i < n && Abs(j) <= RANGE - i ==> Probe(hits, FanCell(c, d, i, j)) == 0
  {
    if n > 0 {
      var r, w := n - 1, RowWidth(n - 1);
      FanSumZero(hits, c, d, r);
      RowSumZero(hits, c, d, r, w);
      if forall i: int, j: int :: 0 <= i < n && Abs(j) <= RANGE - i ==> Probe(hits, FanCell(c, d, i, j)) == 0 {
        forall j: int | -(w as int) < j < w ensures Probe(hits, FanCell(c, d, r, j)) == 0 {
          assert Abs(j) <= RANGE - r;
        }
        assert RowSum(hits, c, d, r, w) == 0;
      }
      if FanSum(hits, c, d, n) == 0 {
        assert RowSum(hits, c, d, r, w) == 0;
        forall i: int, j: int | 0 <= i < n && Abs(j) <= RANGE - i ensures Probe(hits, FanCell(c, d, i, j)) == 0 {
          if i == r {
            assert -(w as int) < j < w;
          }
        }
      }
    }
  }

  /** A fan's count is zero exactly when no cell of its region is hit. */
  lemma FanZeroIff(hits: iset<Coord>, c: Coord, d: Dir)
    ensures Fan(hits, c, d) == 0 <==> forall p :: InFan(c, d, p) ==> Probe(hits, p) == 0
  {
    FanSumZero(hits, c, d, RANGE);
    if Fan(hits, c, d) == 0 {
      forall p | InFan(c, d, p) ensures Probe(hits, p) == 0 {
        var i, j := InFanIsFanCell(c, d, p);
      }
    } else {
      var i, j :| 0 <= i < RANGE && Abs(j) <= RANGE - i && Probe(hits, FanCell(c, d, i, j)) != 0;
      FanCellInFan(c, d, i, j);
    }
  }

  // ---------------------------------------------------------------------
  // Bounds and double counting

  lemma {:induction false} RowSumBound(hits: iset<Coord>, c: Coord, d: Dir, i: int, m: nat)
    ensures RowSum(hits, c, d, i, m) <= 2 * m
  {
    if m > 0 {
      RowSumBound(hits, c, d, i, m - 1);
    }
  }

  /** A fan is its four rows, of widths 5, 4, 3 and 2. */
  lemma FanRows(hits: iset<Coord>, c: Coord, d: Dir)
    ensures Fan(hits, c, d) == RowSum(hits, c, d, 0, 5) + RowSum(hits, c, d, 1, 4)
                                + RowSum(hits, c, d, 2, 3) + RowSum(hits, c, d, 3, 2)
  {
    assert FanSum(hits, c, d, 1) == RowSum(hits, c, d, 0, 5);
    assert FanSum(hits, c, d, 2) == FanSum(hits, c, d, 1) + RowSum(hits, c, d, 1, 4);
    assert FanSum(hits, c, d, 3) == FanSum(hits, c, d, 2) + RowSum(hits, c, d, 2, 3);
    assert FanSum(hits, c, d, 4) == FanSum(hits, c, d, 3) + RowSum(hits, c, d, 3, 2);
  }

  /** A fan probes 2 * (5 + 4 + 3 + 2) = 28 times. */
  lemma FanBound(hits: iset<Coord>, c: Coord, d: Dir)
    ensures Fan(hits, c, d) <= 28
  {
    FanRows(hits, c, d);
    RowSumBound(hits, c, d, 0, 5);
    RowSumBound(hits, c, d, 1, 4);
    RowSumBound(hits, c, d, 2, 3);
    RowSumBound(hits, c, d, 3, 2);
  }

  lemma {:induction false} RowSumCentre(hits: iset<Coord>, c: Coord, d: Dir, m: nat)
    requires m >= 1
    ensures RowSum(hits, c, d, 0, m) >= 2 * Probe(hits, c)
  {
    if m > 1 {
      RowSumCentre(hits, c, d, m - 1);
    } else {
      assert FanCell(c, d, 0, 0) == c;
    }
  }

  /** The sweep probes its own centre twice in every fan. */
  lemma {:induction false} FanCountsCentreTwice(hits: iset<Coord>, c: Coord, d: Dir)
    ensures Fan(hits, c, d) >= 2 * Probe(hits, c)
  {
    RowSumCentre(hits, c, d, 5);
    FanRows(hits, c, d);
  }

  // ---------------------------------------------------------------------
  // The two layers the planner probes: ore on the board, radar coverage

  /**
   * What a sweep adds for one probed cell: 1 when the cell is one of the
   * `hits` (the cells holding ore, or the covered cells), else 0.
   */
  function Probe(hits: iset<Coord>, p: Coord): nat
  {
    if p in hits then 1 else 0
  }

  /** The on-board cells holding ore. */
  ghost function OreCells(b: Board): iset<Coord>
  {
    iset p: Coord | CellExist(b, p) && p.y < |b.cells| && p.x < |b.cells[p.y]| && b.cells[p.y][p.x].ore > 0
  }

  /** The covered cells of a coverage grid indexed [y][x]. */
  ghost function CoveredCells(g: seq<seq<bool>>): iset<Coord>
  {
    iset p: Coord | 0 <= p.y < |g| && 0 <= p.x < |g[p.y]| && g[p.y][p.x]
  }

  /** The four ore counters of a sweep around a coordinate. */
  datatype OreCount = OreCount(up: nat, down: nat, left: nat, right: nat)
  {
    function Total(): nat { up + down + left + right }
  }

  ghost function OreCounts(b: Board, c: Coord): OreCount
  {
    OreCount(Fan(OreCells(b), c, Up), Fan(OreCells(b), c, Down),
             Fan(OreCells(b), c, Left), Fan(OreCells(b), c, Right))
  }

  /**
   * Each ore counter is at most 28, and it is zero exactly when no on-board
   * cell of its fan holds ore.
   */
  lemma OreCountMeaning(b: Board, c: Coord, d: Dir)
    requires WellFormed(b)
    ensures Fan(OreCells(b), c, d) <= 28
    ensures Fan(OreCells(b), c, d) == 0 <==>
              forall p :: InFan(c, d, p) && CellExist(b, p) ==> GetCell(b, p).ore <= 0
  {
    FanBound(OreCells(b), c, d);
    FanZeroIff(OreCells(b), c, d);
  }

  /** The number of covered cells a sweep of the footprint around `c` finds. */
  ghost function VisibleCount(g: seq<seq<bool>>, c: Coord): nat
  {
    Fan(CoveredCells(g), c, Down) + Fan(CoveredCells(g), c, Up)
  }

  /**
   * The visibility counter is at most 56; it is zero exactly when no cell of
   * the footprint around `c` is covered; and it counts `c` itself four times.
   */
  lemma VisibleCountMeaning(g: seq<seq<bool>>, c: Coord)
    ensures VisibleCount(g, c) <= 56
    ensures VisibleCount(g, c) == 0 <==>
              forall p :: InFootprint(c, p) && 0 <= p.y < |g| && 0 <= p.x < |g[p.y]| ==> !g[p.y][p.x]
    ensures VisibleCount(g, c) >= 4 * Probe(CoveredCells(g), c)
  {
    var hits := CoveredCells(g);
    FanBound(hits, c, Down);
    FanBound(hits, c, Up);
    FanZeroIff(hits, c, Down);
    FanZeroIff(hits, c, Up);
    FanCountsCentreTwice(hits, c, Down);
    FanCountsCentreTwice(hits, c, Up);
    if VisibleCount(g, c) == 0 {
      forall p | InFootprint(c, p) && 0 <= p.y < |g| && 0 <= p.x < |g[p.y]| ensures !g[p.y][p.x] {
        FootprintIsVerticalFans(c, p);
        assert Probe(hits, p) == 0;
      }
    } else {
      var d := if Fan(hits, c, Down) != 0 then Down else Up;
      var p :| InFan(c, d, p) && Probe(hits, p) != 0;
      FootprintIsVerticalFans(c, p);
    }
  }

  // ---------------------------------------------------------------------
  // The coverage grid a radar leaves behind

  /** `g` (indexed g[y][x]) with the footprint of a radar at `c` set. */
  function Marked(g: seq<seq<bool>>, c: Coord): (r: seq<seq<bool>>)
    ensures |r| == |g| && forall y :: 0 <= y < |g| ==> |r[y]| == |g[y]|
  {
    seq(|g|, (y: int) requires 0 <= y < |g| =>
      seq(|g[y]|, (x: int) requires 0 <= x < |g[y]| => g[y][x] || InFootprint(c, Coord(x, y))))
  }

  /** `g` with the footprints of all the radars `rs` set, one after the other. */
  function MarkedAll(g: seq<seq<bool>>, rs: seq<Coord>): (r: seq<seq<bool>>)
    ensures |r| == |g| && forall y :: 0 <= y < |g| ==> |r[y]| == |g[y]|
  {
    if rs == [] then g else Marked(MarkedAll(g, rs[..|rs| - 1]), rs[|rs| - 1])
  }

  /** A radar covers a cell when the cell is in its footprint. */
  predicate AnyCovers(rs: seq<Coord>, p: Coord)
  {
    exists k :: 0 <= k < |rs| && InFootprint(rs[k], p)
  }

  /**
   * After marking, a cell is covered exactly when it was covered before or
   * some radar's footprint contains it: marking only ever sets cells.
   */
  lemma {:induction false} MarkedAllMeaning(g: seq<seq<bool>>, rs: seq<Coord>, y: int, x: int)
    requires 0 <= y < |g| && 0 <= x < |g[y]|
    ensures MarkedAll(g, rs)[y][x] == (g[y][x] || AnyCovers(rs, Coord(x, y)))
    decreases |rs|
  {
    if rs != [] {
      var front := rs[..|rs| - 1];
      MarkedAllMeaning(g, front, y, x);
      if AnyCovers(rs, Coord(x, y)) && !InFootprint(rs[|rs| - 1], Coord(x, y)) {
        var k :| 0 <= k < |rs| && InFootprint(rs[k], Coord(x, y));
        assert front[k] == rs[k];
      }
      if AnyCovers(front, Coord(x, y)) {
        var k :| 0 <= k < |front| && InFootprint(front[k], Coord(x, y));
        assert rs[k] == front[k];
      }
    }
  }

  /** Marking the same radar twice is marking it once. */
  lemma MarkedIdempotent(g: seq<seq<bool>>, c: Coord)
    ensures Marked(Marked(g, c), c) == Marked(g, c)
  {
    forall y | 0 <= y < |g| ensures Marked(Marked(g, c), c)[y] == Marked(g, c)[y] {
    }
  }

  /** The order in which two radars are marked does not matter. */
  lemma MarkedCommutes(g: seq<seq<bool>>, a: Coord, c: Coord)
    ensures Marked(Marked(g, a), c) == Marked(Marked(g, c), a)
  {
    forall y | 0 <= y < |g| ensures Marked(Marked(g, a), c)[y] == Marked(Marked(g, c), a)[y] {
    }
  }

  /**
   * Marking every radar a second time changes nothing: the turn loop's
   * second pass over the radars is redundant.
   */
  lemma MarkedAllTwice(g: seq<seq<bool>>, rs: seq<Coord>)
    ensures MarkedAll(MarkedAll(g, rs), rs) == MarkedAll(g, rs)
  {
    var once := MarkedAll(g, rs);
    forall y | 0 <= y < |g| ensures MarkedAll(once, rs)[y] == once[y] {
      forall x | 0 <= x < |g[y]| ensures MarkedAll(once, rs)[y][x] == once[y][x] {
        MarkedAllMeaning(once, rs, y, x);
        MarkedAllMeaning(g, rs, y, x);
      }
    }
  }
}
