/**
 * The opponent forecast: the heat every live opponent robot adds around
 * itself, and the row-major scan that picks the hottest cell while zeroing
 * each new running maximum it meets.
 *
 * A heat grid `H` is indexed H[y][x]; the scan visits rows 0, 1, ... and in
 * each row the columns 1 .. |row|-1 (column 0 is never scanned).
 */
module Forecast {
  import opened Wrappers
  import opened Geometry

  /**
   * The heat one robot adds to `p`: 3 on its own cell, 1 on each of the eight
   * cells around it, nothing elsewhere; a destroyed robot adds nothing.
   */
  function Contribution(e: Entity, p: Coord): (h: nat)
    ensures h <= 3
    ensures h == 3 <==> IsAlive(e) && p == e.pos
    ensures h == 1 <==> IsAlive(e) && Chebyshev(e.pos, p) == 1
    ensures h == 0 <==> !IsAlive(e) || Chebyshev(e.pos, p) > 1
  {
    if !IsAlive(e) then 0
    else if p == e.pos then 3
    else if Abs(p.x - e.pos.x) <= 1 && Abs(p.y - e.pos.y) <= 1 then 1
    else 0
  }

  /** The heat the robots `es` add to `p` together. */
  function Heat(es: seq<Entity>, p: Coord): nat
  {
    if es == [] then 0 else Heat(es[..|es| - 1], p) + Contribution(es[|es| - 1], p)
  }

  /**
   * A cell gets no heat exactly when no live robot stands on it or next to
   * it, and never more than 3 per robot.
   */
  lemma {:induction false} HeatMeaning(es: seq<Entity>, p: Coord)
    ensures Heat(es, p) <= 3 * |es|
    ensures Heat(es, p) == 0 <==>
              forall k :: 0 <= k < |es| ==> !IsAlive(es[k]) || Chebyshev(es[k].pos, p) > 1
    decreases |es|
  {
    if es != [] {
      var front := es[..|es| - 1];
      HeatMeaning(front, p);
      assert forall k :: 0 <= k < |front| ==> front[k] == es[k];
    }
  }

  /** A live robot makes its own cell at least 3 hot. */
  lemma {:induction false} HeatOfOccupiedCell(es: seq<Entity>, k: int)
    requires 0 <= k < |es| && IsAlive(es[k])
    ensures Heat(es, es[k].pos) >= 3
    decreases |es|
  {
    if k < |es| - 1 {
      var front := es[..|es| - 1];
      assert front[k] == es[k];
      HeatOfOccupiedCell(front, k);
    }
  }

  /** Adding one robot adds exactly its contribution. */
  lemma HeatSnoc(es: seq<Entity>, e: Entity, p: Coord)
    ensures Heat(es + [e], p) == Heat(es, p) + Contribution(e, p)
  {
    assert (es + [e])[..|es + [e]| - 1] == es;
  }

  // ---------------------------------------------------------------------
  // The scan for the hottest cell

  /** The largest of 0 and row[1 .. x-1]: the scanned part of a row before column x. */
  function RowMax(row: seq<int>, x: int): (m: int)
    requires x <= |row| || x <= 1
    ensures m >= 0
    decreases x
  {
    if x <= 1 then 0
    else
      var before := RowMax(row, x - 1);
      if before < row[x - 1] then row[x - 1] else before
  }

  /** The largest of 0 and every scanned value of rows 0 .. y-1. */
  function GridMax(H: seq<seq<int>>, y: int): (m: int)
    requires 0 <= y <= |H|
    ensures m >= 0
    decreases y
  {
    if y == 0 then 0
    else
      var before := GridMax(H, y - 1);
      var row := RowMax(H[y - 1], |H[y - 1]|);
      if before < row then row else before
  }

  /** The running maximum the scan holds when it reaches (x, y). */
  function MaxBefore(H: seq<seq<int>>, y: int, x: int): (m: int)
    requires 0 <= y < |H| && (x <= |H[y]| || x <= 1)
  {
    var g := GridMax(H, y);
    var r := RowMax(H[y], x);
    if g < r then r else g
  }

  /** (x, y) is a scanned cell of H. */
  predicate Scanned(H: seq<seq<int>>, y: int, x: int)
  {
    0 <= y < |H| && 1 <= x < |H[y]|
  }

  /** Scan order: (x1, y1) is met before (x2, y2). */
  predicate ScanBefore(y1: int, x1: int, y2: int, x2: int)
  {
    y1 < y2 || (y1 == y2 && x1 < x2)
  }

  /** A new running maximum: the cells the scan zeroes. */
  predicate IsRecord(H: seq<seq<int>>, y: int, x: int)
  {
    Scanned(H, y, x) && H[y][x] > MaxBefore(H, y, x)
  }

  /**
   * The scan's answer: the first scanned cell holding the largest scanned
   * value, which must be positive.
   */
  ghost predicate IsHottest(H: seq<seq<int>>, p: Coord)
  {
    && Scanned(H, p.y, p.x)
    && H[p.y][p.x] > 0
    && (forall y, x :: Scanned(H, y, x) ==> H[y][x] <= H[p.y][p.x])
    && (forall y, x :: Scanned(H, y, x) && ScanBefore(y, x, p.y, p.x) ==> H[y][x] < H[p.y][p.x])
  }

  lemma {:induction false} RowMaxBounds(row: seq<int>, x: int)
    requires x <= |row| || x <= 1
    ensures forall k :: 1 <= k < x ==> row[k] <= RowMax(row, x)
    ensures RowMax(row, x) == 0 || exists k :: 1 <= k < x && row[k] == RowMax(row, x)
    decreases x
  {
    if x > 1 {
      RowMaxBounds(row, x - 1);
    }
  }

  lemma {:induction false} GridMaxBounds(H: seq<seq<int>>, y: int)
    requires 0 <= y <= |H|
    ensures forall y1, x1 :: Scanned(H, y1, x1) && y1 < y ==> H[y1][x1] <= GridMax(H, y)
    ensures GridMax(H, y) == 0 || exists y1, x1 :: Scanned(H, y1, x1) && y1 < y && H[y1][x1] == GridMax(H, y)
    decreases y
  {
    if y > 0 {
      GridMaxBounds(H, y - 1);
      RowMaxBounds(H[y - 1], |H[y - 1]|);
    }
  }

  /**
   * The running maximum at (x, y) bounds every value met before, and is 0 or
   * one of them.
   */
  lemma MaxBeforeBounds(H: seq<seq<int>>, y: int, x: int)
    requires 0 <= y < |H| && (x <= |H[y]| || x <= 1)
    ensures forall y1, x1 :: Scanned(H, y1, x1) && ScanBefore(y1, x1, y, x) ==> H[y1][x1] <= MaxBefore(H, y, x)
    ensures MaxBefore(H, y, x) == 0 ||
              exists y1, x1 :: Scanned(H, y1, x1) && ScanBefore(y1, x1, y, x) && H[y1][x1] == MaxBefore(H, y, x)
  {
    GridMaxBounds(H, y);
    RowMaxBounds(H[y], x);
  }

  /**
   * The last record of the scan is the hottest cell: a record whose value is
   * the maximum over the whole grid.
   */
  lemma RecordAtMaxIsHottest(H: seq<seq<int>>, p: Coord)
    requires IsRecord(H, p.y, p.x) && H[p.y][p.x] == GridMax(H, |H|)
    ensures IsHottest(H, p)
  {
    GridMaxBounds(H, |H|);
    MaxBeforeBounds(H, p.y, p.x);
  }

  /** There is no hottest cell exactly when no scanned value is positive. */
  lemma NoHottestIff(H: seq<seq<int>>)
    ensures GridMax(H, |H|) == 0 <==> forall y, x :: Scanned(H, y, x) ==> H[y][x] <= 0
    ensures GridMax(H, |H|) == 0 ==> forall p :: !IsHottest(H, p)
  {
    GridMaxBounds(H, |H|);
  }

  /** At most one cell is the hottest. */
  lemma HottestUnique(H: seq<seq<int>>, p: Coord, q: Coord)
    requires IsHottest(H, p) && IsHottest(H, q)
    ensures p == q
  {
    assert H[p.y][p.x] <= H[q.y][q.x] && H[q.y][q.x] <= H[p.y][p.x];
  }
}
