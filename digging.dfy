/**
 * Where to dig: the dig-history test, the three cell criteria the planner
 * scans the grid with, and what "the first cell in column-major order that
 * meets a criterion" means.
 */
module Digging {
  import opened Wrappers
  import opened Geometry
  import opened Boards
  import opened TrapPlanning

  /** A cell we may dig: we dug it ourselves, or nobody has dug it. */
  predicate Diggable(b: Board, myDig: seq<Coord>, p: Coord)
    requires WellFormed(b) && CellExist(b, p)
  {
    p in myDig || !GetCell(b, p).hole
  }

  /**
   * The trap planner and the dig planner split the holes between them: a
   * trap candidate is exactly a hole we cannot dig that holds no device of
   * ours and was not seen before.
   */
  lemma CandidateIffNotDiggable(b: Board, myDig: seq<Coord>, seen: seq<Coord>, p: Coord)
    requires WellFormed(b) && CellExist(b, p)
    ensures IsCandidate(b, myDig, seen, p) <==>
              !Diggable(b, myDig, p) && p !in b.myRadarPos && p !in b.myTrapPos && p !in seen
  {
  }

  /** Recording a dig only widens what is diggable. */
  lemma DiggableGrows(b: Board, myDig: seq<Coord>, c: Coord, p: Coord)
    requires WellFormed(b) && CellExist(b, p)
    ensures Diggable(b, myDig + [c], p) <==> Diggable(b, myDig, p) || p == c
  {
  }

  /**
   * The three scans over the grid: a trap-free, radar-free spot rich in ore
   * for a trap; an ore cell no robot went back from yet; any ore cell.
   */
  datatype Criterion = TrapSpot | FreshOre | AnyOre

  predicate Wanted(b: Board, myDig: seq<Coord>, visited: seq<Coord>, crit: Criterion, p: Coord)
    requires WellFormed(b) && CellExist(b, p)
  {
    var cell := GetCell(b, p);
    match crit
    case TrapSpot =>
      cell.ore > 1 && p !in b.myRadarPos && Diggable(b, myDig, p) && p !in b.myTrapPos
    case FreshOre =>
      cell.known && cell.ore > 0 && p !in visited && p !in b.myTrapPos && Diggable(b, myDig, p)
    case AnyOre =>
      cell.known && cell.ore > 0 && p !in b.myTrapPos && Diggable(b, myDig, p)
  }

  /** The second dig scan drops exactly the visited test of the first. */
  lemma FreshIsAnyUnvisited(b: Board, myDig: seq<Coord>, visited: seq<Coord>, p: Coord)
    requires WellFormed(b) && CellExist(b, p)
    ensures Wanted(b, myDig, visited, FreshOre, p) <==>
              Wanted(b, myDig, visited, AnyOre, p) && p !in visited
  {
  }

  /** No on-grid cell of columns `from` and up meets the criterion. */
  ghost predicate NoSpot(b: Board, myDig: seq<Coord>, visited: seq<Coord>, crit: Criterion, from: int)
    requires WellFormed(b)
  {
    forall q :: CellExist(b, q) && q.x >= from ==> !Wanted(b, myDig, visited, crit, q)
  }

  /**
   * p is the first cell of columns `from` and up, in column-major order,
   * that meets the criterion.
   */
  ghost predicate IsFirstSpot(b: Board, myDig: seq<Coord>, visited: seq<Coord>, crit: Criterion, from: int, p: Coord)
    requires WellFormed(b)
  {
    && CellExist(b, p) && p.x >= from
    && Wanted(b, myDig, visited, crit, p)
    && forall q :: CellExist(b, q) && q.x >= from && ColumnMajorBefore(q, p) ==> !Wanted(b, myDig, visited, crit, q)
  }

  /** The first spot is unique, and there is none exactly when no cell qualifies. */
  lemma FirstSpotUnique(b: Board, myDig: seq<Coord>, visited: seq<Coord>, crit: Criterion, from: int, p: Coord, q: Coord)
    requires WellFormed(b)
    requires IsFirstSpot(b, myDig, visited, crit, from, p) && IsFirstSpot(b, myDig, visited, crit, from, q)
    ensures p == q && !NoSpot(b, myDig, visited, crit, from)
  {
    assert !ColumnMajorBefore(p, q) && !ColumnMajorBefore(q, p);
  }

  /** When some cell meets the criterion, a first one does. */
  lemma {:induction false} FirstSpotFrom(b: Board, myDig: seq<Coord>, visited: seq<Coord>, crit: Criterion, from: int, q: Coord)
    requires WellFormed(b) && CellExist(b, q) && q.x >= from && Wanted(b, myDig, visited, crit, q)
    ensures exists p :: IsFirstSpot(b, myDig, visited, crit, from, p)
    decreases q.x, q.y
  {
    if !IsFirstSpot(b, myDig, visited, crit, from, q) {
      var r :| CellExist(b, r) && r.x >= from && ColumnMajorBefore(r, q) && Wanted(b, myDig, visited, crit, r);
      FirstSpotFrom(b, myDig, visited, crit, from, r);
    }
  }

  /**
   * The answer of a scan as a function of the board and the records: the
   * first spot, or None exactly when no cell meets the criterion.
   */
  ghost function FirstSpotOf(b: Board, myDig: seq<Coord>, visited: seq<Coord>, crit: Criterion, from: int): (r: Option<Coord>)
    requires WellFormed(b)
    ensures r.None? <==> NoSpot(b, myDig, visited, crit, from)
    ensures r.Some? ==> IsFirstSpot(b, myDig, visited, crit, from, r.value)
  {
    if NoSpot(b, myDig, visited, crit, from) then None
    else
      var q :| CellExist(b, q) && q.x >= from && Wanted(b, myDig, visited, crit, q);
      FirstSpotFrom(b, myDig, visited, crit, from, q);
      var p :| IsFirstSpot(b, myDig, visited, crit, from, p);
      Some(p)
  }

  /** A first spot found by any means is the one FirstSpotOf picks. */
  lemma FirstSpotOfIs(b: Board, myDig: seq<Coord>, visited: seq<Coord>, crit: Criterion, from: int, p: Coord)
    requires WellFormed(b) && IsFirstSpot(b, myDig, visited, crit, from, p)
    ensures FirstSpotOf(b, myDig, visited, crit, from) == Some(p)
  {
    var r := FirstSpotOf(b, myDig, visited, crit, from);
    FirstSpotUnique(b, myDig, visited, crit, from, p, p);
    FirstSpotUnique(b, myDig, visited, crit, from, r.value, p);
  }

  /**
   * A first spot of the fresh-ore scan is also the first spot of the
   * any-ore scan when every earlier ore cell lacks only the visited test.
   */
  lemma FreshFirstBeatsAny(b: Board, myDig: seq<Coord>, visited: seq<Coord>, p: Coord)
    requires WellFormed(b) && IsFirstSpot(b, myDig, visited, FreshOre, 0, p)
    ensures Wanted(b, myDig, visited, AnyOre, p)
    ensures forall q :: CellExist(b, q) && ColumnMajorBefore(q, p) && Wanted(b, myDig, visited, AnyOre, q) ==> q in visited
  {
    forall q | CellExist(b, q) && ColumnMajorBefore(q, p) && Wanted(b, myDig, visited, AnyOre, q)
      ensures q in visited
    {
      FreshIsAnyUnvisited(b, myDig, visited, q);
    }
  }

  // ---------------------------------------------------------------------
  // The dig target of a robot without a mission

  /**
   * The blind probe used while no radar of ours is placed: column 5, rows
   * 5 to 14 spread by robot id. Robot ids are not negative, so the source's
   * truncating remainder agrees with Dafny's.
   */
  function BlindDig(id: int): (p: Coord)
    requires id >= 0
    ensures p.x == 5 && 5 <= p.y < 15
  {
    Coord(5, 5 + id % 10)
  }

  /**
   * The target chosen for robot `id`: with a radar placed, the first fresh
   * ore cell, else the first ore cell at all, else none; with no radar, the
   * blind probe.
   */
  ghost predicate IsDigTarget(b: Board, myDig: seq<Coord>, visited: seq<Coord>, id: int, t: Option<Coord>)
    requires WellFormed(b) && id >= 0
  {
    if |b.myRadarPos| == 0 then t == Some(BlindDig(id))
    else match t
      case Some(p) =>
        || IsFirstSpot(b, myDig, visited, FreshOre, 0, p)
        || (NoSpot(b, myDig, visited, FreshOre, 0) && IsFirstSpot(b, myDig, visited, AnyOre, 0, p))
      case None =>
        NoSpot(b, myDig, visited, FreshOre, 0) && NoSpot(b, myDig, visited, AnyOre, 0)
  }

  /** The dig target is determined by the board and the dig records. */
  lemma DigTargetUnique(b: Board, myDig: seq<Coord>, visited: seq<Coord>, id: int, t: Option<Coord>, u: Option<Coord>)
    requires WellFormed(b) && id >= 0
    requires IsDigTarget(b, myDig, visited, id, t) && IsDigTarget(b, myDig, visited, id, u)
    ensures t == u
  {
    if |b.myRadarPos| > 0 && t.Some? && u.Some? {
      var p, q := t.value, u.value;
      var freshP, freshQ := IsFirstSpot(b, myDig, visited, FreshOre, 0, p), IsFirstSpot(b, myDig, visited, FreshOre, 0, q);
      if freshP && freshQ {
        FirstSpotUnique(b, myDig, visited, FreshOre, 0, p, q);
      } else if !freshP && !freshQ {
        FirstSpotUnique(b, myDig, visited, AnyOre, 0, p, q);
      }
    }
  }

  /** The dig target as a function of the board and the dig records. */
  ghost function DigTargetOf(b: Board, myDig: seq<Coord>, visited: seq<Coord>, id: int): (t: Option<Coord>)
    requires WellFormed(b) && id >= 0
    ensures IsDigTarget(b, myDig, visited, id, t)
  {
    if |b.myRadarPos| == 0 then Some(BlindDig(id))
    else
      var first := FirstSpotOf(b, myDig, visited, FreshOre, 0);
      if first.Some? then first else FirstSpotOf(b, myDig, visited, AnyOre, 0)
  }

  /**
   * With a radar placed, a target is an on-grid, known ore cell that is not
   * one of our traps and that we may dig; there is none exactly when no
   * such cell exists.
   */
  lemma DigTargetMeaning(b: Board, myDig: seq<Coord>, visited: seq<Coord>, id: int, t: Option<Coord>)
    requires WellFormed(b) && id >= 0 && |b.myRadarPos| > 0
    requires IsDigTarget(b, myDig, visited, id, t)
    ensures t.Some? ==> CellExist(b, t.value) && Wanted(b, myDig, visited, AnyOre, t.value)
    ensures t.None? <==> NoSpot(b, myDig, visited, AnyOre, 0)
  {
    if t.Some? && IsFirstSpot(b, myDig, visited, FreshOre, 0, t.value) {
      FreshIsAnyUnvisited(b, myDig, visited, t.value);
    }
    if NoSpot(b, myDig, visited, AnyOre, 0) {
      forall q | CellExist(b, q) && q.x >= 0 ensures !Wanted(b, myDig, visited, FreshOre, q) {
        FreshIsAnyUnvisited(b, myDig, visited, q);
      }
    }
  }
}
