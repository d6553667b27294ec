/**
 * The trap planner's specification: which cells count as likely opponent dig
 * sites, the order the planner finds them in, and the discrete 1-median it
 * picks among them.
 */
module TrapPlanning {
  import opened Wrappers
  import opened Geometry
  import opened Boards

  /**
   * A cell that looks dug by the opponent: it has a hole, we did not dig it,
   * none of our radars or traps stands on it, and it is not already in `seen`.
   */
  predicate IsCandidate(b: Board, myDig: seq<Coord>, seen: seq<Coord>, p: Coord)
    requires WellFormed(b) && CellExist(b, p)
  {
    GetCell(b, p).hole && p !in myDig && p !in b.myRadarPos && p !in b.myTrapPos && p !in seen
  }

  /** The candidates among rows 0 .. n-1 of column x, top to bottom. */
  function ColumnCandidates(b: Board, myDig: seq<Coord>, seen: seq<Coord>, x: int, n: int): seq<Coord>
    requires WellFormed(b) && 0 <= x < b.width && 0 <= n <= b.height
    decreases n
  {
    if n == 0 then []
    else
      ColumnCandidates(b, myDig, seen, x, n - 1)
      + (if IsCandidate(b, myDig, seen, Coord(x, n - 1)) then [Coord(x, n - 1)] else [])
  }

  /** The candidates of columns 1 .. m-1, column by column (column 0 is never scanned). */
  function ScanCandidates(b: Board, myDig: seq<Coord>, seen: seq<Coord>, m: int): seq<Coord>
    requires WellFormed(b) && (m <= b.width || m <= 1)
    decreases m
  {
    if m <= 1 then []
    else ScanCandidates(b, myDig, seen, m - 1) + ColumnCandidates(b, myDig, seen, m - 1, b.height)
  }

  /** Every candidate of the board, in the planner's scan order. */
  function Candidates(b: Board, myDig: seq<Coord>, seen: seq<Coord>): seq<Coord>
    requires WellFormed(b)
  {
    ScanCandidates(b, myDig, seen, b.width)
  }

  // ---------------------------------------------------------------------
  // The scan finds exactly the candidates, in column-major order

  lemma {:induction false} ColumnCandidatesExact(b: Board, myDig: seq<Coord>, seen: seq<Coord>, x: int, n: int)
    requires WellFormed(b) && 0 <= x < b.width && 0 <= n <= b.height
    ensures forall p :: p in ColumnCandidates(b, myDig, seen, x, n) <==>
              p.x == x && 0 <= p.y < n && IsCandidate(b, myDig, seen, p)
    ensures forall i, j :: 0 <= i < j < |ColumnCandidates(b, myDig, seen, x, n)| ==>
              ColumnCandidates(b, myDig, seen, x, n)[i].y < ColumnCandidates(b, myDig, seen, x, n)[j].y
    decreases n
  {
    if n > 0 {
      ColumnCandidatesExact(b, myDig, seen, x, n - 1);
    }
  }

  lemma {:induction false} ScanCandidatesExact(b: Board, myDig: seq<Coord>, seen: seq<Coord>, m: int)
    requires WellFormed(b) && (m <= b.width || m <= 1)
    ensures forall p :: p in ScanCandidates(b, myDig, seen, m) <==>
              1 <= p.x < m && 0 <= p.y < b.height && IsCandidate(b, myDig, seen, p)
    ensures forall i, j :: 0 <= i < j < |ScanCandidates(b, myDig, seen, m)| ==>
              ColumnMajorBefore(ScanCandidates(b, myDig, seen, m)[i], ScanCandidates(b, myDig, seen, m)[j])
    decreases m
  {
    if m > 1 {
      ScanCandidatesExact(b, myDig, seen, m - 1);
      ColumnCandidatesExact(b, myDig, seen, m - 1, b.height);
      var front := ScanCandidates(b, myDig, seen, m - 1);
      var col := ColumnCandidates(b, myDig, seen, m - 1, b.height);
      assert ScanCandidates(b, myDig, seen, m) == front + col;
      forall i, j | 0 <= i < j < |front + col|
        ensures ColumnMajorBefore((front + col)[i], (front + col)[j])
      {
        if j < |front| {
        } else if i < |front| {
          assert front[i] in front && col[j - |front|] in col;
        } else {
          assert col[i - |front|].y < col[j - |front|].y;
        }
      }
    }
  }

  /**
   * The trap candidates are exactly the on-board cells of columns 1 and up
   * that satisfy IsCandidate; they come in column-major order and so without
   * repetition.
   */
  lemma CandidatesExact(b: Board, myDig: seq<Coord>, seen: seq<Coord>)
    requires WellFormed(b)
    ensures forall p :: p in Candidates(b, myDig, seen) <==>
              CellExist(b, p) && p.x >= 1 && IsCandidate(b, myDig, seen, p)
    ensures forall i, j :: 0 <= i < j < |Candidates(b, myDig, seen)| ==>
              ColumnMajorBefore(Candidates(b, myDig, seen)[i], Candidates(b, myDig, seen)[j])
    ensures NoDup(Candidates(b, myDig, seen))
  {
    ScanCandidatesExact(b, myDig, seen, b.width);
  }

  /**
   * Folding the new candidates into the record keeps it free of repetitions:
   * a new candidate is never in the record already.
   */
  lemma FoldKeepsNoDup(b: Board, myDig: seq<Coord>, enemyDig: seq<Coord>)
    requires WellFormed(b) && NoDup(enemyDig)
    ensures NoDup(enemyDig + Candidates(b, myDig, enemyDig))
  {
    CandidatesExact(b, myDig, enemyDig);
    var c := Candidates(b, myDig, enemyDig);
    forall i, j | 0 <= i < j < |enemyDig + c| ensures (enemyDig + c)[i] != (enemyDig + c)[j] {
      if j >= |enemyDig| && i < |enemyDig| {
        assert (enemyDig + c)[j] in c;
        assert (enemyDig + c)[i] in enemyDig;
      }
    }
  }

  // ---------------------------------------------------------------------
  // The discrete 1-median

  /** Sum of the distances from cands[k] to cands[j], for j < n and j != k. */
  function DistSumTo(cands: seq<Coord>, k: int, n: int): nat
    requires 0 <= k < |cands| && 0 <= n <= |cands|
    decreases n
  {
    if n == 0 then 0
    else DistSumTo(cands, k, n - 1) + (if n - 1 != k then Distance(cands[n - 1], cands[k]) else 0)
  }

  /** Total Manhattan distance from cands[k] to every other candidate. */
  function DistSum(cands: seq<Coord>, k: int): nat
    requires 0 <= k < |cands|
  {
    DistSumTo(cands, k, |cands|)
  }

  /**
   * cands[k] has the least total distance to the others, and every earlier
   * candidate has a strictly larger total: ties go to the first one found.
   */
  ghost predicate IsFirstMedian(cands: seq<Coord>, k: int)
  {
    && 0 <= k < |cands|
    && (forall m :: 0 <= m < |cands| ==> DistSum(cands, k) <= DistSum(cands, m))
    && (forall m :: 0 <= m < k ==> DistSum(cands, k) < DistSum(cands, m))
  }

  /** At most one index is the first median. */
  lemma FirstMedianUnique(cands: seq<Coord>, k1: int, k2: int)
    requires IsFirstMedian(cands, k1) && IsFirstMedian(cands, k2)
    ensures k1 == k2
  {
    assert DistSum(cands, k1) <= DistSum(cands, k2);
    assert DistSum(cands, k2) <= DistSum(cands, k1);
  }

  /**
   * Some index is the first median: from any index, move to a candidate
   * with a smaller total, or to an earlier one with the same total, until
   * neither exists.
   */
  lemma {:induction false} FirstMedianExists(cands: seq<Coord>, k: int)
    requires 0 <= k < |cands|
    ensures exists j :: IsFirstMedian(cands, j)
    decreases DistSum(cands, k), k
  {
    if m :| 0 <= m < |cands| && DistSum(cands, m) < DistSum(cands, k) {
      FirstMedianExists(cands, m);
    } else if m :| 0 <= m < k && DistSum(cands, m) <= DistSum(cands, k) {
      FirstMedianExists(cands, m);
    } else {
      assert IsFirstMedian(cands, k);
    }
  }

  /** The trap spot the median ranking picks, as a function of the candidates. */
  ghost function MedianOf(cands: seq<Coord>): (best: Option<Coord>)
    ensures best.None? <==> cands == []
    ensures best.Some? ==> exists k :: IsFirstMedian(cands, k) && best.value == cands[k]
  {
    if cands == [] then None
    else
      FirstMedianExists(cands, 0);
      var k :| IsFirstMedian(cands, k);
      Some(cands[k])
  }

  /** The first median found by any means is the one MedianOf picks. */
  lemma MedianOfIs(cands: seq<Coord>, k: int)
    requires IsFirstMedian(cands, k)
    ensures MedianOf(cands) == Some(cands[k])
  {
    var j :| IsFirstMedian(cands, j) && MedianOf(cands).value == cands[j];
    FirstMedianUnique(cands, j, k);
  }

  /**
   * Ranks the candidates by total distance to the others and returns the
   * first one with the least total, or None when there is no candidate.
   */
  method FirstMedian(cands: seq<Coord>) returns (best: Option<Coord>)
    ensures best.None? <==> |cands| == 0
    ensures best.Some? ==> exists k :: IsFirstMedian(cands, k) && best.value == cands[k]
    ensures best == MedianOf(cands)
  {
    best := None;
    var distance := 0;
    ghost var k := 0;
    var i := 0;
    while i < |cands|
      invariant 0 <= i <= |cands|
      invariant best.None? <==> i == 0
      invariant best.None? ==> distance == 0
      invariant best.Some? ==> 0 <= k < i && best.value == cands[k] && distance == DistSum(cands, k)
      invariant best.Some? ==> forall m :: 0 <= m < i ==> distance <= DistSum(cands, m)
      invariant best.Some? ==> forall m :: 0 <= m < k ==> distance < DistSum(cands, m)
    {
      if best.None? {
        best := Some(cands[i]);
        k := i;
        var j := 0;
        while j < |cands|
          invariant 0 <= j <= |cands|
          invariant distance == DistSumTo(cands, i, j)
        {
          if i != j {
            distance := distance + Distance(cands[j], cands[i]);
          }
          j := j + 1;
        }
      } else {
        var tempBest := cands[i];
        var tempDistance := 0;
        var j := 0;
        while j < |cands|
          invariant 0 <= j <= |cands|
          invariant tempDistance == DistSumTo(cands, i, j)
        {
          if i != j {
            tempDistance := tempDistance + Distance(cands[j], tempBest);
          }
          j := j + 1;
        }
        if distance > tempDistance {
          distance := tempDistance;
          best := Some(tempBest);
          k := i;
        }
      }
      i := i + 1;
    }
    if best.Some? {
      MedianOfIs(cands, k);
    }
  }

  /**
   * With opponent holes at (x,y), (x,y+2) and (x+2,y) the first is the
   * median: its total distance is 4, the others' is 6.
   */
  lemma ThreeHolesScenario(cands: seq<Coord>, x: int, y: int)
    requires cands == [Coord(x, y), Coord(x, y + 2), Coord(x + 2, y)]
    ensures IsFirstMedian(cands, 0) && DistSum(cands, 0) == 4
  {
    assert DistSum(cands, 0) == 4 by { assert DistSumTo(cands, 0, 3) == 4; }
    assert DistSum(cands, 1) == 6 by { assert DistSumTo(cands, 1, 3) == 6; }
    assert DistSum(cands, 2) == 6 by { assert DistSumTo(cands, 2, 3) == 6; }
    forall m | 0 <= m < |cands| ensures DistSum(cands, 0) <= DistSum(cands, m) {
      assert m == 0 || m == 1 || m == 2;
    }
  }
}
