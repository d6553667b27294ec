/**
 * The radar-spacing query: is one of our radars close to a coordinate along
 * one of the eight compass rays?
 *
 * The query probes, for every step i from 1 to range-1, the eight cells i
 * steps away along the horizontal, vertical and diagonal rays. As written,
 * the eastward probe uses the constant offset 1 instead of i, so a radar due
 * east more than one step away is never seen. Both versions are modelled:
 * `ProximityAsWritten` follows the code, `Proximity` the evident intent.
 */
module RadarSpacing {
  import opened Geometry
  import opened Boards

  /** `p` lies on one of the eight rays from `c`, exactly `i` king steps out. */
  predicate OnStarAt(c: Coord, p: Coord, i: int)
  {
    var dx, dy := p.x - c.x, p.y - c.y;
    i >= 1 && Chebyshev(c, p) == i && (dx == 0 || dy == 0 || Abs(dx) == Abs(dy))
  }

  /** `p` lies on one of the eight rays from `c`, fewer than `range` king steps out. */
  predicate OnStar(c: Coord, p: Coord, range: int)
  {
    var dx, dy := p.x - c.x, p.y - c.y;
    p != c && Chebyshev(c, p) < range && (dx == 0 || dy == 0 || Abs(dx) == Abs(dy))
  }

  /** `p` lies due east of `c`. */
  predicate DueEast(c: Coord, p: Coord)
  {
    p.y == c.y && p.x > c.x
  }

  /** The eight probes of step i, with the eastward probe as written (offset 1). */
  predicate RingAsWritten(radars: seq<Coord>, c: Coord, i: int)
  {
    || Coord(c.x + 1, c.y) in radars || Coord(c.x - i, c.y) in radars
    || Coord(c.x, c.y - i) in radars || Coord(c.x, c.y + i) in radars
    || Coord(c.x - i, c.y - i) in radars || Coord(c.x - i, c.y + i) in radars
    || Coord(c.x + i, c.y + i) in radars || Coord(c.x + i, c.y - i) in radars
  }

  /** The eight probes of step i, as intended (offset i in every direction). */
  predicate Ring(radars: seq<Coord>, c: Coord, i: int)
  {
    || Coord(c.x + i, c.y) in radars || Coord(c.x - i, c.y) in radars
    || Coord(c.x, c.y - i) in radars || Coord(c.x, c.y + i) in radars
    || Coord(c.x - i, c.y - i) in radars || Coord(c.x - i, c.y + i) in radars
    || Coord(c.x + i, c.y + i) in radars || Coord(c.x + i, c.y - i) in radars
  }

  /** Steps i .. range-1 of the query as written. */
  function RingsAsWrittenFrom(radars: seq<Coord>, c: Coord, i: int, range: int): bool
    decreases range - i
  {
    if i >= range then false else RingAsWritten(radars, c, i) || RingsAsWrittenFrom(radars, c, i + 1, range)
  }

  /** Steps i .. range-1 of the intended query. */
  function RingsFrom(radars: seq<Coord>, c: Coord, i: int, range: int): bool
    decreases range - i
  {
    if i >= range then false else Ring(radars, c, i) || RingsFrom(radars, c, i + 1, range)
  }

  /** The query as the code computes it. */
  function ProximityAsWritten(b: Board, range: int, c: Coord): bool
  {
    RingsAsWrittenFrom(b.myRadarPos, c, 1, range)
  }

  /** The query as intended. */
  function Proximity(b: Board, range: int, c: Coord): bool
  {
    RingsFrom(b.myRadarPos, c, 1, range)
  }

  // ---------------------------------------------------------------------
  // What the probes find

  /** The cells i steps out on the eight rays are exactly the eight probes of step i. */
  lemma StarCells(c: Coord, p: Coord, i: int)
    requires i >= 1
    ensures OnStarAt(c, p, i) <==>
              p == Coord(c.x + i, c.y) || p == Coord(c.x - i, c.y) || p == Coord(c.x, c.y - i)
              || p == Coord(c.x, c.y + i) || p == Coord(c.x - i, c.y - i) || p == Coord(c.x - i, c.y + i)
              || p == Coord(c.x + i, c.y + i) || p == Coord(c.x + i, c.y - i)
  {
  }

  /** A radar on a ray exactly i steps out answers one of the eight probes of step i. */
  lemma RingFinds(radars: seq<Coord>, c: Coord, i: int, k: int)
    requires i >= 1 && 0 <= k < |radars| && OnStarAt(c, radars[k], i)
    ensures Ring(radars, c, i)
  {
    StarCells(c, radars[k], i);
    assert radars[k] in radars;
  }

  /** A probe of step i that answers is a radar on a ray exactly i steps out. */
  lemma RingWitness(radars: seq<Coord>, c: Coord, i: int) returns (k: int)
    requires i >= 1 && Ring(radars, c, i)
    ensures 0 <= k < |radars| && OnStarAt(c, radars[k], i)
  {
    var p :| p in radars && (p == Coord(c.x + i, c.y) || p == Coord(c.x - i, c.y) || p == Coord(c.x, c.y - i)
        || p == Coord(c.x, c.y + i) || p == Coord(c.x - i, c.y - i) || p == Coord(c.x - i, c.y + i)
        || p == Coord(c.x + i, c.y + i) || p == Coord(c.x + i, c.y - i));
    k :| 0 <= k < |radars| && radars[k] == p;
    StarCells(c, p, i);
  }

  /** The same two facts for the probes as written. */
  lemma RingAsWrittenFinds(radars: seq<Coord>, c: Coord, i: int, k: int)
    requires i >= 1 && 0 <= k < |radars| && OnStarAt(c, radars[k], i) && !DueEast(c, radars[k])
    ensures RingAsWritten(radars, c, i)
  {
    var p := radars[k];
    assert p in radars;
    assert p == Coord(c.x - i, c.y) || p == Coord(c.x, c.y - i)
        || p == Coord(c.x, c.y + i) || p == Coord(c.x - i, c.y - i) || p == Coord(c.x - i, c.y + i)
        || p == Coord(c.x + i, c.y + i) || p == Coord(c.x + i, c.y - i);
  }

  lemma RingAsWrittenWitness(radars: seq<Coord>, c: Coord, i: int) returns (k: int)
    requires i >= 1 && RingAsWritten(radars, c, i) && Coord(c.x + 1, c.y) !in radars
    ensures 0 <= k < |radars| && OnStarAt(c, radars[k], i) && !DueEast(c, radars[k])
  {
    var p :| p in radars && (p == Coord(c.x - i, c.y) || p == Coord(c.x, c.y - i)
        || p == Coord(c.x, c.y + i) || p == Coord(c.x - i, c.y - i) || p == Coord(c.x - i, c.y + i)
        || p == Coord(c.x + i, c.y + i) || p == Coord(c.x + i, c.y - i));
    k :| 0 <= k < |radars| && radars[k] == p;
    StarCells(c, p, i);
  }

  /** The intended probes of step i find exactly the radars on a ray i steps out. */
  lemma RingMeaning(radars: seq<Coord>, c: Coord, i: int)
    requires i >= 1
    ensures Ring(radars, c, i) <==> exists k :: 0 <= k < |radars| && OnStarAt(c, radars[k], i)
  {
    if k :| 0 <= k < |radars| && OnStarAt(c, radars[k], i) {
      RingFinds(radars, c, i, k);
    }
    if Ring(radars, c, i) {
      var k := RingWitness(radars, c, i);
    }
  }

  /** The probes of step i as written find the cell right east, and the radars i steps out off the eastward ray. */
  lemma RingAsWrittenMeaning(radars: seq<Coord>, c: Coord, i: int)
    requires i >= 1
    ensures RingAsWritten(radars, c, i) <==>
              Coord(c.x + 1, c.y) in radars ||
              exists k :: 0 <= k < |radars| && OnStarAt(c, radars[k], i) && !DueEast(c, radars[k])
  {
    if k :| 0 <= k < |radars| && OnStarAt(c, radars[k], i) && !DueEast(c, radars[k]) {
      RingAsWrittenFinds(radars, c, i, k);
    }
    if RingAsWritten(radars, c, i) && Coord(c.x + 1, c.y) !in radars {
      var k := RingAsWrittenWitness(radars, c, i);
    }
  }

  lemma {:induction false} RingsFromMeaning(radars: seq<Coord>, c: Coord, i: int, range: int)
    requires i >= 1
    ensures RingsFrom(radars, c, i, range) <==>
              exists k :: 0 <= k < |radars| && OnStar(c, radars[k], range) && Chebyshev(c, radars[k]) >= i
    decreases range - i
  {
    if i < range {
      RingsFromMeaning(radars, c, i + 1, range);
      if k :| 0 <= k < |radars| && OnStar(c, radars[k], range) && Chebyshev(c, radars[k]) >= i {
        if Chebyshev(c, radars[k]) == i {
          RingFinds(radars, c, i, k);
        }
      }
      if Ring(radars, c, i) {
        var k := RingWitness(radars, c, i);
        assert OnStar(c, radars[k], range);
      }
    }
  }

  lemma {:induction false} RingsAsWrittenFromMeaning(radars: seq<Coord>, c: Coord, i: int, range: int)
    requires i >= 1
    ensures RingsAsWrittenFrom(radars, c, i, range) <==>
              (i < range && Coord(c.x + 1, c.y) in radars) ||
              exists k :: 0 <= k < |radars| && OnStar(c, radars[k], range) && Chebyshev(c, radars[k]) >= i
                          && !DueEast(c, radars[k])
    decreases range - i
  {
    if i < range {
      RingsAsWrittenFromMeaning(radars, c, i + 1, range);
      if k :| 0 <= k < |radars| && OnStar(c, radars[k], range) && Chebyshev(c, radars[k]) >= i
              && !DueEast(c, radars[k]) {
        if Chebyshev(c, radars[k]) == i {
          RingAsWrittenFinds(radars, c, i, k);
        }
      }
      if RingAsWritten(radars, c, i) && Coord(c.x + 1, c.y) !in radars {
        var k := RingAsWrittenWitness(radars, c, i);
        assert OnStar(c, radars[k], range);
      }
    }
  }

  /**
   * The intended query holds exactly when some radar lies on one of the eight
   * rays from `c`, fewer than `range` steps away.
   */
  lemma ProximityMeaning(b: Board, range: int, c: Coord)
    ensures Proximity(b, range, c) <==> exists k :: 0 <= k < |b.myRadarPos| && OnStar(c, b.myRadarPos[k], range)
  {
    RingsFromMeaning(b.myRadarPos, c, 1, range);
  }

  /**
   * The query as written sees the cell right east of `c`, and otherwise only
   * radars on the seven rays that do not point east.
   */
  lemma ProximityAsWrittenMeaning(b: Board, range: int, c: Coord)
    ensures ProximityAsWritten(b, range, c) <==>
              (range >= 2 && Coord(c.x + 1, c.y) in b.myRadarPos) ||
              exists k :: 0 <= k < |b.myRadarPos| && OnStar(c, b.myRadarPos[k], range) && !DueEast(c, b.myRadarPos[k])
  {
    RingsAsWrittenFromMeaning(b.myRadarPos, c, 1, range);
  }

  /** The two agree away from the eastward ray. */
  lemma ProximityAgreesOffEastRay(b: Board, range: int, c: Coord)
    requires forall k :: 0 <= k < |b.myRadarPos| ==> !DueEast(c, b.myRadarPos[k]) || b.myRadarPos[k].x == c.x + 1
    ensures ProximityAsWritten(b, range, c) == Proximity(b, range, c)
  {
    ProximityMeaning(b, range, c);
    ProximityAsWrittenMeaning(b, range, c);
    if Coord(c.x + 1, c.y) in b.myRadarPos && range >= 2 {
      var k :| 0 <= k < |b.myRadarPos| && b.myRadarPos[k] == Coord(c.x + 1, c.y);
      assert OnStar(c, b.myRadarPos[k], range);
    }
  }

  /**
   * A radar two cells due east of `c` is missed by the query as written,
   * with the range 3 its only caller uses.
   */
  lemma EastRadarMissed(b: Board)
    requires b.myRadarPos == [Coord(7, 5)]
    ensures Proximity(b, 3, Coord(5, 5))
    ensures !ProximityAsWritten(b, 3, Coord(5, 5))
  {
    ProximityMeaning(b, 3, Coord(5, 5));
    assert OnStar(Coord(5, 5), b.myRadarPos[0], 3);
    ProximityAsWrittenMeaning(b, 3, Coord(5, 5));
  }
}
