/**
 * The agent's turn: the trap-spot estimate, the coverage grid, then one step
 * per robot of ours that updates the mission registers and chooses the
 * robot's action.
 */
module Orchestration {
  import opened Wrappers
  import opened Geometry
  import opened Boards
  import opened Missions
  import opened Footprint
  import opened TrapPlanning
  import opened Digging
  import opened Planning

  /** What a robot is told to do this turn; a robot given no action waits. */
  datatype Action = Wait | Move(pos: Coord) | Dig(pos: Coord) | Request(item: EntityType)

  /** The planner's dig records, as one value. */
  datatype DigRecords = DigRecords(
    myDig: seq<Coord>,
    visited: seq<Coord>,
    robotPos: map<int, Coord>,
    toDig: map<int, Coord>)

  function RecordsOf(s: Support): DigRecords
    reads s
  {
    DigRecords(s.myDig, s.alreadyVisited, s.storyRobotPos, s.coveragePos)
  }

  /**
   * The work step of a robot that holds no mission, with the records it
   * leaves. A robot carrying ore heads for column 0 of its row; the cell it
   * was sent to dig becomes one of our holes (once) and a visited cell. Any
   * other robot is sent to its dig target, which is recorded as its position
   * and its cell to dig; with no target it waits.
   */
  ghost function WorkOf(b: Board, robot: Entity, r: DigRecords): (DigRecords, Action)
    requires WellFormed(b) && robot.id >= 0
  {
    var id := robot.id;
    if robot.item == Amadeusium then
      (DigRecords(
         if id in r.robotPos && r.robotPos[id] !in r.myDig then r.myDig + [r.robotPos[id]] else r.myDig,
         r.visited + (if id in r.toDig then [r.toDig[id]] else []),
         r.robotPos, r.toDig),
       Move(Coord(0, robot.pos.y)))
    else
      match DigTargetOf(b, r.myDig, r.visited, id)
      case None => (r, Wait)
      case Some(p) => (r.(robotPos := r.robotPos[id := p], toDig := r.toDig[id := p]), Dig(p))
  }

  /**
   * What the turn loop carries from one robot's step to the next: the
   * mission registers, the radar target, the trap spot, the dig records, the
   * opponent-hole record and the waypoint queue.
   */
  datatype Agent = Agent(
    regs: Registers,
    target: Coord,
    posTrap: Option<Coord>,
    rec: DigRecords,
    enemyDig: seq<Coord>,
    queue: seq<Coord>)

  /**
   * The invariant the steps keep: the missions are apart, the radar target
   * is a waypoint or the sentinel, and the queue holds waypoints.
   */
  predicate AgentOk(s: Agent)
  {
    && Apart(s.regs, s.target != Dead)
    && (s.target == Dead || s.target in Waypoints)
    && forall k :: 0 <= k < |s.queue| ==> s.queue[k] in Waypoints
  }

  /**
   * The step of a live robot: the releases; the radar request, which takes
   * the next target when the old one is occupied; the trap request, which
   * folds the new opponent holes into the record and takes their first
   * median as the trap spot; then the robot's action.
   */
  ghost function LiveOf(b: Board, robot: Entity, low: bool, s: Agent): (Agent, Action)
    requires WellFormed(b) && robot.id >= 0
  {
    var id, item := robot.id, robot.item;
    var placed := s.target in b.myRadarPos;
    var wants := WantsRadar(Release(s.regs, id, item, placed), id, placed, b.myRadarCooldown, low);
    var next := if wants && placed then NextTarget(s.queue, b.myRadarPos) else (s.target, s.queue);
    var have := next.0 != Dead;
    var regs := LiveStep(s.regs, id, item, placed, b.myRadarCooldown, b.myTrapCooldown, low, have);
    var trap := TrapTaken(s.regs, id, item, placed, b.myRadarCooldown, b.myTrapCooldown, low, have);
    var cands := Candidates(b, s.rec.myDig, s.enemyDig);
    var posTrap := if trap then MedianOf(cands) else s.posTrap;
    var request := if trap then Request(Trap) else if wants && have then Request(Radar) else Wait;
    var done :=
      if regs.radar != id && regs.trap != id then WorkOf(b, robot, s.rec)
      else if regs.radar == id && item == Radar then (s.rec, Dig(next.0))
      else if regs.trap == id && item == Trap && posTrap.Some? then (s.rec, Dig(posTrap.value))
      else (s.rec, request);
    (Agent(regs, next.0, posTrap, done.0, if trap then s.enemyDig + cands else s.enemyDig, next.1), done.1)
  }

  /** One robot's step: a destroyed robot gives up its mission and waits. */
  ghost function StepOf(b: Board, robot: Entity, low: bool, s: Agent): (Agent, Action)
    requires WellFormed(b) && robot.id >= 0
  {
    if IsAlive(robot) then LiveOf(b, robot, low, s)
    else (s.(regs := DeadStep(s.regs, robot.id)), Wait)
  }

  /** The steps of `robots` in order, from `s`; `lows[k]` is robot k's coverage test. */
  ghost function StepsOf(b: Board, robots: seq<Entity>, lows: seq<bool>, s: Agent): (r: (Agent, seq<Action>))
    requires WellFormed(b) && |lows| == |robots|
    requires forall k :: 0 <= k < |robots| ==> robots[k].id >= 0
    ensures |r.1| == |robots|
    decreases |robots|
  {
    if robots == [] then (s, [])
    else
      var n := |robots| - 1;
      var prev := StepsOf(b, robots[..n], lows[..n], s);
      var last := StepOf(b, robots[n], lows[n], prev.0);
      (last.0, prev.1 + [last.1])
  }

  /** Taking one more robot adds its step to the fold. */
  lemma StepsOfNext(b: Board, robots: seq<Entity>, lows: seq<bool>, s: Agent, k: int)
    requires WellFormed(b) && |lows| == |robots| && 0 <= k < |robots|
    requires forall j :: 0 <= j < |robots| ==> robots[j].id >= 0
    ensures var prev := StepsOf(b, robots[..k], lows[..k], s);
            var last := StepOf(b, robots[k], lows[k], prev.0);
            StepsOf(b, robots[..k + 1], lows[..k + 1], s) == (last.0, prev.1 + [last.1])
  {
    assert robots[..k + 1][..k] == robots[..k] && lows[..k + 1][..k] == lows[..k];
  }

  /**
   * A live robot's step keeps the invariant and never leaves the robot
   * holding both missions; an unoccupied target stays; a robot left without
   * a mission does its work step and the others leave the records alone; a
   * device request leaves the robot holding that mission, a radar request
   * only with a real target and a trap request with the record grown by
   * the new candidates and the trap spot their first median.
   */
  lemma LiveOfMeaning(b: Board, robot: Entity, low: bool, s: Agent)
    requires WellFormed(b) && robot.id >= 0 && AgentOk(s)
    ensures var r := LiveOf(b, robot, low, s);
            var id := robot.id;
            && AgentOk(r.0)
            && !(r.0.regs.radar == id && r.0.regs.trap == id)
            && (s.target !in b.myRadarPos ==> r.0.target == s.target && r.0.queue == s.queue)
            && (r.0.regs.radar != id && r.0.regs.trap != id ==> (r.0.rec, r.1) == WorkOf(b, robot, s.rec))
            && (r.0.regs.radar == id || r.0.regs.trap == id ==> r.0.rec == s.rec)
            && (r.1 == Request(Radar) ==> r.0.regs.radar == id && r.0.regs.req == id && r.0.target != Dead)
            && (r.1 == Request(Trap) ==>
                  var cands := Candidates(b, s.rec.myDig, s.enemyDig);
                  r.0.regs.trap == id && r.0.enemyDig == s.enemyDig + cands && r.0.posTrap == MedianOf(cands))
  {
    var id, item := robot.id, robot.item;
    var placed := s.target in b.myRadarPos;
    var wants := WantsRadar(Release(s.regs, id, item, placed), id, placed, b.myRadarCooldown, low);
    var next := if wants && placed then NextTarget(s.queue, b.myRadarPos) else (s.target, s.queue);
    DeadIsNoDevice(b);
    LiveStepKeepsApart(s.regs, id, item, placed, b.myRadarCooldown, b.myTrapCooldown, low,
                       s.target != Dead, next.0 != Dead);
    OneRequestPerStep(s.regs, id, item, placed, b.myRadarCooldown, b.myTrapCooldown, low, next.0 != Dead);
  }

  /**
   * The steps keep the invariant; every robot gets one action, and a
   * destroyed robot waits.
   */
  lemma {:induction false} StepsKeepOk(b: Board, robots: seq<Entity>, lows: seq<bool>, s: Agent)
    requires WellFormed(b) && |lows| == |robots| && AgentOk(s)
    requires forall k :: 0 <= k < |robots| ==> robots[k].id >= 0
    ensures var r := StepsOf(b, robots, lows, s);
            && AgentOk(r.0)
            && forall k :: 0 <= k < |robots| && !IsAlive(robots[k]) ==> r.1[k] == Wait
    decreases |robots|
  {
    if robots != [] {
      var n := |robots| - 1;
      StepsKeepOk(b, robots[..n], lows[..n], s);
      var prev := StepsOf(b, robots[..n], lows[..n], s);
      if IsAlive(robots[n]) {
        LiveOfMeaning(b, robots[n], lows[n], prev.0);
      } else {
        DeadStepReleases(prev.0.regs, robots[n].id, prev.0.target != Dead);
      }
      assert forall k :: 0 <= k < n ==> robots[..n][k] == robots[k];
    }
  }

  class Player {
    const support: Support
    /** The robot holding the radar mission, or NoRobot. */
    var idRobotRadar: int
    /** The robot holding the trap mission, or NoRobot. */
    var idRobotTrap: int
    /** The robot whose radar request is pending, or NoRobot. */
    var idReq: int
    /** The cell the next radar goes to; Dead once every waypoint is taken. */
    var whereToDig: Coord
    /** The cell the trap holder digs, if any. */
    var posTrap: Option<Coord>

    function Regs(): Registers
      reads this
    {
      Registers(idRobotRadar, idRobotTrap, idReq)
    }

    /** The agent's state as the steps see it. */
    function State(): Agent
      reads this, support
    {
      Agent(Regs(), whereToDig, posTrap, RecordsOf(support), support.enemyDig, support.radPos)
    }

    /**
     * The agent's invariant: the planner is valid, the mission registers are
     * apart, and the radar target is a waypoint or the sentinel.
     */
    ghost predicate Valid()
      reads this, support
    {
      && support.Valid()
      && Apart(Regs(), whereToDig != Dead)
      && (whereToDig == Dead || whereToDig in Waypoints)
    }

    /**
     * The agent before its first turn: no mission held, robot 0 marked as
     * the pending radar requester, the first waypoint taken from the queue
     * as radar target, nothing covered, no heat and no records.
     */
    constructor (width: int, height: int)
      requires width >= 0 && height >= 0
      ensures Valid() && fresh(support) && fresh(support.coveredByRadar) && fresh(support.forecastMatrix)
      ensures support.width == width && support.height == height
      ensures Regs() == Registers(NoRobot, NoRobot, 0)
      ensures whereToDig == Waypoints[0] && posTrap == None
      ensures support.radPos == Waypoints[1..]
      ensures forall y, x :: 0 <= y < height && 0 <= x < width ==>
                !support.coveredByRadar[y, x] && support.forecastMatrix[y, x] == 0
      ensures RecordsOf(support) == DigRecords([], [], map[], map[]) && support.enemyDig == []
    {
      var s := new Support(width, height);
      WaypointsDistinct();
      var w := s.ThinkRadar2([]);
      support := s;
      idRobotRadar := NoRobot;
      idRobotTrap := NoRobot;
      idReq := 0;
      whereToDig := w;
      posTrap := None;
    }

    /** Chooses the dig target of a robot that holds no mission. */
    method DigTarget(b: Board, id: int) returns (t: Option<Coord>)
      requires WellFormed(b) && id >= 0
      ensures t == DigTargetOf(b, support.myDig, support.alreadyVisited, id)
    {
      if |b.myRadarPos| > 0 {
        t := support.FirstSpot(b, FreshOre, 0);
        if t.None? {
          t := support.FirstSpot(b, AnyOre, 0);
        }
      } else {
        t := Some(BlindDig(id));
      }
    }

    /** The work step of a robot that holds no mission. */
    method Work(b: Board, robot: Entity) returns (a: Action)
      requires support.Valid() && WellFormed(b) && robot.id >= 0
      modifies support`myDig, support`alreadyVisited, support`storyRobotPos, support`coveragePos
      ensures support.Valid()
      ensures (RecordsOf(support), a) == WorkOf(b, robot, old(RecordsOf(support)))
    {
      ghost var r0 := RecordsOf(support);
      if robot.item == Amadeusium {
        a := Move(Coord(0, robot.pos.y));
        if robot.id in support.storyRobotPos {
          support.AddHole(support.storyRobotPos[robot.id]);
        }
        if robot.id in support.coveragePos {
          support.AddVisited(support.coveragePos[robot.id]);
        }
        assert RecordsOf(support) == WorkOf(b, robot, r0).0;
      } else {
        var t := DigTarget(b, robot.id);
        if t.Some? {
          support.AddPosToDig(robot.id, t.value);
          support.AddPos(robot.id, t.value);
          a := Dig(t.value);
        } else {
          a := Wait;
        }
      }
    }

    /**
     * The releases and the radar request of a live robot. An occupied
     * target clears the pending request and, when the robot asks for a
     * radar, is replaced by the next target from the waypoint queue.
     */
    method RadarStage(b: Board, robot: Entity, low: bool) returns (a: Action)
      requires support.Valid() && WellFormed(b)
      requires whereToDig == Dead || whereToDig in Waypoints
      modifies this`idRobotRadar, this`idRobotTrap, this`idReq, this`whereToDig, support`radPos
      ensures support.Valid()
      ensures whereToDig == Dead || whereToDig in Waypoints
      ensures var placed := old(whereToDig) in b.myRadarPos;
              (whereToDig, support.radPos) ==
                if WantsRadar(Release(old(Regs()), robot.id, robot.item, placed), robot.id, placed, b.myRadarCooldown, low)
                   && placed
                then NextTarget(old(support.radPos), b.myRadarPos)
                else (old(whereToDig), old(support.radPos))
      ensures Regs() == AfterRadar(old(Regs()), robot.id, robot.item, old(whereToDig) in b.myRadarPos,
                                   b.myRadarCooldown, low, whereToDig != Dead)
      ensures a == if RadarTaken(old(Regs()), robot.id, robot.item, old(whereToDig) in b.myRadarPos,
                                 b.myRadarCooldown, low, whereToDig != Dead)
                   then Request(Radar) else Wait
    {
      var id := robot.id;
      var placed := whereToDig in b.myRadarPos;
      ReleaseStage(robot, placed);
      a := Wait;
      if (!placed && idReq == id) || (b.myRadarCooldown == 0 && idRobotRadar == NoRobot && id != idRobotTrap && low) {
        if placed {
          whereToDig := support.ThinkRadar2(b.myRadarPos);
        }
        if whereToDig != Dead {
          a := Request(Radar);
          idRobotRadar := id;
          idReq := id;
        }
      }
    }

    /** The releases at the start of a live robot's step. */
    method ReleaseStage(robot: Entity, placed: bool)
      modifies this`idRobotRadar, this`idRobotTrap, this`idReq
      ensures Regs() == Release(old(Regs()), robot.id, robot.item, placed)
    {
      if placed {
        idReq := NoRobot;
      }
      if robot.item != Radar && robot.id == idRobotRadar && idReq == NoRobot {
        idRobotRadar := NoRobot;
      }
      if robot.item != Trap && robot.id == idRobotTrap {
        idRobotTrap := NoRobot;
      }
    }

    /**
     * The trap request: with the trap ready, nobody holding the trap mission
     * and the robot not holding the radar mission, the robot requests a trap
     * and the trap planner picks the spot to dig.
     */
    method TrapStage(b: Board, robot: Entity, a0: Action) returns (a: Action)
      requires support.Valid() && WellFormed(b)
      modifies this`idRobotTrap, this`posTrap, support`enemyDig
      ensures support.Valid()
      ensures var taken := WantsTrap(old(Regs()), robot.id, b.myTrapCooldown);
              && Regs() == AssignTrap(old(Regs()), robot.id, b.myTrapCooldown)
              && a == (if taken then Request(Trap) else a0)
              && (!taken ==> posTrap == old(posTrap) && support.enemyDig == old(support.enemyDig))
              && (taken ==> var cands := Candidates(b, support.myDig, old(support.enemyDig));
                            support.enemyDig == old(support.enemyDig) + cands && posTrap == MedianOf(cands))
    {
      a := a0;
      if b.myTrapCooldown == 0 && idRobotTrap == NoRobot && robot.id != idRobotRadar {
        a := Request(Trap);
        idRobotTrap := robot.id;
        posTrap := support.PlaceTrap(b);
      }
    }

    /**
     * One step of a live robot: the releases, the radar request, the trap
     * request, then its action: the work step when it holds no mission,
     * digging the radar target when it carries the radar, digging the trap
     * spot when it carries the trap and a spot is known, and otherwise the
     * request it made, if any.
     */
    method Live(b: Board, robot: Entity, low: bool) returns (a: Action)
      requires Valid() && WellFormed(b) && robot.id >= 0
      modifies this, support
      ensures Valid()
      ensures (State(), a) == LiveOf(b, robot, low, old(State()))
    {
      ghost var s0 := State();
      ghost var r := LiveOf(b, robot, low, s0);
      DeadIsNoDevice(b);
      a := RadarStage(b, robot, low);
      assert whereToDig == r.0.target && support.radPos == r.0.queue;
      LiveStepKeepsApart(s0.regs, robot.id, robot.item, s0.target in b.myRadarPos, b.myRadarCooldown,
                         b.myTrapCooldown, low, s0.target != Dead, whereToDig != Dead);
      a := TrapStage(b, robot, a);
      assert Regs() == r.0.regs && posTrap == r.0.posTrap && support.enemyDig == r.0.enemyDig;
      a := Act(b, robot, a);
    }

    /**
     * The action of a live robot once the registers are settled; `a0` is the
     * request made during the step, if any.
     */
    method Act(b: Board, robot: Entity, a0: Action) returns (a: Action)
      requires support.Valid() && WellFormed(b) && robot.id >= 0
      modifies support`myDig, support`alreadyVisited, support`storyRobotPos, support`coveragePos
      ensures support.Valid()
      ensures (RecordsOf(support), a) ==
                if idRobotRadar != robot.id && idRobotTrap != robot.id then WorkOf(b, robot, old(RecordsOf(support)))
                else if idRobotRadar == robot.id && robot.item == Radar then (old(RecordsOf(support)), Dig(whereToDig))
                else if idRobotTrap == robot.id && robot.item == Trap && posTrap.Some? then
                  (old(RecordsOf(support)), Dig(posTrap.value))
                else (old(RecordsOf(support)), a0)
    {
      a := a0;
      if idRobotRadar != robot.id && idRobotTrap != robot.id {
        a := Work(b, robot);
      } else if robot.id == idRobotRadar && robot.item == Radar {
        a := Dig(whereToDig);
      } else if robot.id == idRobotTrap && robot.item == Trap && posTrap.Some? {
        a := Dig(posTrap.value);
      }
    }

    /** One robot's step. */
    method StepRobot(b: Board, robot: Entity, low: bool) returns (a: Action)
      requires Valid() && WellFormed(b) && robot.id >= 0
      modifies this, support
      ensures Valid()
      ensures (State(), a) == StepOf(b, robot, low, old(State()))
    {
      if IsAlive(robot) {
        a := Live(b, robot, low);
      } else {
        DeadStepReleases(Regs(), robot.id, whereToDig != Dead);
        if robot.id == idRobotRadar {
          idRobotRadar := NoRobot;
        } else if robot.id == idRobotTrap {
          idRobotTrap := NoRobot;
        }
        a := Wait;
      }
    }

    /** Steps every robot of ours in order; `lows[k]` is robot k's coverage test. */
    method StepAll(b: Board, lows: seq<bool>) returns (actions: seq<Action>)
      requires Valid() && WellFormed(b) && |lows| == |b.myRobots|
      modifies this, support
      ensures Valid()
      ensures (State(), actions) == StepsOf(b, b.myRobots, lows, old(State()))
    {
      ghost var s0 := State();
      actions := [];
      var k := 0;
      while k < |b.myRobots|
        invariant 0 <= k <= |b.myRobots|
        invariant Valid()
        invariant (State(), actions) == StepsOf(b, b.myRobots[..k], lows[..k], s0)
      {
        var a := StepRobot(b, b.myRobots[k], lows[k]);
        StepsOfNext(b, b.myRobots, lows, s0, k);
        actions := actions + [a];
        k := k + 1;
      }
      assert b.myRobots[..k] == b.myRobots && lows[..k] == lows;
    }

    /**
     * One turn: the trap-spot estimate, the coverage of every radar of ours
     * marked (twice, as the turn loop repeats the marking), then every
     * robot's step. The grid gains exactly the footprints of the radars, the
     * state is the robots' steps taken in order from the estimate, and so
     * the missions stay apart and a destroyed robot waits.
     */
    method Turn(b: Board, lows: seq<bool>) returns (actions: seq<Action>)
      requires Valid() && WellFormed(b) && support.Fits(b) && |lows| == |b.myRobots|
      modifies this, support, support.coveredByRadar
      ensures Valid() && |actions| == |b.myRobots|
      ensures support.CoverGrid() == MarkedAll(old(support.CoverGrid()), b.myRadarPos)
      ensures (State(), actions) ==
                StepsOf(b, b.myRobots, lows,
                        old(State()).(posTrap := FirstSpotOf(b, old(support.myDig), old(support.alreadyVisited), TrapSpot, 1)))
      ensures AgentOk(State())
      ensures forall k :: 0 <= k < |actions| && !IsAlive(b.myRobots[k]) ==> actions[k] == Wait
    {
      ghost var g0 := support.CoverGrid();
      posTrap := support.Estimate(b);
      support.ConstructRadarBoard(b);
      support.ConstructRadarBoard(b);
      MarkedAllTwice(g0, b.myRadarPos);
      ghost var s1 := State();
      actions := StepAll(b, lows);
      StepsKeepOk(b, b.myRobots, lows, s1);
    }
  }
}
