/**
 * The mission registers of the turn loop: which robot holds the radar
 * mission, which the trap mission, and which robot last requested a radar.
 * Each register holds a robot id or NoRobot.
 *
 * One robot's step is a pure function of the registers and of what the turn
 * tells about that robot; the turn loop applies it to every robot in order.
 */
module Missions {
  import opened Geometry

  /** The "nobody" value of a register. */
  const NoRobot := -1

  datatype Registers = Registers(radar: int, trap: int, req: int)

  /**
   * The releases at the start of a live robot's step: the request register is
   * cleared once the radar target is occupied; the radar mission is dropped by
   * a holder that no longer carries a radar once the request is cleared; the
   * trap mission is dropped by a holder that no longer carries a trap.
   */
  function Release(m: Registers, id: int, item: EntityType, targetPlaced: bool): Registers
  {
    var req := if targetPlaced then NoRobot else m.req;
    var radar := if item != Radar && id == m.radar && req == NoRobot then NoRobot else m.radar;
    var trap := if item != Trap && id == m.trap then NoRobot else m.trap;
    Registers(radar, trap, req)
  }

  /**
   * Whether the robot asks for a radar: it made the pending request and the
   * target is still free, or the radar is ready, nobody holds the radar
   * mission, the robot does not hold the trap mission and the ore coverage is
   * low.
   */
  predicate WantsRadar(m: Registers, id: int, targetPlaced: bool, radarCooldown: int, low: bool)
  {
    (!targetPlaced && m.req == id) || (radarCooldown == 0 && m.radar == NoRobot && id != m.trap && low)
  }

  /** A radar request only takes effect when there is a target to place it on. */
  function AssignRadar(m: Registers, id: int, wants: bool, haveTarget: bool): Registers
  {
    if wants && haveTarget then Registers(id, m.trap, id) else m
  }

  /** Whether the robot takes the trap mission. */
  predicate WantsTrap(m: Registers, id: int, trapCooldown: int)
  {
    trapCooldown == 0 && m.trap == NoRobot && id != m.radar
  }

  function AssignTrap(m: Registers, id: int, trapCooldown: int): Registers
  {
    if WantsTrap(m, id, trapCooldown) then m.(trap := id) else m
  }

  /**
   * The registers after the releases and the radar request of a live robot.
   * `haveTarget` says whether the radar target, refreshed if it was
   * occupied, is a real cell.
   */
  function AfterRadar(m: Registers, id: int, item: EntityType, targetPlaced: bool,
                      radarCooldown: int, low: bool, haveTarget: bool): Registers
  {
    var r := Release(m, id, item, targetPlaced);
    AssignRadar(r, id, WantsRadar(r, id, targetPlaced, radarCooldown, low), haveTarget)
  }

  /** Whether the robot's step requests a radar. */
  predicate RadarTaken(m: Registers, id: int, item: EntityType, targetPlaced: bool,
                       radarCooldown: int, low: bool, haveTarget: bool)
  {
    WantsRadar(Release(m, id, item, targetPlaced), id, targetPlaced, radarCooldown, low) && haveTarget
  }

  /** Whether the robot's step requests a trap. */
  predicate TrapTaken(m: Registers, id: int, item: EntityType, targetPlaced: bool,
                      radarCooldown: int, trapCooldown: int, low: bool, haveTarget: bool)
  {
    WantsTrap(AfterRadar(m, id, item, targetPlaced, radarCooldown, low, haveTarget), id, trapCooldown)
  }

  /** The registers after the step of a live robot. */
  function LiveStep(m: Registers, id: int, item: EntityType, targetPlaced: bool,
                    radarCooldown: int, trapCooldown: int, low: bool, haveTarget: bool): Registers
  {
    AssignTrap(AfterRadar(m, id, item, targetPlaced, radarCooldown, low, haveTarget), id, trapCooldown)
  }

  /**
   * A step requests at most one device, and a request leaves the robot
   * holding the matching mission.
   */
  lemma OneRequestPerStep(m: Registers, id: int, item: EntityType, targetPlaced: bool,
                          radarCooldown: int, trapCooldown: int, low: bool, haveTarget: bool)
    ensures var m' := LiveStep(m, id, item, targetPlaced, radarCooldown, trapCooldown, low, haveTarget);
            && !(RadarTaken(m, id, item, targetPlaced, radarCooldown, low, haveTarget)
                 && TrapTaken(m, id, item, targetPlaced, radarCooldown, trapCooldown, low, haveTarget))
            && (RadarTaken(m, id, item, targetPlaced, radarCooldown, low, haveTarget) ==> m'.radar == id && m'.req == id)
            && (TrapTaken(m, id, item, targetPlaced, radarCooldown, trapCooldown, low, haveTarget) ==> m'.trap == id)
  {
  }

  /** The registers after the step of a destroyed robot. */
  function DeadStep(m: Registers, id: int): Registers
  {
    if id == m.radar then m.(radar := NoRobot)
    else if id == m.trap then m.(trap := NoRobot)
    else m
  }

  /**
   * The invariant of the registers: the trap holder never holds the radar
   * mission, and never is the pending radar requester while there is a
   * radar target.
   */
  predicate Apart(m: Registers, haveTarget: bool)
  {
    m.trap == NoRobot || (m.trap != m.radar && (m.trap != m.req || !haveTarget))
  }

  /**
   * A live robot's step keeps the invariant, and no live robot ends its step
   * holding both missions. The target only changes when it was occupied, and
   * a missing target (the sentinel) is never occupied.
   */
  lemma LiveStepKeepsApart(m: Registers, id: int, item: EntityType, targetPlaced: bool,
                           radarCooldown: int, trapCooldown: int, low: bool, oldHave: bool, newHave: bool)
    requires id != NoRobot
    requires Apart(m, oldHave)
    requires !targetPlaced ==> newHave == oldHave
    requires !oldHave ==> !targetPlaced
    ensures Apart(LiveStep(m, id, item, targetPlaced, radarCooldown, trapCooldown, low, newHave), newHave)
    ensures var m' := LiveStep(m, id, item, targetPlaced, radarCooldown, trapCooldown, low, newHave);
            !(m'.radar == id && m'.trap == id)
  {
    var r := Release(m, id, item, targetPlaced);
    assert Apart(r, newHave);
    var a := AssignRadar(r, id, WantsRadar(r, id, targetPlaced, radarCooldown, low), newHave);
    assert Apart(a, newHave);
    assert a.req == id && newHave ==> a.radar == id;
  }

  /**
   * A destroyed robot's step keeps the invariant and leaves the robot with
   * no mission.
   */
  lemma DeadStepReleases(m: Registers, id: int, haveTarget: bool)
    requires id != NoRobot && Apart(m, haveTarget)
    ensures Apart(DeadStep(m, id), haveTarget)
    ensures DeadStep(m, id).radar != id && DeadStep(m, id).trap != id
    ensures DeadStep(m, id).req == m.req
  {
  }

  /**
   * A trap holder that no longer carries a trap loses the mission, and gets
   * it straight back only when the trap is ready again.
   */
  lemma TrapReleasedWhenNotCarried(m: Registers, id: int, item: EntityType, targetPlaced: bool,
                                   radarCooldown: int, trapCooldown: int, low: bool, haveTarget: bool)
    requires id != NoRobot && item != Trap && m.trap == id
    ensures var m' := LiveStep(m, id, item, targetPlaced, radarCooldown, trapCooldown, low, haveTarget);
            m'.trap == id <==> trapCooldown == 0 && m'.radar != id
  {
  }

  /**
   * A radar holder that no longer carries a radar, once the request is
   * cleared, loses the mission, and gets it straight back only through a new
   * request: the radar is ready, coverage is low and there is a target.
   */
  lemma RadarReleasedWhenNotCarried(m: Registers, id: int, item: EntityType, targetPlaced: bool,
                                    radarCooldown: int, trapCooldown: int, low: bool, haveTarget: bool)
    requires id != NoRobot && item != Radar && m.radar == id && (targetPlaced || m.req == NoRobot)
    requires Apart(m, haveTarget)
    ensures var m' := LiveStep(m, id, item, targetPlaced, radarCooldown, trapCooldown, low, haveTarget);
            m'.radar == id <==> radarCooldown == 0 && low && haveTarget
  {
  }
}
