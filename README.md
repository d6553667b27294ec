# Crystal Rush agent: the planning core in Dafny

Crystal Rush is a grid-mining game. Each player steers five robots over a 30 x 15 grid. The robots dig for Amadeusium ore and carry it back to column 0. They can also request radars, which reveal the ore around them, and traps, which destroy robots that dig next to them. This project models the planning core of one agent for that game, `Crystal-Rush/src/Player.java`, and proves what the planner promises.

The model consists of:

- **The turn snapshot (`Boards`).** The board is a datatype holding the cell grid, our radars and traps with their cooldowns, and both teams' robots. Bounds are checked by `CellExist`, and `WellFormed` lists what the judge guarantees about a snapshot.
- **The radar footprint and the sweeps (`Footprint`).**
  - A radar marks the cells less than 4 rows away and within Manhattan distance 4, so the two vertical tips are not covered.
  - The ore counter and the visibility counter sweep four "fans" around a cell, counting some cells twice.
  - Each counter is specified as a sum over the fan, and the sum's meaning is proved: its bound, when it is zero, and the double-counted centre.
- **The planner (`Planning.Support`).** This is a class with the coverage grid and the forecast grid as `array2` fields. The waypoint queue and the dig records are fields of type `seq` and `map`.
  - Marking a radar writes the coverage array in place, and is proved equal to a grid function (`Marked`).
  - `CountOre` and `CalculateVisible` are loops proved against the fan sums.
  - `BestCoord` returns the first coordinate with the most ore.
  - `ThinkRadar2` takes radar targets from the waypoint queue.
  - `PlaceTrap` picks the discrete 1-median of the opponent holes.
  - `Estimate` finds the first trap-worthy cell.
  - `EstimateFromEnemies` heats the forecast grid around the opponent robots, then scans it for the hottest cell, zeroing each running maximum as it goes.
- **Specifications the planner is proved against.**
  - Trap candidates and the median are in `TrapPlanning`.
  - The dig criteria and dig targets are in `Digging`.
  - The heat map and its scan are in `Forecast`.
  - The radar-spacing query is in `RadarSpacing`.
- **The turn loop (`Orchestration.Player`).** The mission registers (`idRobotRadar`, `idRobotTrap`, `idReq`) and the radar target are fields. A turn:
  1. Estimates the trap spot.
  2. Marks the coverage of every radar.
  3. Steps each robot of ours. A step releases missions, requests a radar or a trap, and then chooses an action: dig the radar target, dig the trap spot, carry ore home, or dig the robot's ore target.

  One live robot's effect on the registers is the pure function `Missions.LiveStep`. The invariant `Missions.Apart` keeps the trap mission and the radar mission on different robots.

  One robot's effect on the whole agent state (registers, radar target, trap spot, dig records, opponent-hole record, waypoint queue) is the ghost function `Orchestration.StepOf`. A turn's robots are folded through it in order by `StepsOf`. The step methods and `Turn` are proved equal to these functions, and lemmas prove what the functions keep.

Inputs the program reads from the judge become parameters:

- The board is a snapshot value.
- The floating-point coverage test that gates radar requests is one boolean per robot (`lows`).
- The actions are returned as a sequence instead of being printed.

Behaviour of the code that is easy to miss, and that the model keeps:

- A radar's coverage leaves out the two vertical tips at distance 4 (Player.java:471-483).
- `constructRadarBoard` never clears the grid, so cells covered in earlier turns stay covered (Player.java:464-469).
- A robot's dig target does not exclude cells other robots were sent to in the same turn (Player.java:315-345).
- `thinkRadar2` hands out the head of a non-empty queue without checking whether a radar already stands there (Player.java:829-844).
- `placeTrap` ranks only the candidates not already in the opponent-hole record (Player.java:889-924).
- The scan in `estimate(enemy)` zeroes every running maximum it meets, not only the cell it returns (Player.java:789-797).

## Model

| member | source | states |
|---|---|---|
| Geometry.Distance | Crystal-Rush/src/Player.java:29-31 | Manhattan distance is 0 exactly for equal coordinates and bounds each axis difference |
| Geometry.DistanceTriangle | Crystal-Rush/src/Player.java:29-31 | Manhattan distance satisfies the triangle inequality |
| Geometry.IsAlive | Crystal-Rush/src/Player.java:152-154 | a unit is alive unless it stands on the sentinel (-1,-1), so a dead unit lies off the grid |
| Boards.CellExist | Crystal-Rush/src/Player.java:218-220 | a cell that passes the bounds check is never the dead sentinel |
| Boards.DeadIsNoDevice | Crystal-Rush/src/Player.java:218-220 | no placed radar or trap stands on the sentinel, so the sentinel target never counts as occupied |
| Footprint.FootprintIsVerticalFans | Crystal-Rush/src/Player.java:536-551 | the radar footprint is exactly the union of the up and down sweep regions |
| Footprint.InFanIsFanCell | Crystal-Rush/src/Player.java:509-532 | every cell of a fan's region is visited by the sweep's (i, j) loops |
| Footprint.FanZeroIff | Crystal-Rush/src/Player.java:509-532 | a fan counter is zero exactly when no cell of its region is hit |
| Footprint.FanBound | Crystal-Rush/src/Player.java:509-532 | a fan makes 28 probes, so a counter never exceeds 28 |
| Footprint.FanCountsCentreTwice | Crystal-Rush/src/Player.java:509-532 | the j = 0 probe is made twice, so the centre counts at least twice in every fan |
| Footprint.OreCountMeaning | Crystal-Rush/src/Player.java:507-534 | each ore counter is at most 28 and is zero exactly when no on-grid cell of its fan holds ore |
| Footprint.VisibleCountMeaning | Crystal-Rush/src/Player.java:536-551 | the visibility count is at most 56, is zero exactly when no footprint cell is covered, and counts the centre four times |
| Footprint.MarkedAllMeaning | Crystal-Rush/src/Player.java:464-484 | after marking radars, a cell is covered exactly when it was covered before or lies in some radar's footprint, so marking never clears a cell |
| Footprint.MarkedIdempotent | Crystal-Rush/src/Player.java:471-484 | marking the same radar twice gives the grid that marking it once gives |
| Footprint.MarkedCommutes | Crystal-Rush/src/Player.java:471-484 | the order in which two radars are marked does not matter |
| Footprint.MarkedAllTwice | Crystal-Rush/src/Player.java:255-260 | the turn loop's second marking pass over the radars changes nothing |
| Forecast.Contribution | Crystal-Rush/src/Player.java:766-788 | one robot adds 3 to its own cell, 1 to each king-neighbour and nothing elsewhere, and a dead robot adds nothing |
| Forecast.HeatMeaning | Crystal-Rush/src/Player.java:766-788 | a cell gets no heat exactly when no live robot stands on it or next to it, and at most 3 per robot |
| Forecast.HeatOfOccupiedCell | Crystal-Rush/src/Player.java:769-770 | a live robot's own cell is at least 3 hot |
| Forecast.HeatSnoc | Crystal-Rush/src/Player.java:766-788 | heating one more robot adds exactly its contribution |
| Forecast.GridMaxBounds | Crystal-Rush/src/Player.java:789-797 | the scan's maximum bounds every scanned value and is 0 or one of them |
| Forecast.RecordAtMaxIsHottest | Crystal-Rush/src/Player.java:789-799 | the last running maximum the scan meets is the first cell holding the largest value |
| Forecast.NoHottestIff | Crystal-Rush/src/Player.java:789-799 | there is no answer exactly when no scanned value is positive |
| Forecast.HottestUnique | Crystal-Rush/src/Player.java:789-799 | the hottest cell is unique |
| TrapPlanning.CandidatesExact | Crystal-Rush/src/Player.java:854-862 | the candidate scan finds exactly the holes in columns 1 and up that we did not dig and that hold no radar or trap of ours, in column-major order and without repetition |
| TrapPlanning.FoldKeepsNoDup | Crystal-Rush/src/Player.java:889-898 | adding the newly seen candidates to the opponent-hole record never creates a repetition |
| TrapPlanning.FirstMedian | Crystal-Rush/src/Player.java:863-887 | the result is None exactly when there is no candidate; otherwise it has the least total distance to the other candidates, and every earlier candidate has a strictly larger total; it is the spot MedianOf picks |
| TrapPlanning.FirstMedianExists | Crystal-Rush/src/Player.java:863-887 | every non-empty candidate list has a first median |
| TrapPlanning.MedianOf | Crystal-Rush/src/Player.java:863-887 | the ranking's answer as a function of the candidates: None exactly when there is no candidate, otherwise the first median |
| TrapPlanning.MedianOfIs | Crystal-Rush/src/Player.java:881-884 | any first median is the one MedianOf picks |
| TrapPlanning.FirstMedianUnique | Crystal-Rush/src/Player.java:881-884 | the strict comparison makes the first median unique |
| TrapPlanning.ThreeHolesScenario | Crystal-Rush/src/Player.java:863-887 | for holes at (x,y), (x,y+2) and (x+2,y), the first is the median, with total distance 4 |
| Digging.CandidateIffNotDiggable | Crystal-Rush/src/Player.java:846-850 | a trap candidate is exactly a hole we may not dig that holds no device of ours and was not seen before |
| Digging.DiggableGrows | Crystal-Rush/src/Player.java:930-933 | recording a dig makes exactly that cell newly diggable |
| Digging.FreshIsAnyUnvisited | Crystal-Rush/src/Player.java:314-345 | the second dig scan drops only the visited test of the first |
| Digging.FirstSpotUnique | Crystal-Rush/src/Player.java:754-763 | the first matching cell in column-major order is unique |
| Digging.FirstSpotFrom | Crystal-Rush/src/Player.java:316-331 | when some cell meets the criterion, a first one in column-major order exists |
| Digging.FirstSpotOf | Crystal-Rush/src/Player.java:316-331 | a scan's answer as a function of the board and the records: None exactly when no cell meets the criterion, otherwise the first cell that does |
| Digging.FirstSpotOfIs | Crystal-Rush/src/Player.java:316-331 | any first spot is the one FirstSpotOf picks |
| Digging.FreshFirstBeatsAny | Crystal-Rush/src/Player.java:314-345 | every ore cell the first scan passes over before its answer was visited already |
| Digging.BlindDig | Crystal-Rush/src/Player.java:350-354 | with no radar, the probe lies in column 5, in rows 5 to 14 |
| Digging.DigTargetUnique | Crystal-Rush/src/Player.java:312-355 | the dig target is determined by the board and the dig records |
| Digging.DigTargetOf | Crystal-Rush/src/Player.java:312-355 | the dig target as a function of the board and the dig records meets IsDigTarget: the first fresh ore cell, else the first ore cell, else none; the blind probe with no radar placed |
| Digging.DigTargetMeaning | Crystal-Rush/src/Player.java:312-348 | with a radar placed, a target is an on-grid known ore cell, free of our traps, that we may dig; there is none exactly when no such cell exists |
| RadarSpacing.RingMeaning | Crystal-Rush/src/Player.java:804-812 | the intended probes of step i find exactly the radars on one of the eight rays, i king steps out |
| RadarSpacing.RingAsWrittenMeaning | Crystal-Rush/src/Player.java:804-812 | the probes as written find the cell right east of c and the radars i steps out off the eastward ray |
| RadarSpacing.ProximityMeaning | Crystal-Rush/src/Player.java:802-814 | the intended query holds exactly when a radar lies on one of the eight rays from c, fewer than range steps out |
| RadarSpacing.ProximityAsWrittenMeaning | Crystal-Rush/src/Player.java:802-814 | the query as written holds exactly when a radar lies right east of c or on one of the seven other rays within range |
| RadarSpacing.ProximityAgreesOffEastRay | Crystal-Rush/src/Player.java:802-814 | the two versions agree when no radar lies on the eastward ray beyond the first step |
| RadarSpacing.EastRadarMissed | Crystal-Rush/src/Player.java:805 | a radar two cells east of c is missed by the query as written with range 3 |
| Missions.LiveStepKeepsApart | Crystal-Rush/src/Player.java:266-303 | a live robot's step keeps the trap mission and the radar mission on different robots, and no robot ends its step holding both |
| Missions.OneRequestPerStep | Crystal-Rush/src/Player.java:285-303 | a step requests at most one device, and a request leaves the robot holding that mission |
| Missions.DeadStepReleases | Crystal-Rush/src/Player.java:378-381 | a destroyed robot's step leaves it with no mission, keeps the invariant, and leaves the pending request alone |
| Missions.TrapReleasedWhenNotCarried | Crystal-Rush/src/Player.java:282-283 | a trap holder that no longer carries a trap loses the mission, and gets it back only when the trap is ready and it holds no radar mission |
| Missions.RadarReleasedWhenNotCarried | Crystal-Rush/src/Player.java:269-298 | a radar holder without a radar, with the request cleared, loses the mission, and gets it back only through a new request: the radar is ready, coverage is low and there is a target |
| Planning.WaypointsDistinct | Crystal-Rush/src/Player.java:434-461 | the seven waypoints are distinct and none is the sentinel |
| Planning.HeatedGrid | Crystal-Rush/src/Player.java:766-788 | heating keeps the grid's dimensions |
| Planning.TotalsAt | Crystal-Rush/src/Player.java:819-821 | the total compared for each coordinate is the sum of its four ore counters |
| Planning.FreeWaypointFrom | Crystal-Rush/src/Player.java:831-838 | the first waypoint from index i on that no radar of ours stands on; the sentinel exactly when every one of them is taken |
| Planning.NextTarget | Crystal-Rush/src/Player.java:829-844 | a non-empty queue gives its head and the rest; an empty queue gives the first free waypoint, or the sentinel exactly when every waypoint holds a radar, and stays empty; targets and queue entries stay waypoints |
| Planning.Support.constructor | Crystal-Rush/src/Player.java:425-462 | a fresh planner covers nothing, has no heat, queues all seven waypoints and has empty dig records |
| Planning.Support.UpdateRadarBoard | Crystal-Rush/src/Player.java:471-484 | the coverage grid afterwards is the old grid with exactly the radar's footprint set |
| Planning.Support.MarkRow | Crystal-Rush/src/Player.java:473-483 | one row of the marking sets exactly the on-grid cells i rows away within Manhattan distance 4 |
| Planning.Support.ConstructRadarBoard | Crystal-Rush/src/Player.java:464-469 | the grid afterwards is the old grid with every radar's footprint set, in order |
| Planning.Support.CalculateVisible | Crystal-Rush/src/Player.java:536-551 | the count is the number of covered cells the up and down sweeps meet, counted as the sweep counts them |
| Planning.Support.CountOre | Crystal-Rush/src/Player.java:507-534 | the four counters are the ore-cell counts of the four fans |
| Planning.Support.VerticalOreSweep | Crystal-Rush/src/Player.java:509-520 | the up and down counters are the ore-cell counts of the up and down fans |
| Planning.Support.HorizontalOreSweep | Crystal-Rush/src/Player.java:521-532 | the right and left counters are the ore-cell counts of the right and left fans |
| Planning.Support.BestCoord | Crystal-Rush/src/Player.java:816-827 | the result is None exactly for no coordinates; otherwise it is the first coordinate with the largest ore total |
| Planning.Support.Outranks | Crystal-Rush/src/Player.java:819-822 | the difference test holds exactly when the candidate's ore total strictly exceeds the current best's |
| Planning.Support.ThinkRadar2 | Crystal-Rush/src/Player.java:829-844 | the result is a waypoint or the sentinel; a non-empty queue gives up exactly its head; an empty queue yields the first waypoint without a radar; the sentinel comes exactly when the queue is empty and every waypoint holds a radar; the result and the new queue are NextTarget of the old queue |
| Planning.Support.CheckHole | Crystal-Rush/src/Player.java:846-850 | a cell passes exactly when we dug it or it has no hole |
| Planning.Support.AddHole | Crystal-Rush/src/Player.java:930-933 | afterwards the dig record contains the cell, still has no repetition, and is otherwise unchanged |
| Planning.Support.AddPos | Crystal-Rush/src/Player.java:935-937 | the robot's recorded position is set and no other entry changes |
| Planning.Support.AddPosToDig | Crystal-Rush/src/Player.java:951-953 | the robot's cell to dig is set and no other entry changes |
| Planning.Support.AddVisited | Crystal-Rush/src/Player.java:311 | the cell is appended to the visited record |
| Planning.Support.FirstSpot | Crystal-Rush/src/Player.java:316-331 | the result is the first cell in column-major order that meets the criterion, or None when no cell does; it equals FirstSpotOf |
| Planning.Support.Estimate | Crystal-Rush/src/Player.java:754-763 | the trap spot is the first cell of columns 1 and up with more than one ore, no radar or trap of ours, that passes the dig-history test, or None when there is none; it equals FirstSpotOf for that criterion |
| Planning.Support.CollectCandidates | Crystal-Rush/src/Player.java:854-862 | the collected list is the specification's candidate list |
| Planning.Support.PlaceTrap | Crystal-Rush/src/Player.java:852-928 | the opponent-hole record only grows, by exactly the newly seen candidates, and stays free of repetitions; the result is None exactly when there is no new candidate, and otherwise the first median of the new candidates, MedianOf of them |
| Planning.Support.AddHeat | Crystal-Rush/src/Player.java:767-787 | every cell gains exactly the robot's contribution |
| Planning.Support.Warm | Crystal-Rush/src/Player.java:766-788 | the grid afterwards is the old grid plus the heat of all the robots |
| Planning.Support.TakeHottest | Crystal-Rush/src/Player.java:789-799 | the result is None exactly when no scanned value is positive; otherwise it is the hottest cell, now 0; exactly the running maxima are zeroed and every other cell is unchanged |
| Planning.Support.EstimateFromEnemies | Crystal-Rush/src/Player.java:765-800 | the answer is the hottest cell of the heated grid, or None when no cell is heated; every running maximum of the scan is zeroed, that cell included, and every other cell keeps its heat |
| Orchestration.Player.constructor | Crystal-Rush/src/Player.java:240-249 | no mission is held, robot 0 is the pending requester, the radar target is the first waypoint and the queue holds the six others; nothing is covered, no cell is heated, and the dig records and the opponent-hole record are empty |
| Orchestration.Player.DigTarget | Crystal-Rush/src/Player.java:312-355 | the target is DigTargetOf: the first fresh ore cell, else the first ore cell, else none; with no radar it is the blind probe |
| Orchestration.Player.Work | Crystal-Rush/src/Player.java:306-356 | the records and the action are WorkOf the old records: a robot carrying ore heads for column 0 of its row, its dig cell becomes ours (once) and visited; any other robot digs DigTargetOf, which is recorded as its position and its cell to dig, or waits when there is none |
| Orchestration.Player.ReleaseStage | Crystal-Rush/src/Player.java:266-283 | the registers afterwards are the specification's releases |
| Orchestration.Player.RadarStage | Crystal-Rush/src/Player.java:266-298 | the registers follow the releases and the radar request; when the robot asks for a radar and its target is occupied, the target and the queue become NextTarget of the old queue (its head, else the first free waypoint, else the sentinel); otherwise both stay; a radar is requested exactly when wanted and there is a target |
| Orchestration.Player.TrapStage | Crystal-Rush/src/Player.java:301-303 | a trap is requested exactly when the trap is ready, nobody holds the trap mission and the robot does not hold the radar mission; the opponent-hole record then grows by the new candidates and the trap spot is MedianOf them; otherwise both stay |
| Orchestration.Player.Live | Crystal-Rush/src/Player.java:264-374 | the new state and the action are LiveOf the old state: releases, radar request with the target refreshed from the queue, trap request with the trap planner, then the action; the invariant holds |
| Orchestration.LiveOfMeaning | Crystal-Rush/src/Player.java:264-374 | a live robot's step keeps the missions apart and the target and queue on waypoints, never leaves the robot holding both missions, keeps an unoccupied target; a robot without a mission does its work step, others leave the records alone; a radar request leaves the robot holding the radar mission with a real target, a trap request the trap mission with the record grown by the new candidates and the trap spot their first median |
| Orchestration.Player.Act | Crystal-Rush/src/Player.java:306-373 | once the registers are settled: the work step for a robot without a mission, the radar target dug by the radar holder carrying a radar, the trap spot dug by the trap holder carrying a trap, else the request made; only the work step touches the records |
| Orchestration.Player.StepRobot | Crystal-Rush/src/Player.java:262-381 | the new state and the action are StepOf the old state: a live robot's LiveOf; a destroyed robot gives up its mission, waits, and changes nothing else |
| Orchestration.Player.StepAll | Crystal-Rush/src/Player.java:262-381 | the final state and the actions are StepsOf: the robots' steps taken in order from the old state, one action per robot |
| Orchestration.StepsKeepOk | Crystal-Rush/src/Player.java:262-381 | the robots' steps keep the missions apart and the target and queue on waypoints, and a destroyed robot's action is Wait |
| Orchestration.Player.Turn | Crystal-Rush/src/Player.java:253-381 | the coverage grid gains exactly the radars' footprints; the state and the actions are the robots' steps in order from the old state with the trap spot set to the estimate; the missions end apart and dead robots wait |

## Left out

- Input parsing, the `Board.update` refresh and all printing are left out. They are stream I/O. The snapshot is a parameter, and the actions are returned in order.
- The `while (true)` turn loop is left out because it never terminates. `Turn` models one iteration of it.
- The floating-point ratio that gates radar requests is not computed. That ratio compares the ore under coverage now with the ore under coverage at the last release. Each robot's step takes the outcome as a boolean instead.
- When a robot comes back with ore and no position or dig cell is recorded for it, the code adds a null entry to our dig record or to the visited list. The model adds nothing in that case.
- `findPos`, `findPosRec`, `thinkRadar`, `findHoles` and `calculateBestHole` are left out. They are never called from the turn loop.
- `proximity` is modelled, both as written and as intended, for the finding at Player.java:805. Nothing in the turn loop calls it: its only caller, `findPosRec`, is left out.
- `Action.toString` and the `WAIT` fallback text are not modelled. A robot without an action gets `Wait`.
- `Support.CountOre` is modelled as summing each fan's probes row by row. The code updates the up and down counters together in one loop, and the right and left counters in another. The counts are the same.
- The remainder in the blind probe `5 + id % 10` uses Dafny's `%`. Robot ids are not negative, and for those the Java and Dafny remainders agree.

## Findings

| source | as written | input that shows it | evidently intended | confidence | as-written member | corrected member |
|---|---|---|---|---|---|---|
| Crystal-Rush/src/Player.java:805 | the eastward probe of `proximity` uses the constant offset 1 instead of the step i, so a radar due east more than one step away is never seen | our only radar at (7,5), query around (5,5) with range 3: the query as written is false | every step i probes (c.x + i, c.y), as the other seven rays do, so the query is true | not executed | RadarSpacing.EastRadarMissed | RadarSpacing.ProximityMeaning |
