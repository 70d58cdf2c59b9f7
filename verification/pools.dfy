/**
 The two fixed-size entity pools: moving their active slots each frame and
 spawning into the first inactive slot (car.c lines 210-277). A pool is a
 sequence of slots; the `count` argument of the C functions is always the
 pool's length.
 */
module Pools {
  import opened Wrappers
  import opened Config
  import opened Entities
  import opened Lanes

  // ---------------------------------------------------------------------
  // First-fit slot search, shared by both pools
  // ---------------------------------------------------------------------

  /** Slot `i` is the lowest-indexed inactive slot. */
  predicate IsFirstFree(active: seq<bool>, i: int) {
    0 <= i < |active| && !active[i] && forall j :: 0 <= j < i ==> active[j]
  }

  predicate AllActive(active: seq<bool>) {
    forall j :: 0 <= j < |active| ==> active[j]
  }

  /** The scan from slot `i` up: the first inactive slot at or after `i`. */
  function FirstFreeFrom(active: seq<bool>, i: nat): (r: Option<nat>)
    requires i <= |active|
    ensures r.None? <==> forall j :: i <= j < |active| ==> active[j]
    ensures r.Some? ==> i <= r.value < |active| && !active[r.value]
    ensures r.Some? ==> forall j :: i <= j < r.value ==> active[j]
    decreases |active| - i
  {
    if i == |active| then None
    else if !active[i] then Some(i)
    else FirstFreeFrom(active, i + 1)
  }

  /** The lowest-indexed inactive slot, or None when every slot is in use. */
  function FirstFree(active: seq<bool>): (r: Option<nat>)
    ensures r.None? <==> AllActive(active)
    ensures r.Some? ==> IsFirstFree(active, r.value)
  {
    FirstFreeFrom(active, 0)
  }

  // ---------------------------------------------------------------------
  // Obstacles
  // ---------------------------------------------------------------------

  function ObstacleFlags(obs: seq<Obstacle>): seq<bool> {
    seq(|obs|, i requires 0 <= i < |obs| => obs[i].active)
  }

  /** Where an active obstacle can be: in a lane of the road, aligned with
      it, between its spawn row and the bottom of the screen. */
  predicate ObstacleInBounds(o: Obstacle) {
    && ValidLane(o.lane)
    && o.x == GetLaneX(o.lane)
    && -CarSize <= o.y <= ScreenHeight
  }

  predicate ObstaclesInBounds(obs: seq<Obstacle>) {
    forall i :: 0 <= i < |obs| && obs[i].active ==> ObstacleInBounds(obs[i])
  }

  /** One slot of MoveObstacles. */
  function MoveObstacle(o: Obstacle, speed: int): Obstacle {
    if !o.active then o
    else
      var y := o.y + speed;
      o.(y := y, active := !(y > ScreenHeight))
  }

  /** Every active obstacle falls by `speed` in its own column; one that is
      then below the screen is retired. Inactive slots stay as they are
      and are never revived. */
  function MoveObstacles(obs: seq<Obstacle>, speed: int): (r: seq<Obstacle>)
    ensures |r| == |obs|
    ensures forall i :: 0 <= i < |obs| && !obs[i].active ==> r[i] == obs[i]
    ensures forall i :: 0 <= i < |obs| && obs[i].active ==>
              && r[i].y == obs[i].y + speed
              && r[i].x == obs[i].x
              && r[i].lane == obs[i].lane
              && (r[i].active <==> r[i].y <= ScreenHeight)
    ensures forall i :: 0 <= i < |obs| && r[i].active ==> obs[i].active
    ensures 0 <= speed && ObstaclesInBounds(obs) ==> ObstaclesInBounds(r)
  {
    seq(|obs|, i requires 0 <= i < |obs| => MoveObstacle(obs[i], speed))
  }

  /** A newly spawned obstacle: lane from the roll, just above the screen. */
  function SpawnedObstacle(laneRoll: nat): (o: Obstacle)
    ensures o.active && ObstacleInBounds(o)
    ensures o.lane == laneRoll % LaneCount && o.y == -CarSize
  {
    var lane := laneRoll % LaneCount;
    Obstacle(GetLaneX(lane), -CarSize, lane, true)
  }

  /** First-fit spawn: the lowest inactive slot receives the new obstacle
      and nothing else changes; a full pool is left untouched. */
  function CreateObstacle(obs: seq<Obstacle>, laneRoll: nat): (r: seq<Obstacle>)
    ensures |r| == |obs|
    ensures AllActive(ObstacleFlags(obs)) ==> r == obs
    ensures forall i :: IsFirstFree(ObstacleFlags(obs), i) ==>
              r == obs[i := SpawnedObstacle(laneRoll)]
    ensures ObstaclesInBounds(obs) ==> ObstaclesInBounds(r)
  {
    match FirstFree(ObstacleFlags(obs))
    case None => obs
    case Some(i) =>
      assert forall k :: IsFirstFree(ObstacleFlags(obs), k) ==> k == i;
      obs[i := SpawnedObstacle(laneRoll)]
  }

  /** A slot retired by MoveObstacles is free again: the next spawn fills
      it or an earlier free slot, so the pool does not stay unchanged. */
  lemma RetiredObstacleSlotIsReused(obs: seq<Obstacle>, speed: int, laneRoll: nat, i: int)
    requires 0 <= i < |obs| && obs[i].active && obs[i].y + speed > ScreenHeight
    ensures exists k :: 0 <= k <= i && IsFirstFree(ObstacleFlags(MoveObstacles(obs, speed)), k)
    ensures CreateObstacle(MoveObstacles(obs, speed), laneRoll) != MoveObstacles(obs, speed)
  {
    var moved := MoveObstacles(obs, speed);
    var flags := ObstacleFlags(moved);
    assert !flags[i];
    var f := FirstFree(flags);
    assert f.Some?;
    var k := f.value;
    assert IsFirstFree(flags, k);
    assert k <= i;
    var r := CreateObstacle(moved, laneRoll);
    assert r[k].active && !moved[k].active;
  }

  // ---------------------------------------------------------------------
  // Pedestrians
  // ---------------------------------------------------------------------

  function PedestrianFlags(peds: seq<Pedestrian>): seq<bool> {
    seq(|peds|, i requires 0 <= i < |peds| => peds[i].active)
  }

  /** Where an active pedestrian can be: walking one way or the other, in
      the spawn band of rows, and on screen. */
  predicate PedestrianInBounds(p: Pedestrian) {
    && ValidLane(p.lane)
    && (p.direction == 1 || p.direction == -1)
    && ScreenHeight - 299 <= p.y <= ScreenHeight - 100
    && 0 <= p.x <= ScreenWidth
    && (!p.crossing ==> IsSpawnColumn(p.x))
  }

  /** The two columns a pedestrian appears at: just left of the road and
      just right of it. */
  predicate IsSpawnColumn(x: int) {
    x == RoadX - 25 || x == RoadX + RoadWidth + 5
  }

  predicate PedestriansInBounds(peds: seq<Pedestrian>) {
    forall i :: 0 <= i < |peds| && peds[i].active ==> PedestrianInBounds(peds[i])
  }

  /** One slot of MovePedestrians. */
  function MovePedestrian(p: Pedestrian): Pedestrian {
    if p.active && p.crossing then
      var x := p.x + p.direction * PedestrianStep;
      p.(x := x, active := !(x < 0 || x > ScreenWidth))
    else p
  }

  /** Only active crossing pedestrians move, two pixels in their direction;
      one that leaves the screen sideways is retired. */
  function MovePedestrians(peds: seq<Pedestrian>): (r: seq<Pedestrian>)
    ensures |r| == |peds|
    ensures forall i :: 0 <= i < |peds| && !(peds[i].active && peds[i].crossing) ==> r[i] == peds[i]
    ensures forall i :: 0 <= i < |peds| && peds[i].active && peds[i].crossing ==>
              && r[i] == peds[i].(x := r[i].x, active := r[i].active)
              && r[i].x == peds[i].x + 2 * peds[i].direction
              && (r[i].active <==> 0 <= r[i].x <= ScreenWidth)
    ensures forall i :: 0 <= i < |peds| && r[i].active ==> peds[i].active
    ensures PedestriansInBounds(peds) ==> PedestriansInBounds(r)
  {
    seq(|peds|, i requires 0 <= i < |peds| => MovePedestrian(peds[i]))
  }

  /** A newly spawned pedestrian: it stands just off the road on the side
      chosen by `sideRoll`, facing the road, in a row chosen by `yRoll`,
      and walks only when `crossingRoll % 100 < 30`. The C code first sets
      x from the lane and then overwrites it with the side position; only
      the final value is kept here. */
  function SpawnedPedestrian(laneRoll: nat, sideRoll: nat, yRoll: nat, crossingRoll: nat): (p: Pedestrian)
    ensures p.active && PedestrianInBounds(p)
    ensures p.lane == laneRoll % LaneCount
    ensures || (p.x == RoadX - 25 && p.direction == 1)
            || (p.x == RoadX + RoadWidth + 5 && p.direction == -1)
    ensures p.direction == 1 ==> p.x + PedestrianSize <= RoadX
    ensures p.direction == -1 ==> RoadX + RoadWidth <= p.x
    ensures ScreenHeight - 299 <= p.y <= ScreenHeight - 100
    ensures p.direction == 1 <==> sideRoll % 2 == 0
    ensures p.y == ScreenHeight - 100 - yRoll % 200
    ensures p.crossing <==> crossingRoll % 100 < CrossingPercent
  {
    var lane := laneRoll % LaneCount;
    var x, direction :=
      if sideRoll % 2 == 0 then RoadX - 25 else RoadX + RoadWidth + 5,
      if sideRoll % 2 == 0 then 1 else -1;
    Pedestrian(x, ScreenHeight - 100 - yRoll % 200, lane, true, crossingRoll % 100 < CrossingPercent, direction)
  }

  /** First-fit spawn for pedestrians, as for obstacles. */
  function CreatePedestrian(peds: seq<Pedestrian>, laneRoll: nat, sideRoll: nat, yRoll: nat, crossingRoll: nat)
    : (r: seq<Pedestrian>)
    ensures |r| == |peds|
    ensures AllActive(PedestrianFlags(peds)) ==> r == peds
    ensures forall i :: IsFirstFree(PedestrianFlags(peds), i) ==>
              r == peds[i := SpawnedPedestrian(laneRoll, sideRoll, yRoll, crossingRoll)]
    ensures PedestriansInBounds(peds) ==> PedestriansInBounds(r)
  {
    match FirstFree(PedestrianFlags(peds))
    case None => peds
    case Some(i) =>
      assert forall k :: IsFirstFree(PedestrianFlags(peds), k) ==> k == i;
      peds[i := SpawnedPedestrian(laneRoll, sideRoll, yRoll, crossingRoll)]
  }
}
