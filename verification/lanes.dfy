/**
 Lane and position arithmetic of the player's car: the lane-to-pixel map,
 left/right lane changes clamped to the road, and the speed tiers
 (car.c lines 79-90 and 293-297).
 */
module Lanes {
  import opened Config
  import opened Entities

  predicate ValidLane(lane: int) {
    0 <= lane < LaneCount
  }

  /** Left edge of the strip of road that lane `lane` occupies. */
  function LaneLeft(lane: int): int {
    RoadX + lane * LaneWidth
  }

  /** x of a car-sized box drawn in lane `lane`: the box lies inside the
      lane's strip, centred up to one pixel (the spare pixel falls right). */
  function GetLaneX(lane: int): (x: int)
    ensures LaneLeft(lane) <= x && x + CarSize <= LaneLeft(lane + 1)
    ensures 0 <= (LaneLeft(lane + 1) - (x + CarSize)) - (x - LaneLeft(lane)) <= 1
  {
    RoadX + lane * LaneWidth + (LaneWidth - CarSize) / 2
  }

  /** The lane whose strip contains pixel column `x` (floor division). */
  function LaneOfX(x: int): int {
    (x - RoadX) / LaneWidth
  }

  /** The x of a lane determines the lane: LaneOfX undoes GetLaneX. */
  lemma LaneOfXInvertsGetLaneX(lane: int)
    ensures LaneOfX(GetLaneX(lane)) == lane
  {
    // Not needed in every solver run; it keeps the division step cheap.
    assert GetLaneX(lane) - RoadX == lane * LaneWidth + 46;
  }

  /** Lanes are evenly spaced, left to right, one lane width apart. */
  lemma GetLaneXSpacing(a: int, b: int)
    ensures GetLaneX(b) - GetLaneX(a) == (b - a) * LaneWidth
    ensures a < b ==> GetLaneX(a) < GetLaneX(b)
    ensures GetLaneX(a + 1) - GetLaneX(a) == 133
  {
  }

  /** For the three lanes of the road, a car drawn at GetLaneX stays on the
      road [RoadX, RoadX + RoadWidth); the concrete columns are 246, 379, 512. */
  lemma LanesLieOnRoad(lane: int)
    requires ValidLane(lane)
    ensures RoadX <= GetLaneX(lane) && GetLaneX(lane) + CarSize <= RoadX + RoadWidth
    ensures GetLaneX(lane) == [246, 379, 512][lane]
  {
  }

  /** The car sits at the column of its lane. */
  predicate Aligned(car: Car) {
    car.x == GetLaneX(car.lane)
  }

  /** Lane changes for one frame: a left press moves one lane left unless
      already in lane 0, then a right press moves one lane right unless
      already in the last lane; every change re-aligns x. */
  function Steer(car: Car, leftPressed: bool, rightPressed: bool): (r: Car)
    ensures r.y == car.y && r.speed == car.speed
    ensures r.lane != car.lane ==> Aligned(r)
    ensures Aligned(car) ==> Aligned(r)
    ensures ValidLane(car.lane) ==> ValidLane(r.lane)
    ensures !leftPressed && !rightPressed ==> r == car
    ensures ValidLane(car.lane) && leftPressed && !rightPressed ==>
              r.lane == if car.lane == 0 then 0 else car.lane - 1
    ensures ValidLane(car.lane) && rightPressed && !leftPressed ==>
              r.lane == if car.lane == LaneCount - 1 then car.lane else car.lane + 1
    ensures ValidLane(car.lane) && leftPressed && rightPressed ==>
              r.lane == if car.lane == 0 then 1 else car.lane
  {
    var afterLeft :=
      if leftPressed && car.lane > 0
      then car.(lane := car.lane - 1, x := GetLaneX(car.lane - 1))
      else car;
    if rightPressed && afterLeft.lane < LaneCount - 1
    then afterLeft.(lane := afterLeft.lane + 1, x := GetLaneX(afterLeft.lane + 1))
    else afterLeft
  }

  /** The speed for one frame: up wins over down; neither gives cruise. */
  function SelectSpeed(upDown: bool, downDown: bool): (speed: int)
    ensures IsSpeedTier(speed) && speed > 0
    ensures upDown <==> speed == FastSpeed
    ensures downDown && !upDown <==> speed == SlowSpeed
  {
    if upDown then FastSpeed
    else if downDown then SlowSpeed
    else CruiseSpeed
  }
}
