/**
 The fixed constants of the game: screen and road geometry, entity sizes,
 pool capacities, speed tiers and spawn thresholds (car.c lines 5-10 and the
 literals scattered through main and the pool functions).
 */
module Config {

  const ScreenWidth: int := 800
  const ScreenHeight: int := 600
  const RoadWidth: int := 400
  const CarSize: int := 40
  const LaneCount: int := 3
  const PedestrianSize: int := 20

  /** Left edge of the road, centred on the screen. */
  const RoadX: int := (ScreenWidth - RoadWidth) / 2
  /** Width of one lane strip (integer division: 400 / 3 == 133). */
  const LaneWidth: int := RoadWidth / LaneCount

  /** Pool capacities: the sizes of the obstacle and pedestrian arrays. */
  const ObstacleCount: int := 5
  const PedestrianCount: int := 3

  /** The player's fixed vertical position and starting lane. */
  const PlayerY: int := 500
  const StartLane: int := 1

  /** The three speed tiers: up held, down held, neither. */
  const FastSpeed: int := 12
  const SlowSpeed: int := 5
  const CruiseSpeed: int := 8

  /** Per-frame spawn thresholds, out of 100. */
  const ObstacleSpawnPercent: int := 5
  const PedestrianSpawnPercent: int := 3
  const CrossingPercent: int := 30

  /** Horizontal distance a crossing pedestrian walks per frame. */
  const PedestrianStep: int := 2

  predicate IsSpeedTier(v: int) {
    v == FastSpeed || v == SlowSpeed || v == CruiseSpeed
  }
}
