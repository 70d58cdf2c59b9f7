/**
 The records the game loop updates. Colours are presentation only and are
 not modelled; every other field of the C structs is kept.
 */
module Entities {

  /** The player's car: top-left corner, lane index and current speed. */
  datatype Car = Car(x: int, y: int, lane: int, speed: int)

  /** One slot of the obstacle pool. */
  datatype Obstacle = Obstacle(x: int, y: int, lane: int, active: bool)

  /** One slot of the pedestrian pool; only `crossing` pedestrians walk,
      `direction` (+1 or -1) being the way they walk. */
  datatype Pedestrian = Pedestrian(x: int, y: int, lane: int, active: bool, crossing: bool, direction: int)

  datatype GameState = GameState(score: int, gameOver: bool)
}
