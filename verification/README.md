# Lane-dodging driving game: a Dafny model of its frame logic

The game (`car.c`) is a single-screen arcade game. The player's car drives in
one of three lanes of a vertical road and dodges obstacle cars falling down
the lanes and pedestrians walking across the road, while the score counts
the frames survived. This project models the state the game loop updates and
proves properties of it:

- `config.dfy` (`Config`): the constants (screen 800x600, road 400 wide
  starting at x = 200, car 40, pedestrian 20, three lanes 133 wide, pools of
  5 obstacles and 3 pedestrians, speeds 12/5/8, spawn thresholds 5%, 3%, 30%).
- `entities.dfy` (`Entities`): the `Car`, `Obstacle`, `Pedestrian` and
  `GameState` records, without colours.
- `lanes.dfy` (`Lanes`): `GetLaneX`, lane changes clamped to the road, speed tiers.
- `collision.dfy` (`Collision`): the strict bounding-box tests
  `CheckCollision` and `CheckPedestrianCollision`.
- `pools.dfy` (`Pools`): `MoveObstacles`, `MovePedestrians`,
  `CreateObstacle` and `CreatePedestrian` over fixed-size pools of slots
  with an `active` flag, and the first-fit search they share.
- `game.dfy` (`Game`): one frame of the main loop as a pure function
  `Frame(state, keys, rolls)`: steering and speed, then (while playing)
  movement, spawning, collision and scoring, then restart on R. `Run`
  folds `Frame` over a sequence of inputs.

Keyboard state is a `Keys` record of booleans. Every `rand()` result is a
natural-number field of a `Rolls` record, so a frame is a deterministic
function of its inputs. `WellFormed` is the invariant of reachable states:
the car is in a valid lane at that lane's column, at its fixed row and at a
speed tier; the pools keep their sizes; every active entity is within its
bounds: an active obstacle's y lies in [-40, 600], and an active
pedestrian's x in [0, 800] and its y in [301, 500].

The model follows the code in these points, which are easy to get wrong:
- In the game-over state, lane changes and speed still respond to the keys.
  Only the pools and the score are frozen.
- The frame in which a collision happens still adds one to the score.
- Pressing R in the very frame of a collision restarts at once. This is
  because the restart test comes after the update.
- A collision does not deactivate any entity.
- Restart does not reset the speed or the pedestrians' `crossing` flags. It
  only clears the `active` flags.

Some behaviour of the code follows from the proofs:
- A pedestrian that is not crossing never moves and is never retired. It
  stands beside the road, where it can never touch the car.
- Once all three pedestrian slots hold such pedestrians, no pedestrian can
  spawn until the next restart (`StandingPedestriansFillThePool`).
- Pressing left and right in the same frame applies left first, so lane 0
  goes to lane 1 but lane 2 stays in lane 2.

## Model

| member | source | states |
|---|---|---|
| Lanes.GetLaneX | car.c:293-297 | a car-wide box at the lane's x lies inside that lane's strip of road, centred to within one pixel |
| Lanes.LaneOfXInvertsGetLaneX | car.c:293-297 | the lane can be recovered from its x for every lane index: `GetLaneX` is injective |
| Lanes.GetLaneXSpacing | car.c:293-297 | lanes are evenly spaced: x is strictly increasing in the lane and consecutive lanes are exactly 133 apart |
| Lanes.LanesLieOnRoad | car.c:293-297 | for lanes 0..2 the car lies within the road [200, 600); the columns are 246, 379 and 512 |
| Lanes.Steer | car.c:79-86 | left moves one lane left unless in lane 0, right one lane right unless in the last lane, both pressed nets lane 0 to 1 and keeps 1 and 2; the lane stays valid; any change realigns x; nothing else changes |
| Lanes.SelectSpeed | car.c:88-90 | speed is one of the three tiers; 12 exactly when up is held, 5 exactly when down but not up is held |
| Game.Drive | car.c:79-90 | the car's lane and x are those `Steer` gives for the left/right presses and its speed is the tier `SelectSpeed` picks for up/down; the row is kept and the speed is always a tier |
| Collision.OverlapIffSharePixel | car.c:279-291 | for non-empty boxes the strict-inequality test holds exactly when some pixel lies in both boxes |
| Collision.CheckCollision | car.c:279-284 | car and obstacle collide iff their 40x40 boxes share a pixel; the test is symmetric in the two boxes |
| Collision.CheckPedestrianCollision | car.c:286-291 | the same test against a 20x20 pedestrian box, also symmetric |
| Collision.OverlapSymmetric | car.c:279-291 | the overlap test does not depend on the order of its boxes |
| Collision.TouchingBoxesDoNotOverlap | car.c:279-291 | boxes that only meet along an edge do not collide |
| Pools.FirstFreeFrom | car.c:238-239 | the slot scan from index `i` returns the first inactive slot at or after `i`, and nothing exactly when every slot from `i` on is active |
| Pools.FirstFree | car.c:238-239 | the scan returns the lowest-indexed inactive slot, and returns nothing exactly when every slot is active |
| Pools.MoveObstacles | car.c:210-221 | inactive slots are unchanged; an active slot moves down by exactly `speed` in its own column and lane; it becomes inactive iff its new y > 600; no slot is reactivated; in-bounds pools stay in bounds |
| Pools.SpawnedObstacle | car.c:240-244 | a spawned obstacle is active, with lane `roll % 3`, y = -40, and x at its lane's column |
| Pools.CreateObstacle | car.c:237-248 | first fit: exactly the lowest inactive slot receives the new obstacle and the other slots are unchanged; a full pool is unchanged; in-bounds pools stay in bounds |
| Pools.RetiredObstacleSlotIsReused | car.c:210-248 | an obstacle retired by moving frees a slot at or before its own, so the next spawn does change the pool |
| Pools.MovePedestrians | car.c:223-235 | only active crossing pedestrians change: x moves by `2 * direction` and nothing else but `active` changes; such a pedestrian is retired iff the new x < 0 or > 800; others are untouched |
| Pools.SpawnedPedestrian | car.c:253-273 | it spawns at x = 175 walking right exactly when the side roll is even, otherwise at x = 605 walking left, off the road and facing it; y is 500 minus the row roll `% 200`, so in [301, 500]; it crosses iff the crossing roll `% 100 < 30` |
| Pools.CreatePedestrian | car.c:250-277 | first fit as for obstacles: exactly the lowest inactive slot receives the new pedestrian, and a full pool is unchanged |
| Game.NewGame | car.c:58-76 | the start-up state: car in lane 1 at its column, speed 8, every slot inactive with its lane taken from its set-up roll, score 0 and playing; it satisfies the invariant |
| Game.InitialIsWellFormed | car.c:58-76 | every start-up state, whatever its uninitialised slot fields hold, satisfies the invariant |
| Game.ScanObstacles | car.c:105-109 | the obstacle loop sets game over iff some active obstacle collides with the car |
| Game.ScanPedestrians | car.c:111-115 | the pedestrian loop sets game over iff some active pedestrian collides with the car |
| Game.Play | car.c:92-118 | in game over nothing changes; otherwise the pools are first moved (obstacles by the car's speed) and then spawned into when the spawn rolls are below 5 and 3 out of 100, the score rises by exactly 1, the car is untouched, and the frame ends in game over iff some active entity of the resulting pools overlaps the car; it preserves the invariant |
| Game.Restart | car.c:120-127 | score 0, playing, car in lane 1 at its column, every slot inactive, with the slots' other fields, speed and row kept |
| Game.Frame | car.c:78-127 | the speed is the tier the up/down keys select, also on a restarting frame; lane, x and speed follow the keys in both states on every frame that does not restart; game over without R freezes score and pools; a playing frame that does not restart moves then spawns, adds exactly 1 and ends the game iff the car overlaps an active entity; R restarts when the frame starts in game over or reaches it in this very frame, and otherwise a playing frame with R counts as usual; pool sizes and the invariant are preserved |
| Game.Run | car.c:78-157 | the game loop over a sequence of frames keeps both pool capacities, and after at least one frame the speed is a tier |
| Game.RunPreservesWellFormed | car.c:78-127 | after any sequence of frames the invariant holds: lane in [0, 2], x at the lane's column, speed in {12, 5, 8}, pools of 5 and 3, active entities in bounds |
| Game.GameOverFreezesUntilRestart | car.c:92-127 | once the game is over, score, game-over flag and both pools stay unchanged over any frames without R |
| Game.ScoreAtMostFrames | car.c:117 | the score grows by at most one per frame |
| Game.ScoreCountsSafeFrames | car.c:92-118 | over frames without R that end still playing, the score rises by exactly the number of frames |
| Game.ObstacleHitsOnlyInOwnLane | car.c:279-284 | an in-bounds obstacle can only collide with an aligned car in the car's own lane |
| Game.StandingPedestrianNeverHits | car.c:286-291 | a pedestrian that does not cross stands beside the road and never collides with a car in a lane |
| Game.StandingPedestriansFillThePool | car.c:223-235 | when every pedestrian slot holds a standing pedestrian, a frame without R leaves the pedestrian pool unchanged and none of them can hit the car |

## Left out

- Window, frame pacing and drawing (`InitWindow`, `SetTargetFPS`,
  `BeginDrawing`/`EndDrawing`, `DrawRoad`, `DrawCar`, `DrawObstacle`,
  `DrawPedestrian`, `DrawText`, `CloseWindow`): they change no game state.
- `WindowShouldClose`: it only ends the loop. `Run` takes a finite sequence
  of frames instead.
- `IsKeyPressed` and `IsKeyDown` are external library calls. They are
  replaced by the booleans of `Keys`.
- `rand()` and `srand(time(NULL))` are replaced by the fields of `Rolls`.
  The C code reads them from one stream, and some reads happen only when a
  spawn happens. Each read is given its own field here, so every outcome of
  the stream is still covered. The 5%, 3% and 30% probabilities are modelled
  only as the thresholds the rolls are compared with.
- Colours: they are presentation only. This includes the colour reset on
  deactivation and the red colour of crossing pedestrians.
- The uninitialised fields of slots that have never been spawned. `Initial`
  lets them hold anything, and `NewGame` fills them with 0.
- The `count` parameter of the pool functions: it is always the pool's
  length, which is what the model iterates over.
- Pools.SpawnedPedestrian: the C code first sets x from the lane and then
  overwrites it; only the final x is modelled. The lane field is still kept.
- Game.Play: the score is an unbounded integer. In C, `score++` overflows a
  32-bit `int` after 2^31 - 1 playing frames, which is undefined behaviour
  and is not modelled.
- Lanes.GetLaneX: it uses unbounded arithmetic. A C `int` would overflow
  only for lane indices near 2^31 / 133, and `WellFormed` shows those never
  occur.
