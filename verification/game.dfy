/**
 The per-frame update of the game loop (car.c lines 58-76 and 78-127):
 steering and speed, then, while playing, movement, spawning, collision
 and scoring, then restart. Key states and rand() results are inputs of a
 frame; drawing is not modelled.
 */
module Game {
  import opened Config
  import opened Entities
  import opened Lanes
  import opened Collision
  import opened Pools

  /** The keys polled in one frame: left, right and R as "pressed this
      frame", up and down as "held". */
  datatype Keys = Keys(leftPressed: bool, rightPressed: bool, upDown: bool, downDown: bool, restartPressed: bool)

  /** The rand() results a frame may consume: the two spawn rolls, the
      obstacle's lane, and the pedestrian's lane, side, row and crossing.
      A roll a frame does not reach is ignored. */
  datatype Rolls = Rolls(
    obstacleSpawn: nat, obstacleLane: nat,
    pedestrianSpawn: nat, pedestrianLane: nat, pedestrianSide: nat, pedestrianY: nat, pedestrianCrossing: nat)

  datatype State = State(player: Car, obstacles: seq<Obstacle>, pedestrians: seq<Pedestrian>, game: GameState)

  /** The two states of the game. */
  datatype Phase = Playing | GameOver

  function PhaseOf(s: State): Phase {
    if s.game.gameOver then GameOver else Playing
  }

  // ---------------------------------------------------------------------
  // Start of a game
  // ---------------------------------------------------------------------

  /** Any state the program can be in before its first frame: fields the
      C code leaves uninitialised in inactive slots may hold anything. */
  predicate Initial(s: State) {
    && s.player == Car(GetLaneX(StartLane), PlayerY, StartLane, CruiseSpeed)
    && |s.obstacles| == ObstacleCount
    && |s.pedestrians| == PedestrianCount
    && (forall i :: 0 <= i < |s.obstacles| ==> !s.obstacles[i].active)
    && (forall i :: 0 <= i < |s.pedestrians| ==> !s.pedestrians[i].active && !s.pedestrians[i].crossing)
    && s.game == GameState(0, false)
  }

  /** One such state: `laneRoll(k)` is the k-th rand() call of the set-up
      (five obstacle lanes, then three pedestrian lanes); the uninitialised
      fields are given 0 here. */
  function NewGame(laneRoll: nat -> nat): (s: State)
    ensures Initial(s) && WellFormed(s)
    ensures forall i :: 0 <= i < ObstacleCount ==> s.obstacles[i].lane == laneRoll(i) % LaneCount
    ensures forall i :: 0 <= i < PedestrianCount ==> s.pedestrians[i].lane == laneRoll(ObstacleCount + i) % LaneCount
  {
    State(
      Car(GetLaneX(StartLane), PlayerY, StartLane, CruiseSpeed),
      seq(ObstacleCount, i requires 0 <= i => Obstacle(0, 0, laneRoll(i) % LaneCount, false)),
      seq(PedestrianCount, i requires 0 <= i => Pedestrian(0, 0, laneRoll(ObstacleCount + i) % LaneCount, false, false, 0)),
      GameState(0, false))
  }

  // ---------------------------------------------------------------------
  // The invariant every reachable state keeps
  // ---------------------------------------------------------------------

  /** The car is in a lane of the road, at that lane's column, at its fixed
      row, at one of the three speeds; the pools keep their capacities and
      every active entity is within its bounds; the score is not negative. */
  predicate WellFormed(s: State) {
    && ValidLane(s.player.lane)
    && Aligned(s.player)
    && s.player.y == PlayerY
    && IsSpeedTier(s.player.speed)
    && |s.obstacles| == ObstacleCount
    && |s.pedestrians| == PedestrianCount
    && ObstaclesInBounds(s.obstacles)
    && PedestriansInBounds(s.pedestrians)
    && s.game.score >= 0
  }

  lemma InitialIsWellFormed(s: State)
    requires Initial(s)
    ensures WellFormed(s)
  {
  }

  // ---------------------------------------------------------------------
  // Collision scan
  // ---------------------------------------------------------------------

  /** Independent reading of "the car hits something": some active
      obstacle or active pedestrian overlaps it. */
  ghost predicate AnyHit(car: Car, obs: seq<Obstacle>, peds: seq<Pedestrian>) {
    || (exists i :: 0 <= i < |obs| && obs[i].active && CheckCollision(car, obs[i]))
    || (exists i :: 0 <= i < |peds| && peds[i].active && CheckPedestrianCollision(car, peds[i]))
  }

  /** The obstacle loop of the collision check, from slot `i` on: it sets
      the flag when some later active obstacle overlaps the car. */
  function ScanObstacles(car: Car, obs: seq<Obstacle>, i: nat, gameOver: bool): (r: bool)
    requires i <= |obs|
    ensures r <==> gameOver || exists j :: i <= j < |obs| && obs[j].active && CheckCollision(car, obs[j])
    decreases |obs| - i
  {
    if i == |obs| then gameOver
    else ScanObstacles(car, obs, i + 1, gameOver || (obs[i].active && CheckCollision(car, obs[i])))
  }

  /** The pedestrian loop of the collision check, from slot `i` on. */
  function ScanPedestrians(car: Car, peds: seq<Pedestrian>, i: nat, gameOver: bool): (r: bool)
    requires i <= |peds|
    ensures r <==> gameOver || exists j :: i <= j < |peds| && peds[j].active && CheckPedestrianCollision(car, peds[j])
    decreases |peds| - i
  {
    if i == |peds| then gameOver
    else ScanPedestrians(car, peds, i + 1, gameOver || (peds[i].active && CheckPedestrianCollision(car, peds[i])))
  }

  // ---------------------------------------------------------------------
  // One frame
  // ---------------------------------------------------------------------

  /** Steering and speed selection, done every frame whatever the phase. */
  function Drive(car: Car, keys: Keys): (r: Car)
    ensures r.lane == Steer(car, keys.leftPressed, keys.rightPressed).lane
    ensures r.x == Steer(car, keys.leftPressed, keys.rightPressed).x
    ensures r.speed == SelectSpeed(keys.upDown, keys.downDown)
    ensures r.y == car.y && IsSpeedTier(r.speed)
    ensures ValidLane(car.lane) ==> ValidLane(r.lane)
    ensures Aligned(car) ==> Aligned(r)
  {
    Steer(car, keys.leftPressed, keys.rightPressed).(speed := SelectSpeed(keys.upDown, keys.downDown))
  }

  /** The obstacle spawn of a frame: CreateObstacle runs when the spawn
      roll is below the threshold. */
  function ObstacleSpawnStep(obs: seq<Obstacle>, rolls: Rolls): seq<Obstacle> {
    if rolls.obstacleSpawn % 100 < ObstacleSpawnPercent
    then CreateObstacle(obs, rolls.obstacleLane)
    else obs
  }

  /** The pedestrian spawn of a frame, likewise. */
  function PedestrianSpawnStep(peds: seq<Pedestrian>, rolls: Rolls): seq<Pedestrian> {
    if rolls.pedestrianSpawn % 100 < PedestrianSpawnPercent
    then CreatePedestrian(peds, rolls.pedestrianLane, rolls.pedestrianSide, rolls.pedestrianY, rolls.pedestrianCrossing)
    else peds
  }

  /** The part of a frame that runs only while playing: move, maybe spawn,
      test for collisions with the (already steered) car, count the frame. */
  function Play(s: State, rolls: Rolls): (r: State)
    ensures s.game.gameOver ==> r == s
    ensures !s.game.gameOver ==> r.player == s.player && r.game.score == s.game.score + 1
    // the pools are moved first, then spawned into
    ensures !s.game.gameOver ==> r.obstacles == ObstacleSpawnStep(MoveObstacles(s.obstacles, s.player.speed), rolls)
    ensures !s.game.gameOver ==> r.pedestrians == PedestrianSpawnStep(MovePedestrians(s.pedestrians), rolls)
    ensures |r.obstacles| == |s.obstacles| && |r.pedestrians| == |s.pedestrians|
    ensures !s.game.gameOver ==> (r.game.gameOver <==> AnyHit(r.player, r.obstacles, r.pedestrians))
    ensures forall i :: 0 <= i < |r.obstacles| && r.obstacles[i].active && CheckCollision(r.player, r.obstacles[i])
              ==> r.game.gameOver
    ensures forall i :: 0 <= i < |r.pedestrians| && r.pedestrians[i].active && CheckPedestrianCollision(r.player, r.pedestrians[i])
              ==> r.game.gameOver
    ensures WellFormed(s) ==> WellFormed(r)
  {
    if s.game.gameOver then s
    else
      var obs := MoveObstacles(s.obstacles, s.player.speed);
      var peds := MovePedestrians(s.pedestrians);
      var obs' := ObstacleSpawnStep(obs, rolls);
      var peds' := PedestrianSpawnStep(peds, rolls);
      var hit := ScanPedestrians(s.player, peds', 0, ScanObstacles(s.player, obs', 0, false));
      State(s.player, obs', peds', GameState(s.game.score + 1, hit))
  }

  /** A state just restarted: score 0, playing, car back in the start lane,
      every pool slot free. */
  predicate Restarted(s: State) {
    && s.game == GameState(0, false)
    && s.player.lane == StartLane
    && Aligned(s.player)
    && (forall i :: 0 <= i < |s.obstacles| ==> !s.obstacles[i].active)
    && (forall i :: 0 <= i < |s.pedestrians| ==> !s.pedestrians[i].active)
  }

  /** Restart: clears score and game over, puts the car back in the start
      lane and frees every slot; speed, row and the slots' other fields are
      kept. */
  function Restart(s: State): (r: State)
    ensures Restarted(r)
    ensures r.player.speed == s.player.speed && r.player.y == s.player.y
    ensures |r.obstacles| == |s.obstacles| && |r.pedestrians| == |s.pedestrians|
    ensures forall i :: 0 <= i < |s.obstacles| ==> r.obstacles[i].(active := true) == s.obstacles[i].(active := true)
    ensures forall i :: 0 <= i < |s.pedestrians| ==> r.pedestrians[i].(active := true) == s.pedestrians[i].(active := true)
    ensures WellFormed(s) ==> WellFormed(r)
  {
    State(
      s.player.(lane := StartLane, x := GetLaneX(StartLane)),
      seq(|s.obstacles|, i requires 0 <= i < |s.obstacles| => s.obstacles[i].(active := false)),
      seq(|s.pedestrians|, i requires 0 <= i < |s.pedestrians| => s.pedestrians[i].(active := false)),
      GameState(0, false))
  }

  /** The state with the car steered and its speed chosen for this frame. */
  function Driven(s: State, keys: Keys): State {
    s.(player := Drive(s.player, keys))
  }

  /** One iteration of the game loop. */
  function Frame(s: State, keys: Keys, rolls: Rolls): (r: State)
    // the speed follows the keys in every frame; restart does not touch it
    ensures r.player.speed == SelectSpeed(keys.upDown, keys.downDown)
    ensures IsSpeedTier(r.player.speed)
    // in both phases, a frame that does not restart leaves the car as the keys drove it
    ensures !(keys.restartPressed && Play(Driven(s, keys), rolls).game.gameOver) ==> r.player == Drive(s.player, keys)
    // GameOver is frozen until R
    ensures s.game.gameOver && !keys.restartPressed ==>
              r.game == s.game && r.obstacles == s.obstacles && r.pedestrians == s.pedestrians
    // a Playing frame that does not restart moves, then spawns, and counts one
    // point, also when it ends the game
    ensures !s.game.gameOver && !(keys.restartPressed && Play(Driven(s, keys), rolls).game.gameOver) ==>
              && r.game.score == s.game.score + 1
              && r.obstacles == ObstacleSpawnStep(MoveObstacles(s.obstacles, r.player.speed), rolls)
              && r.pedestrians == PedestrianSpawnStep(MovePedestrians(s.pedestrians), rolls)
    // R in a Playing frame restarts only if the frame itself ended the game;
    // otherwise the frame counts as usual
    ensures !s.game.gameOver && keys.restartPressed ==>
              if Play(Driven(s, keys), rolls).game.gameOver then Restarted(r)
              else r.game.score == s.game.score + 1 && !r.game.gameOver
    // a Playing frame ends the game exactly when the car overlaps an active entity
    ensures !s.game.gameOver && !keys.restartPressed ==>
              (r.game.gameOver <==> AnyHit(r.player, r.obstacles, r.pedestrians))
    // R in a frame that starts in GameOver restarts
    ensures s.game.gameOver && keys.restartPressed ==> Restarted(r)
    ensures keys.restartPressed ==> PhaseOf(r) == Playing
    ensures |r.obstacles| == |s.obstacles| && |r.pedestrians| == |s.pedestrians|
    ensures WellFormed(s) ==> WellFormed(r)
  {
    var played := Play(Driven(s, keys), rolls);
    if played.game.gameOver && keys.restartPressed then Restart(played) else played
  }

  // ---------------------------------------------------------------------
  // Who can hit the car
  // ---------------------------------------------------------------------

  /** An obstacle can only hit the car in the car's own lane: lane columns
      are further apart than a car is wide. */
  lemma ObstacleHitsOnlyInOwnLane(car: Car, o: Obstacle)
    requires ValidLane(car.lane) && Aligned(car)
    requires ObstacleInBounds(o)
    requires CheckCollision(car, o)
    ensures o.lane == car.lane
  {
    if o.lane != car.lane {
      GetLaneXSpacing(o.lane, car.lane);
      GetLaneXSpacing(car.lane, o.lane);
      assert false;
    }
  }

  /** A pedestrian that does not cross stands beside the road and can never
      hit a car that is in a lane of the road. */
  lemma StandingPedestrianNeverHits(car: Car, p: Pedestrian)
    requires ValidLane(car.lane) && Aligned(car)
    requires PedestrianInBounds(p) && !p.crossing
    ensures !CheckPedestrianCollision(car, p)
  {
    LanesLieOnRoad(car.lane);
  }

  /** Standing pedestrians are never retired: once every pedestrian slot
      holds one, the pedestrian pool stays exactly as it is for the rest of
      the game (until R), and no pedestrian can end it. */
  lemma StandingPedestriansFillThePool(s: State, keys: Keys, rolls: Rolls)
    requires WellFormed(s)
    requires forall i :: 0 <= i < |s.pedestrians| ==> s.pedestrians[i].active && !s.pedestrians[i].crossing
    requires !keys.restartPressed
    ensures Frame(s, keys, rolls).pedestrians == s.pedestrians
    ensures forall i :: 0 <= i < |s.pedestrians| ==>
              !CheckPedestrianCollision(Frame(s, keys, rolls).player, s.pedestrians[i])
  {
    var r := Frame(s, keys, rolls);
    if !s.game.gameOver {
      var moved := MovePedestrians(s.pedestrians);
      assert moved == s.pedestrians;
      assert AllActive(PedestrianFlags(moved));
    }
    forall i | 0 <= i < |s.pedestrians|
      ensures !CheckPedestrianCollision(r.player, s.pedestrians[i])
    {
      StandingPedestrianNeverHits(r.player, s.pedestrians[i]);
    }
  }

  // ---------------------------------------------------------------------
  // Many frames
  // ---------------------------------------------------------------------

  datatype Input = Input(keys: Keys, rolls: Rolls)

  /** Runs the game loop over one input per frame; the pools keep their
      capacities however long the game runs. */
  function Run(s: State, inputs: seq<Input>): (r: State)
    ensures |r.obstacles| == |s.obstacles| && |r.pedestrians| == |s.pedestrians|
    ensures IsSpeedTier(r.player.speed) || (|inputs| == 0 && r == s)
    decreases |inputs|
  {
    if |inputs| == 0 then s
    else Run(Frame(s, inputs[0].keys, inputs[0].rolls), inputs[1..])
  }

  /** Every reachable state is well formed: in particular, from the start
      any sequence of key presses keeps the car in a lane of the road at
      that lane's column and at one of the three speeds. */
  lemma {:induction false} RunPreservesWellFormed(s: State, inputs: seq<Input>)
    requires WellFormed(s)
    ensures WellFormed(Run(s, inputs))
    decreases |inputs|
  {
    if |inputs| > 0 {
      RunPreservesWellFormed(Frame(s, inputs[0].keys, inputs[0].rolls), inputs[1..]);
    }
  }

  /** Once the game is over, nothing but the car moves until R is pressed. */
  lemma {:induction false} GameOverFreezesUntilRestart(s: State, inputs: seq<Input>)
    requires s.game.gameOver
    requires forall k :: 0 <= k < |inputs| ==> !inputs[k].keys.restartPressed
    ensures Run(s, inputs).game == s.game
    ensures Run(s, inputs).obstacles == s.obstacles
    ensures Run(s, inputs).pedestrians == s.pedestrians
    decreases |inputs|
  {
    if |inputs| > 0 {
      GameOverFreezesUntilRestart(Frame(s, inputs[0].keys, inputs[0].rolls), inputs[1..]);
    }
  }

  /** The score grows by at most one per frame. */
  lemma {:induction false} ScoreAtMostFrames(s: State, inputs: seq<Input>)
    requires s.game.score >= 0
    ensures Run(s, inputs).game.score <= s.game.score + |inputs|
    decreases |inputs|
  {
    if |inputs| > 0 {
      var next := Frame(s, inputs[0].keys, inputs[0].rolls);
      assert next.game.score <= s.game.score + 1 && next.game.score >= 0 by {
        var played := Play(s.(player := Drive(s.player, inputs[0].keys)), inputs[0].rolls);
        assert played.game.score <= s.game.score + 1;
      }
      ScoreAtMostFrames(next, inputs[1..]);
    }
  }

  /** Without collisions and without R, the score counts exactly the frames. */
  lemma {:induction false} ScoreCountsSafeFrames(s: State, inputs: seq<Input>)
    requires !s.game.gameOver
    requires forall k :: 0 <= k < |inputs| ==> !inputs[k].keys.restartPressed
    requires !Run(s, inputs).game.gameOver
    ensures Run(s, inputs).game.score == s.game.score + |inputs|
    decreases |inputs|
  {
    if |inputs| > 0 {
      var next := Frame(s, inputs[0].keys, inputs[0].rolls);
      if next.game.gameOver {
        GameOverFreezesUntilRestart(next, inputs[1..]);
        assert false;
      }
      ScoreCountsSafeFrames(next, inputs[1..]);
    }
  }
}
