// The game scene's state as a value, and what each engine callback does to it.
// The class in game_scene.dfy is proved to follow these transitions exactly.

module SceneRules {
  import opened World
  import opened Ground
  import opened Obstacles
  import opened Contacts

  datatype GameSceneState = Active | GameOver

  /** The two states of the restart button the scene uses. */
  datatype ButtonState = ButtonHidden | ButtonActive

  datatype Vector = Vector(dx: real, dy: real)

  /** The impulse a touch gives the hero. */
  const TapImpulse: Vector := Vector(0.0, 300.0)

  /** Largest upward velocity the hero keeps after a frame. */
  const MaxRiseSpeed: real := 400.0

  /**
   * Everything the scene's callbacks read or write. Engine side effects are recorded:
   * the impulses issued to the hero, the number of times the hero's actions were
   * removed, the restart button's state and the number the score label shows.
   */
  datatype SceneState = SceneState(
    gameState: GameSceneState,
    points: int,
    spawnTimer: real,
    heroVelocityY: real,
    impulses: seq<Vector>,
    heroActionsRemoved: nat,
    restartButton: ButtonState,
    scoreLabel: int,
    sceneWidth: real,
    scrollLayer: Point,
    tiles: seq<Tile>,
    obstacleLayer: Point,
    obstacles: seq<Point>)

  /**
   * What every callback keeps: the timer stays below one interval plus one frame, the
   * label shows the score, and the run is over exactly when the hero's actions have been
   * removed once and the restart button is active.
   */
  predicate Invariant(s: SceneState)
  {
    0.0 <= s.spawnTimer < SpawnInterval + FixedDelta &&
    0 <= s.points && s.scoreLabel == s.points &&
    (s.gameState == Active ==> s.heroActionsRemoved == 0 && s.restartButton == ButtonHidden) &&
    (s.gameState == GameOver ==> s.heroActionsRemoved == 1 && s.restartButton == ButtonActive)
  }

  /** The state of a freshly loaded scene. */
  function Initial(heroVelocityY: real, sceneWidth: real, scrollLayer: Point, tiles: seq<Tile>,
                   obstacleLayer: Point, obstacles: seq<Point>): (s: SceneState)
    ensures Invariant(s)
    ensures s.gameState == Active && s.points == 0 && s.spawnTimer == 0.0 && s.impulses == []
  {
    SceneState(Active, 0, 0.0, heroVelocityY, [], 0, ButtonHidden, 0,
               sceneWidth, scrollLayer, tiles, obstacleLayer, obstacles)
  }

  /** A touch: one upward impulse while the game is active, nothing otherwise. */
  function AfterTouch(s: SceneState): (r: SceneState)
    ensures s.gameState != Active ==> r == s
    ensures s.gameState == Active ==> r.impulses == s.impulses + [TapImpulse]
    ensures r.(impulses := s.impulses) == s
    ensures Invariant(s) ==> Invariant(r)
  {
    if s.gameState != Active then s
    else s.(impulses := s.impulses + [TapImpulse])
  }

  /** The hero's vertical velocity after the cap: never above the cap, changed only when above it. */
  function CappedVelocity(v: real): (r: real)
    ensures r <= MaxRiseSpeed
    ensures v <= MaxRiseSpeed ==> r == v
    ensures r == v || r == MaxRiseSpeed
  {
    if v > MaxRiseSpeed then MaxRiseSpeed else v
  }

  /** Scrolling the ground: the layer moves left one step and tiles that left are recycled. */
  function AfterScroll(s: SceneState): (r: SceneState)
    ensures r.scrollLayer == Shifted(s.scrollLayer)
    ensures |r.tiles| == |s.tiles|
    ensures forall i :: 0 <= i < |s.tiles| ==>
              r.tiles[i].width == s.tiles[i].width &&
              (OffLeft(r.scrollLayer, s.tiles[i]) ==>
                 ToScene(r.scrollLayer, r.tiles[i].pos)
                   == Point(ReentryX(s.sceneWidth, s.tiles[i]), ToScene(r.scrollLayer, s.tiles[i].pos).y)) &&
              (!OffLeft(r.scrollLayer, s.tiles[i]) ==> r.tiles[i] == s.tiles[i])
    ensures r.(scrollLayer := s.scrollLayer, tiles := s.tiles) == s
    ensures Invariant(s) ==> Invariant(r)
  {
    var layer := Shifted(s.scrollLayer);
    s.(scrollLayer := layer, tiles := ScrolledTiles(layer, s.sceneWidth, s.tiles))
  }

  /**
   * Moving, culling and spawning obstacles: the layer moves left one step, obstacles that
   * left the scene are dropped in order, and a due timer appends one obstacle at scene
   * (SpawnX, y) and restarts.
   */
  function AfterObstacles(s: SceneState, y: real): (r: SceneState)
    requires MinSpawnY <= y <= MaxSpawnY
    ensures r.obstacleLayer == Shifted(s.obstacleLayer)
    ensures SpawnDue(s.spawnTimer) ==>
              r.spawnTimer == 0.0 &&
              |r.obstacles| == |Culled(r.obstacleLayer, s.obstacles)| + 1 &&
              r.obstacles[..|r.obstacles| - 1] == Culled(r.obstacleLayer, s.obstacles) &&
              ToScene(r.obstacleLayer, r.obstacles[|r.obstacles| - 1]) == Point(SpawnX, y)
    ensures !SpawnDue(s.spawnTimer) ==>
              r.spawnTimer == s.spawnTimer &&
              r.obstacles == Culled(r.obstacleLayer, s.obstacles)
    ensures |r.obstacles| <= |s.obstacles| + 1
    ensures r.(obstacleLayer := s.obstacleLayer, obstacles := s.obstacles, spawnTimer := s.spawnTimer) == s
    ensures Invariant(s) ==> Invariant(r)
  {
    var layer := Shifted(s.obstacleLayer);
    var kept := Culled(layer, s.obstacles);
    if SpawnDue(s.spawnTimer) then
      s.(obstacleLayer := layer, obstacles := kept + [SpawnPosition(layer, y)], spawnTimer := 0.0)
    else
      s.(obstacleLayer := layer, obstacles := kept)
  }

  /**
   * One frame. A game that is over is frozen; an active one caps the hero's upward
   * velocity, scrolls the ground, updates the obstacles and advances the spawn timer.
   */
  function AfterUpdate(s: SceneState, y: real): (r: SceneState)
    requires MinSpawnY <= y <= MaxSpawnY
    ensures s.gameState != Active ==> r == s
    ensures s.gameState == Active ==>
              r.heroVelocityY <= MaxRiseSpeed &&
              (s.heroVelocityY <= MaxRiseSpeed ==> r.heroVelocityY == s.heroVelocityY) &&
              (s.heroVelocityY > MaxRiseSpeed ==> r.heroVelocityY == MaxRiseSpeed) &&
              r.scrollLayer == Shifted(s.scrollLayer) &&
              r.obstacleLayer == Shifted(s.obstacleLayer) &&
              r.spawnTimer == (if SpawnDue(s.spawnTimer) then 0.0 else s.spawnTimer) + FixedDelta
    ensures s.gameState == Active ==>
              r.tiles == AfterScroll(s).tiles && r.obstacles == AfterObstacles(s, y).obstacles
    ensures r.gameState == s.gameState && r.points == s.points && r.scoreLabel == s.scoreLabel
    ensures r.impulses == s.impulses && r.heroActionsRemoved == s.heroActionsRemoved
    ensures r.restartButton == s.restartButton && r.sceneWidth == s.sceneWidth
    ensures Invariant(s) ==> Invariant(r)
  {
    if s.gameState != Active then s
    else
      var capped := s.(heroVelocityY := CappedVelocity(s.heroVelocityY));
      var moved := AfterObstacles(AfterScroll(capped), y);
      moved.(spawnTimer := moved.spawnTimer + FixedDelta)
  }

  /**
   * A contact. A goal scores one point whatever the state; any other contact ends an
   * active game, removes the hero's actions and activates the restart button, and is
   * ignored once the game is over.
   */
  function AfterContact(s: SceneState, a: NodeName, b: NodeName): (r: SceneState)
    ensures r.points == s.points + (if Resolve(a, b) == Score then 1 else 0)
    ensures r.gameState == GameOver <==> (s.gameState == GameOver || Resolve(a, b) == Terminal)
    ensures Resolve(a, b) == Score ==>
              r.scoreLabel == r.points && r.(points := s.points, scoreLabel := s.scoreLabel) == s
    ensures Resolve(a, b) == Terminal && s.gameState == GameOver ==> r == s
    ensures Resolve(a, b) == Terminal && s.gameState == Active ==>
              r.heroActionsRemoved == s.heroActionsRemoved + 1 &&
              r.restartButton == ButtonActive &&
              r.(gameState := s.gameState, heroActionsRemoved := s.heroActionsRemoved,
                 restartButton := s.restartButton) == s
    ensures Invariant(s) ==> Invariant(r)
  {
    match Resolve(a, b)
    case Score => s.(points := s.points + 1, scoreLabel := s.points + 1)
    case Terminal =>
      if s.gameState != Active then
        assert s.gameState == GameOver;
        s
      else s.(gameState := GameOver, heroActionsRemoved := s.heroActionsRemoved + 1,
              restartButton := ButtonActive)
  }
}
