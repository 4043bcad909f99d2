// The scene object itself: the fields the callbacks update in place, and the callbacks
// written step by step, each proved to perform the matching transition of SceneRules.

module GameSceneModel {
  import opened World
  import opened Ground
  import opened Obstacles
  import opened Contacts
  import opened SceneRules

  /** Removing the first child after the kept prefix, or keeping it, as sequence identities. */
  lemma SplitAt(kept: seq<Point>, children: seq<Point>, i: nat)
    requires i < |children|
    ensures (kept + children[i..])[..|kept|] + (kept + children[i..])[|kept| + 1..] == kept + children[i + 1..]
    ensures kept + children[i..] == (kept + [children[i]]) + children[i + 1..]
  {
  }

  /**
   * The removal loop of a frame: visits a snapshot of the obstacle layer's children and
   * removes from the live child list each one that has left the scene.
   */
  method RemoveLeftObstacles(layer: Point, children: seq<Point>) returns (live: seq<Point>)
    ensures live == Culled(layer, children)
  {
    live := children;
    var i, j := 0, 0;
    while i < |children|
      invariant 0 <= i <= |children|
      invariant j == |Culled(layer, children[..i])|
      invariant live == Culled(layer, children[..i]) + children[i..]
    {
      CulledPrefixStep(layer, children, i);
      SplitAt(Culled(layer, children[..i]), children, i);
      var obstaclePosition := ToScene(layer, children[i]);
      if obstaclePosition.x <= CullX {
        live := live[..j] + live[j + 1..];
      } else {
        j := j + 1;
      }
      i := i + 1;
    }
    assert children[..i] == children;
  }

  class GameScene {
    var gameState: GameSceneState
    var points: int
    var spawnTimer: real
    /** Vertical velocity of the hero's physics body. */
    var heroVelocityY: real
    /** Impulses applied to the hero's physics body, oldest first. */
    var impulses: seq<Vector>
    /** How many times the hero's actions were removed. */
    var heroActionsRemoved: nat
    var restartButton: ButtonState
    /** The number the score label shows. */
    var scoreLabel: int
    const sceneWidth: real
    /** Position of the scroll layer in the scene. */
    var scrollLayer: Point
    /** The scroll layer's children; the pool never grows or shrinks. */
    const tiles: array<Tile>
    /** Position of the obstacle layer in the scene. */
    var obstacleLayer: Point
    /** Positions of the obstacle layer's children, in child order. */
    var obstacles: seq<Point>

    /** The scene's fields as one value. */
    ghost function State(): SceneState
      reads this, tiles
    {
      SceneState(gameState, points, spawnTimer, heroVelocityY, impulses, heroActionsRemoved,
                 restartButton, scoreLabel, sceneWidth, scrollLayer, tiles[..], obstacleLayer, obstacles)
    }

    ghost predicate Valid()
      reads this, tiles
    {
      Invariant(State())
    }

    /** A loaded scene: the hero, layers and tiles come from the scene file. */
    constructor (heroVelocityY: real, sceneWidth: real, scrollLayer: Point, tiles: array<Tile>,
                 obstacleLayer: Point, obstacles: seq<Point>)
      ensures this.tiles == tiles
      ensures State() == Initial(heroVelocityY, sceneWidth, scrollLayer, tiles[..], obstacleLayer, obstacles)
      ensures Valid()
    {
      gameState := Active;
      points := 0;
      spawnTimer := 0.0;
      this.heroVelocityY := heroVelocityY;
      impulses := [];
      heroActionsRemoved := 0;
      restartButton := ButtonHidden;
      scoreLabel := 0;
      this.sceneWidth := sceneWidth;
      this.scrollLayer := scrollLayer;
      this.tiles := tiles;
      this.obstacleLayer := obstacleLayer;
      this.obstacles := obstacles;
    }

    /** A touch pushes the hero up, but only while the game is active. */
    method TouchesBegan()
      requires Valid()
      modifies this
      ensures Valid()
      ensures State() == AfterTouch(old(State()))
    {
      if gameState != Active {
        return;
      }
      impulses := impulses + [TapImpulse];
    }

    /** Called before each frame; `y` is the random height a spawn in this frame would use. */
    method Update(y: real)
      requires MinSpawnY <= y <= MaxSpawnY
      requires Valid()
      modifies this, tiles
      ensures Valid()
      ensures State() == AfterUpdate(old(State()), y)
    {
      if gameState != Active {
        return;
      }
      var velocityY := heroVelocityY;
      if velocityY > MaxRiseSpeed {
        heroVelocityY := MaxRiseSpeed;
      }
      ScrollWorld();
      UpdateObstacles(y);
      spawnTimer := spawnTimer + FixedDelta;
    }

    /** Moves the scroll layer one step left and recycles every tile that has left the scene. */
    method ScrollWorld()
      modifies this, tiles
      ensures State() == AfterScroll(old(State()))
    {
      scrollLayer := scrollLayer.(x := scrollLayer.x - ScrollSpeed * FixedDelta);
      var i := 0;
      while i < tiles.Length
        modifies tiles
        invariant 0 <= i <= tiles.Length
        invariant forall k :: 0 <= k < i ==> tiles[k] == RecycledTile(scrollLayer, sceneWidth, old(tiles[k]))
        invariant forall k :: i <= k < tiles.Length ==> tiles[k] == old(tiles[k])
      {
        var ground := tiles[i];
        var groundPosition := ToScene(scrollLayer, ground.pos);
        if groundPosition.x <= -ground.width / 2.0 {
          var newPosition := Point(sceneWidth / 2.0 + ground.width, groundPosition.y);
          tiles[i] := ground.(pos := ToLayer(scrollLayer, newPosition));
        }
        i := i + 1;
      }
      assert tiles[..] == ScrolledTiles(scrollLayer, sceneWidth, old(tiles[..]));
    }

    /**
     * Moves the obstacle layer one step left, removes every obstacle that has left the
     * scene, and spawns a new one at scene (SpawnX, y) when the timer is due.
     */
    method UpdateObstacles(y: real)
      requires MinSpawnY <= y <= MaxSpawnY
      modifies this
      ensures State() == AfterObstacles(old(State()), y)
    {
      obstacleLayer := obstacleLayer.(x := obstacleLayer.x - ScrollSpeed * FixedDelta);
      var live := RemoveLeftObstacles(obstacleLayer, obstacles);
      obstacles := live;
      if spawnTimer >= SpawnInterval {
        obstacles := obstacles + [ToLayer(obstacleLayer, Point(SpawnX, y))];
        spawnTimer := 0.0;
      }
    }

    /** A contact between the bodies of the nodes named `nameA` and `nameB`. */
    method DidBegin(nameA: NodeName, nameB: NodeName)
      requires Valid()
      modifies this
      ensures Valid()
      ensures State() == AfterContact(old(State()), nameA, nameB)
    {
      if nameA == Named(Goal) || nameB == Named(Goal) {
        points := points + 1;
        scoreLabel := points;
        return;
      }
      if gameState != Active {
        return;
      }
      gameState := GameOver;
      heroActionsRemoved := heroActionsRemoved + 1;
      restartButton := ButtonActive;
    }
  }
}
