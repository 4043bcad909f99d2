// Obstacles: positions in the obstacle layer, dropped once they have left the scene on
// the left and spawned at a fixed point right of the scene on a timer.

module Obstacles {
  import opened World

  /** Scene x at or below which an obstacle has left the scene (half an obstacle's width). */
  const CullX: real := -26.0

  /** Scene x at which a new obstacle appears, just right of the visible area. */
  const SpawnX: real := 347.0

  /** The band from which a new obstacle's scene y is drawn. */
  const MinSpawnY: real := 234.0
  const MaxSpawnY: real := 382.0

  /** Seconds between two spawns. */
  const SpawnInterval: real := 1.5

  /** The obstacle at layer position `p` has left the scene. */
  predicate PastLeftEdge(layer: Point, p: Point)
  {
    ToScene(layer, p).x <= CullX
  }

  /** The timer has reached the spawn interval; the boundary counts. */
  predicate SpawnDue(spawnTimer: real)
  {
    spawnTimer >= SpawnInterval
  }

  /** The obstacles that stay in a layer placed at `layer`, in their original order. */
  function Culled(layer: Point, obstacles: seq<Point>): (r: seq<Point>)
    ensures |r| <= |obstacles|
    decreases |obstacles|
  {
    if obstacles == [] then []
    else
      var n := |obstacles| - 1;
      var kept := Culled(layer, obstacles[..n]);
      if PastLeftEdge(layer, obstacles[n]) then kept else kept + [obstacles[n]]
  }

  /** Culling a prefix one obstacle longer decides that one obstacle and appends it if it stays. */
  lemma CulledPrefixStep(layer: Point, obstacles: seq<Point>, i: nat)
    requires i < |obstacles|
    ensures Culled(layer, obstacles[..i + 1])
            == Culled(layer, obstacles[..i]) + (if PastLeftEdge(layer, obstacles[i]) then [] else [obstacles[i]])
  {
    assert obstacles[..i + 1][..i] == obstacles[..i];
  }

  /** Layer position of a new obstacle whose scene position is (SpawnX, y). */
  function SpawnPosition(layer: Point, y: real): (p: Point)
    ensures ToScene(layer, p) == Point(SpawnX, y)
    ensures !PastLeftEdge(layer, p)
  {
    LayerRoundTrip(layer, Point(SpawnX, y));
    ToLayer(layer, Point(SpawnX, y))
  }

  /** Culling keeps only obstacles that were there and have not left the scene. */
  lemma {:induction false} CulledOnlySurvivors(layer: Point, obstacles: seq<Point>, p: Point)
    requires p in Culled(layer, obstacles)
    ensures p in obstacles && !PastLeftEdge(layer, p)
    decreases |obstacles|
  {
    var n := |obstacles| - 1;
    var kept := Culled(layer, obstacles[..n]);
    if p in kept {
      CulledOnlySurvivors(layer, obstacles[..n], p);
    }
  }

  /** Culling drops only obstacles that have left: every other one is kept. */
  lemma {:induction false} CulledKeepsSurvivors(layer: Point, obstacles: seq<Point>, i: int)
    requires 0 <= i < |obstacles|
    requires !PastLeftEdge(layer, obstacles[i])
    ensures obstacles[i] in Culled(layer, obstacles)
    decreases |obstacles|
  {
    var n := |obstacles| - 1;
    if i < n {
      assert obstacles[..n][i] == obstacles[i];
      CulledKeepsSurvivors(layer, obstacles[..n], i);
    }
  }

  /**
   * Culling works obstacle by obstacle and keeps the order: culling a concatenation
   * is the concatenation of the culled parts.
   */
  lemma {:induction false} CulledAppend(layer: Point, a: seq<Point>, b: seq<Point>)
    ensures Culled(layer, a + b) == Culled(layer, a) + Culled(layer, b)
    decreases |b|
  {
    if b == [] {
      assert a + b == a;
    } else {
      var n := |b| - 1;
      assert (a + b)[..|a + b| - 1] == a + b[..n];
      CulledAppend(layer, a, b[..n]);
    }
  }

  /** An obstacle that has not left the scene is kept; one that has is dropped. */
  lemma CulledSingle(layer: Point, p: Point)
    ensures Culled(layer, [p]) == if PastLeftEdge(layer, p) then [] else [p]
  {
  }

  /** When nothing has left the scene, culling keeps every obstacle. */
  lemma {:induction false} CulledNone(layer: Point, obstacles: seq<Point>)
    requires forall i :: 0 <= i < |obstacles| ==> !PastLeftEdge(layer, obstacles[i])
    ensures Culled(layer, obstacles) == obstacles
    decreases |obstacles|
  {
    if obstacles != [] {
      var n := |obstacles| - 1;
      CulledNone(layer, obstacles[..n]);
      assert obstacles[..n] + [obstacles[n]] == obstacles;
    }
  }
}
