// The scrolling ground: a fixed pool of tiles that are moved back to the right edge
// of the scene once they have left it on the left.

module Ground {
  import opened World

  /** A ground sprite: its position in the scroll layer's coordinates and its width. */
  datatype Tile = Tile(pos: Point, width: real)

  /** The tile's centre, in scene coordinates, is at or left of minus half its width. */
  predicate OffLeft(layer: Point, t: Tile)
  {
    ToScene(layer, t.pos).x <= -t.width / 2.0
  }

  /** A tile is off the left edge exactly when its right edge is at or left of scene x = 0. */
  lemma OffLeftIsRightEdgePastZero(layer: Point, t: Tile)
    ensures OffLeft(layer, t) <==> ToScene(layer, t.pos).x + t.width / 2.0 <= 0.0
  {
  }

  /** Scene x at which a recycled tile re-enters: half the scene width plus the tile's width. */
  function ReentryX(sceneWidth: real, t: Tile): real
  {
    sceneWidth / 2.0 + t.width
  }

  /** One tile after the scroll layer has moved to `layer`. */
  function RecycledTile(layer: Point, sceneWidth: real, t: Tile): (r: Tile)
    ensures r.width == t.width
    ensures OffLeft(layer, t) ==>
              ToScene(layer, r.pos) == Point(ReentryX(sceneWidth, t), ToScene(layer, t.pos).y)
    ensures !OffLeft(layer, t) ==> r == t
  {
    if OffLeft(layer, t) then
      var groundPosition := ToScene(layer, t.pos);
      var r := t.(pos := ToLayer(layer, Point(ReentryX(sceneWidth, t), groundPosition.y)));
      LayerRoundTrip(layer, Point(ReentryX(sceneWidth, t), groundPosition.y));
      r
    else
      t
  }

  /** The whole pool after the scroll layer has moved to `layer`, tile by tile. */
  function ScrolledTiles(layer: Point, sceneWidth: real, tiles: seq<Tile>): seq<Tile>
  {
    seq(|tiles|, i requires 0 <= i < |tiles| => RecycledTile(layer, sceneWidth, tiles[i]))
  }

  /** Every tile of the pool lies, in the scene, no further right than its re-entry point. */
  predicate WithinReach(layer: Point, sceneWidth: real, tiles: seq<Tile>)
  {
    forall i :: 0 <= i < |tiles| ==> ToScene(layer, tiles[i].pos).x <= ReentryX(sceneWidth, tiles[i])
  }

  /**
   * Recycling is immediate: after a scroll no tile of the pool is left off the left
   * edge, as long as the scene has a positive width and no tile a negative one.
   */
  lemma ScrolledPoolOnScreen(layer: Point, sceneWidth: real, tiles: seq<Tile>)
    requires 0.0 < sceneWidth
    requires forall i :: 0 <= i < |tiles| ==> 0.0 <= tiles[i].width
    ensures |ScrolledTiles(layer, sceneWidth, tiles)| == |tiles|
    ensures forall i :: 0 <= i < |tiles| ==> !OffLeft(layer, ScrolledTiles(layer, sceneWidth, tiles)[i])
  {
  }

  /**
   * Tiles only move left or jump to their re-entry point, so a pool that starts within
   * reach of the right edge stays there after each frame of scrolling.
   */
  lemma ScrollingKeepsReach(layer: Point, sceneWidth: real, tiles: seq<Tile>)
    requires WithinReach(layer, sceneWidth, tiles)
    ensures WithinReach(Shifted(layer), sceneWidth, ScrolledTiles(Shifted(layer), sceneWidth, tiles))
  {
  }

  /** A scroll changes neither the number of tiles nor their widths. */
  lemma ScrollingKeepsPool(layer: Point, sceneWidth: real, tiles: seq<Tile>)
    ensures |ScrolledTiles(layer, sceneWidth, tiles)| == |tiles|
    ensures forall i :: 0 <= i < |tiles| ==> ScrolledTiles(layer, sceneWidth, tiles)[i].width == tiles[i].width
  {
  }
}
