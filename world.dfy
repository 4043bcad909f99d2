// Coordinates, layers and the fixed frame step shared by the ground and the obstacles.
//
// The scroll layer and the obstacle layer are direct children of the scene and are only
// ever translated, so converting a child's position between a layer and the scene is an
// addition or a subtraction of the layer's own position.

module World {

  /** A position or a size in points (CGFloat becomes real). */
  datatype Point = Point(x: real, y: real)

  /** Horizontal scrolling speed of both layers, in points per second. */
  const ScrollSpeed: real := 100.0

  /** Time step added per frame, in seconds; the frame's own timestamp is never used. */
  const FixedDelta: real := 1.0 / 60.0

  /** Scene coordinates of a point given in the coordinates of a layer placed at `layer`. */
  function ToScene(layer: Point, p: Point): Point
  {
    Point(layer.x + p.x, layer.y + p.y)
  }

  /** Coordinates, in a layer placed at `layer`, of a point given in scene coordinates. */
  function ToLayer(layer: Point, q: Point): Point
  {
    Point(q.x - layer.x, q.y - layer.y)
  }

  /** A layer's position after one frame of scrolling. */
  function Shifted(layer: Point): (r: Point)
    ensures r.y == layer.y
    ensures r.x < layer.x
    ensures layer.x - r.x == ScrollSpeed * FixedDelta
  {
    Point(layer.x - ScrollSpeed * FixedDelta, layer.y)
  }

  /** Converting a scene point into a layer and back gives the same point. */
  lemma LayerRoundTrip(layer: Point, q: Point)
    ensures ToScene(layer, ToLayer(layer, q)) == q
  {
  }

  /** Scrolling moves every child of a layer left in the scene and keeps its height. */
  lemma ShiftedMovesChildrenLeft(layer: Point, p: Point)
    ensures ToScene(Shifted(layer), p).x == ToScene(layer, p).x - ScrollSpeed * FixedDelta
    ensures ToScene(Shifted(layer), p).y == ToScene(layer, p).y
  {
  }
}
