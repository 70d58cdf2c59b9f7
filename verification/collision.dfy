/**
 Axis-aligned bounding-box collision between the player's car and an
 obstacle or a pedestrian (car.c lines 279-291). Boxes are integer
 rectangles; a box with corner (x, y) and size (w, h) covers the pixels
 x <= px < x + w, y <= py < y + h.
 */
module Collision {
  import opened Config
  import opened Entities

  datatype Box = Box(x: int, y: int, w: int, h: int)

  function CarBox(car: Car): Box {
    Box(car.x, car.y, CarSize, CarSize)
  }

  function ObstacleBox(o: Obstacle): Box {
    Box(o.x, o.y, CarSize, CarSize)
  }

  function PedestrianBox(p: Pedestrian): Box {
    Box(p.x, p.y, PedestrianSize, PedestrianSize)
  }

  /** The strict-inequality overlap test both collision checks perform. */
  predicate Overlap(a: Box, b: Box) {
    && a.x < b.x + b.w
    && a.x + a.w > b.x
    && a.y < b.y + b.h
    && a.y + a.h > b.y
  }

  predicate Covers(b: Box, px: int, py: int) {
    b.x <= px < b.x + b.w && b.y <= py < b.y + b.h
  }

  /** Independent reading of a collision: some pixel lies in both boxes. */
  ghost predicate SharePixel(a: Box, b: Box) {
    exists px, py :: Covers(a, px, py) && Covers(b, px, py)
  }

  predicate NonEmpty(b: Box) {
    b.w > 0 && b.h > 0
  }

  /** For boxes with positive size, the strict overlap test holds exactly
      when the boxes share a pixel. */
  lemma OverlapIffSharePixel(a: Box, b: Box)
    requires NonEmpty(a) && NonEmpty(b)
    ensures Overlap(a, b) <==> SharePixel(a, b)
  {
    if Overlap(a, b) {
      var px := if a.x < b.x then b.x else a.x;
      var py := if a.y < b.y then b.y else a.y;
      assert Covers(a, px, py) && Covers(b, px, py);
    }
  }

  /** Car against obstacle: two CarSize squares collide iff they share a
      pixel; the test does not depend on which box is named first. */
  predicate CheckCollision(car: Car, o: Obstacle)
    ensures CheckCollision(car, o) <==> SharePixel(CarBox(car), ObstacleBox(o))
    ensures CheckCollision(car, o) <==> Overlap(ObstacleBox(o), CarBox(car))
  {
    OverlapIffSharePixel(CarBox(car), ObstacleBox(o));
    Overlap(CarBox(car), ObstacleBox(o))
  }

  /** Car against pedestrian: the same test with a PedestrianSize square. */
  predicate CheckPedestrianCollision(car: Car, p: Pedestrian)
    ensures CheckPedestrianCollision(car, p) <==> SharePixel(CarBox(car), PedestrianBox(p))
    ensures CheckPedestrianCollision(car, p) <==> Overlap(PedestrianBox(p), CarBox(car))
  {
    OverlapIffSharePixel(CarBox(car), PedestrianBox(p));
    Overlap(CarBox(car), PedestrianBox(p))
  }

  /** Overlap is symmetric. */
  lemma OverlapSymmetric(a: Box, b: Box)
    ensures Overlap(a, b) <==> Overlap(b, a)
  {
  }

  /** Boxes that only touch along an edge do not collide. */
  lemma TouchingBoxesDoNotOverlap(a: Box, b: Box)
    requires a.x + a.w == b.x || b.x + b.w == a.x || a.y + a.h == b.y || b.y + b.h == a.y
    ensures !Overlap(a, b)
  {
  }
}
