/**
 * Planar geometry of the index: coordinates, feature bounding boxes, the
 * rtreego rectangles built from them, and the probe rectangle a point query
 * searches with. Coordinates are exact reals (x = longitude, y = latitude).
 */
module Rects {
  import opened Wrappers
  import opened Errors

  /** geom.Coord and rtreego.Point in two dimensions. */
  datatype Point = Point(x: real, y: real)

  /** geom.Rect, one bounding box of a feature: south-west corner Min, north-east corner Max. */
  datatype BBox = BBox(min: Point, max: Point)

  /** rtreego.Rect as NewRect builds it: an origin and a side length per axis. */
  datatype Rect = Rect(origin: Point, lengths: Point)
  {
    /** The corner opposite the origin. */
    function Far(): Point { Point(origin.x + lengths.x, origin.y + lengths.y) }
  }

  /**
   * Which side lengths rtreego.NewRect accepts. The library's rule is not part
   * of this model, so every caller takes it as a parameter.
   */
  type LengthsRule = (real, real) -> bool

  /** The side of the probe rectangle of a point query, on both axes. */
  const ProbeSide: real := 0.0001

  /** rtreego.NewRect(p, [lx, ly]): the rectangle, or the error the library reports. */
  function NewRect(p: Point, lx: real, ly: real, ok: LengthsRule): Result<Rect, Error>
  {
    if ok(lx, ly) then Ok(Rect(p, Point(lx, ly))) else Err(RectError(lx, ly))
  }

  /** The rectangle IndexFeature builds for one bounding box: origin sw, lengths ne - sw. */
  function BoxRect(b: BBox, ok: LengthsRule): (r: Result<Rect, Error>)
    ensures r.Ok? <==> ok(b.max.x - b.min.x, b.max.y - b.min.y)
    ensures r.Ok? ==> r.value.origin == b.min && r.value.Far() == b.max
    ensures r.Err? ==> r.error == RectError(b.max.x - b.min.x, b.max.y - b.min.y)
  {
    var sw, ne := b.min, b.max;
    NewRect(Point(sw.x, sw.y), ne.x - sw.x, ne.y - sw.y, ok)
  }

  /** The probe of getIntersectsByCoord: anchored at the coordinate (not centred on it). */
  function ProbeRect(c: Point, ok: LengthsRule): (r: Result<Rect, Error>)
    ensures r.Ok? <==> ok(ProbeSide, ProbeSide)
    ensures r.Ok? ==> r.value.origin == c && r.value.Far() == Point(c.x + ProbeSide, c.y + ProbeSide)
    ensures r.Err? ==> r.error == RectError(ProbeSide, ProbeSide)
  {
    NewRect(Point(c.x, c.y), ProbeSide, ProbeSide, ok)
  }

  /**
   * rtreego's overlap test: on each axis the open extents overlap, so
   * rectangles that only touch along an edge do not intersect.
   */
  predicate Intersects(a: Rect, b: Rect)
  {
    && a.origin.x < b.Far().x && b.origin.x < a.Far().x
    && a.origin.y < b.Far().y && b.origin.y < a.Far().y
  }

  /** The point lies in the box, its south-west edges included and its north-east edges excluded. */
  predicate InBox(c: Point, b: BBox)
  {
    b.min.x <= c.x < b.max.x && b.min.y <= c.y < b.max.y
  }

  /**
   * Exactly which boxes a probe finds: those whose extent, pushed one probe
   * side to the south-west, holds the point. A point on a box's north or east
   * edge is therefore missed, and one just south or west of it is found.
   */
  lemma ProbeWindow(c: Point, b: BBox, ok: LengthsRule)
    requires BoxRect(b, ok).Ok? && ProbeRect(c, ok).Ok?
    ensures Intersects(BoxRect(b, ok).value, ProbeRect(c, ok).value) <==>
      b.min.x - ProbeSide < c.x < b.max.x && b.min.y - ProbeSide < c.y < b.max.y
  {
  }

  /** A point inside a box is always found by the probe. */
  lemma ProbeFindsBox(c: Point, b: BBox, ok: LengthsRule)
    requires BoxRect(b, ok).Ok? && ProbeRect(c, ok).Ok?
    requires InBox(c, b)
    ensures Intersects(BoxRect(b, ok).value, ProbeRect(c, ok).value)
  {
    ProbeWindow(c, b, ok);
  }
}
