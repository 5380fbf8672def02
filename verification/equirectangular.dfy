/** The equirectangular projection: azimuth runs linearly across the image
    (a full turn) and altitude linearly down it (half a turn). */
module Equirectangular {
  import opened Basics
  import opened Directions

  /** Width over height of an equirectangular image. */
  function AspectRatio(): real
  {
    2.0
  }

  /** Every point has a direction: x scaled to a full turn of azimuth, and
      y to altitudes from -pi/2 at the top edge to pi/2 at the bottom. */
  function ToDirection(p: Point): (r: Option<Direction>)
    ensures r.Some? && r.value.AnglesDir?
    ensures InUnitSquare(p) ==> InRange(r.value.angles)
  {
    Some(AnglesDir(Angles(azimuth := p.x * 2.0 * PI, altitude := (p.y - 0.5) * PI)))
  }

  /** Every direction has a point; angles in clamp's range land on the image. */
  function ToPoint(m: MathLib, d: Direction): (r: Option<Point>)
    ensures r.Some?
    ensures d.AnglesDir? && InRange(d.angles) ==> InUnitSquare(r.value)
  {
    var angles := AsAngles(m, d);
    Some(Point(x := angles.azimuth / (2.0 * PI), y := angles.altitude / PI + 0.5))
  }

  /** The aspect ratio is the ratio of the angular spans across and down the
      image, so a pixel covers the same angle in both directions. */
  lemma AspectRatioMatchesSpans()
    ensures var left, right := ToDirection(Point(0.0, 0.0)).value.angles, ToDirection(Point(1.0, 0.0)).value.angles;
            var top, bottom := ToDirection(Point(0.0, 0.0)).value.angles, ToDirection(Point(0.0, 1.0)).value.angles;
            right.azimuth - left.azimuth == AspectRatio() * (bottom.altitude - top.altitude)
  {
  }

  /** Any point survives the trip to its direction and back. */
  lemma PointRoundTrip(m: MathLib, p: Point)
    ensures ToPoint(m, ToDirection(p).value) == Some(p)
  {
  }

  /** Any angle pair survives the trip to its point and back. */
  lemma AnglesRoundTrip(m: MathLib, a: Angles)
    ensures ToDirection(ToPoint(m, AnglesDir(a)).value) == Some(AnglesDir(a))
  {
  }

  /** The image centre looks along the horizon, half a turn round. */
  lemma CentreDirection()
    ensures ToDirection(Point(0.5, 0.5)) == Some(AnglesDir(Angles(PI, 0.0)))
  {
  }

  /** Azimuths 0 and 2*pi are the same direction but land on opposite edges
      of the image, not on the same point. */
  lemma SeamEdges(m: MathLib, altitude: real)
    ensures ToPoint(m, AnglesDir(Angles(0.0, altitude))).value.x == 0.0
    ensures ToPoint(m, AnglesDir(Angles(2.0 * PI, altitude))).value.x == 1.0
  {
  }
}
