/** The hemispherical (fisheye) projection: the image centre looks straight
    up, and the distance from the centre grows linearly with the angle from
    the zenith, FOV radians across the full image width. */
module Hemispherical {
  import opened Basics
  import opened Directions

  /** The fisheye's field of view: half a turn from one side of the image
      to the other. */
  const FOV: real := PI

  /** The image centre. */
  const Centre := Point(0.5, 0.5)

  /** Squared distance of a point from the image centre. */
  function CentreDistanceSquared(p: Point): real
  {
    (p.x - 0.5) * (p.x - 0.5) + (p.y - 0.5) * (p.y - 0.5)
  }

  /** Every point has a direction (there is no gap on this side): altitude
      falls from pi/2 at the centre with the distance from it, and the
      azimuth is the angle of the point around the centre. */
  function ToDirection(m: MathLib, p: Point): (r: Option<Direction>)
    ensures r.Some? && r.value.AnglesDir?
  {
    var centerX, centerY := p.x - 0.5, p.y - 0.5;
    var centerDistance := m.sqrt(CentreDistanceSquared(p));
    var centerDistanceAngle := centerDistance * FOV;
    var altitude := PI / 2.0 - centerDistanceAngle;
    if centerX == 0.0 then
      Some(AnglesDir(Angles(azimuth := if centerY < 0.0 then -PI / 2.0 else PI / 2.0, altitude := altitude)))
    else
      var azimuth := m.atan2(centerY, centerX);
      Some(AnglesDir(Angles(azimuth := if azimuth < 0.0 then azimuth + 2.0 * PI else azimuth, altitude := altitude)))
  }

  /** With sqrt non-negative and atan2 in [-pi, pi]: the altitude is at most
      pi/2; on the vertical line through the centre the azimuth is pi/2
      below it and -pi/2 above it (outside [0, 2*pi)); everywhere else the
      azimuth lies in [0, 2*pi). */
  lemma ToDirectionRange(m: MathLib, p: Point)
    requires SqrtLaws(m) && Atan2Laws(m)
    ensures var a := ToDirection(m, p).value.angles;
      && a.altitude <= PI / 2.0
      && (p.x == 0.5 ==> a.azimuth == (if p.y < 0.5 then -PI / 2.0 else PI / 2.0))
      && (p.x != 0.5 ==> 0.0 <= a.azimuth < 2.0 * PI)
  {
    SqrtNonNegative(m, CentreDistanceSquared(p));
    if p.x != 0.5 {
      Atan2Bounded(m, p.y - 0.5, p.x - 0.5);
    }
  }

  /** Where a direction falls in the image plane, before the gate. */
  function Unclipped(m: MathLib, a: Angles): Point
  {
    var centerDistanceAngle := PI / 2.0 - a.altitude;
    var centerDistance := centerDistanceAngle / FOV;
    Point(centerDistance * m.cos(a.azimuth) + 0.5, centerDistance * m.sin(a.azimuth) + 0.5)
  }

  /** A direction has a point exactly when it falls on the image; outside it
      the projection has a gap. */
  function ToPoint(m: MathLib, d: Direction): (r: Option<Point>)
    ensures r.Some? <==> InUnitSquare(Unclipped(m, AsAngles(m, d)))
    ensures r.Some? ==> r.value == Unclipped(m, AsAngles(m, d)) && InUnitSquare(r.value)
  {
    var angles := AsAngles(m, d);
    var q := Unclipped(m, angles);
    if q.x < 0.0 || q.x > 1.0 then None
    else if q.y < 0.0 || q.y > 1.0 then None
    else Some(Point(q.x, q.y))
  }

  /** The zenith lands on the image centre whatever its azimuth, with no
      assumption about sin and cos. */
  lemma ZenithIsCentre(m: MathLib, azimuth: real)
    ensures ToPoint(m, AnglesDir(Angles(azimuth, PI / 2.0))) == Some(Centre)
  {
    var q := Unclipped(m, Angles(azimuth, PI / 2.0));
    assert q == Centre;
  }

  /** With sqrt(0) == 0 the centre looks at the zenith (azimuth pi/2 by the
      vertical-line fallback) and maps back to itself. */
  lemma CentreRoundTrip(m: MathLib)
    requires SqrtLaws(m)
    ensures ToDirection(m, Centre) == Some(AnglesDir(Angles(PI / 2.0, PI / 2.0)))
    ensures ToPoint(m, ToDirection(m, Centre).value) == Some(Centre)
  {
    assert CentreDistanceSquared(Centre) == 0.0;
    ZenithIsCentre(m, PI / 2.0);
  }
}
