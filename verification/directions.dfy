/** The direction algebra: normalised image points, and directions on the
    sphere held either as a vector or as an (azimuth, altitude) pair. */
module Directions {
  import opened Basics

  /** A normalised image coordinate; [0,1] x [0,1] covers the image. */
  datatype Point = Point(x: real, y: real)

  /** The image proper: both coordinates in [0, 1]. */
  predicate InUnitSquare(p: Point)
  {
    0.0 <= p.x <= 1.0 && 0.0 <= p.y <= 1.0
  }

  /** A direction as a vector; only the ratios of its components matter. */
  datatype Vector = Vector(x: real, y: real, z: real)

  /** A direction as horizontal (azimuth) and vertical (altitude) angles, in radians. */
  datatype Angles = Angles(azimuth: real, altitude: real)

  /** A direction in either representation. */
  datatype Direction = VectorDir(vector: Vector) | AnglesDir(angles: Angles)

  const Origin := Vector(0.0, 0.0, 0.0)

  /** Angles.as_vector: rotate (1, 0, 0) by the altitude in the x/y plane,
      then by the azimuth in the x/z plane. */
  function AnglesAsVector(m: MathLib, a: Angles): Vector
  {
    var x0, y0, z0 := 1.0, 0.0, 0.0;
    var x1, y1 := x0 * m.cos(a.altitude) - y0 * m.sin(a.altitude),
                  x0 * m.sin(a.altitude) + y0 * m.cos(a.altitude);
    var x2, z2 := x1 * m.cos(a.azimuth) - z0 * m.sin(a.azimuth),
                  x1 * m.sin(a.azimuth) + z0 * m.cos(a.azimuth);
    Vector(x2, y1, z2)
  }

  /** The squared length of the vector's projection onto the horizontal x/z plane. */
  function HorizontalNormSquared(v: Vector): real
  {
    v.x * v.x + v.z * v.z
  }

  /** Vector.as_angles, with its fallbacks for the null vector, the poles and
      the x == 0 meridian. */
  function VectorAsAngles(m: MathLib, v: Vector): (a: Angles)
    ensures v == Origin ==> a == Angles(0.0, 0.0)
    ensures v.x == 0.0 && v.z == 0.0 && v.y < 0.0 ==> a == Angles(0.0, -PI / 2.0)
    ensures v.x == 0.0 && v.z == 0.0 && v.y > 0.0 ==> a == Angles(0.0, PI / 2.0)
    ensures v.x == 0.0 && v.z != 0.0 ==> a.azimuth == (if v.z < 0.0 then -PI / 2.0 else PI / 2.0)
  {
    if v.x == 0.0 && v.z == 0.0 then
      if v.y == 0.0 then Angles(azimuth := 0.0, altitude := 0.0)
      else if v.y < 0.0 then Angles(azimuth := 0.0, altitude := -PI / 2.0)
      else Angles(azimuth := 0.0, altitude := PI / 2.0)
    else
      var altitude := m.atan2(v.y, m.sqrt(HorizontalNormSquared(v)));
      if v.x == 0.0 then
        Angles(azimuth := if v.z < 0.0 then -PI / 2.0 else PI / 2.0, altitude := altitude)
      else
        var azimuth := m.atan2(v.z, v.x);
        Angles(azimuth := if azimuth < 0.0 then azimuth + 2.0 * PI else azimuth, altitude := altitude)
  }

  /** Given atan2's range, the azimuth lands in [0, 2*pi) except on the x == 0,
      z < 0 meridian, where the fallback leaves it at -pi/2; altitude stays in [-pi, pi]. */
  lemma VectorAsAnglesRange(m: MathLib, v: Vector)
    requires Atan2Laws(m)
    ensures var a := VectorAsAngles(m, v);
      && -PI <= a.altitude <= PI
      && (a.azimuth < 0.0 <==> v.x == 0.0 && v.z < 0.0)
      && (a.azimuth < 0.0 ==> a.azimuth == -PI / 2.0)
      && a.azimuth < 2.0 * PI
  {
    if v.x == 0.0 && v.z == 0.0 {
    } else if v.x == 0.0 {
      Atan2Bounded(m, v.y, m.sqrt(HorizontalNormSquared(v)));
    } else {
      Atan2Bounded(m, v.y, m.sqrt(HorizontalNormSquared(v)));
      Atan2Bounded(m, v.z, v.x);
    }
  }

  /** Direction.as_vector: a vector is returned as is. */
  function AsVector(m: MathLib, d: Direction): (v: Vector)
    ensures d.VectorDir? ==> v == d.vector
  {
    match d
    case VectorDir(v) => v
    case AnglesDir(a) => AnglesAsVector(m, a)
  }

  /** Direction.as_angles: an angle pair is returned as is. */
  function AsAngles(m: MathLib, d: Direction): (a: Angles)
    ensures d.AnglesDir? ==> a == d.angles
  {
    match d
    case VectorDir(v) => VectorAsAngles(m, v)
    case AnglesDir(a) => a
  }

  /** The range clamp promises: altitude in [-pi/2, pi/2], azimuth in [0, 2*pi]. */
  predicate InRange(a: Angles)
  {
    && -PI / 2.0 <= a.altitude <= PI / 2.0
    && 0.0 <= a.azimuth <= 2.0 * PI
  }

  /** c is what clamp makes of a, with k turns added to the altitude and j
      turns to the azimuth: the altitude is wrapped into [-pi, pi], and one
      beyond the poles is reflected back with the azimuth turned by pi. A
      value already in range is not wrapped; one wrapped up from below stops
      short of the upper bound, and one wrapped down from above stays above
      the lower bound. */
  ghost predicate ClampedFrom(a: Angles, c: Angles, k: int, j: int)
  {
    var w := a.altitude + Turns(k);
    var turned := if w < -PI / 2.0 || w > PI / 2.0 then a.azimuth + PI else a.azimuth;
    && Wrapped(a.altitude, w, -PI, PI)
    && c.altitude == (if w < -PI / 2.0 then -PI - w else if w > PI / 2.0 then PI - w else w)
    && c.azimuth == turned + Turns(j)
    && Wrapped(turned, c.azimuth, 0.0, 2.0 * PI)
  }

  /** r is x wrapped into [lo, hi] the way clamp's loops do it. */
  predicate Wrapped(x: real, r: real, lo: real, hi: real)
  {
    && lo <= r <= hi
    && (lo <= x <= hi ==> r == x)
    && (x < lo ==> r < hi)
    && (x > hi ==> r > lo)
  }

  /** The wrapped value is unique: two values in [-pi, pi] (or [0, 2*pi])
      that differ from x by whole turns and satisfy the loop bounds agree.
      So ClampedFrom, and with it Clamp's contract, fixes the result. */
  lemma WrappedUnique(x: real, k1: int, k2: int, lo: real)
    requires Wrapped(x, x + Turns(k1), lo, lo + 2.0 * PI)
    requires Wrapped(x, x + Turns(k2), lo, lo + 2.0 * PI)
    ensures k1 == k2
  {
  }

  /** Clamp's result is determined by a alone. */
  lemma ClampedFromUnique(a: Angles, c1: Angles, k1: int, j1: int, c2: Angles, k2: int, j2: int)
    requires ClampedFrom(a, c1, k1, j1) && ClampedFrom(a, c2, k2, j2)
    ensures c1 == c2
  {
    WrappedUnique(a.altitude, k1, k2, -PI);
    var w := a.altitude + Turns(k1);
    var turned := if w < -PI / 2.0 || w > PI / 2.0 then a.azimuth + PI else a.azimuth;
    WrappedUnique(turned, j1, j2, 0.0);
  }

  /** Whole turns outside the azimuth range land on the side they came
      from: -2*pi becomes 0 and 4*pi becomes 2*pi. */
  lemma {:induction false} WholeTurnsClamp(c: Angles, k: int, j: int)
    ensures ClampedFrom(Angles(-2.0 * PI, 0.0), c, k, j) ==> c == Angles(0.0, 0.0)
    ensures ClampedFrom(Angles(4.0 * PI, 0.0), c, k, j) ==> c == Angles(2.0 * PI, 0.0)
  {
    if ClampedFrom(Angles(-2.0 * PI, 0.0), c, k, j) {
      assert ClampedFrom(Angles(-2.0 * PI, 0.0), Angles(0.0, 0.0), 0, 1);
      ClampedFromUnique(Angles(-2.0 * PI, 0.0), c, k, j, Angles(0.0, 0.0), 0, 1);
    }
    if ClampedFrom(Angles(4.0 * PI, 0.0), c, k, j) {
      assert ClampedFrom(Angles(4.0 * PI, 0.0), Angles(2.0 * PI, 0.0), 0, -1);
      ClampedFromUnique(Angles(4.0 * PI, 0.0), c, k, j, Angles(2.0 * PI, 0.0), 0, -1);
    }
  }

  /** The first two loops of clamp: whole turns added or removed until the
      altitude lies in [-pi, pi]. */
  method WrapAltitude(altitude: real) returns (r: real)
    ensures exists k :: r == altitude + Turns(k)
    ensures Wrapped(altitude, r, -PI, PI)
  {
    r := altitude;
    ghost var k := 0;
    while r < -PI
      invariant r == altitude + Turns(k)
      invariant r == altitude || r < PI
      invariant -PI <= altitude ==> r == altitude
      decreases (-r).Floor
    {
      r := r + 2.0 * PI;
      k := k + 1;
    }
    while r > PI
      invariant r == altitude + Turns(k)
      invariant -PI <= r
      invariant -PI <= altitude <= PI ==> r == altitude
      invariant altitude < -PI ==> r < PI
      invariant altitude > PI ==> r == altitude || -PI < r
      decreases r.Floor
    {
      r := r - 2.0 * PI;
      k := k - 1;
    }
  }

  /** The last two loops of clamp: whole turns added or removed until the
      azimuth lies in [0, 2*pi]. */
  method WrapAzimuth(azimuth: real) returns (r: real)
    ensures exists j :: r == azimuth + Turns(j)
    ensures Wrapped(azimuth, r, 0.0, 2.0 * PI)
  {
    r := azimuth;
    ghost var j := 0;
    while r < 0.0
      invariant r == azimuth + Turns(j)
      invariant r == azimuth || r < 2.0 * PI
      invariant 0.0 <= azimuth ==> r == azimuth
      decreases (-r).Floor
    {
      r := r + 2.0 * PI;
      j := j + 1;
    }
    while r > 2.0 * PI
      invariant r == azimuth + Turns(j)
      invariant 0.0 <= r
      invariant 0.0 <= azimuth <= 2.0 * PI ==> r == azimuth
      invariant azimuth < 0.0 ==> r < 2.0 * PI
      invariant azimuth > 2.0 * PI ==> r == azimuth || 0.0 < r
      decreases r.Floor
    {
      r := r - 2.0 * PI;
      j := j - 1;
    }
  }

  /** Angles.clamp, returning the clamped pair instead of updating in place.
      The result is in range, is obtained from a by whole turns and the
      pole reflection, and equals a when a is already in range (so clamping
      twice is the same as clamping once). */
  method Clamp(a: Angles) returns (c: Angles)
    ensures InRange(c)
    ensures exists k, j :: ClampedFrom(a, c, k, j)
    ensures InRange(a) ==> c == a
  {
    var altitude := WrapAltitude(a.altitude);
    ghost var k :| altitude == a.altitude + Turns(k);
    var azimuth := a.azimuth;
    if altitude < -0.5 * PI {
      altitude := -PI - altitude;
      azimuth := azimuth + PI;
    } else if altitude > 0.5 * PI {
      altitude := PI - altitude;
      azimuth := azimuth + PI;
    }
    ghost var turned := azimuth;
    azimuth := WrapAzimuth(azimuth);
    ghost var j :| azimuth == turned + Turns(j);
    c := Angles(azimuth, altitude);
    assert ClampedFrom(a, c, k, j);
  }
}
