/** The three projections behind one interface: point to direction, and
    direction back to point, either of which may have a gap. */
module Projections {
  import opened Basics
  import opened Directions
  import Cubemap
  import Equirectangular
  import Hemispherical

  datatype Projection = CubemapProjection | EquirectangularProjection | HemisphericalProjection

  /** A projection's to_direction. Only the cubemap has gaps on this side. */
  function ToDirection(m: MathLib, proj: Projection, p: Point): (r: Option<Direction>)
    ensures proj != CubemapProjection ==> r.Some?
    ensures proj == CubemapProjection ==> (r.None? <==> !Cubemap.InCross(Trunc(p.x * 4.0), Trunc(p.y * 3.0)))
  {
    match proj
    case CubemapProjection => Cubemap.ToDirection(p)
    case EquirectangularProjection => Equirectangular.ToDirection(p)
    case HemisphericalProjection => Hemispherical.ToDirection(m, p)
  }

  /** A projection's to_point, with the exception the cubemap raises for
      the null vector. Only the hemispherical projection has gaps on this
      side; the cubemap and hemispherical points always lie on the image. */
  function ToPoint(m: MathLib, proj: Projection, d: Direction): (r: Result<Option<Point>>)
    ensures proj != CubemapProjection ==> r.Ok?
    ensures proj != HemisphericalProjection && r.Ok? ==> r.value.Some?
    ensures proj != EquirectangularProjection && r.Ok? && r.value.Some? ==> InUnitSquare(r.value.value)
    ensures proj == CubemapProjection ==> (r.Raise? <==> AsVector(m, d) == Origin)
  {
    match proj
    case CubemapProjection => Cubemap.ToPoint(m, d)
    case EquirectangularProjection => Ok(Equirectangular.ToPoint(m, d))
    case HemisphericalProjection => Ok(Hemispherical.ToPoint(m, d))
  }
}
