/** The cubemap projection. The six faces of a cube around the viewer are
    laid out as a cross in a 4x3 grid of square cells:

           NegY
      PosZ NegX NegZ PosX
           PosY

    A point is mapped to a face and a local (u, v) offset in that face, and
    from there to a vector with the face's axis component at +1 or -1. */
module Cubemap {
  import opened Basics
  import opened Directions

  datatype Face = NegX | PosX | NegY | PosY | NegZ | PosZ

  /** A position on one face, local coordinates nominally in [0, 1]. */
  datatype FaceCoordinates = FaceCoordinates(face: Face, x: real, y: real)

  /** Grid cell (column, row) to the face drawn there. */
  const FaceLookup: map<(int, int), Face> :=
    map[(1, 1) := NegX, (3, 1) := PosX, (1, 0) := NegY,
        (1, 2) := PosY, (2, 1) := NegZ, (0, 1) := PosZ]

  /** Face to the grid cell (column, row) it is drawn in. */
  function OffsetLookup(f: Face): (int, int)
  {
    match f
    case NegX => (1, 1)
    case PosX => (3, 1)
    case NegY => (1, 0)
    case PosY => (1, 2)
    case NegZ => (2, 1)
    case PosZ => (0, 1)
  }

  /** The cross shape: all of column 1, and all of row 1. */
  predicate InCross(col: int, row: int)
  {
    (col == 1 && 0 <= row <= 2) || (row == 1 && 0 <= col <= 3)
  }

  /** The populated cells are exactly the cells of the cross; the other six
      cells of the 4x3 grid, and every cell off the grid, are gaps. */
  lemma FaceLookupIsCross(col: int, row: int)
    ensures (col, row) in FaceLookup <==> InCross(col, row)
  {
  }

  /** The two tables are inverse to each other. */
  lemma LookupTablesInverse(f: Face, col: int, row: int)
    ensures OffsetLookup(f) in FaceLookup && FaceLookup[OffsetLookup(f)] == f
    ensures (col, row) in FaceLookup ==> OffsetLookup(FaceLookup[(col, row)]) == (col, row)
  {
  }

  /** The face's axis component of v is exactly the face's sign. */
  predicate AxisAtSign(v: Vector, f: Face)
  {
    match f
    case NegX => v.x == -1.0
    case PosX => v.x == 1.0
    case NegY => v.y == -1.0
    case PosY => v.y == 1.0
    case NegZ => v.z == -1.0
    case PosZ => v.z == 1.0
  }

  /** The order in which face_coordinates_from_direction tests the faces. */
  function SearchRank(f: Face): nat
  {
    match f
    case NegX => 0
    case PosX => 1
    case NegY => 2
    case PosY => 3
    case NegZ => 4
    case PosZ => 5
  }

  /** A face's axis component is its sign, and all components lie in [-1, 1]. */
  predicate OnFace(v: Vector, f: Face)
  {
    && -1.0 <= v.x <= 1.0 && -1.0 <= v.y <= 1.0 && -1.0 <= v.z <= 1.0
    && AxisAtSign(v, f)
  }

  /** max(|x|, |y|, |z|). */
  function MaxAbs(v: Vector): (r: real)
    ensures r >= 0.0 && r >= v.x && r >= -v.x && r >= v.y && r >= -v.y && r >= v.z && r >= -v.z
    ensures r == v.x || r == -v.x || r == v.y || r == -v.y || r == v.z || r == -v.z
  {
    var ax := if v.x < 0.0 then -v.x else v.x;
    var ay := if v.y < 0.0 then -v.y else v.y;
    var az := if v.z < 0.0 then -v.z else v.z;
    if ax >= ay && ax >= az then ax else if ay >= az then ay else az
  }

  /** Where the inverse lands on the edge of a face. */
  function ToUv(c: real): real
  {
    (c + 1.0) / 2.0
  }

  /** The cell of the 4x3 grid a point falls in (by truncation toward zero),
      and the face drawn there with the point's offset inside the cell. A
      point in a gap cell has no face. */
  function FaceCoordinatesFromPoint(p: Point): (r: Option<FaceCoordinates>)
    ensures r.Some? <==> InCross(Trunc(p.x * 4.0), Trunc(p.y * 3.0))
    ensures r.Some? ==> OffsetLookup(r.value.face) == (Trunc(p.x * 4.0), Trunc(p.y * 3.0))
    ensures r.Some? ==> PointFromFaceCoordinates(r.value) == p
    ensures r.Some? && 0.0 <= p.x && 0.0 <= p.y ==>
              0.0 <= r.value.x < 1.0 && 0.0 <= r.value.y < 1.0
  {
    var faceIndexX := Trunc(p.x * 4.0);
    var faceOffsetX := p.x * 4.0 - faceIndexX as real;
    var faceIndexY := Trunc(p.y * 3.0);
    var faceOffsetY := p.y * 3.0 - faceIndexY as real;
    FaceLookupIsCross(faceIndexX, faceIndexY);
    if (faceIndexX, faceIndexY) in FaceLookup then
      var face := FaceLookup[(faceIndexX, faceIndexY)];
      LookupTablesInverse(face, faceIndexX, faceIndexY);
      Some(FaceCoordinates(face, faceOffsetX, faceOffsetY))
    else
      None
  }

  /** Points right of or below the image fall in column 4 or row 3 or
      beyond, which hold no face. */
  lemma OffImageIsGap(p: Point)
    requires 1.0 <= p.x || 1.0 <= p.y
    ensures FaceCoordinatesFromPoint(p) == None
  {
  }

  /** Truncation toward zero puts a point just left of the image in column
      0, so it lands on the +z face with a negative offset (flooring would
      have put it in column -1, a gap). */
  lemma LeftOfImageTruncatesOntoPosZ()
    ensures FaceCoordinatesFromPoint(Point(-0.1, 0.5)) == Some(FaceCoordinates(PosZ, -0.4, 0.5))
  {
    assert Trunc(-0.1 * 4.0) == 0;
    assert Trunc(0.5 * 3.0) == 1;
  }

  /** The image point of a face position: the offset placed in the face's
      cell. A face position with offsets in [0, 1] stays on the image. */
  function PointFromFaceCoordinates(fc: FaceCoordinates): (p: Point)
    ensures 0.0 <= fc.x <= 1.0 && 0.0 <= fc.y <= 1.0 ==> InUnitSquare(p)
  {
    var faceOffsets := OffsetLookup(fc.face);
    Point((fc.x + faceOffsets.0 as real) / 4.0, (fc.y + faceOffsets.1 as real) / 3.0)
  }

  /** A face position with offsets in [0, 1) is recovered from its image point. */
  lemma FaceCoordinatesRoundTrip(fc: FaceCoordinates)
    requires 0.0 <= fc.x < 1.0 && 0.0 <= fc.y < 1.0
    ensures FaceCoordinatesFromPoint(PointFromFaceCoordinates(fc)) == Some(fc)
  {
    var p := PointFromFaceCoordinates(fc);
    var cell := OffsetLookup(fc.face);
    TruncOfOffset(fc.x, cell.0);
    TruncOfOffset(fc.y, cell.1);
    assert p.x * 4.0 == fc.x + cell.0 as real;
    assert p.y * 3.0 == fc.y + cell.1 as real;
  }

  /** A cell index plus an offset in [0, 1) truncates to the cell index. */
  lemma TruncOfOffset(offset: real, cell: int)
    requires 0.0 <= offset < 1.0 && 0 <= cell
    ensures Trunc(offset + cell as real) == cell
  {
  }

  /** The vector of a face position: the face's axis at +1 or -1 and the
      other two components 2u-1 and 2v-1 with the face's signs. */
  function DirectionFromFaceCoordinates(fc: FaceCoordinates): (v: Vector)
    ensures 0.0 <= fc.x <= 1.0 && 0.0 <= fc.y <= 1.0 ==> OnFace(v, fc.face)
    ensures v != Origin
  {
    var u, v := fc.x, fc.y;
    match fc.face
    case NegX => Vector(-1.0, 2.0 * v - 1.0, -(2.0 * u - 1.0))
    case PosX => Vector(1.0, 2.0 * v - 1.0, 2.0 * u - 1.0)
    case NegY => Vector(-(2.0 * v - 1.0), -1.0, -(2.0 * u - 1.0))
    case PosY => Vector(2.0 * v - 1.0, 1.0, -(2.0 * u - 1.0))
    case NegZ => Vector(2.0 * u - 1.0, 2.0 * v - 1.0, -1.0)
    case PosZ => Vector(-(2.0 * u - 1.0), 2.0 * v - 1.0, 1.0)
  }

  /** Dividing a component by the largest absolute component gives a value
      in [-1, 1], which is +1 or -1 exactly when the component is that maximum. */
  lemma Normalized(c: real, max: real)
    requires 0.0 < max && -max <= c <= max
    ensures -1.0 <= c / max <= 1.0
    ensures c / max == 1.0 <==> c == max
    ensures c / max == -1.0 <==> c == -max
    ensures c / max * max == c
  {
  }

  /** Every component multiplied by k. */
  function Scale(v: Vector, k: real): Vector
  {
    Vector(v.x * k, v.y * k, v.z * k)
  }

  /** The vector divided by max(|x|, |y|, |z|): it lies on the cube's surface. */
  function Normalize(v: Vector): (w: Vector)
    requires v != Origin
    ensures Scale(w, MaxAbs(v)) == v
    ensures -1.0 <= w.x <= 1.0 && -1.0 <= w.y <= 1.0 && -1.0 <= w.z <= 1.0
    ensures w.x == 1.0 || w.x == -1.0 || w.y == 1.0 || w.y == -1.0 || w.z == 1.0 || w.z == -1.0
  {
    var max := MaxAbs(v);
    MaxAbsZero(v);
    var w := Vector(v.x / max, v.y / max, v.z / max);
    NormalizedFacts(v, max, w);
    ScaleComponents(v, max, w);
    w
  }

  /** Only the null vector has largest absolute component 0. */
  lemma MaxAbsZero(v: Vector)
    ensures MaxAbs(v) == 0.0 <==> v == Origin
  {
    if MaxAbs(v) == 0.0 {
      assert v.x == 0.0 && v.y == 0.0 && v.z == 0.0;
    }
  }

  lemma NormalizedFacts(v: Vector, max: real, w: Vector)
    requires 0.0 < max
    requires -max <= v.x <= max && -max <= v.y <= max && -max <= v.z <= max
    requires max == v.x || max == -v.x || max == v.y || max == -v.y || max == v.z || max == -v.z
    requires w == Vector(v.x / max, v.y / max, v.z / max)
    ensures w.x * max == v.x && w.y * max == v.y && w.z * max == v.z
    ensures -1.0 <= w.x <= 1.0 && -1.0 <= w.y <= 1.0 && -1.0 <= w.z <= 1.0
    ensures w.x == 1.0 || w.x == -1.0 || w.y == 1.0 || w.y == -1.0 || w.z == 1.0 || w.z == -1.0
  {
    Normalized(v.x, max);
    Normalized(v.y, max);
    Normalized(v.z, max);
    if max == v.x || max == -v.x {
      assert w.x == 1.0 || w.x == -1.0;
    } else if max == v.y || max == -v.y {
      assert w.y == 1.0 || w.y == -1.0;
    } else {
      assert w.z == 1.0 || w.z == -1.0;
    }
  }

  lemma ScaleComponents(v: Vector, k: real, w: Vector)
    requires w.x * k == v.x && w.y * k == v.y && w.z * k == v.z
    ensures Scale(w, k) == v
  {
  }

  /** The face a vector points at and the position on it. The vector is
      divided by its largest absolute component and the first axis, in the
      order -x, +x, -y, +y, -z, +z, that reaches exactly -1 or +1 picks the
      face. The null vector divides by zero; no other vector reaches the
      final RuntimeError. */
  function FaceCoordinatesFromDirection(v: Vector): (r: Result<FaceCoordinates>)
    ensures r.Raise? <==> v == Origin
    ensures r.Raise? ==> r.fault == ZeroDivisionError
    ensures r.Ok? ==> 0.0 <= r.value.x <= 1.0 && 0.0 <= r.value.y <= 1.0
    ensures v != Origin ==> AxisAtSign(Normalize(v), r.value.face)
    ensures v != Origin ==>
      forall f :: SearchRank(f) < SearchRank(r.value.face) ==> !AxisAtSign(Normalize(v), f)
  {
    var maxXyz := MaxAbs(v);
    if maxXyz == 0.0 then
      Raise(ZeroDivisionError)
    else
      var n := Normalize(v);
      var x, y, z := n.x, n.y, n.z;
      if x == -1.0 then Ok(FaceCoordinates(NegX, ToUv(-z), ToUv(y)))
      else if x == 1.0 then Ok(FaceCoordinates(PosX, ToUv(z), ToUv(y)))
      else if y == -1.0 then Ok(FaceCoordinates(NegY, ToUv(-z), ToUv(-x)))
      else if y == 1.0 then Ok(FaceCoordinates(PosY, ToUv(-z), ToUv(x)))
      else if z == -1.0 then Ok(FaceCoordinates(NegZ, ToUv(x), ToUv(y)))
      else if z == 1.0 then Ok(FaceCoordinates(PosZ, ToUv(-x), ToUv(y)))
      else Raise(BadDirectionVector)
  }

  /** Face search then face formula gives back the vector scaled onto the
      cube: the same direction, with largest absolute component 1. */
  lemma DirectionRoundTrip(v: Vector)
    requires v != Origin
    ensures FaceCoordinatesFromDirection(v).Ok?
    ensures DirectionFromFaceCoordinates(FaceCoordinatesFromDirection(v).value) == Normalize(v)
  {
  }

  /** Inside a face (offsets strictly between 0 and 1) the face formula is
      undone exactly by the face search. */
  lemma FaceRoundTrip(fc: FaceCoordinates)
    requires 0.0 < fc.x < 1.0 && 0.0 < fc.y < 1.0
    ensures FaceCoordinatesFromDirection(DirectionFromFaceCoordinates(fc)) == Ok(fc)
  {
    var v := DirectionFromFaceCoordinates(fc);
    assert MaxAbs(v) == 1.0;
    assert Normalize(v) == v;
  }

  /** CubemapProjection.to_direction: gap cells have no direction; every
      other point gets a non-null vector, on the cube's surface when the
      point is on the image. */
  function ToDirection(p: Point): (r: Option<Direction>)
    ensures r.None? <==> !InCross(Trunc(p.x * 4.0), Trunc(p.y * 3.0))
    ensures r.Some? ==> r.value.VectorDir? && r.value.vector != Origin
    ensures r.Some? && 0.0 <= p.x && 0.0 <= p.y ==> MaxAbs(r.value.vector) == 1.0
  {
    var faceCoordinates := FaceCoordinatesFromPoint(p);
    if faceCoordinates.None? then None
    else
      var v := DirectionFromFaceCoordinates(faceCoordinates.value);
      Some(VectorDir(v))
  }

  /** CubemapProjection.to_point: never a gap, always on the image, and an
      exception exactly for the null vector. */
  function ToPoint(m: MathLib, d: Direction): (r: Result<Option<Point>>)
    ensures r.Raise? <==> AsVector(m, d) == Origin
    ensures r.Raise? ==> r.fault == ZeroDivisionError
    ensures r.Ok? ==> r.value.Some? && InUnitSquare(r.value.value)
  {
    var faceCoordinates := FaceCoordinatesFromDirection(AsVector(m, d));
    match faceCoordinates
    case Raise(f) => Raise(f)
    case Ok(fc) => Ok(Some(PointFromFaceCoordinates(fc)))
  }

  /** A point strictly inside a populated cell survives the trip through
      its direction and back. */
  lemma PointRoundTrip(m: MathLib, p: Point)
    requires FaceCoordinatesFromPoint(p).Some?
    requires var fc := FaceCoordinatesFromPoint(p).value; 0.0 < fc.x < 1.0 && 0.0 < fc.y < 1.0
    ensures ToDirection(p).Some?
    ensures ToPoint(m, ToDirection(p).value) == Ok(Some(p))
  {
    FaceRoundTrip(FaceCoordinatesFromPoint(p).value);
  }

  /** The centre of the -z face looks straight along -z, which as_angles
      puts on its x == 0 fallback with azimuth -pi/2, outside [0, 2*pi). */
  lemma NegZCentreHasNegativeAzimuth(m: MathLib)
    ensures ToDirection(Point(0.625, 0.5)) == Some(VectorDir(Vector(0.0, 0.0, -1.0)))
    ensures AsAngles(m, ToDirection(Point(0.625, 0.5)).value).azimuth == -PI / 2.0
  {
    assert Trunc(0.625 * 4.0) == 2;
    assert Trunc(0.5 * 3.0) == 1;
  }

  /** On a seam the round trip can move the point: the top edge of the +z
      cell is the same direction as the left edge of the -y cell, and -y is
      searched first. */
  lemma SeamPrefersEarlierFace(m: MathLib)
    ensures FaceCoordinatesFromPoint(Point(0.125, 1.0 / 3.0)) == Some(FaceCoordinates(PosZ, 0.5, 0.0))
    ensures ToPoint(m, ToDirection(Point(0.125, 1.0 / 3.0)).value) == Ok(Some(Point(0.25, 1.0 / 6.0)))
  {
    var p := Point(0.125, 1.0 / 3.0);
    assert Trunc(p.x * 4.0) == 0;
    assert Trunc(p.y * 3.0) == 1;
    var v := DirectionFromFaceCoordinates(FaceCoordinates(PosZ, 0.5, 0.0));
    assert v == Vector(0.0, -1.0, 1.0);
    assert MaxAbs(v) == 1.0;
    assert Normalize(v) == v;
  }
}
