# Projection engine of an image re-projection tool, in Dafny

The tool converts panoramic images between three projections: a cubemap
laid out as a cross in a 4x3 grid, the equirectangular (longitude/latitude)
projection, and a hemispherical fisheye. For every output pixel it asks the
output projection which direction that pixel shows, asks the input
projection where that direction lies in the input image, and reads the
input pixel at that position scaled to the image size and truncated toward
zero. With supersampling it does this on an n x n grid
inside the pixel and averages with integer floor division.

This project models that engine:

- `basics.dfy` (`Basics`) holds the shared vocabulary. `Option` models Python's
  `Optional`. `Result` carries the exceptions the engine can raise
  (`ZeroDivisionError`, and the cubemap's `RuntimeError('Bad direction vector')`).
  `Trunc` is Python's `int()` on a float, which truncates toward zero.
  `PI` is the exact value of the double `math.pi`. `MathLib` bundles the
  `sqrt`, `atan2`, `sin` and `cos` of the math module, passed in as
  parameters. `SqrtLaws` and `Atan2Laws` state the only facts assumed
  about them: `sqrt` is non-negative with `sqrt(0) == 0`, and `atan2` lies
  in [-pi, pi].
- `directions.dfy` (`Directions`) covers points, vectors, angle pairs,
  `Vector.as_angles` with its fallbacks, `as_vector`/`as_angles`
  dispatch, and `Angles.clamp`. `clamp` is written as methods with loops.
- `cubemap.dfy` (`Cubemap`) covers the two lookup tables, the six face
  formulas, and the face search by exact +-1 tests, in the code's order.
- `equirectangular.dfy` (`Equirectangular`) and `hemispherical.dfy`
  (`Hemispherical`) cover the other two projections.
- `projections.dfy` (`Projections`) dispatches on the chosen projection.
- `sampler.dfy` (`Sampling`) covers `_get_sample`, the truncated pixel index,
  `total_samples`, and `get_supersample`. The summation loops run over
  `PixelGrid`, the n x n grid of `_get_sample` results of one output pixel.
  The sampling callback is a function parameter `fetch`.

Real numbers are exact. A proved identity is therefore the idealised form
of the Python float computation.

Behaviour of the code worth knowing:

- `Equirectangular.SeamEdges`: azimuth 0 and azimuth 2*pi are the same direction,
  but they land on opposite edges of the equirectangular image, x = 0 and x = 1.
- `Directions.InRange`: `clamp` leaves an azimuth of exactly 2*pi alone, so its
  range is [0, 2*pi]. Its own closing check at projections/utils.py:118,
  `0 <= azimuth <= 2*pi`, admits the same closed range.
- `Sampling.FetchIndex`: the input pixel index is the scaled position truncated
  toward zero, not rounded. For x = 0.99 in a 3-pixel-wide input, int(1.98)
  reads pixel 1, although pixel 2 is nearer.
- `Sampling.HemisphereAboveCentreReadsLeftOfImage`: fetch indices are not always
  inside the input image. Any direction on the x == 0, z < 0 meridian gets
  azimuth -pi/2 from the fallback at projections/utils.py:49-53, and the
  fisheye's own fallback at projections/hemispherical.py:18-23 does the same
  above its centre. An equirectangular input then reads column -1 of a
  5-pixel-wide image. Cubemap output meets it too: the centre of the -z face,
  (0.625, 0.5), looks along (0, 0, -1), whose azimuth is -pi/2
  (`Cubemap.NegZCentreHasNegativeAzimuth`).
- `Hemispherical.ToDirection`: the fisheye uses one field of view, `FOV = pi`, on
  the distance from the centre. The `--hemi-fov-x` and `--hemi-fov-y` options at
  project_many.py:19-20 suggest separate horizontal and vertical fields of
  view, but the projection does not read them.

## Model

| member | source | states |
|---|---|---|
| Basics.Trunc | projections/cubemap.py:46-49 | int() of a float is the integer next to it on the side of zero: at most the value for non-negative input, at least the value for negative input, and less than one away |
| Basics.TruncIsOdd | sampler.py:34-35 | truncation is odd, and agrees with floor exactly on non-negative values and whole numbers, so negative positions read toward zero |
| Directions.VectorAsAngles | projections/utils.py:33-60 | the null vector gives (0, 0); the poles give altitude -pi/2 or +pi/2 with azimuth 0; on the x == 0 meridian the azimuth is -pi/2 for z < 0 and +pi/2 for z > 0 |
| Directions.VectorAsAnglesRange | projections/utils.py:46-60 | given atan2 in [-pi, pi]: altitude in [-pi, pi]; the azimuth is negative exactly when x == 0 and z < 0, and is then -pi/2; it is always below 2*pi |
| Directions.AsVector | projections/utils.py:30-31 | a vector's as_vector is the vector itself |
| Directions.AsAngles | projections/utils.py:85-86 | an angle pair's as_angles is the pair itself |
| Directions.WrapAltitude | projections/utils.py:96-102 | the result lies in [-pi, pi], differs from the input by whole turns, and equals an input already in [-pi, pi]; an input below -pi ends below pi and one above pi ends above -pi, which with `Directions.WrappedUnique` fixes the result |
| Directions.WrapAzimuth | projections/utils.py:112-118 | the result lies in [0, 2*pi], differs from the input by whole turns, and equals an input already in [0, 2*pi]; a negative input ends below 2*pi and one above 2*pi ends above 0 |
| Directions.Clamp | projections/utils.py:88-118 | the result has altitude in [-pi/2, pi/2] and azimuth in [0, 2*pi]; it is the input wrapped by whole turns, with an altitude beyond a pole reflected back and the azimuth turned by pi; an input already in range comes back unchanged, so clamping is idempotent; each wrap stops on the side it came from, so the result is fixed by the input |
| Directions.ClampedFromUnique | projections/utils.py:96-118 | two results that both satisfy clamp's contract for the same input are equal: the contract determines clamp |
| Directions.WholeTurnsClamp | projections/utils.py:112-118 | an azimuth of -2*pi clamps to 0 and one of 4*pi clamps to 2*pi: the wrap loops stop at the first bound they reach |
| Cubemap.FaceLookupIsCross | projections/cubemap.py:50-60 | a grid cell has a face exactly when it lies on the cross (column 1 rows 0-2, or row 1 columns 0-3); the other cells of the 4x3 grid and all cells off it are gaps |
| Cubemap.LookupTablesInverse | projections/cubemap.py:50-73 | the cell-to-face table and the face-to-cell table are inverse to each other |
| Cubemap.FaceCoordinatesFromPoint | projections/cubemap.py:45-61 | a face is found exactly when the truncated cell is on the cross; the face is the one drawn in that cell; placing the result back in its cell gives the point again; for non-negative points the offsets lie in [0, 1) |
| Cubemap.OffImageIsGap | projections/cubemap.py:46-60 | points with x >= 1 or y >= 1 fall in column 4 or row 3 or beyond and have no face |
| Cubemap.LeftOfImageTruncatesOntoPosZ | projections/cubemap.py:46-61 | int() truncates toward zero, so (-0.1, 0.5) lands on the +z face with offset -0.4 instead of in a gap |
| Cubemap.PointFromFaceCoordinates | projections/cubemap.py:64-77 | face offsets in [0, 1] give a point on the image |
| Cubemap.FaceCoordinatesRoundTrip | projections/cubemap.py:45-77 | a face position with offsets in [0, 1) is recovered from its image point |
| Cubemap.DirectionFromFaceCoordinates | projections/cubemap.py:80-97 | the vector is never null; for u, v in [0, 1] the face's axis component is exactly its sign and the other components lie in [-1, 1] |
| Cubemap.MaxAbs | projections/cubemap.py:104 | the value bounds every component's absolute value and equals one of them |
| Cubemap.Normalize | projections/cubemap.py:104-105 | for a non-null vector, the result times max(abs(x), abs(y), abs(z)) is the vector; all its components lie in [-1, 1] and one of them is +1 or -1 |
| Cubemap.FaceCoordinatesFromDirection | projections/cubemap.py:100-123 | only the null vector fails, with ZeroDivisionError, so the RuntimeError is unreachable; the face offsets lie in [0, 1]; the chosen face's axis component of the normalised vector is exactly its sign, and no face earlier in the order -x, +x, -y, +y, -z, +z has that property, so on a cube edge or corner the earlier face wins |
| Cubemap.DirectionRoundTrip | projections/cubemap.py:80-123 | for a non-null vector, face search then face formula gives the vector divided by its largest absolute component, the same direction on the cube's surface |
| Cubemap.FaceRoundTrip | projections/cubemap.py:80-123 | a face position with offsets strictly inside (0, 1) is recovered from its vector |
| Cubemap.ToDirection | projections/cubemap.py:125-130 | there is no direction exactly in the gap cells; otherwise the direction is a non-null vector, on the cube's surface for points with non-negative coordinates |
| Cubemap.ToPoint | projections/cubemap.py:132-135 | raises ZeroDivisionError exactly for the null vector; otherwise always returns a point, and that point is on the image |
| Cubemap.PointRoundTrip | projections/cubemap.py:45-135 | a point strictly inside a populated cell comes back unchanged through to_direction and to_point |
| Cubemap.NegZCentreHasNegativeAzimuth | projections/utils.py:49-53 | the centre of the -z face, (0.625, 0.5), looks along (0, 0, -1), and as_angles gives it azimuth -pi/2, outside [0, 2*pi) |
| Cubemap.SeamPrefersEarlierFace | projections/cubemap.py:110-121 | on the seam between +z and -y, the -y face is tested first and wins: (0.125, 1/3) comes back as (0.25, 1/6) |
| Equirectangular.AspectRatioMatchesSpans | projections/equirectangular.py:9-17 | the aspect ratio 2 is the azimuth span across the image over the altitude span down it |
| Equirectangular.ToDirection | projections/equirectangular.py:13-17 | every point has an angle pair, and points on the image give angles in clamp's range |
| Equirectangular.ToPoint | projections/equirectangular.py:19-24 | every direction has a point, and angle pairs in clamp's range land on the image |
| Equirectangular.PointRoundTrip | projections/equirectangular.py:13-24 | every point comes back unchanged through to_direction and to_point |
| Equirectangular.AnglesRoundTrip | projections/equirectangular.py:13-24 | every angle pair comes back unchanged through to_point and to_direction |
| Equirectangular.CentreDirection | projections/equirectangular.py:13-17 | the image centre looks at azimuth pi on the horizon |
| Equirectangular.SeamEdges | projections/equirectangular.py:19-24 | azimuth 0 lands on the left edge and azimuth 2*pi on the right edge |
| Hemispherical.ToDirection | projections/hemispherical.py:12-29 | every point has a direction, as an angle pair |
| Hemispherical.ToDirectionRange | projections/hemispherical.py:12-29 | given sqrt >= 0 and atan2 in [-pi, pi]: altitude at most pi/2; on the vertical centre line the azimuth is -pi/2 above the centre and pi/2 elsewhere; off that line it lies in [0, 2*pi) |
| Hemispherical.ToPoint | projections/hemispherical.py:31-44 | a direction has a point exactly when the fisheye position lies in [0, 1] x [0, 1], and the point is then that position |
| Hemispherical.ZenithIsCentre | projections/hemispherical.py:31-44 | altitude pi/2 lands on the image centre whatever the azimuth and whatever sin and cos are |
| Hemispherical.CentreRoundTrip | projections/hemispherical.py:10-44 | given sqrt(0) == 0, the centre looks at the zenith with azimuth pi/2 and maps back to the centre |
| Projections.ToDirection | sampler.py:21 | only the cubemap has gaps on the point side, exactly in the cells off the cross |
| Projections.ToPoint | sampler.py:29 | only the cubemap raises, exactly for the null vector; only the fisheye has gaps; cubemap and fisheye points lie on the image |
| Sampling.TotalSamples | sampler.py:12 | the square of the factor is non-negative, is 1 exactly for factors 1 and -1, and is 0 only for factor 0 |
| Sampling.FetchIndex | sampler.py:33-36 | an input point on the image reads a pixel of a non-empty input image |
| Sampling.UnitIndex | sampler.py:34-35 | a position in [0, 1] scaled by size - 1 and truncated names one of the size pixels |
| Sampling.GetSample | sampler.py:20-36 | an output or input gap gives black without reading a pixel; otherwise the result is the pixel source at FetchIndex of the input point, or the exception the input projection raised |
| Sampling.SampleSource | sampler.py:20-36 | a gap in the output projection reads nothing; a pixel read through a cubemap or fisheye input lies in the input image |
| Sampling.OutputGapIsBlack | sampler.py:21-24 | an output gap gives black without reading a pixel |
| Sampling.InputGapIsBlack | sampler.py:29-31 | an input gap gives black without reading a pixel |
| Sampling.EquirectangularToItself | sampler.py:20-36 | equirectangular to equirectangular reads the pixel under the point itself |
| Sampling.CubemapToItself | sampler.py:20-36 | cubemap to cubemap gives black in the gap cells and reads the pixel under the point strictly inside a face |
| Sampling.HemisphereAboveCentreReadsLeftOfImage | sampler.py:20-36 | fisheye output over an equirectangular input reads column -1 at (0.5, 0.25) of a 5-pixel-wide input |
| Sampling.SamplePointInPixel | sampler.py:51-54 | every sample point of the n x n grid lies inside the output pixel's own square |
| Sampling.GetSupersample | sampler.py:38-63 | the method computes Supersample: the corner sample when samples * samples == 1, else the box filter over the pixel's grid, including which exception is raised |
| Sampling.SumAndDivide | sampler.py:47-63 | the two loops and the floor division compute the box filter, stopping at the first exception |
| Sampling.SumRow | sampler.py:50-58 | the inner loop adds a row's samples to the running sum, left to right, stopping at the first exception |
| Sampling.RowFaultPersists | sampler.py:50-58 | once a row's running sum has raised, the row's result is that exception |
| Sampling.GridFaultPersists | sampler.py:49-58 | once the sum over rows has raised, the grid's result is that exception |
| Sampling.BoxFilterWithin | sampler.py:59-63 | if every sample succeeds with channels in [lo, hi], the floor-divided average does too |
| Sampling.SupersampleWithin | sampler.py:38-63 | for a positive factor, samples within [lo, hi] give an output pixel within [lo, hi], shortcut included; for example, byte channels stay bytes |
| Sampling.UniformSamples | sampler.py:47-63 | if every sample is the colour c, the output pixel is c |
| Sampling.CornerIsFirstSample | sampler.py:41-54 | the shortcut's sample point is the grid's first sample point |
| Sampling.ShortcutIsOneByOneBoxFilter | sampler.py:39-45 | with factor 1 the shortcut gives what the 1 x 1 box filter would |
| Sampling.DegenerateFactors | sampler.py:38-63 | factor 0 raises ZeroDivisionError; factor -1 takes the one-sample shortcut; factors below -1 give black |
| Sampling.ZeroOutputSize | sampler.py:38-63 | a zero output width or height raises ZeroDivisionError, except for factors below -1, whose empty loops give black |

## Left out

- Rotation is not modelled. `Vector.rotate` raises `NotImplementedError` (projections/utils.py:62-64), and `Direction.rotate` delegates to it (projections/utils.py:19-20). The sampler calls a method `rotated` that does not exist (sampler.py:27). The sampler is therefore modelled with no rotation. The rotation-string parsing in the constructor (sampler.py:14-18) is command-line input handling.
- The meaning of `Angles.as_vector` is left out (projections/utils.py:73-83). `AnglesAsVector` follows its two planar rotations with `sin` and `cos` as parameters. Trigonometric identities are not available, so nothing is proved about its result. The same goes for the round trip between vectors and angle pairs.
- Directions.Clamp: "the direction is maintained" is stated as whole turns plus the pole reflection (`ClampedFrom`), not as equality of the unit vectors, which needs trigonometry. The source updates the direction in place and returns None; the model returns the clamped pair instead, which changes nothing here because no code in the core calls it.
- Hemispherical.ToPoint: the round trip through the fisheye is proved only at the centre. Elsewhere it needs sin, cos and atan2 to be inverse to each other. Whether directions beyond the field of view fall outside [0, 1] x [0, 1] needs the same.
- Cubemap.PointRoundTrip: proved for points strictly inside a face cell. On cell edges an earlier face can win (`SeamPrefersEarlierFace`), so the point may move.
- Floating-point rounding is not modelled. The round trips hold exactly on reals; in Python they hold up to rounding.
- `sampling_callback` is the function parameter `fetch`, modelled as a pure function of the pixel index. Its side effects and the order and number of its calls are not modelled. The repository's one sampling callback, `record_sample` at project_many.py:39-41, relies on both: it records the index it is handed and returns black, so with supersampling the last sample of a pixel that is not a gap is the one recorded, and a pixel whose samples all fall in gaps records nothing. Reading the input image at the recorded indices (project_many.py:68-72), and image decoding and encoding, are not part of this model.
- The command-line scripts (project.py, project_many.py, cube2equi.py, equi2cube.py) are left out: they are argument parsing, image I/O and batch loops. settings.py is left out as configuration glue, which reads image sizes, exits on errors, and matches aspect ratios. projections/base.py and projections/map.py are left out: they hold a data-only duplicate of `Point`/`Angles` and a name-to-class registry, and one `Point` datatype serves here.
- There is no concurrency in the engine.
