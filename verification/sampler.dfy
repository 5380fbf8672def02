/** The sampler: for an output pixel, find the direction it shows through
    the output projection, find where that direction lies in the input image
    through the input projection, and read the input pixel there; with
    supersampling, average an n x n grid of such samples per output pixel. */
module Sampling {
  import opened Basics
  import opened Directions
  import opened Projections
  import Cubemap
  import Equirectangular
  import Hemispherical

  /** An RGB colour as the pixel source returns it. */
  datatype Color = Color(r: int, g: int, b: int)

  const Black := Color(0, 0, 0)

  /** Which projections convert between which image sizes. */
  datatype Settings = Settings(
    input: Projection, output: Projection,
    inWidth: int, inHeight: int,
    outWidth: int, outHeight: int)
  {
    /** A pixel index is normalised by dividing by the output size, which
        raises ZeroDivisionError for a size of zero. */
    predicate Divisible()
    {
      outWidth != 0 && outHeight != 0
    }

    /** An output image with pixels in it. */
    predicate Valid()
    {
      outWidth > 0 && outHeight > 0
    }
  }

  /** A pixel position in the input image. */
  datatype PixelIndex = PixelIndex(x: int, y: int)

  /** A sampler: the math library, the settings, the pixel source (a
      callback reading one input pixel) and the supersampling factor. */
  datatype Sampler = Sampler(
    math: MathLib,
    settings: Settings,
    fetch: (int, int) -> Color,
    samples: int)

  /** Number of samples averaged per output pixel for a supersampling
      factor n. It is 1 exactly for a factor of 1 or -1, and 0 only for a
      factor of 0. */
  function TotalSamples(n: int): (t: int)
    ensures t >= 0
    ensures t == 1 <==> n == 1 || n == -1
    ensures t == 0 <==> n == 0
  {
    SquareFacts(n);
    n * n
  }

  lemma SquareFacts(n: int)
    ensures n * n >= 0
    ensures n * n == 1 <==> n == 1 || n == -1
    ensures n * n == 0 <==> n == 0
  {
    if n >= 2 || n <= -2 {
      assert n * n >= 2 * 2 by { NonLinearGrowth(if n < 0 then -n else n); }
    }
  }

  lemma NonLinearGrowth(k: int)
    requires k >= 2
    ensures k * k >= 4
  {
  }

  /** The input pixel a point reads: x*(width-1) and y*(height-1) truncated
      toward zero. Points on the image read pixels of the image. */
  function FetchIndex(s: Settings, q: Point): (i: PixelIndex)
    ensures InUnitSquare(q) && 1 <= s.inWidth && 1 <= s.inHeight ==>
              0 <= i.x < s.inWidth && 0 <= i.y < s.inHeight
  {
    UnitIndex(q.x, s.inWidth);
    UnitIndex(q.y, s.inHeight);
    PixelIndex(Trunc(q.x * (s.inWidth - 1) as real), Trunc(q.y * (s.inHeight - 1) as real))
  }

  /** A position in [0, 1] scaled to a size of n pixels names one of them. */
  lemma UnitIndex(t: real, n: int)
    ensures 0.0 <= t <= 1.0 && 1 <= n ==> 0 <= Trunc(t * (n - 1) as real) < n
  {
    if 0.0 <= t <= 1.0 && 1 <= n {
      var k := (n - 1) as real;
      assert 0.0 <= t * k <= 1.0 * k;
    }
  }

  /** The input pixel one sample reads, or none when either projection has
      a gap there (the pixel source is then not consulted). */
  function SampleSource(sp: Sampler, p: Point): (r: Result<Option<PixelIndex>>)
    ensures ToDirection(sp.math, sp.settings.output, p).None? ==> r == Ok(None)
    ensures r.Ok? && r.value.Some? && sp.settings.input != EquirectangularProjection
            && 1 <= sp.settings.inWidth && 1 <= sp.settings.inHeight ==>
              0 <= r.value.value.x < sp.settings.inWidth && 0 <= r.value.value.y < sp.settings.inHeight
  {
    var direction := ToDirection(sp.math, sp.settings.output, p);
    if direction.None? then Ok(None)
    else
      match ToPoint(sp.math, sp.settings.input, direction.value)
      case Raise(f) => Raise(f)
      case Ok(inputPoint) =>
        if inputPoint.None? then Ok(None)
        else Ok(Some(FetchIndex(sp.settings, inputPoint.value)))
  }

  /** Sampler._get_sample: the colour of one sample, black in a gap. */
  function GetSample(sp: Sampler, p: Point): (r: Result<Color>)
    ensures var direction := ToDirection(sp.math, sp.settings.output, p);
      && (direction.None? ==> r == Ok(Black))
      && (direction.Some? ==>
            var q := ToPoint(sp.math, sp.settings.input, direction.value);
            && (q.Raise? ==> r == Raise(q.fault))
            && (q == Ok(None) ==> r == Ok(Black))
            && (q.Ok? && q.value.Some? ==>
                  var i := FetchIndex(sp.settings, q.value.value);
                  r == Ok(sp.fetch(i.x, i.y))))
  {
    match SampleSource(sp, p)
    case Raise(f) => Raise(f)
    case Ok(None) => Ok(Black)
    case Ok(Some(i)) => Ok(sp.fetch(i.x, i.y))
  }

  /** A gap in the output projection gives black, whatever the pixel source. */
  lemma OutputGapIsBlack(sp: Sampler, p: Point)
    requires ToDirection(sp.math, sp.settings.output, p).None?
    ensures SampleSource(sp, p) == Ok(None)
    ensures GetSample(sp, p) == Ok(Black)
  {
  }

  /** A gap in the input projection gives black too. */
  lemma InputGapIsBlack(sp: Sampler, p: Point)
    requires ToDirection(sp.math, sp.settings.output, p).Some?
    requires ToPoint(sp.math, sp.settings.input, ToDirection(sp.math, sp.settings.output, p).value) == Ok(None)
    ensures SampleSource(sp, p) == Ok(None)
    ensures GetSample(sp, p) == Ok(Black)
  {
  }

  /** Converting an equirectangular image to itself reads, for every point,
      the pixel under that very point. */
  lemma EquirectangularToItself(sp: Sampler, p: Point)
    requires sp.settings.input == EquirectangularProjection == sp.settings.output
    ensures SampleSource(sp, p) == Ok(Some(FetchIndex(sp.settings, p)))
  {
    Equirectangular.PointRoundTrip(sp.math, p);
  }

  /** Converting a cubemap to itself reads the pixel under the point
      strictly inside a face cell, and black in the gap cells. */
  lemma CubemapToItself(sp: Sampler, p: Point)
    requires sp.settings.input == CubemapProjection == sp.settings.output
    ensures Cubemap.FaceCoordinatesFromPoint(p).None? ==> GetSample(sp, p) == Ok(Black)
    ensures (Cubemap.FaceCoordinatesFromPoint(p).Some?
             && 0.0 < Cubemap.FaceCoordinatesFromPoint(p).value.x < 1.0
             && 0.0 < Cubemap.FaceCoordinatesFromPoint(p).value.y < 1.0) ==>
              SampleSource(sp, p) == Ok(Some(FetchIndex(sp.settings, p)))
  {
    var fc := Cubemap.FaceCoordinatesFromPoint(p);
    if fc.Some? && 0.0 < fc.value.x < 1.0 && 0.0 < fc.value.y < 1.0 {
      Cubemap.PointRoundTrip(sp.math, p);
    }
  }

  /** Reading an equirectangular image into a hemispherical one, the point
      above the centre on the vertical centre line gets azimuth -pi/2, which
      lies left of the equirectangular image: a 5-pixel-wide input is read
      at column -1. */
  lemma HemisphereAboveCentreReadsLeftOfImage(sp: Sampler)
    requires sp.settings.output == HemisphericalProjection
    requires sp.settings.input == EquirectangularProjection
    requires sp.settings.inWidth == 5
    ensures SampleSource(sp, Point(0.5, 0.25)).Ok?
    ensures SampleSource(sp, Point(0.5, 0.25)).value.Some?
    ensures SampleSource(sp, Point(0.5, 0.25)).value.value.x == -1
  {
    var d := Hemispherical.ToDirection(sp.math, Point(0.5, 0.25)).value;
    assert d.angles.azimuth == -PI / 2.0;
    var q := Equirectangular.ToPoint(sp.math, d).value;
    assert q.x == -0.25;
    assert q.x * 4.0 == -1.0;
  }

  /** The normalised position of sample (i, j) of the n x n grid inside
      output pixel (outX, outY). */
  function SamplePoint(sp: Sampler, outX: int, outY: int, i: int, j: int): Point
    requires sp.settings.Divisible() && sp.samples != 0
  {
    var n := sp.samples as real;
    Point((outX as real + i as real / n) / sp.settings.outWidth as real,
          (outY as real + j as real / n) / sp.settings.outHeight as real)
  }

  /** The pixel's own square in normalised coordinates, left and top edge
      included. */
  predicate InPixel(s: Settings, outX: int, outY: int, p: Point)
    requires s.Valid()
  {
    && outX as real / s.outWidth as real <= p.x < (outX + 1) as real / s.outWidth as real
    && outY as real / s.outHeight as real <= p.y < (outY + 1) as real / s.outHeight as real
  }

  /** Every sample of the grid lies inside the output pixel. */
  lemma SamplePointInPixel(sp: Sampler, outX: int, outY: int, i: int, j: int)
    requires sp.settings.Valid() && sp.samples > 0
    requires 0 <= i < sp.samples && 0 <= j < sp.samples
    ensures InPixel(sp.settings, outX, outY, SamplePoint(sp, outX, outY, i, j))
  {
    FractionBounds(i, sp.samples);
    FractionBounds(j, sp.samples);
    DivideMonotone(outX as real, outX as real + i as real / sp.samples as real, (outX + 1) as real,
                   sp.settings.outWidth as real);
    DivideMonotone(outY as real, outY as real + j as real / sp.samples as real, (outY + 1) as real,
                   sp.settings.outHeight as real);
  }

  lemma FractionBounds(i: int, n: int)
    requires 0 <= i < n
    ensures 0.0 <= i as real / n as real < 1.0
  {
  }

  lemma DivideMonotone(lo: real, x: real, hi: real, w: real)
    requires 0.0 < w && lo <= x < hi
    ensures lo / w <= x / w < hi / w
  {
  }

  /** Channel-wise sum of two samples; the first exception wins. */
  function Plus(a: Result<Color>, b: Result<Color>): Result<Color>
  {
    match a
    case Raise(f) => a
    case Ok(x) =>
      match b
      case Raise(f) => b
      case Ok(y) => Ok(Color(x.r + y.r, x.g + y.g, x.b + y.b))
  }

  /** The samples of one output pixel: entry (i, j) is the sample in column
      i and row j of the supersampling grid. */
  type Grid = (int, int) -> Result<Color>

  /** The grid of an output pixel: each entry is _get_sample at the grid's
      sample point. The sample position divides by the factor and by the
      output size, so a zero there raises instead. */
  function PixelGrid(sp: Sampler, outX: int, outY: int): Grid
  {
    (i: int, j: int) =>
      if sp.samples == 0 || !sp.settings.Divisible() then Raise(ZeroDivisionError)
      else GetSample(sp, SamplePoint(sp, outX, outY, i, j))
  }

  /** Sum of the first i samples of row j, in loop order. */
  function RowSum(g: Grid, j: int, i: nat): Result<Color>
  {
    if i == 0 then Ok(Black)
    else Plus(RowSum(g, j, i - 1), g(i - 1, j))
  }

  /** Sum of the first j full rows of an n-wide grid, in loop order. */
  function GridSum(g: Grid, n: nat, j: nat): Result<Color>
  {
    if j == 0 then Ok(Black)
    else Plus(GridSum(g, n, j - 1), RowSum(g, j - 1, n))
  }

  /** The box filter for a factor n: the sum of the n x n samples (none for
      a factor below 1), each channel floor-divided by n*n. */
  function BoxFilter(n: int, g: Grid): Result<Color>
  {
    var sum := if n > 0 then GridSum(g, n, n) else Ok(Black);
    var total := TotalSamples(n);
    match sum
    case Raise(f) => Raise(f)
    case Ok(c) =>
      if total == 0 then Raise(ZeroDivisionError)
      else Ok(Color(c.r / total, c.g / total, c.b / total))
  }

  /** The sample at the output pixel's own corner. */
  function CornerSample(sp: Sampler, outX: int, outY: int): Result<Color>
  {
    if !sp.settings.Divisible() then Raise(ZeroDivisionError)
    else GetSample(sp, Point(outX as real / sp.settings.outWidth as real, outY as real / sp.settings.outHeight as real))
  }

  /** Sampler.get_supersample, as a definition: the corner sample when there
      is one sample in all, else the box filter over the pixel's grid. */
  function Supersample(sp: Sampler, outX: int, outY: int): Result<Color>
  {
    if TotalSamples(sp.samples) == 1 then CornerSample(sp, outX, outY)
    else BoxFilter(sp.samples, PixelGrid(sp, outX, outY))
  }

  /** Sampler.get_supersample: the single-sample shortcut, or the n x n
      loops over the pixel's grid. */
  method GetSupersample(sp: Sampler, outX: int, outY: int) returns (r: Result<Color>)
    ensures r == Supersample(sp, outX, outY)
  {
    if TotalSamples(sp.samples) == 1 {
      if sp.settings.outWidth == 0 || sp.settings.outHeight == 0 {
        return Raise(ZeroDivisionError);
      }
      var outputPoint := Point(outX as real / sp.settings.outWidth as real,
                               outY as real / sp.settings.outHeight as real);
      return GetSample(sp, outputPoint);
    }
    r := SumAndDivide(sp.samples, PixelGrid(sp, outX, outY));
  }

  /** The loops of get_supersample: sum the samples row by row, stopping at
      the first exception, then floor-divide each channel by n*n. They
      compute exactly the box filter, including which exception is raised. */
  method SumAndDivide(n: int, g: Grid) returns (r: Result<Color>)
    ensures r == BoxFilter(n, g)
  {
    var sum := Black;
    var ySample := 0;
    while ySample < n
      invariant 0 <= ySample && (ySample == 0 || ySample <= n)
      invariant n > 0 ==> GridSum(g, n, ySample) == Ok(sum)
      invariant ySample == 0 ==> sum == Black
    {
      var row := SumRow(n, g, ySample, sum);
      if row.Raise? {
        GridFaultPersists(g, n, ySample + 1, n, row.fault);
        return row;
      }
      sum := row.value;
      ySample := ySample + 1;
    }
    var total := TotalSamples(n);
    if total == 0 {
      return Raise(ZeroDivisionError);
    }
    return Ok(Color(sum.r / total, sum.g / total, sum.b / total));
  }

  /** The inner loop of get_supersample: add the samples of row ySample to
      the running sum, stopping at the first exception. */
  method SumRow(n: nat, g: Grid, ySample: int, sum: Color) returns (r: Result<Color>)
    ensures r == Plus(Ok(sum), RowSum(g, ySample, n))
  {
    var red, green, blue := sum.r, sum.g, sum.b;
    var xSample := 0;
    while xSample < n
      invariant 0 <= xSample <= n
      invariant Plus(Ok(sum), RowSum(g, ySample, xSample)) == Ok(Color(red, green, blue))
    {
      var sample := g(xSample, ySample);
      if sample.Raise? {
        RowFaultPersists(g, n, ySample, xSample + 1, sum, sample.fault);
        return Raise(sample.fault);
      }
      red := red + sample.value.r;
      green := green + sample.value.g;
      blue := blue + sample.value.b;
      xSample := xSample + 1;
    }
    return Ok(Color(red, green, blue));
  }

  /** Once a row's running sum has raised, the whole row has. */
  lemma {:induction false} RowFaultPersists(g: Grid, n: nat, j: int, i: nat, sum: Color, f: Fault)
    requires i <= n
    requires Plus(Ok(sum), RowSum(g, j, i)) == Raise(f)
    ensures Plus(Ok(sum), RowSum(g, j, n)) == Raise(f)
    decreases n - i
  {
    if i < n {
      RowFaultPersists(g, n, j, i + 1, sum, f);
    }
  }

  /** Once the running sum over rows has raised, the whole grid has. */
  lemma {:induction false} GridFaultPersists(g: Grid, n: nat, j: nat, m: nat, f: Fault)
    requires j <= m
    requires GridSum(g, n, j) == Raise(f)
    ensures GridSum(g, n, m) == Raise(f)
    decreases m - j
  {
    if j < m {
      GridFaultPersists(g, n, j + 1, m, f);
    }
  }

  /** Per channel, lo <= c <= hi. */
  predicate Within(c: Color, lo: Color, hi: Color)
  {
    lo.r <= c.r <= hi.r && lo.g <= c.g <= hi.g && lo.b <= c.b <= hi.b
  }

  /** k copies of a colour, summed channel by channel. */
  function Times(k: int, c: Color): Color
  {
    Color(k * c.r, k * c.g, k * c.b)
  }

  /** Every sample of an n x n grid succeeds with a colour within [lo, hi]. */
  predicate SamplesWithin(g: Grid, n: int, lo: Color, hi: Color)
  {
    forall i, j :: 0 <= i < n && 0 <= j < n ==> g(i, j).Ok? && Within(g(i, j).value, lo, hi)
  }

  lemma {:induction false} RowSumWithin(g: Grid, n: nat, j: int, i: nat, lo: Color, hi: Color)
    requires 0 <= j < n && i <= n
    requires SamplesWithin(g, n, lo, hi)
    ensures RowSum(g, j, i).Ok?
    ensures Within(RowSum(g, j, i).value, Times(i, lo), Times(i, hi))
    decreases i
  {
    if i > 0 {
      RowSumWithin(g, n, j, i - 1, lo, hi);
      var prev := RowSum(g, j, i - 1).value;
      var c := g(i - 1, j);
      assert c.Ok? && Within(c.value, lo, hi);
      assert RowSum(g, j, i) == Ok(Color(prev.r + c.value.r, prev.g + c.value.g, prev.b + c.value.b));
      WithinAdd(prev, c.value, Times(i - 1, lo), Times(i - 1, hi), lo, hi);
      TimesSucc(i - 1, lo);
      TimesSucc(i - 1, hi);
    }
  }

  lemma {:induction false} GridSumWithin(g: Grid, n: nat, j: nat, lo: Color, hi: Color)
    requires j <= n
    requires SamplesWithin(g, n, lo, hi)
    ensures GridSum(g, n, j).Ok?
    ensures Within(GridSum(g, n, j).value, Times(j * n, lo), Times(j * n, hi))
    decreases j
  {
    if j > 0 {
      GridSumWithin(g, n, j - 1, lo, hi);
      RowSumWithin(g, n, j - 1, n, lo, hi);
      var prev := GridSum(g, n, j - 1).value;
      var row := RowSum(g, j - 1, n).value;
      assert GridSum(g, n, j) == Ok(Color(prev.r + row.r, prev.g + row.g, prev.b + row.b));
      GridStep(prev, row, lo, hi, j, n);
    }
  }

  lemma WithinAdd(a: Color, b: Color, loA: Color, hiA: Color, loB: Color, hiB: Color)
    requires Within(a, loA, hiA) && Within(b, loB, hiB)
    ensures Within(Color(a.r + b.r, a.g + b.g, a.b + b.b),
                   Color(loA.r + loB.r, loA.g + loB.g, loA.b + loB.b),
                   Color(hiA.r + hiB.r, hiA.g + hiB.g, hiA.b + hiB.b))
  {
  }

  lemma TimesSucc(k: int, c: Color)
    ensures Times(k + 1, c) == Color(Times(k, c).r + c.r, Times(k, c).g + c.g, Times(k, c).b + c.b)
  {
  }

  lemma GridStep(prev: Color, row: Color, lo: Color, hi: Color, j: int, n: int)
    requires Within(prev, Times((j - 1) * n, lo), Times((j - 1) * n, hi))
    requires Within(row, Times(n, lo), Times(n, hi))
    ensures Within(Color(prev.r + row.r, prev.g + row.g, prev.b + row.b), Times(j * n, lo), Times(j * n, hi))
  {
    WithinAdd(prev, row, Times((j - 1) * n, lo), Times((j - 1) * n, hi), Times(n, lo), Times(n, hi));
    TimesAdd(j - 1, n, lo);
    TimesAdd(j - 1, n, hi);
    assert (j - 1) * n + n == j * n;
  }

  lemma TimesAdd(a: int, n: int, c: Color)
    ensures Times(a * n + n, c) == Color(Times(a * n, c).r + Times(n, c).r,
                                         Times(a * n, c).g + Times(n, c).g,
                                         Times(a * n, c).b + Times(n, c).b)
  {
    assert (a * n + n) * c.r == a * n * c.r + n * c.r;
    assert (a * n + n) * c.g == a * n * c.g + n * c.g;
    assert (a * n + n) * c.b == a * n * c.b + n * c.b;
  }

  /** Floor division of a sum of k values in [lo, hi] by k lies in [lo, hi]. */
  lemma DivBounds(a: int, k: int, lo: int, hi: int)
    requires 0 < k && k * lo <= a <= k * hi
    ensures lo <= a / k <= hi
  {
    var q, m := a / k, a % k;
    assert a == k * q + m && 0 <= m < k;
    if q < lo {
      MulMonotone(k, q, lo - 1);
      assert false;
    }
    if q > hi {
      MulMonotone(k, hi + 1, q);
      assert false;
    }
  }

  lemma MulMonotone(k: int, x: int, y: int)
    requires 0 < k && x <= y
    ensures k * x <= k * y
  {
  }

  /** The box filter is a per-channel average: when every sample of the
      grid succeeds with channels within [lo, hi], so does the result (for
      instance, byte channels stay in [0, 255]). */
  lemma BoxFilterWithin(n: nat, g: Grid, lo: Color, hi: Color)
    requires n > 0 && SamplesWithin(g, n, lo, hi)
    ensures BoxFilter(n, g).Ok?
    ensures Within(BoxFilter(n, g).value, lo, hi)
  {
    GridSumWithin(g, n, n, lo, hi);
    var sum := GridSum(g, n, n).value;
    DivBounds(sum.r, n * n, lo.r, hi.r);
    DivBounds(sum.g, n * n, lo.g, hi.g);
    DivBounds(sum.b, n * n, lo.b, hi.b);
  }

  /** The same bound for a whole output pixel, the one-sample shortcut
      included: it reads the grid's first sample. */
  lemma SupersampleWithin(sp: Sampler, outX: int, outY: int, lo: Color, hi: Color)
    requires sp.samples > 0
    requires SamplesWithin(PixelGrid(sp, outX, outY), sp.samples, lo, hi)
    ensures Supersample(sp, outX, outY).Ok?
    ensures Within(Supersample(sp, outX, outY).value, lo, hi)
  {
    var g := PixelGrid(sp, outX, outY);
    if TotalSamples(sp.samples) == 1 {
      CornerIsFirstSample(sp, outX, outY);
      assert g(0, 0).Ok? && Within(g(0, 0).value, lo, hi);
    } else {
      BoxFilterWithin(sp.samples, g, lo, hi);
    }
  }

  /** The pixel's corner is the first point of its grid. */
  lemma CornerIsFirstSample(sp: Sampler, outX: int, outY: int)
    requires sp.samples != 0
    ensures CornerSample(sp, outX, outY) == PixelGrid(sp, outX, outY)(0, 0)
  {
    if sp.settings.Divisible() {
      assert Point(outX as real / sp.settings.outWidth as real, outY as real / sp.settings.outHeight as real)
        == SamplePoint(sp, outX, outY, 0, 0);
    }
  }

  /** If every sample has the same colour, so does the pixel: floor division
      of n*n equal values loses nothing. */
  lemma UniformSamples(sp: Sampler, outX: int, outY: int, c: Color)
    requires sp.samples > 0
    requires SamplesWithin(PixelGrid(sp, outX, outY), sp.samples, c, c)
    ensures Supersample(sp, outX, outY) == Ok(c)
  {
    SupersampleWithin(sp, outX, outY, c, c);
  }

  /** With a factor of 1 the shortcut takes exactly the one sample the 1 x 1
      box filter would take, at the pixel's corner. */
  lemma ShortcutIsOneByOneBoxFilter(sp: Sampler, outX: int, outY: int)
    requires sp.samples == 1
    ensures Supersample(sp, outX, outY) == BoxFilter(1, PixelGrid(sp, outX, outY))
    ensures Supersample(sp, outX, outY) == PixelGrid(sp, outX, outY)(0, 0)
  {
    var g := PixelGrid(sp, outX, outY);
    CornerIsFirstSample(sp, outX, outY);
    var s := g(0, 0);
    assert GridSum(g, 1, 1) == Plus(Ok(Black), Plus(Ok(Black), s));
    if s.Ok? {
      assert GridSum(g, 1, 1) == Ok(s.value);
    }
  }

  /** The factors the loops do not run for: 0 divides by zero, -1 takes the
      one-sample shortcut, and below that the pixel is black. */
  lemma DegenerateFactors(sp: Sampler, outX: int, outY: int)
    requires sp.samples <= 0
    ensures sp.samples == 0 ==> Supersample(sp, outX, outY) == Raise(ZeroDivisionError)
    ensures sp.samples == -1 ==> Supersample(sp, outX, outY) == CornerSample(sp, outX, outY)
    ensures sp.samples < -1 ==> Supersample(sp, outX, outY) == Ok(Black)
  {
    if sp.samples < -1 {
      var t := TotalSamples(sp.samples);
      assert 0 / t == 0;
    }
  }

  /** An output size of zero raises ZeroDivisionError, except for the
      factors below -1, whose empty loops never normalise a position. */
  lemma ZeroOutputSize(sp: Sampler, outX: int, outY: int)
    requires !sp.settings.Divisible()
    ensures sp.samples >= -1 ==> Supersample(sp, outX, outY) == Raise(ZeroDivisionError)
    ensures sp.samples < -1 ==> Supersample(sp, outX, outY) == Ok(Black)
  {
    var g := PixelGrid(sp, outX, outY);
    if sp.samples > 1 {
      assert RowSum(g, 0, 1) == Raise(ZeroDivisionError);
      RowFaultPersists(g, sp.samples, 0, 1, Black, ZeroDivisionError);
      assert GridSum(g, sp.samples, 1) == Raise(ZeroDivisionError);
      GridFaultPersists(g, sp.samples, 1, sp.samples, ZeroDivisionError);
    } else if sp.samples < -1 {
      var t := TotalSamples(sp.samples);
      assert 0 / t == 0;
    }
  }
}
