/**
 * Per-pixel specification of the three edge-detection filters of
 * EdgeDetectionTask: Roberts Cross, Sobel and Laplacian.
 *
 * An image is an `array2<Argb>` indexed `[x, y]`, as `getRGB(x, y)` is; its
 * `Length0` is the width and its `Length1` the height.
 */
module Convolution {

  /** The three filters EdgeDetectionTask dispatches on ("roberts", "sobel", "laplacian"). */
  datatype Filter = Roberts | Sobel | Laplacian

  /**
   * A strength up to which no product `magnitude * strength` can pass 2^31 - 1:
   * `MaxMagnitude(f) * MaxStrength` fits for every filter (see MagnitudeFitsInt).
   * MaxMagnitude(Sobel) is an upper bound rather than a magnitude known to
   * occur, so the strength at which a product first wraps may lie higher.
   */
  const MaxStrength: int := 1_489_239

  const MaxInt: int := 0x7FFF_FFFF

  function Min(a: int, b: int): int { if a <= b then a else b }

  function Abs(a: int): nat { if a < 0 then -a else a }

  /**
   * A pixel: the 32 bits of the ARGB int `getRGB` returns, read as an unsigned
   * number (alpha in the top byte, blue in the low byte).
   */
  type Argb = rgb: int | 0 <= rgb < 0x1_0000_0000

  /** `rgb & 0xff`: the sample every filter reads from a pixel. */
  function Intensity(rgb: Argb): (v: int)
    ensures 0 <= v <= 255
  {
    rgb % 0x100
  }

  /**
   * The ARGB word of `new Color(e, e, e)`, `0xFF000000 | e << 16 | e << 8 | e`
   * (the four bytes do not overlap, so `|` is `+`): opaque, three equal channels.
   */
  function Grey(e: int): (rgb: Argb)
    requires 0 <= e <= 255
    ensures rgb / 0x100_0000 == 0xFF
    ensures rgb / 0x1_0000 % 0x100 == rgb / 0x100 % 0x100 == Intensity(rgb) == e
  {
    var rgb := 0xFF00_0000 + e * 0x1_0000 + e * 0x100 + e;
    assert rgb / 0x100 == 0xFF_0000 + e * 0x100 + e;
    assert rgb / 0x1_0000 == 0xFF00 + e;
    rgb
  }

  /** `Math.min(255, magnitude * strength / 50)`: 50 is the neutral strength. */
  function Scale(magnitude: nat, strength: nat): (e: int)
    ensures 0 <= e <= 255
    ensures magnitude * strength < 50 * 256 ==> e == magnitude * strength / 50
    ensures magnitude * strength >= 50 * 256 ==> e == 255
  {
    Min(255, magnitude * strength / 50)
  }

  /**
   * `(int) Math.sqrt(n)`: the floor square root. The filters only take it of
   * numbers below 2^52, where the double square root truncates to exactly this.
   * The filter computes it with `EdgeDetection.FloorSqrt`.
   */
  ghost function ISqrt(n: nat): (r: nat)
    ensures r * r <= n < (r + 1) * (r + 1)
  {
    if n == 0 then 0
    else
      var r := ISqrt(n - 1);
      if (r + 1) * (r + 1) <= n then
        assert (r + 1) * (r + 1) < (r + 2) * (r + 2) by { SquareStep(r + 1); }
        r + 1
      else
        r
  }

  lemma SquareStep(a: nat)
    ensures a * a < (a + 1) * (a + 1)
  {
    calc {
      (a + 1) * (a + 1);
      a * a + 2 * a + 1;
    }
  }

  /** Any `r` with `r*r <= n < (r+1)*(r+1)` is the floor square root. */
  lemma ISqrtUnique(n: nat, r: nat)
    requires r * r <= n < (r + 1) * (r + 1)
    ensures r == ISqrt(n)
  {
    var s := ISqrt(n);
    if r < s {
      SquareMonotone(r + 1, s);
      assert false;
    } else if s < r {
      SquareMonotone(s + 1, r);
      assert false;
    }
  }

  /** Squares of naturals grow with their roots. */
  lemma SquareMonotone(a: nat, b: nat)
    requires a <= b
    ensures a * a <= b * b
  {
    MulMonotone(a, a, b);
    MulMonotone(b, a, b);
  }

  /** A 3x3 matrix of weights, indexed `k[i + 1][j + 1]` for offsets i, j in -1..1. */
  type Kernel = k: seq<seq<int>> | |k| == 3 && forall i :: 0 <= i < 3 ==> |k[i]| == 3
    witness [[0, 0, 0], [0, 0, 0], [0, 0, 0]]

  const SobelX: Kernel := [[-1, 0, 1], [-2, 0, 2], [-1, 0, 1]]
  const SobelY: Kernel := [[-1, -2, -1], [0, 0, 0], [1, 2, 1]]
  const LaplacianKernel: Kernel := [[0, 1, 0], [1, -4, 1], [0, 1, 0]]

  /** The intensity of the pixel at (x, y). */
  function Pixel(img: array2<Argb>, x: int, y: int): int
    reads img
    requires 0 <= x < img.Length0 && 0 <= y < img.Length1
  {
    Intensity(img[x, y])
  }

  /** (x, y) has all eight neighbours inside the image. */
  predicate Interior(img: array2<Argb>, x: int, y: int) {
    1 <= x < img.Length0 - 1 && 1 <= y < img.Length1 - 1
  }

  /** Sum of `Pixel(x + i, y + dj) * k[i + 1][dj + 1]` over -1 <= dj < j. */
  function ColumnSum(img: array2<Argb>, k: Kernel, x: int, y: int, i: int, j: int): int
    reads img
    requires Interior(img, x, y) && -1 <= i <= 1 && -1 <= j <= 2
    decreases j + 1
  {
    if j == -1 then 0
    else ColumnSum(img, k, x, y, i, j - 1) + Pixel(img, x + i, y + j - 1) * k[i + 1][j]
  }

  /** Sum of the full columns -1 <= di < i of the weighted window. */
  function WindowSum(img: array2<Argb>, k: Kernel, x: int, y: int, i: int): int
    reads img
    requires Interior(img, x, y) && -1 <= i <= 2
    decreases i + 1
  {
    if i == -1 then 0
    else WindowSum(img, k, x, y, i - 1) + ColumnSum(img, k, x, y, i - 1, 2)
  }

  lemma SquaresNonNegative(a: int, b: int)
    ensures a * a + b * b >= 0
  {
    if a < 0 { assert a * a == (-a) * (-a); }
    if b < 0 { assert b * b == (-b) * (-b); }
  }

  /** The kernel applied to the 3x3 neighbourhood of (x, y). */
  function Convolve(img: array2<Argb>, k: Kernel, x: int, y: int): int
    reads img
    requires Interior(img, x, y)
  {
    WindowSum(img, k, x, y, 2)
  }

  /** The pixels a filter's loops visit; every other output pixel is left 0. */
  predicate Covers(f: Filter, img: array2<Argb>, x: int, y: int) {
    match f
    case Roberts => 0 <= x < img.Length0 - 1 && 0 <= y < img.Length1 - 1
    case _ => Interior(img, x, y)
  }

  /** The edge magnitude before scaling, bounded by MaxMagnitude for each filter. */
  ghost function Magnitude(f: Filter, img: array2<Argb>, x: int, y: int): (m: nat)
    reads img
    requires Covers(f, img, x, y)
    ensures m <= MaxMagnitude(f)
  {
    match f
    case Roberts =>
      Abs(Pixel(img, x, y) - Pixel(img, x + 1, y + 1)) + Abs(Pixel(img, x + 1, y) - Pixel(img, x, y + 1))
    case Sobel =>
      var gx := Convolve(img, SobelX, x, y);
      var gy := Convolve(img, SobelY, x, y);
      SobelGradientBound(img, x, y);
      ISqrtAtMost(gx * gx + gy * gy, 1442);
      ISqrt(gx * gx + gy * gy)
    case Laplacian =>
      LaplacianClosedForm(img, x, y);
      Abs(Convolve(img, LaplacianKernel, x, y))
  }

  /** The grey level `e` written at a visited pixel. */
  ghost function Edge(f: Filter, img: array2<Argb>, strength: nat, x: int, y: int): int
    reads img
    requires Covers(f, img, x, y)
  {
    Scale(Magnitude(f, img, x, y), strength)
  }

  /**
   * The output pixel at (x, y): opaque grey where the loops reach, 0 elsewhere.
   * A visited pixel is never 0, and its blue byte is the grey level.
   */
  ghost function Expected(f: Filter, img: array2<Argb>, strength: nat, x: int, y: int): (rgb: Argb)
    reads img
    ensures rgb == 0 <==> !Covers(f, img, x, y)
    ensures Covers(f, img, x, y) ==>
      rgb / 0x100_0000 == 0xFF && Intensity(rgb) == Edge(f, img, strength, x, y)
  {
    if Covers(f, img, x, y) then Grey(Edge(f, img, strength, x, y)) else 0
  }

  /** One column of the window written out term by term. */
  lemma ColumnExpanded(img: array2<Argb>, k: Kernel, x: int, y: int, i: int)
    requires Interior(img, x, y) && -1 <= i <= 1
    ensures ColumnSum(img, k, x, y, i, 2) ==
      k[i + 1][0] * Pixel(img, x + i, y - 1) + k[i + 1][1] * Pixel(img, x + i, y) + k[i + 1][2] * Pixel(img, x + i, y + 1)
  {
    assert ColumnSum(img, k, x, y, i, 0) == k[i + 1][0] * Pixel(img, x + i, y - 1);
    assert ColumnSum(img, k, x, y, i, 1) == ColumnSum(img, k, x, y, i, 0) + k[i + 1][1] * Pixel(img, x + i, y);
  }

  /** The weighted sum written out term by term, in kernel order. */
  lemma ConvolveExpanded(img: array2<Argb>, k: Kernel, x: int, y: int)
    requires Interior(img, x, y)
    ensures Convolve(img, k, x, y) ==
      k[0][0] * Pixel(img, x - 1, y - 1) + k[0][1] * Pixel(img, x - 1, y) + k[0][2] * Pixel(img, x - 1, y + 1) +
      k[1][0] * Pixel(img, x, y - 1) + k[1][1] * Pixel(img, x, y) + k[1][2] * Pixel(img, x, y + 1) +
      k[2][0] * Pixel(img, x + 1, y - 1) + k[2][1] * Pixel(img, x + 1, y) + k[2][2] * Pixel(img, x + 1, y + 1)
  {
    ColumnExpanded(img, k, x, y, -1);
    ColumnExpanded(img, k, x, y, 0);
    ColumnExpanded(img, k, x, y, 1);
    assert WindowSum(img, k, x, y, 0) == ColumnSum(img, k, x, y, -1, 2);
    assert WindowSum(img, k, x, y, 1) == ColumnSum(img, k, x, y, -1, 2) + ColumnSum(img, k, x, y, 0, 2);
  }

  /** Sobel's two weighted sums in closed form: vertical and horizontal differences. */
  lemma SobelClosedForm(img: array2<Argb>, x: int, y: int)
    requires Interior(img, x, y)
    ensures Convolve(img, SobelX, x, y) ==
      (Pixel(img, x - 1, y + 1) + 2 * Pixel(img, x, y + 1) + Pixel(img, x + 1, y + 1))
      - (Pixel(img, x - 1, y - 1) + 2 * Pixel(img, x, y - 1) + Pixel(img, x + 1, y - 1))
    ensures Convolve(img, SobelY, x, y) ==
      (Pixel(img, x + 1, y - 1) + 2 * Pixel(img, x + 1, y) + Pixel(img, x + 1, y + 1))
      - (Pixel(img, x - 1, y - 1) + 2 * Pixel(img, x - 1, y) + Pixel(img, x - 1, y + 1))
  {
    ConvolveExpanded(img, SobelX, x, y);
    ConvolveExpanded(img, SobelY, x, y);
  }

  /** The Laplacian sum in closed form: four neighbours minus four times the centre. */
  lemma LaplacianClosedForm(img: array2<Argb>, x: int, y: int)
    requires Interior(img, x, y)
    ensures Convolve(img, LaplacianKernel, x, y) ==
      Pixel(img, x - 1, y) + Pixel(img, x + 1, y) + Pixel(img, x, y - 1) + Pixel(img, x, y + 1)
      - 4 * Pixel(img, x, y)
  {
    ConvolveExpanded(img, LaplacianKernel, x, y);
  }

  lemma MulMonotone(m: nat, a: int, b: int)
    requires a <= b
    ensures m * a <= m * b
  {
    assert m * b - m * a == m * (b - a);
  }

  /** For a fixed magnitude, a larger strength never gives a darker pixel. */
  lemma ScaleMonotone(magnitude: nat, s1: nat, s2: nat)
    requires s1 <= s2
    ensures Scale(magnitude, s1) <= Scale(magnitude, s2)
  {
    MulMonotone(magnitude, s1, s2);
  }

  /** The grey level at every visited pixel is non-decreasing in the strength. */
  lemma EdgeMonotoneInStrength(f: Filter, img: array2<Argb>, x: int, y: int, s1: nat, s2: nat)
    requires Covers(f, img, x, y) && s1 <= s2
    ensures Edge(f, img, s1, x, y) <= Edge(f, img, s2, x, y)
  {
    ScaleMonotone(Magnitude(f, img, x, y), s1, s2);
  }

  /** Strength 0 turns every visited pixel opaque black. */
  lemma ZeroStrengthIsBlack(f: Filter, img: array2<Argb>, x: int, y: int)
    requires 0 <= x < img.Length0 && 0 <= y < img.Length1
    ensures Covers(f, img, x, y) ==> Edge(f, img, 0, x, y) == 0 && Expected(f, img, 0, x, y) == 0xFF00_0000
    ensures !Covers(f, img, x, y) ==> Expected(f, img, 0, x, y) == 0
  {
  }

  /** Every pixel a filter reads around (x, y) has the intensity of (x, y) itself. */
  predicate Flat(f: Filter, img: array2<Argb>, x: int, y: int)
    reads img
    requires Covers(f, img, x, y)
  {
    match f
    case Roberts =>
      Pixel(img, x + 1, y) == Pixel(img, x, y + 1) == Pixel(img, x + 1, y + 1) == Pixel(img, x, y)
    case _ =>
      forall x', y' :: x - 1 <= x' <= x + 1 && y - 1 <= y' <= y + 1 ==> Pixel(img, x', y') == Pixel(img, x, y)
  }

  /** A constant neighbourhood has no edge, whatever the strength: every kernel's weights sum to 0. */
  lemma FlatHasNoEdge(f: Filter, img: array2<Argb>, strength: nat, x: int, y: int)
    requires Covers(f, img, x, y) && Flat(f, img, x, y)
    ensures Magnitude(f, img, x, y) == 0 && Edge(f, img, strength, x, y) == 0
  {
    match f
    case Roberts =>
    case Sobel =>
      SobelClosedForm(img, x, y);
      assert Pixel(img, x - 1, y - 1) == Pixel(img, x + 1, y - 1) == Pixel(img, x, y - 1) == Pixel(img, x, y);
      assert Pixel(img, x - 1, y + 1) == Pixel(img, x + 1, y + 1) == Pixel(img, x, y + 1) == Pixel(img, x, y);
      assert Pixel(img, x - 1, y) == Pixel(img, x + 1, y) == Pixel(img, x, y);
    case Laplacian =>
      LaplacianClosedForm(img, x, y);
      assert Pixel(img, x - 1, y) == Pixel(img, x + 1, y) == Pixel(img, x, y);
      assert Pixel(img, x, y - 1) == Pixel(img, x, y + 1) == Pixel(img, x, y);
  }

  /** `a * a <= b * b` when `|a| <= b`. */
  lemma SquareAtMost(a: int, b: nat)
    requires Abs(a) <= b
    ensures a * a <= b * b
  {
    assert a * a == Abs(a) * Abs(a);
    MulMonotone(Abs(a), Abs(a), b);
    MulMonotone(b, Abs(a), b);
  }

  /**
   * An upper bound on each filter's magnitude over 8-bit samples. The Roberts
   * bound is reached when one row of the 2x2 window is white and the other
   * black, the Laplacian bound at a single white pixel among black ones; the
   * Sobel one follows from bounding `gx` and `gy` separately.
   */
  function MaxMagnitude(f: Filter): nat {
    match f
    case Roberts => 2 * 255
    case Sobel => 1442
    case Laplacian => 4 * 255
  }

  /** Each Sobel gradient is at most 4 * 255 in size, so the sum of squares is at most 2 * 1020^2. */
  lemma SobelGradientBound(img: array2<Argb>, x: int, y: int)
    requires Interior(img, x, y)
    ensures
      var gx := Convolve(img, SobelX, x, y);
      var gy := Convolve(img, SobelY, x, y);
      -1020 <= gx <= 1020 && -1020 <= gy <= 1020 && gx * gx + gy * gy <= 2 * 1020 * 1020
  {
    SobelClosedForm(img, x, y);
    var gx := Convolve(img, SobelX, x, y);
    var gy := Convolve(img, SobelY, x, y);
    SquareAtMost(gx, 1020);
    SquareAtMost(gy, 1020);
  }

  /** The floor square root of anything below `(b + 1)^2` is at most `b`. */
  lemma ISqrtAtMost(n: nat, b: nat)
    requires n < (b + 1) * (b + 1)
    ensures ISqrt(n) <= b
  {
  }

  /**
   * The magnitudes are bounded, so for every strength up to MaxStrength the
   * 32-bit product `magnitude * strength` of the source never wraps around.
   */
  lemma MagnitudeFitsInt(f: Filter, img: array2<Argb>, x: int, y: int, strength: nat)
    requires Covers(f, img, x, y) && strength <= MaxStrength
    ensures Magnitude(f, img, x, y) <= MaxMagnitude(f)
    ensures Magnitude(f, img, x, y) * strength <= MaxInt
  {
    var m := Magnitude(f, img, x, y);
    MulMonotone(strength, m, MaxMagnitude(f));
    MulMonotone(MaxMagnitude(f), strength, MaxStrength);
  }

  /** `ISqrt` is exact on perfect squares. */
  lemma ISqrtOfSquare(k: nat)
    ensures ISqrt(k * k) == k
  {
    var r := ISqrt(k * k);
    if r < k {
      MulMonotone(r + 1, r + 1, k);
      MulMonotone(k, r + 1, k);
      assert false;
    } else if r > k {
      MulMonotone(r, k + 1, r);
      MulMonotone(k + 1, k + 1, r);
      assert false;
    }
  }

  /**
   * A vertical step from black to white meets a full-strength Sobel response:
   * with intensity 0 left of column c and 255 from c on, the pixels of column
   * c - 1 turn white at the neutral strength 50.
   */
  lemma SobelStepResponse(img: array2<Argb>, c: int, y: int)
    requires Interior(img, c - 1, y)
    requires forall x', y' :: 0 <= x' < img.Length0 && 0 <= y' < img.Length1 ==>
      Pixel(img, x', y') == if x' < c then 0 else 255
    ensures Magnitude(Sobel, img, c - 1, y) == 1020
    ensures Edge(Sobel, img, 50, c - 1, y) == 255
  {
    SobelClosedForm(img, c - 1, y);
    assert Convolve(img, SobelX, c - 1, y) == 0;
    assert Convolve(img, SobelY, c - 1, y) == 1020;
    ISqrtOfSquare(1020);
  }
}
