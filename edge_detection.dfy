/**
 * The filters of EdgeDetectionTask as nested loops over a freshly allocated
 * output image, each proved to produce exactly `Convolution.Expected` at every
 * pixel. The input image is only read: no method here may modify it.
 */
module EdgeDetection {
  import opened Convolution

  /** EdgeDetectionTask's `call`: dispatch on the method name, already parsed to a Filter. */
  method Call(filter: Filter, image: array2<Argb>, strength: int) returns (result: array2<Argb>)
    requires 0 <= strength <= MaxStrength
    ensures fresh(result)
    ensures result.Length0 == image.Length0 && result.Length1 == image.Length1
    ensures forall x, y :: 0 <= x < image.Length0 && 0 <= y < image.Length1 ==>
      result[x, y] == Expected(filter, image, strength, x, y)
  {
    match filter
    case Roberts => result := RobertsCross(image, strength);
    case Laplacian => result := LaplacianFilter(image, strength);
    case Sobel => result := SobelFilter(image, strength);
  }

  /** Roberts Cross: diagonal differences on every pixel but the last row and column. */
  method RobertsCross(image: array2<Argb>, strength: int) returns (edgeImage: array2<Argb>)
    requires 0 <= strength <= MaxStrength
    ensures fresh(edgeImage)
    ensures edgeImage.Length0 == image.Length0 && edgeImage.Length1 == image.Length1
    ensures forall x, y :: 0 <= x < image.Length0 && 0 <= y < image.Length1 ==>
      edgeImage[x, y] == Expected(Roberts, image, strength, x, y)
  {
    var width := image.Length0;
    var height := image.Length1;
    edgeImage := new Argb[width, height]((x, y) => 0);

    var y := 0;
    while y < height - 1
      invariant 0 <= y && (height >= 1 ==> y <= height - 1)
      invariant forall x', y' :: 0 <= x' < width && 0 <= y' < height ==>
        edgeImage[x', y'] == if y' < y then Expected(Roberts, image, strength, x', y') else 0
    {
      var x := 0;
      while x < width - 1
        invariant 0 <= x && (width >= 1 ==> x <= width - 1)
        invariant forall x', y' :: 0 <= x' < width && 0 <= y' < height ==>
          edgeImage[x', y'] ==
            if y' < y || (y' == y && x' < x) then Expected(Roberts, image, strength, x', y') else 0
      {
        var p1 := image[x, y] % 0x100;
        var p2 := image[x + 1, y + 1] % 0x100;
        var p3 := image[x + 1, y] % 0x100;
        var p4 := image[x, y + 1] % 0x100;

        var edge := Abs(p1 - p2) + Abs(p3 - p4);
        edge := Min(255, edge * strength / 50);
        edgeImage[x, y] := Grey(edge);
        x := x + 1;
      }
      y := y + 1;
    }
  }

  /** Sobel on the interior pixels: floor of the gradient length. */
  method SobelFilter(image: array2<Argb>, strength: int) returns (edgeImage: array2<Argb>)
    requires 0 <= strength <= MaxStrength
    ensures fresh(edgeImage)
    ensures edgeImage.Length0 == image.Length0 && edgeImage.Length1 == image.Length1
    ensures forall x, y :: 0 <= x < image.Length0 && 0 <= y < image.Length1 ==>
      edgeImage[x, y] == Expected(Sobel, image, strength, x, y)
  {
    var width := image.Length0;
    var height := image.Length1;
    edgeImage := new Argb[width, height]((x, y) => 0);

    var y := 1;
    while y < height - 1
      invariant 1 <= y && (height >= 2 ==> y <= height - 1)
      invariant forall x', y' :: 0 <= x' < width && 0 <= y' < height ==>
        edgeImage[x', y'] == if y' < y then Expected(Sobel, image, strength, x', y') else 0
    {
      var x := 1;
      while x < width - 1
        invariant 1 <= x && (width >= 2 ==> x <= width - 1)
        invariant forall x', y' :: 0 <= x' < width && 0 <= y' < height ==>
          edgeImage[x', y'] ==
            if y' < y || (y' == y && x' < x) then Expected(Sobel, image, strength, x', y') else 0
      {
        var gx, gy := SobelGradient(image, x, y);
        SquaresNonNegative(gx, gy);
        var root := FloorSqrt(gx * gx + gy * gy);
        var edge := Min(255, root * strength / 50);
        assert edge == Edge(Sobel, image, strength, x, y);
        edgeImage[x, y] := Grey(edge);
        x := x + 1;
      }
      y := y + 1;
    }
  }

  /**
   * `(int) Math.sqrt(n)` by binary search on `lo*lo <= n < hi*hi`: log-depth,
   * where the recursive `ISqrt` that specifies it would take n steps.
   */
  method FloorSqrt(n: nat) returns (r: nat)
    ensures r == ISqrt(n)
  {
    var lo, hi := 0, n + 1;
    assert (n + 1) * (n + 1) == n * n + 2 * n + 1;
    while lo + 1 < hi
      invariant 0 <= lo < hi
      invariant lo * lo <= n < hi * hi
      decreases hi - lo
    {
      var mid := (lo + hi) / 2;
      if mid * mid <= n {
        lo := mid;
      } else {
        hi := mid;
      }
    }
    r := lo;
    ISqrtUnique(n, r);
  }

  /** The two inner loops of Sobel: both kernels over the 3x3 neighbourhood of (x, y). */
  method SobelGradient(image: array2<Argb>, x: int, y: int) returns (gx: int, gy: int)
    requires Interior(image, x, y)
    ensures gx == Convolve(image, SobelX, x, y) && gy == Convolve(image, SobelY, x, y)
  {
    gx, gy := 0, 0;
    for i := -1 to 2
      invariant gx == WindowSum(image, SobelX, x, y, i) && gy == WindowSum(image, SobelY, x, y, i)
    {
      for j := -1 to 2
        invariant gx == WindowSum(image, SobelX, x, y, i) + ColumnSum(image, SobelX, x, y, i, j)
        invariant gy == WindowSum(image, SobelY, x, y, i) + ColumnSum(image, SobelY, x, y, i, j)
      {
        var pixel := image[x + i, y + j] % 0x100;
        gx := gx + pixel * SobelX[i + 1][j + 1];
        gy := gy + pixel * SobelY[i + 1][j + 1];
      }
    }
  }

  /** Laplacian on the interior pixels: absolute value of the kernel sum. */
  method LaplacianFilter(image: array2<Argb>, strength: int) returns (edgeImage: array2<Argb>)
    requires 0 <= strength <= MaxStrength
    ensures fresh(edgeImage)
    ensures edgeImage.Length0 == image.Length0 && edgeImage.Length1 == image.Length1
    ensures forall x, y :: 0 <= x < image.Length0 && 0 <= y < image.Length1 ==>
      edgeImage[x, y] == Expected(Laplacian, image, strength, x, y)
  {
    var width := image.Length0;
    var height := image.Length1;
    edgeImage := new Argb[width, height]((x, y) => 0);

    var y := 1;
    while y < height - 1
      invariant 1 <= y && (height >= 2 ==> y <= height - 1)
      invariant forall x', y' :: 0 <= x' < width && 0 <= y' < height ==>
        edgeImage[x', y'] == if y' < y then Expected(Laplacian, image, strength, x', y') else 0
    {
      var x := 1;
      while x < width - 1
        invariant 1 <= x && (width >= 2 ==> x <= width - 1)
        invariant forall x', y' :: 0 <= x' < width && 0 <= y' < height ==>
          edgeImage[x', y'] ==
            if y' < y || (y' == y && x' < x) then Expected(Laplacian, image, strength, x', y') else 0
      {
        var sum := LaplacianSum(image, x, y);
        var edge := Min(255, Abs(sum) * strength / 50);
        edgeImage[x, y] := Grey(edge);
        x := x + 1;
      }
      y := y + 1;
    }
  }

  /** The two inner loops of the Laplacian filter. */
  method LaplacianSum(image: array2<Argb>, x: int, y: int) returns (sum: int)
    requires Interior(image, x, y)
    ensures sum == Convolve(image, LaplacianKernel, x, y)
  {
    sum := 0;
    for i := -1 to 2
      invariant sum == WindowSum(image, LaplacianKernel, x, y, i)
    {
      for j := -1 to 2
        invariant sum == WindowSum(image, LaplacianKernel, x, y, i) + ColumnSum(image, LaplacianKernel, x, y, i, j)
      {
        var pixel := image[x + i, y + j] % 0x100;
        sum := sum + pixel * LaplacianKernel[i + 1][j + 1];
      }
    }
  }
}
