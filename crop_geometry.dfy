/**
 * The geometry of `cropImage` (ImageUtils and, with the same code,
 * ImageExportUtils): a rectangle dragged in display coordinates becomes the
 * integer rectangle handed to `getSubimage`.
 *
 * Coordinates are `real`; the source's doubles are modelled as exact reals,
 * without rounding, infinities or NaN.
 */
module CropGeometry {
  import opened Wrappers

  /** The size of the loaded image, in pixels. */
  datatype ImageSize = ImageSize(width: nat, height: nat)

  /** What `cropImage` reads from the ImageView: its image (null if none), fit size and layout. */
  datatype View = View(image: Option<ImageSize>, fitWidth: real, fitHeight: real, layoutX: real, layoutY: real)

  /**
   * The four alerts after which `cropImage` returns null; the last is the
   * `RasterFormatException` of `getSubimage`, whose raster refuses a zero
   * width or height.
   */
  datatype CropError = NoImageLoaded | AreaTooSmall | InvalidArea | CropFailed

  /** An image-space rectangle of doubles. */
  datatype Region = Region(x: real, y: real, width: real, height: real)

  /** The `(int)`-truncated arguments of `getSubimage(x, y, width, height)`. */
  datatype PixelRect = PixelRect(x: int, y: int, width: int, height: int)

  /** Drags narrower or lower than this many display units are refused. */
  const MinCropSize: real := 5.0

  function Min(a: real, b: real): real { if a <= b then a else b }

  function Abs(a: real): real { if a < 0.0 then -a else a }

  /** A loaded image is shown in a view with a positive fit size. */
  predicate Displayable(view: View) {
    view.image.Some? ==> view.fitWidth > 0.0 && view.fitHeight > 0.0
  }

  /** The drag is at least MinCropSize wide and high, whichever way it went. */
  predicate LargeEnough(startX: real, startY: real, endX: real, endY: real) {
    Abs(endX - startX) >= MinCropSize && Abs(endY - startY) >= MinCropSize
  }

  /**
   * The drag mapped to image space: origin and size scaled by image size over
   * fit size, so that mapping them back by fit size over image size gives the
   * drag's top-left corner (relative to the view's layout) and its extent.
   */
  function Scaled(view: View, image: ImageSize, startX: real, startY: real, endX: real, endY: real): (r: Region)
    requires view.fitWidth > 0.0 && view.fitHeight > 0.0
    ensures r.width >= 0.0 && r.height >= 0.0
    ensures r.x * view.fitWidth == (Min(startX, endX) - view.layoutX) * image.width as real
    ensures r.y * view.fitHeight == (Min(startY, endY) - view.layoutY) * image.height as real
    ensures r.width * view.fitWidth == Abs(endX - startX) * image.width as real
    ensures r.height * view.fitHeight == Abs(endY - startY) * image.height as real
  {
    var scaleX := image.width as real / view.fitWidth;
    var scaleY := image.height as real / view.fitHeight;
    Region((Min(startX, endX) - view.layoutX) * scaleX, (Min(startY, endY) - view.layoutY) * scaleY,
           Abs(endX - startX) * scaleX, Abs(endY - startY) * scaleY)
  }

  /** Shrinks the width and height so the region ends inside the image; the origin stays put. */
  function Clamp(r: Region, image: ImageSize): (c: Region)
    ensures c.x == r.x && c.y == r.y
    ensures c.width <= r.width && c.height <= r.height
    ensures c.x + c.width <= image.width as real && c.y + c.height <= image.height as real
    ensures c.width == r.width || c.x + c.width == image.width as real
    ensures c.height == r.height || c.y + c.height == image.height as real
  {
    var width := if r.x + r.width > image.width as real then image.width as real - r.x else r.width;
    var height := if r.y + r.height > image.height as real then image.height as real - r.y else r.height;
    Region(r.x, r.y, width, height)
  }

  /** The region passes the final validity check. */
  predicate ValidRegion(c: Region) {
    c.x >= 0.0 && c.y >= 0.0 && c.width > 0.0 && c.height > 0.0
  }

  /** The checks and arithmetic of `cropImage`, up to the call of `getSubimage`. */
  function CropRegion(view: View, startX: real, startY: real, endX: real, endY: real): (r: Result<Region, CropError>)
    requires Displayable(view)
    ensures view.image.None? ==> r == Failure(NoImageLoaded)
    ensures view.image.Some? && !LargeEnough(startX, startY, endX, endY) ==> r == Failure(AreaTooSmall)
    ensures view.image.Some? && LargeEnough(startX, startY, endX, endY) && r.Failure? ==> r == Failure(InvalidArea)
    ensures r.Success? <==>
      view.image.Some? && LargeEnough(startX, startY, endX, endY) &&
      ValidRegion(Clamp(Scaled(view, view.image.value, startX, startY, endX, endY), view.image.value))
    ensures r.Success? ==>
      var image := view.image.value;
      && ValidRegion(r.value)
      && r.value.x + r.value.width <= image.width as real
      && r.value.y + r.value.height <= image.height as real
  {
    if view.image.None? then Failure(NoImageLoaded)
    else if !LargeEnough(startX, startY, endX, endY) then Failure(AreaTooSmall)
    else
      var image := view.image.value;
      var c := Clamp(Scaled(view, image, startX, startY, endX, endY), image);
      if !ValidRegion(c) then Failure(InvalidArea) else Success(c)
  }

  /** `(int) v` of a non-negative double: truncation is the floor. */
  function Truncate(r: Region): (p: PixelRect)
    requires ValidRegion(r)
    ensures p.x >= 0 && p.y >= 0 && p.width >= 0 && p.height >= 0
    ensures p.x as real <= r.x < p.x as real + 1.0 && p.y as real <= r.y < p.y as real + 1.0
    ensures p.width as real <= r.width < p.width as real + 1.0
    ensures p.height as real <= r.height < p.height as real + 1.0
  {
    PixelRect(r.x.Floor, r.y.Floor, r.width.Floor, r.height.Floor)
  }

  /**
   * `cropImage`: the integer rectangle it passes to `getSubimage`, or why it
   * returned null. An accepted region lies inside the image, so the only
   * exception `getSubimage` can raise is for a width or height truncated to 0.
   */
  function CropImage(view: View, startX: real, startY: real, endX: real, endY: real): (r: Result<PixelRect, CropError>)
    requires Displayable(view)
    ensures r.Success? ==> view.image.Some?
    ensures r.Success? && view.image.Some? ==>
      var image := view.image.value;
      && 0 <= r.value.x && 0 <= r.value.y && 0 < r.value.width && 0 < r.value.height
      && r.value.x + r.value.width <= image.width
      && r.value.y + r.value.height <= image.height
    ensures r == Failure(CropFailed) <==>
      && CropRegion(view, startX, startY, endX, endY).Success?
      && var c := CropRegion(view, startX, startY, endX, endY).value;
      (c.width < 1.0 || c.height < 1.0)
    ensures CropRegion(view, startX, startY, endX, endY).Failure? ==>
      r == Failure(CropRegion(view, startX, startY, endX, endY).error)
  {
    match CropRegion(view, startX, startY, endX, endY)
    case Failure(e) => Failure(e)
    case Success(c) =>
      var p := Truncate(c);
      if p.width == 0 || p.height == 0 then Failure(CropFailed) else Success(p)
  }

  /**
   * A 5x5 drag at a tenth of the image's scale is accepted by the checks but
   * truncates to a 0x0 rectangle, so `getSubimage` throws.
   */
  lemma CropBelowOnePixelFails()
    ensures CropRegion(View(Some(ImageSize(100, 100)), 1000.0, 1000.0, 0.0, 0.0), 10.0, 10.0, 15.0, 15.0)
      == Success(Region(1.0, 1.0, 0.5, 0.5))
    ensures CropImage(View(Some(ImageSize(100, 100)), 1000.0, 1000.0, 0.0, 0.0), 10.0, 10.0, 15.0, 15.0)
      == Failure(CropFailed)
  {
    var view := View(Some(ImageSize(100, 100)), 1000.0, 1000.0, 0.0, 0.0);
    assert Scaled(view, ImageSize(100, 100), 10.0, 10.0, 15.0, 15.0) == Region(1.0, 1.0, 0.5, 0.5);
  }

  /** Swapping start and end on either axis does not change the crop: only `min` and `abs` see them. */
  lemma CropIgnoresDragDirection(view: View, startX: real, startY: real, endX: real, endY: real)
    requires Displayable(view)
    ensures CropRegion(view, endX, startY, startX, endY) == CropRegion(view, startX, startY, endX, endY)
    ensures CropRegion(view, startX, endY, endX, startY) == CropRegion(view, startX, startY, endX, endY)
  {
    assert Abs(startX - endX) == Abs(endX - startX);
    assert Abs(startY - endY) == Abs(endY - startY);
    assert Min(endX, startX) == Min(startX, endX);
    assert Min(endY, startY) == Min(startY, endY);
    if view.image.Some? {
      var image := view.image.value;
      ScaledSeesOnlyMinAndAbs(view, image, endX, startY, startX, endY, startX, startY, endX, endY);
      ScaledSeesOnlyMinAndAbs(view, image, startX, endY, endX, startY, startX, startY, endX, endY);
    }
  }

  /** Two drags with the same `min` and `abs` on each axis scale to the same region. */
  lemma ScaledSeesOnlyMinAndAbs(view: View, image: ImageSize,
                                sx: real, sy: real, ex: real, ey: real,
                                sx': real, sy': real, ex': real, ey': real)
    requires view.fitWidth > 0.0 && view.fitHeight > 0.0
    requires Min(sx, ex) == Min(sx', ex') && Abs(ex - sx) == Abs(ex' - sx')
    requires Min(sy, ey) == Min(sy', ey') && Abs(ey - sy) == Abs(ey' - sy')
    ensures Scaled(view, image, sx, sy, ex, ey) == Scaled(view, image, sx', sy', ex', ey')
  {
  }

  /**
   * An accepted crop starts at the scaled drag origin and is the scaled drag,
   * cut off only where it would run past the right or bottom edge.
   */
  lemma CropIsScaledDrag(view: View, startX: real, startY: real, endX: real, endY: real)
    requires Displayable(view)
    requires CropRegion(view, startX, startY, endX, endY).Success?
    ensures
      var image := view.image.value;
      var scaleX := image.width as real / view.fitWidth;
      var scaleY := image.height as real / view.fitHeight;
      var c := CropRegion(view, startX, startY, endX, endY).value;
      && c.x == (Min(startX, endX) - view.layoutX) * scaleX
      && c.y == (Min(startY, endY) - view.layoutY) * scaleY
      && c.width <= Abs(endX - startX) * scaleX
      && c.height <= Abs(endY - startY) * scaleY
      && (c.width == Abs(endX - startX) * scaleX || c.x + c.width == image.width as real)
      && (c.height == Abs(endY - startY) * scaleY || c.y + c.height == image.height as real)
  {
  }

  /** A drag of (10, 10)-(60, 60) over a 100x100 image shown at its own size gives (10, 10, 50, 50). */
  lemma CropAtIdentityScale()
    ensures CropImage(View(Some(ImageSize(100, 100)), 100.0, 100.0, 0.0, 0.0), 10.0, 10.0, 60.0, 60.0)
      == Success(PixelRect(10, 10, 50, 50))
  {
    var view := View(Some(ImageSize(100, 100)), 100.0, 100.0, 0.0, 0.0);
    assert Scaled(view, ImageSize(100, 100), 10.0, 10.0, 60.0, 60.0) == Region(10.0, 10.0, 50.0, 50.0);
  }
}
