/**
 * ImageResizeUtils: fit an image into a pane scaled by `size`, keep its aspect
 * ratio, and center it on the pane's original box. Sizes and positions are
 * `real`; the source's doubles are modelled as exact reals, without rounding.
 */
module ResizeUtils {

  /** The size and position properties of the AnchorPane that holds the image. */
  class AnchorPane {
    var layoutX: real
    var layoutY: real
    var prefWidth: real
    var minWidth: real
    var maxWidth: real
    var prefHeight: real
    var minHeight: real
    var maxHeight: real
  }

  /** The ImageView: whether it shows an image, and its fit size. */
  class ImageView {
    var hasImage: bool
    var fitWidth: real
    var fitHeight: real
  }

  /** Where and how large the image is placed. */
  datatype Placement = Placement(layoutX: real, layoutY: real, width: real, height: real)

  /** `getReducCoeff`: the smaller of the two ratios of target size to image size. */
  function ReducCoeff(newWidth: real, newHeight: real, iWidth: real, iHeight: real): (c: real)
    requires iWidth > 0.0 && iHeight > 0.0
    ensures c == newWidth / iWidth || c == newHeight / iHeight
    ensures iWidth * c <= newWidth && iHeight * c <= newHeight
  {
    var ratioW := newWidth / iWidth;
    var ratioH := newHeight / iHeight;
    if ratioW <= ratioH then ratioW else ratioH
  }

  /** No uniform scale larger than `ReducCoeff` fits the image into the target box. */
  lemma ReducCoeffIsLargestFit(newWidth: real, newHeight: real, iWidth: real, iHeight: real, s: real)
    requires iWidth > 0.0 && iHeight > 0.0
    requires iWidth * s <= newWidth && iHeight * s <= newHeight
    ensures s <= ReducCoeff(newWidth, newHeight, iWidth, iHeight)
  {
    assert s <= newWidth / iWidth by { DivideBoth(iWidth, s, newWidth); }
    assert s <= newHeight / iHeight by { DivideBoth(iHeight, s, newHeight); }
  }

  lemma DivideBoth(d: real, s: real, n: real)
    requires d > 0.0 && d * s <= n
    ensures s <= n / d
  {
    assert n / d * d == n;
  }

  /** The arithmetic of `centerImage` for a view that shows an image. */
  function CenterPlacement(size: real, iWidth: real, iHeight: real, pWidth: real, pHeight: real, pX: real, pY: real): (p: Placement)
    requires iWidth > 0.0 && iHeight > 0.0
    ensures p.width <= pWidth * size && p.height <= pHeight * size
    ensures p.width == pWidth * size || p.height == pHeight * size
    ensures p.width * iHeight == p.height * iWidth
    ensures p.layoutX - pX == (pX + pWidth) - (p.layoutX + p.width)
    ensures p.layoutY - pY == (pY + pHeight) - (p.layoutY + p.height)
  {
    var newWidth := pWidth * size;
    var newHeight := pHeight * size;
    var reducCoeff := ReducCoeff(newWidth, newHeight, iWidth, iHeight);
    var w := iWidth * reducCoeff;
    var h := iHeight * reducCoeff;
    Placement(pX + (pWidth - w) / 2.0, pY + (pHeight - h) / 2.0, w, h)
  }

  /** Examples: a square image in a 200x100 box keeps scale 1; in a 50x200 box it halves. */
  lemma ReducCoeffExamples()
    ensures ReducCoeff(200.0, 100.0, 100.0, 100.0) == 1.0
    ensures ReducCoeff(50.0, 200.0, 100.0, 100.0) == 0.5
  {
  }

  /**
   * `centerImage`: with an image shown, sizes the pane (preferred, minimum and
   * maximum) and the view's fit box to the placement and moves the pane to its
   * position; with no image, changes nothing.
   */
  method CenterImage(size: real, imageView: ImageView, imagePane: AnchorPane,
                     iWidth: real, iHeight: real, pWidth: real, pHeight: real, pX: real, pY: real)
    requires imageView.hasImage ==> iWidth > 0.0 && iHeight > 0.0
    modifies imageView, imagePane
    ensures !old(imageView.hasImage) ==> unchanged(imageView) && unchanged(imagePane)
    ensures old(imageView.hasImage) ==>
      var p := CenterPlacement(size, iWidth, iHeight, pWidth, pHeight, pX, pY);
      && imagePane.layoutX == p.layoutX && imagePane.layoutY == p.layoutY
      && imagePane.prefWidth == imagePane.minWidth == imagePane.maxWidth == p.width
      && imagePane.prefHeight == imagePane.minHeight == imagePane.maxHeight == p.height
      && imageView.fitWidth == p.width && imageView.fitHeight == p.height
      && imageView.hasImage
  {
    var newWidth := pWidth * size;
    var newHeight := pHeight * size;
    if imageView.hasImage {
      var reducCoeff := ReducCoeff(newWidth, newHeight, iWidth, iHeight);
      var w := iWidth * reducCoeff;
      var h := iHeight * reducCoeff;

      imagePane.layoutX := pX + (pWidth - w) / 2.0;
      imagePane.layoutY := pY + (pHeight - h) / 2.0;

      imagePane.prefWidth := w;
      imagePane.maxWidth := w;
      imagePane.minWidth := w;

      imagePane.prefHeight := h;
      imagePane.maxHeight := h;
      imagePane.minHeight := h;

      imageView.fitWidth := w;
      imageView.fitHeight := h;
    }
  }

  /** The pane's default position: 150 across, 60 down. */
  const DefaultLayoutX: real := 150.0
  const DefaultLayoutY: real := 60.0

  /**
   * `resetImagePane`: takes each of the given sizes as preferred size only if
   * it is positive, and always moves the pane back to its default position.
   */
  method ResetImagePane(imagePane: AnchorPane, pWidth: real, pHeight: real)
    modifies imagePane
    ensures imagePane.prefWidth == if pWidth > 0.0 then pWidth else old(imagePane.prefWidth)
    ensures imagePane.prefHeight == if pHeight > 0.0 then pHeight else old(imagePane.prefHeight)
    ensures imagePane.layoutX == DefaultLayoutX && imagePane.layoutY == DefaultLayoutY
    ensures imagePane.minWidth == old(imagePane.minWidth) && imagePane.maxWidth == old(imagePane.maxWidth)
    ensures imagePane.minHeight == old(imagePane.minHeight) && imagePane.maxHeight == old(imagePane.maxHeight)
  {
    if pWidth > 0.0 {
      imagePane.prefWidth := pWidth;
    }
    if pHeight > 0.0 {
      imagePane.prefHeight := pHeight;
    }
    imagePane.layoutX := DefaultLayoutX;
    imagePane.layoutY := DefaultLayoutY;
  }
}
