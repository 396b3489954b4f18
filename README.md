# Image edge detection, crop, resize and undo: a Dafny model

This project models the image-processing core of a JavaFX image editor
(package `com.image`). The core has three parts:

- the three edge-detection filters of `EdgeDetectionTask`: Roberts Cross,
  Sobel and Laplacian. Each is a 3x3 integer convolution over a grid of ARGB
  pixels. It writes opaque grey pixels into a freshly allocated image. It
  reads only the low (blue) byte of each input pixel.
- the geometry of cropping (`ImageUtils.cropImage`, and
  `ImageExportUtils.cropImage`, which has the same code) and of fit-and-center resizing
  (`ImageResizeUtils`). This also covers the suffix guard and file name of
  `ImageExportUtils.exportImage`.
- the undo history: `ImageHistoryManager`, a stack that ignores null. Also
  `MainController`'s own stack and current image, changed by load, filter,
  crop and undo. `getFileSuffix` is modelled here too.

Files, one module each:

| file | module | models |
|---|---|---|
| `wrappers.dfy` | `Wrappers` | `Option` (a reference that may be null), `Result` |
| `convolution.dfy` | `Convolution` | per-pixel specification of the filters and its lemmas |
| `edge_detection.dfy` | `EdgeDetection` | the filter methods: nested loops over `array2` |
| `crop_geometry.dfy` | `CropGeometry` | `cropImage` geometry |
| `export_utils.dfy` | `ExportUtils` | suffix guard and export path of `exportImage` |
| `resize_utils.dfy` | `ResizeUtils` | `getReducCoeff`, `centerImage`, `resetImagePane` |
| `history_manager.dfy` | `HistoryManagement` | `ImageHistoryManager` |
| `main_controller.dfy` | `MainControl` | `getFileSuffix` and the session transitions of `MainController` |

How things are represented:

- **Images given to the filters.** An image is an `array2<Argb>` indexed
  `[x, y]`, the same way `getRGB(x, y)` is. `Length0` is the width and
  `Length1` is the height.
- **Pixels.** `Argb` holds the 32 bits of the Java `int` read as an unsigned
  number. So `rgb & 0xff` is `rgb % 0x100`. The grey pixel
  `0xFF000000 | e<<16 | e<<8 | e` is the sum of its four non-overlapping bytes.
- **Filter output.** Each filter method allocates a zero-filled output image.
  It is proved to equal `Convolution.Expected` at every pixel:
  - `Grey(Edge(...))` at every pixel the source's loops visit;
  - 0 everywhere else: the whole border for Sobel and Laplacian, the last
    row and the last column for Roberts Cross.
- **Square root.** Sobel's `(int) Math.sqrt(gx*gx + gy*gy)` is specified by
  the ghost function `ISqrt`, the floor square root, and computed by the
  binary search `FloorSqrt`. The argument is at most 2·1020², so the double square
  root truncates to exactly that value.
- **Crop and resize arithmetic** is done over `real`. The `(int)` casts on
  non-negative values are `Floor`.
- **Session images** are a type parameter. The controller's transitions do not
  depend on pixels. The result of a filter task and the result of
  `ImageUtils.cropImage` are passed to the controller's operations as
  arguments.

Behaviour of the source kept by the model:

- `MainController.cropImage` replaces the image without pushing it onto the
  history. `CropIsNotUndoable` states the consequence.
- `loadImageFromFile` keeps the old stack and pushes the loaded image on top.
- Every filter leaves the pixels its loops do not visit at 0 (transparent
  black): the whole border for Sobel and Laplacian, the last row and the last
  column for Roberts Cross, whose loops start at row and column 0.
- `cropImage` does not guard against a zero fit size, which would divide by
  zero. The model requires a positive fit size whenever an image is shown.
- `MainController` keeps its own `Stack<Image>` and does not use
  `ImageHistoryManager`. Both are modelled.

## Model

| member | source | states |
|---|---|---|
| `Convolution.Intensity` | src/main/java/com/image/EdgeDetectionTask.java:47-50 | the sample read from a pixel (`& 0xff`) lies in 0..255 |
| `Convolution.Grey` | src/main/java/com/image/EdgeDetectionTask.java:54 | the written pixel is opaque (top byte 0xFF) and its red, green and blue bytes all equal `e`; reading it back with `& 0xff` gives `e` |
| `Convolution.Scale` | src/main/java/com/image/EdgeDetectionTask.java:53 | `min(255, m*s/50)` lies in 0..255, equals `m*s/50` below the clamp and 255 from `m*s >= 12800` on |
| `Convolution.ISqrt` | src/main/java/com/image/EdgeDetectionTask.java:80 | the truncated square root: `r*r <= n < (r+1)*(r+1)` |
| `Convolution.ISqrtUnique` | src/main/java/com/image/EdgeDetectionTask.java:80 | the floor square root is unique: any `r` with `r*r <= n < (r+1)*(r+1)` equals `ISqrt(n)` |
| `Convolution.ISqrtOfSquare` | src/main/java/com/image/EdgeDetectionTask.java:80 | the square root of a perfect square `k*k` is exactly `k` |
| `Convolution.ConvolveExpanded` | src/main/java/com/image/EdgeDetectionTask.java:72-78 | the loop-order sum over `i`, `j` equals the nine-term sum with weight `k[i+1][j+1]` on pixel `(x+i, y+j)` |
| `Convolution.SobelClosedForm` | src/main/java/com/image/EdgeDetectionTask.java:65-78 | with the `[i+1][j+1]` indexing, `gx` is the vertical difference (row below minus row above, weights 1,2,1) and `gy` the horizontal one |
| `Convolution.LaplacianClosedForm` | src/main/java/com/image/EdgeDetectionTask.java:92-103 | the Laplacian sum is the four direct neighbours minus four times the centre |
| `Convolution.ScaleMonotone` | src/main/java/com/image/EdgeDetectionTask.java:53 | for a fixed magnitude, a larger strength never gives a smaller grey level |
| `Convolution.EdgeMonotoneInStrength` | src/main/java/com/image/EdgeDetectionTask.java:52-53 | every visited pixel's grey level is non-decreasing in `strength >= 0`, for all three filters |
| `Convolution.ZeroStrengthIsBlack` | src/main/java/com/image/EdgeDetectionTask.java:53-54 | with strength 0 every visited pixel is opaque black `0xFF000000` and every other pixel 0 |
| `Convolution.FlatHasNoEdge` | src/main/java/com/image/EdgeDetectionTask.java:47-105 | if every pixel a filter reads around `(x, y)` has the same intensity, the magnitude and the grey level are 0 for every strength (each kernel's weights sum to 0) |
| `Convolution.SobelGradientBound` | src/main/java/com/image/EdgeDetectionTask.java:72-80 | each Sobel gradient lies in -1020..1020, so `gx*gx + gy*gy <= 2*1020*1020` |
| `Convolution.Magnitude` | src/main/java/com/image/EdgeDetectionTask.java:52-105 | the unscaled edge value of each filter (Roberts: sum of the two diagonal differences; Sobel: floor root of `gx*gx + gy*gy`; Laplacian: absolute kernel sum) is at most 510, 1442 and 1020 respectively (for Sobel an upper bound from bounding `gx` and `gy` separately) |
| `Convolution.Expected` | src/main/java/com/image/EdgeDetectionTask.java:43-107 | the output pixel is 0 exactly where the filter's loops do not reach; where they do, it is opaque and its low byte is the grey level `Edge` |
| `Convolution.MagnitudeFitsInt` | src/main/java/com/image/EdgeDetectionTask.java:52-105 | for strength up to `MaxStrength`, `magnitude * strength` fits a 32-bit int for every filter, so the Java arithmetic does not wrap below that bound |
| `Convolution.SobelStepResponse` | src/main/java/com/image/EdgeDetectionTask.java:65-81 | at a vertical black-to-white step, the pixel left of the step has Sobel magnitude 1020 and turns white (255) at strength 50 |
| `EdgeDetection.Call` | src/main/java/com/image/EdgeDetectionTask.java:22-38 | dispatch: the result is a fresh image of the input's size equal to the chosen filter's expected output at every pixel |
| `EdgeDetection.RobertsCross` | src/main/java/com/image/EdgeDetectionTask.java:40-58 | fresh output of the input's width and height; pixel `(x, y)` with `x < w-1`, `y < h-1` is `Grey(min(255, (abs(p(x,y)-p(x+1,y+1)) + abs(p(x+1,y)-p(x,y+1))) * strength / 50))`; the last row and column stay 0; the input is not modified |
| `EdgeDetection.SobelFilter` | src/main/java/com/image/EdgeDetectionTask.java:60-85 | fresh output of the input's size; every interior pixel is `Grey(min(255, isqrt(gx*gx+gy*gy) * strength / 50))`; all border pixels stay 0 |
| `EdgeDetection.FloorSqrt` | src/main/java/com/image/EdgeDetectionTask.java:80 | the binary search returns exactly the floor square root `ISqrt(n)` |
| `EdgeDetection.SobelGradient` | src/main/java/com/image/EdgeDetectionTask.java:70-78 | the two nested `i`/`j` loops return exactly the Sobel X and Y convolutions at `(x, y)` |
| `EdgeDetection.LaplacianFilter` | src/main/java/com/image/EdgeDetectionTask.java:87-110 | fresh output of the input's size; every interior pixel is `Grey(min(255, abs(sum) * strength / 50))`; all border pixels stay 0 |
| `EdgeDetection.LaplacianSum` | src/main/java/com/image/EdgeDetectionTask.java:96-103 | the two nested loops return exactly the Laplacian convolution at `(x, y)` |
| `CropGeometry.Scaled` | src/main/java/com/image/ImageUtils.java:22-44 | the scaled region has non-negative size, and multiplied back by fit size over image size its origin is the drag's top-left corner relative to the view's layout and its size the drag's extent |
| `CropGeometry.Truncate` | src/main/java/com/image/ImageUtils.java:63-64 | the `(int)` casts of the non-negative region: each integer is at most its double and more than the double minus 1 |
| `CropGeometry.Clamp` | src/main/java/com/image/ImageExportUtils.java:66-71 | clamping keeps the origin, only shrinks width and height, ends the region within the image, and changes a side only when it ran past the image edge |
| `CropGeometry.CropRegion` | src/main/java/com/image/ImageUtils.java:15-58 | no image gives NoImageLoaded first; a drag under 5 units on either axis gives AreaTooSmall; a large enough drag that fails gives InvalidArea; success holds exactly when the clamped, scaled region has a non-negative origin and positive size, and then the region lies inside the image |
| `CropGeometry.CropImage` | src/main/java/com/image/ImageUtils.java:15-70 | the checks' errors pass through unchanged; an accepted region narrower or lower than one pixel makes `getSubimage` throw and gives CropFailed, exactly then; on success an image is loaded, and the truncated rectangle passed to `getSubimage` has a non-negative origin, positive width and height, and `x + width <= imageWidth`, `y + height <= imageHeight` |
| `CropGeometry.CropBelowOnePixelFails` | src/main/java/com/image/ImageUtils.java:60-70 | a 5x5 drag over a 100x100 image shown at 1000x1000 passes every check as a 0.5x0.5 region, then truncates to width 0 and fails |
| `CropGeometry.CropIgnoresDragDirection` | src/main/java/com/image/ImageUtils.java:22-44 | swapping start and end on either axis gives the same result |
| `CropGeometry.CropIsScaledDrag` | src/main/java/com/image/ImageExportUtils.java:53-71 | an accepted region starts at `(min(start,end) - layout) * imageSize/fitSize` on each axis, and its size is the scaled drag, cut only where it would pass the image edge |
| `CropGeometry.CropAtIdentityScale` | src/main/java/com/image/ImageUtils.java:37-64 | a (10,10)-(60,60) drag over a 100x100 image shown at 100x100 gives the rectangle (10, 10, 50, 50) |
| `ExportUtils.ExportPath` | src/main/java/com/image/ImageExportUtils.java:92-111 | a null or empty suffix is refused before anything else; a cancelled directory dialog gives no path; otherwise the path is the directory, then `/exportedImage.`, then the suffix |
| `MainControl.LastIndexOf` | src/main/java/com/image/MainController.java:208 | -1 or the index of the last occurrence: it holds the character and no later index does |
| `MainControl.FileSuffix` | src/main/java/com/image/MainController.java:207-209 | the longest dot-free tail of the name: all of the name if it has no dot, otherwise exactly what follows the last dot |
| `MainControl.ExportedFileSuffix` | src/main/java/com/image/ImageExportUtils.java:111 | reading the suffix of an exported file's path back with `getFileSuffix` gives the suffix it was exported with, if that suffix has no dot |
| `MainControl.AfterSaveHistory` | src/main/java/com/image/MainController.java:182-184 | `saveHistory` appends its argument, even a null one, on top; the shown image stays |
| `MainControl.AfterUndo` | src/main/java/com/image/MainController.java:188-193 | with an empty stack nothing changes; otherwise the top is shown and removed, and the stack shrinks by exactly that entry |
| `MainControl.AfterEdgeDetection` | src/main/java/com/image/MainController.java:161-179 | with no image nothing changes; otherwise the shown image is pushed, and a successful result replaces it while a failed one leaves it |
| `MainControl.AfterCrop` | src/main/java/com/image/MainController.java:123-140 | the stack never changes; a non-null crop replaces a shown image; a null crop or a missing image changes nothing |
| `MainControl.AfterLoad` | src/main/java/com/image/MainController.java:212-236 | the first decoded image is shown and pushed on the kept stack; with nothing decoded (`images.get(0)` throws) nothing changes |
| `MainControl.OperationsPreserveValid` | src/main/java/com/image/MainController.java:123-236 | undo, filter, crop and load keep the invariant: no null on the stack, and an image is shown whenever the stack is non-empty |
| `MainControl.UndoKeepsAnImage` | src/main/java/com/image/MainController.java:188-193 | in a valid session an undo never leaves the view without an image |
| `MainControl.LoadThenUndo` | src/main/java/com/image/MainController.java:234-235 | an undo straight after a load shows the loaded image and leaves the stack as it was before the load |
| `MainControl.FilterThenUndo` | src/main/java/com/image/MainController.java:161-193 | with an image shown, a filter (succeeded or failed) followed by an undo restores image and stack exactly |
| `MainControl.CropIsNotUndoable` | src/main/java/com/image/MainController.java:130-139 | with a non-empty stack, an undo after a crop gives the same session as an undo before it: the crop itself is never undone on its own |
| `MainControl.MainController.constructor` | src/main/java/com/image/MainController.java:30 | a new controller shows no image and has an empty stack |
| `MainControl.MainController.SaveHistory` | src/main/java/com/image/MainController.java:182-184 | the new state is `AfterSaveHistory` of the old one |
| `MainControl.MainController.UndoAction` | src/main/java/com/image/MainController.java:188-193 | the new state is `AfterUndo` of the old one |
| `MainControl.MainController.ApplyEdgeDetection` | src/main/java/com/image/MainController.java:161-179 | the new state is `AfterEdgeDetection` of the old one and the outcome of the filter run |
| `MainControl.MainController.CropImage` | src/main/java/com/image/MainController.java:123-140 | the new state is `AfterCrop` of the old one and the crop result |
| `MainControl.MainController.LoadImageFromFile` | src/main/java/com/image/MainController.java:212-236 | the new state is `AfterLoad` of the old one and the decoded images |
| `HistoryManagement.Pushed` | src/main/java/com/image/ImageHistoryManager.java:12-16 | a null image leaves the history as it is; a non-null one becomes the new top with nothing else changed |
| `HistoryManagement.Popped` | src/main/java/com/image/ImageHistoryManager.java:19-24 | an empty history gives null and stays empty; otherwise the top is returned and exactly that entry removed |
| `HistoryManagement.SaveThenUndo` | src/main/java/com/image/ImageHistoryManager.java:12-24 | saving a non-null image and undoing returns that image and the history as before |
| `HistoryManagement.SaveAllAppends` | src/main/java/com/image/ImageHistoryManager.java:12-16 | saving images one after another appends them in order |
| `HistoryManagement.UndoAfterAppend` | src/main/java/com/image/ImageHistoryManager.java:19-24 | n undos on a history ending in n images return those images last first and leave the rest |
| `HistoryManagement.SavesThenUndosReverse` | src/main/java/com/image/ImageHistoryManager.java:9-24 | N non-null saves followed by N undos return the images in reverse order and restore the history |
| `HistoryManagement.ImageHistoryManager.constructor` | src/main/java/com/image/ImageHistoryManager.java:9 | a new manager has an empty history |
| `HistoryManagement.ImageHistoryManager.SaveState` | src/main/java/com/image/ImageHistoryManager.java:12-16 | the new history is `Pushed` of the old one |
| `HistoryManagement.ImageHistoryManager.Undo` | src/main/java/com/image/ImageHistoryManager.java:19-24 | the returned image and the new history are `Popped` of the old history |
| `HistoryManagement.ImageHistoryManager.CanUndo` | src/main/java/com/image/ImageHistoryManager.java:27-29 | true exactly when the history is non-empty |
| `ResizeUtils.ReducCoeff` | src/main/java/com/image/ImageResizeUtils.java:40-44 | the coefficient is one of the two ratios, and the image scaled by it fits both target sides |
| `ResizeUtils.ReducCoeffIsLargestFit` | src/main/java/com/image/ImageResizeUtils.java:40-44 | every uniform scale that fits the image in the target box is at most the coefficient |
| `ResizeUtils.ReducCoeffExamples` | src/main/java/com/image/ImageResizeUtils.java:41-43 | a 100x100 image gets 1.0 in a 200x100 box and 0.5 in a 50x200 box |
| `ResizeUtils.CenterPlacement` | src/main/java/com/image/ImageResizeUtils.java:11-24 | the placed size fits `pWidth*size` x `pHeight*size` and fills one of the two sides; the aspect ratio is kept (`w*iHeight == h*iWidth`); the margins left and right (top and bottom) inside the original pane box are equal |
| `ResizeUtils.CenterImage` | src/main/java/com/image/ImageResizeUtils.java:10-37 | with no image nothing changes; otherwise the pane's layout is the placement's position, its preferred, minimum and maximum width and the view's fit width are the placed width, and likewise for heights |
| `ResizeUtils.ResetImagePane` | src/main/java/com/image/ImageResizeUtils.java:47-56 | each preferred size is set only when the given value is positive; the layout becomes (150, 60); min and max sizes are untouched |

## Left out

- Threading in `applyEdgeDetection` is not modelled. This covers the `Task`,
  its thread, `currentTask.cancel()`, and the success and failure callbacks.
  A filter is one synchronous step that either replaces the image or fails
  without changing it. So the model says nothing about a cancelled task whose
  result still arrives, or about an undo between a push and its result.
- Unknown method names in `EdgeDetectionTask.call` are not modelled. The
  dispatch takes one of the three filters. With any other name the result
  image stays null.
- Negative strength is excluded by a precondition. There Java's `/`
  truncates toward zero, so a visited pixel with `magnitude * |strength| < 50`
  still gets 0. The `Color` constructor throws as soon as a visited pixel gets
  a negative grey level.
- Strength above `MaxStrength` (1 489 239) is excluded by a precondition.
  `MagnitudeFitsInt` shows that no product `magnitude * strength` wraps up to
  that bound. `MaxStrength` is derived from an upper bound on the Sobel
  magnitude, so the exact strength at which a 32-bit product first wraps is
  higher. That threshold and the wrap itself are not modelled. The strength slider's range is not part of this model.
- Image conversions (`SwingFXUtils`) are not modelled. Filter images are
  given directly as `array2` grids.
- Pixel decoding is not modelled: the file or zip archive, `new Image(...)`,
  and the size filter on archive members. `AfterLoad` receives the list of
  decoded images.
- The snapshot at 5x scale, the directory chooser, `ImageIO.write` and its
  errors are not modelled. The chooser's answer is a parameter of
  `ExportPath`.
- The pixels `getSubimage` copies are not modelled. `CropImage` returns the
  rectangle passed to `getSubimage`, proved to lie inside the image. Its
  `RasterFormatException` is modelled only for the one cause left inside the
  image, a width or height of 0 (`CropFailed`). The session receives the crop
  result as an argument.
- IEEE-754 behaviour of the crop and resize arithmetic (rounding, infinities,
  NaN) is not modelled: it is done over exact reals. A zero fit size is
  excluded by the `Displayable` precondition of `CropRegion`. Non-positive
  image sizes are excluded from `ReducCoeff`.
- The UI is not modelled: mouse handlers and the selection rectangle,
  drag-over styling, `imageDragDropped`, `exportNewImage`, `initialize`,
  `MainApp.start`, and every alert. The `suffix` field that
  `imageDragDropped` sets is left out with them.
- The unused fields of `ImageExportUtils` are not modelled.
