# ObjectDetector: region-of-interest extraction, modelled in Dafny

This project models the object-detection core of the Android module
(`ObjectDetector.java`). The core takes frames from a live video stream and
turns each one into the fixed 300x300 model input. A detection model runs on
that input. The boxes it labels "person" with enough confidence are joined
into one union rectangle. That rectangle is mapped back to frame
coordinates, rounded, clamped to the frame and handed to the video source as
its crop.

Modules:

- `Geometry` (geometry.dfy): `RectF`/`Rect`, `RectF.union`, an affine
  `Matrix` and `mapRect` (the bounding box of the four mapped corners), and
  rounding by `floor(x + 1/2)`.
- `Detection` (detection.dfy): the recognition filter, the union fold
  (`UnionOf`), the clamp, and `detect` as a method with a loop. The lemmas
  give the fold's meaning:
  - it is empty exactly when no person box has area;
  - it encloses every person box with area;
  - each of its edges comes from some person box with area;
  - it does not depend on order or on non-qualifying entries.
- `Processors` (processors.dfy): the bitmap, texture and NV21 frame
  processors as classes. Their size, working buffer and transform fields are
  rebuilt or reused as the source does it.
- `Pipeline` (object_detector.dfy): the `ObjectDetector` class. It models:
  - the `processingImage` admission flag and dispatch on the buffer kind;
  - lazy creation of each processor;
  - the posted detection step (`RunPostedDetection`), resume/suspend,
    `processBitmap` and `release`.

The detector's output, the GL readback outcome and the transform builders
are parameters. Coordinates and confidences are reals that stand for the
floats of the source. The threshold `0.6f` is written as the exact binary32
value it denotes.

## Model

| member | source | states |
|---|---|---|
| Geometry.Union | android/src/main/java/com/oney/WebRTCModule/ObjectDetector.java:116 | a box without area leaves the accumulator unchanged; an accumulator without area is replaced by the box; otherwise the result encloses both, and each edge comes from one of them |
| Geometry.UnionIsSmallest | android/src/main/java/com/oney/WebRTCModule/ObjectDetector.java:116 | the union of two boxes with area lies inside every rectangle that encloses both |
| Geometry.MapRect | android/src/main/java/com/oney/WebRTCModule/ObjectDetector.java:122 | the mapped rectangle is well ordered (left <= right, top <= bottom) for every affine matrix |
| Geometry.MapRectContains | android/src/main/java/com/oney/WebRTCModule/ObjectDetector.java:122 | for every affine matrix, the image of every point of the rectangle lies in the mapped rectangle |
| Geometry.MapRectIdentity | android/src/main/java/com/oney/WebRTCModule/ObjectDetector.java:122 | the identity matrix maps a well-ordered rectangle to itself |
| Geometry.Round | android/src/main/java/com/oney/WebRTCModule/ObjectDetector.java:125 | the result is the nearest integer, with halves rounded up: x - 1/2 < n <= x + 1/2; `Geometry.RoundRect` applies it to each edge, as RectF.round(Rect) does |
| Geometry.RoundMonotone | android/src/main/java/com/oney/WebRTCModule/ObjectDetector.java:125 | rounding preserves order |
| Detection.UnionOfEmpty | android/src/main/java/com/oney/WebRTCModule/ObjectDetector.java:110-120 | the union stays (0,0,0,0) exactly when no recognition qualifies with a box that has area; otherwise it has area |
| Detection.UnionOfEncloses | android/src/main/java/com/oney/WebRTCModule/ObjectDetector.java:112-120 | the union encloses the box of every qualifying recognition whose box has area |
| Detection.UnionOfTight | android/src/main/java/com/oney/WebRTCModule/ObjectDetector.java:112-120 | each edge of a union with area is the matching edge of some qualifying box, so it is the smallest enclosing rectangle |
| Detection.UnionOfDetermined | android/src/main/java/com/oney/WebRTCModule/ObjectDetector.java:112-120 | two recognition lists whose contributing recognitions have the same boxes (whatever their titles, confidences, order and repetitions) give the same union |
| Detection.UnionOfIgnoresConfidence | android/src/main/java/com/oney/WebRTCModule/ObjectDetector.java:114-117 | changing the confidence of a qualifying recognition to any other value at or above the threshold leaves the union unchanged |
| Detection.UnionOfPermutation | android/src/main/java/com/oney/WebRTCModule/ObjectDetector.java:112-120 | permuting the recognitions does not change the union |
| Detection.UnionOfIgnoresNonQualifying | android/src/main/java/com/oney/WebRTCModule/ObjectDetector.java:114 | inserting a recognition below the threshold or not titled "person" anywhere leaves the union unchanged |
| Detection.ThresholdInclusive | android/src/main/java/com/oney/WebRTCModule/ObjectDetector.java:114 | a person at exactly MINIMUM_CONFIDENCE_TF_OD_API is kept; one below it is dropped |
| Detection.Clamp | android/src/main/java/com/oney/WebRTCModule/ObjectDetector.java:127-140 | left, top >= 0 and right <= width, bottom <= height; an edge already within its bound is unchanged; an edge outside it moves exactly to the bound; left and top are never clamped against the upper bounds |
| Detection.ClampCanInvert | android/src/main/java/com/oney/WebRTCModule/ObjectDetector.java:128-140 | a rectangle beyond the right edge comes back with left > right, because left is only clamped at 0 |
| Detection.Detect | android/src/main/java/com/oney/WebRTCModule/ObjectDetector.java:109-146 | the loop's result is the union of the qualifying boxes; the returned rectangle is that union mapped, rounded and clamped (the function `Detection.DetectSpec`, which the processors and the pipeline state their results by), and it lies within [0, width] x [0, height] on the clamped sides |
| Detection.DetectCoversPeople | android/src/main/java/com/oney/WebRTCModule/ObjectDetector.java:109-146 | every point of every person box with area, once mapped and rounded, lies in the returned rectangle if it lies in the frame |
| Detection.DetectNoPersonIsEmpty | android/src/main/java/com/oney/WebRTCModule/ObjectDetector.java:110-140 | with no person box that has area, the result has no area (Rect.isEmpty); it is (0,0,0,0) exactly when the image of the origin rounds to (0,0), in particular when the transform fixes the origin |
| Detection.DetectTwoPeopleExample | android/src/main/java/com/oney/WebRTCModule/ObjectDetector.java:109-146 | boxes (10,10,50,50) and (30,30,80,80) at 0.7 and 0.9, identity transform, 300x300 frame give (10,10,80,80) |
| Processors.BitmapProcessor.constructor | android/src/main/java/com/oney/WebRTCModule/ObjectDetector.java:196-209 | a fresh 300x300 model-input buffer, size 0x0, identity transform |
| Processors.BitmapProcessor.Process | android/src/main/java/com/oney/WebRTCModule/ObjectDetector.java:217-245 | stores the bitmap's size; rebuilds the transform on every call; returns detect's rectangle for that size and transform |
| Processors.BitmapProcessor.Release | android/src/main/java/com/oney/WebRTCModule/ObjectDetector.java:211-215 | marks the processor released; size and transform unchanged |
| Processors.TextureProcessor.constructor | android/src/main/java/com/oney/WebRTCModule/ObjectDetector.java:274-301 | a fresh 300x300 model-input buffer, size 0x0, identity transform |
| Processors.TextureProcessor.Copy | android/src/main/java/com/oney/WebRTCModule/ObjectDetector.java:356-422 | stores the frame's size; rebuilds the transform (with this frame's rotation) only when width or height changed, otherwise keeps it; succeeds exactly when the GL readback did |
| Processors.TextureProcessor.Process | android/src/main/java/com/oney/WebRTCModule/ObjectDetector.java:424-441 | returns detect's rectangle for the stored size and transform, within the stored frame on the clamped sides |
| Processors.TextureProcessor.Release | android/src/main/java/com/oney/WebRTCModule/ObjectDetector.java:303-308 | marks the processor released; size and transform unchanged |
| Processors.NV21Processor.constructor | android/src/main/java/com/oney/WebRTCModule/ObjectDetector.java:450-467 | no working buffer yet, size 0x0, identity transform, a fresh 300x300 model-input buffer |
| Processors.NV21Processor.ExtractImage | android/src/main/java/com/oney/WebRTCModule/ObjectDetector.java:478-507 | afterwards the size is the frame's and rgbBytes.Length == width*height. On the first frame or a size change the buffer is freshly allocated; a positive size also gets a new bitmap and the transform for that size. A zero width or height keeps the bitmap and transform of the frame before. The call completes exactly when the size is positive, or when it is unchanged and a bitmap exists; otherwise it throws (`completed` is false). A repeated size reuses buffer, bitmap and transform |
| Processors.NV21Processor.Process | android/src/main/java/com/oney/WebRTCModule/ObjectDetector.java:510-526 | returns detect's rectangle for the stored size and transform, within the stored frame on the clamped sides |
| Processors.NV21Processor.Release | android/src/main/java/com/oney/WebRTCModule/ObjectDetector.java:469-476 | marks the processor released; buffer, size and transform unchanged |
| Pipeline.ObjectDetector.constructor | android/src/main/java/com/oney/WebRTCModule/ObjectDetector.java:61-67 | no processors, flag false, no handler, nothing posted, no crops |
| Pipeline.ObjectDetector.Resume | android/src/main/java/com/oney/WebRTCModule/ObjectDetector.java:574-582 | the handler becomes available; nothing else changes |
| Pipeline.ObjectDetector.ProcessVideoFrameInBackground | android/src/main/java/com/oney/WebRTCModule/ObjectDetector.java:529-553 | while a frame is in flight, before resume, or for an unsupported buffer, nothing changes. A texture frame creates the texture processor if needed and copies: the processor then holds the frame's size, its transform is rebuilt for the frame's size and rotation exactly when the size differs from the stored one (0x0 for a new processor) and kept otherwise, and the flag is set and the step posted only if the copy succeeded. An NV21 frame creates the NV21 processor if needed and extracts: the processor then holds the frame's size and a buffer of width*height pixels; the buffer is reused for a repeated size and freshly allocated otherwise; a positive size on a rebuild gets a fresh bitmap and the transform for that size, while a zero side keeps the bitmap and transform of the frame before (none and identity for a new processor). The flag is set and the step posted exactly when the extraction completes, which for a new processor means a positive size. Released flags are unchanged; the processor of the other kind is untouched |
| Pipeline.ObjectDetector.RunPostedDetection | android/src/main/java/com/oney/WebRTCModule/ObjectDetector.java:555-571 | clears the flag and the posted step; appends the posted kind's detect rectangle to the crops; keeps the invariant that accepted frames = crops + frames in flight (at most one) |
| Pipeline.ObjectDetector.Suspend | android/src/main/java/com/oney/WebRTCModule/ObjectDetector.java:584-593 | a posted step runs to completion before the handler goes away; afterwards nothing is in flight |
| Pipeline.ObjectDetector.ProcessBitmap | android/src/main/java/com/oney/WebRTCModule/ObjectDetector.java:257-263 | creates the bitmap processor on first use and reuses it later; the processor then holds the bitmap's size and the transform built for it; returns detect's rectangle for that size and transform; the flag and the video path are untouched |
| Pipeline.ObjectDetector.Release | android/src/main/java/com/oney/WebRTCModule/ObjectDetector.java:90-100 | every processor that was created is released, and keeps its size, transform and (NV21) buffer and bitmap; a step still in flight reads these unchanged, but what `detect` then does with the recycled bitmaps is not modelled (see "Use of a processor after `release`" under Left out) |
| Pipeline.BackToBackFrames | android/src/main/java/com/oney/WebRTCModule/ObjectDetector.java:529-572 | two NV21 frames submitted while the first is in flight produce exactly one setCrop; with a zero side, none |
| Pipeline.FirstTextureFrame | android/src/main/java/com/oney/WebRTCModule/ObjectDetector.java:529-572 | the first texture frame of a new detector is detected with the transform built for its own size and rotation |
| Pipeline.ZeroWidthAfterFrame | android/src/main/java/com/oney/WebRTCModule/ObjectDetector.java:478-572 | after a 640x480 NV21 frame, a first 0x480 frame posts nothing and a second one is posted and detected with width 0 and the 640x480 transform |
| Pipeline.RepeatedSizeReusesBuffer | android/src/main/java/com/oney/WebRTCModule/ObjectDetector.java:478-572 | a second NV21 frame of the same size keeps the working buffer of the first |

## Behaviour of the code worth knowing

- The NV21 path does not look at `extractImage`'s boolean result (line 545).
  The method's own two `return false` branches test a Java allocation for
  null and cannot be taken. It can throw, however. `Bitmap.createBitmap`
  (line 489) rejects a frame with a zero width or height after the size and
  `rgbBytes` have already been replaced (lines 481-483); the flag is not set
  and nothing is posted. A second such frame of the same size skips the
  rebuild and calls `setPixels` on `original`. If no frame with a positive
  size came before, `original` is null, that call throws and again nothing
  is posted. Otherwise the earlier bitmap is still there, the frame
  completes and is posted, and it is detected with the zero side and the
  transform of the earlier size (`Pipeline.ZeroWidthAfterFrame`).
- The texture transform is cached by width and height only (line 366).
  A rotation change at the same size keeps the transform built for the
  earlier rotation.
- The bitmap path rebuilds its transform on every frame. Like the video
  paths, it requests aspect-preserving scaling (line 223).
- Clamping raises left and top to 0 and lowers right and bottom to the
  frame size; it does not bound left/top above or right/bottom below. The
  result can therefore be inverted (`Detection.ClampCanInvert`).
- With no person detected, the empty union (0,0,0,0) is still mapped by the
  transform. The result is a zero-area rectangle at the image of the
  origin, rounded. It is (0,0,0,0) exactly when the image of the origin
  rounds to (0,0), for example when the transform fixes the origin.
- A failed texture copy posts nothing, so no crop is set for that frame.
  `detect` never returns null, so every posted step sets a crop.

## Left out

- The detection model (`detector.recognizeImage`): its output is the
  `results` parameter of the detection step.
- GL texture readback (`drawTextureBufferToBitmap`): reduced to the
  `drawOk` outcome passed to `Copy`.
- `ImageUtils.getTransformationMatrix`, `Matrix.invert` and the draw/rotation
  composition of the texture path: they are not part of this model. They are
  the builder functions given to the processors and the detector.
- Pixel work (`convertYUV420SPToARGB8888`, `setPixels`, `Canvas.drawBitmap`):
  buffer contents are not modelled, only which buffers exist and when they are
  reallocated. The NV21 `original` bitmap stands as an array of its pixels.
  A zero-sided NV21 frame that reuses an existing bitmap of another size is
  taken to complete, as `setPixels` of a zero-sized area does nothing.
- The exception thrown by `extractImage` is modelled only as the early
  return of `ProcessVideoFrameInBackground`; its propagation to the caller
  of the video sink is not.
- Threads: the handler thread, `post` and the unsynchronised flag are
  reduced to sequential events. `Suspend`'s `InterruptedException` path is
  left out. Calling `suspend` before `resume` fails in the source with a
  null dereference, so `Suspend` requires the handler.
- Floating point: coordinates are exact reals. Rounding is `floor(x + 1/2)`
  rather than `FastMath.round`'s fixed-point evaluation. The 32-bit overflow
  of rounded coordinates and of `frameWidth * frameHeight` is not modelled.
- Use of a processor after `release` is not modelled. `release` recycles
  `tfInput` (lines 213, 307 and 474), so a detection step still in flight
  would hand a recycled bitmap to the detector; the model only keeps the
  size, transform and buffers that step reads.
- The `SAVE_BITMAP` debug branches, logging, `testObjectDetection` and model
  loading in `initialize`: file and log I/O.
- Pipeline.ObjectDetector.ProcessBitmap: states what `processBitmap` is
  meant to do, not what it does. The `BitmapFrameProcessor` constructor
  builds `new Canvas(tfInput)` while `tfInput` is still null (lines 207-208),
  and that constructor throws. So in the source `processBitmap` never
  returns a rectangle, and `bitmapFrameProcessor` stays null. The model's
  `BitmapProcessor` constructor allocates the buffer and ignores that
  ordering.
- getDisplayMedia.js: a promise wrapper around a native call.
