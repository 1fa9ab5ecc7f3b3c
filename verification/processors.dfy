/**
 * The three frame processors of ObjectDetector. Each turns one kind of
 * source image into the fixed TF_INPUT_SIZE x TF_INPUT_SIZE model input and
 * keeps the crop-to-frame transform that detect uses to map results back.
 *
 * The transform builder (ImageUtils.getTransformationMatrix followed by
 * Matrix.invert, composed with the draw matrix on the texture path) is a
 * function the processor is given; the pixel work (YUV conversion, canvas
 * drawing, GL readback) is not modelled, only which buffers and transforms
 * are kept, rebuilt or reused.
 */
module Processors {
  import opened Geometry
  import opened Detection

  /** TF_INPUT_SIZE: the side of the square image the model takes. */
  const InputSize: nat := 300

  /** BitmapFrameProcessor: a decoded bitmap; the transform is rebuilt on every call. */
  class BitmapProcessor {
    /** Crop-to-frame transform for a frame of the given width and height. */
    const buildTransform: (int, int) -> Affine
    /** The model-input bitmap, InputSize x InputSize ARGB pixels. */
    const tfInput: array<int>
    var frameWidth: int
    var frameHeight: int
    var cropToFrame: Affine
    var released: bool

    ghost predicate Valid()
      reads this
    {
      tfInput.Length == InputSize * InputSize
    }

    constructor (buildTransform: (int, int) -> Affine)
      ensures Valid() && fresh(tfInput)
      ensures this.buildTransform == buildTransform
      ensures frameWidth == 0 && frameHeight == 0 && cropToFrame == Identity && !released
    {
      this.buildTransform := buildTransform;
      tfInput := new int[InputSize * InputSize];
      frameWidth, frameHeight := 0, 0;
      cropToFrame := Identity;
      released := false;
    }

    method Release()
      modifies this
      ensures released
      ensures frameWidth == old(frameWidth) && frameHeight == old(frameHeight) && cropToFrame == old(cropToFrame)
    {
      released := true;
    }

    /**
     * BitmapFrameProcessor.process: records the bitmap's size, rebuilds the
     * transform for it and runs detect on the model input.
     */
    method Process(width: nat, height: nat, results: seq<Recognition>) returns (rect: Rect)
      requires Valid()
      modifies this
      ensures Valid() && released == old(released)
      ensures frameWidth == width && frameHeight == height
      ensures cropToFrame == buildTransform(width, height)
      ensures rect == DetectSpec(results, width, height, cropToFrame)
      ensures 0 <= rect.left && 0 <= rect.top && rect.right <= width && rect.bottom <= height
    {
      frameWidth := width;
      frameHeight := height;
      cropToFrame := buildTransform(frameWidth, frameHeight);
      rect := Detect(results, frameWidth, frameHeight, cropToFrame);
    }
  }

  /**
   * TextureVideoFrameProcessor: a GPU texture frame is drawn into the model
   * input; the transform is rebuilt only when the frame's width or height
   * differs from the stored one (the rotation is not part of the key).
   */
  class TextureProcessor {
    /** Crop-to-frame transform for a frame of the given width, height and rotation. */
    const buildTransform: (int, int, int) -> Affine
    const tfInput: array<int>
    var frameWidth: int
    var frameHeight: int
    var cropToFrame: Affine
    var released: bool
    /** Whether a transform has been built, and for which rotation. */
    ghost var built: bool
    ghost var builtRotation: int

    ghost predicate Valid()
      reads this
    {
      tfInput.Length == InputSize * InputSize &&
      (built ==> cropToFrame == buildTransform(frameWidth, frameHeight, builtRotation)) &&
      (!built ==> frameWidth == 0 && frameHeight == 0 && cropToFrame == Identity)
    }

    constructor (buildTransform: (int, int, int) -> Affine)
      ensures Valid() && fresh(tfInput)
      ensures this.buildTransform == buildTransform
      ensures frameWidth == 0 && frameHeight == 0 && cropToFrame == Identity && !released && !built
    {
      this.buildTransform := buildTransform;
      tfInput := new int[InputSize * InputSize];
      frameWidth, frameHeight := 0, 0;
      cropToFrame := Identity;
      released := false;
      built, builtRotation := false, 0;
    }

    /** The transform is rebuilt for a frame of this size: its width or height differs from the stored one. */
    predicate SizeChanges(width: int, height: int)
      reads this
    {
      width != frameWidth || height != frameHeight
    }

    method Release()
      modifies this
      ensures released
      ensures frameWidth == old(frameWidth) && frameHeight == old(frameHeight) && cropToFrame == old(cropToFrame)
      ensures built == old(built) && builtRotation == old(builtRotation)
    {
      released := true;
    }

    /**
     * TextureVideoFrameProcessor.copy: reconfigures on a size change, then
     * draws the texture into the model input. `drawOk` is whether the GL
     * readback (drawTextureBufferToBitmap) reported no error; the size and
     * transform are updated even when it fails.
     */
    method Copy(width: nat, height: nat, rotation: int, drawOk: bool) returns (ok: bool)
      requires Valid()
      modifies this
      ensures Valid() && released == old(released)
      ensures ok == drawOk
      ensures frameWidth == width && frameHeight == height
      ensures old(SizeChanges(width, height)) ==>
                built && builtRotation == rotation && cropToFrame == buildTransform(width, height, rotation)
      ensures !old(SizeChanges(width, height)) ==>
                cropToFrame == old(cropToFrame) && built == old(built) && builtRotation == old(builtRotation)
    {
      if width != frameWidth || height != frameHeight {
        frameWidth := width;
        frameHeight := height;
        cropToFrame := buildTransform(width, height, rotation);
        built, builtRotation := true, rotation;
      }
      ok := drawOk;
    }

    /** TextureVideoFrameProcessor.process: detect with the stored size and transform. */
    method Process(results: seq<Recognition>) returns (rect: Rect)
      ensures rect == DetectSpec(results, frameWidth, frameHeight, cropToFrame)
      ensures 0 <= rect.left && 0 <= rect.top && rect.right <= frameWidth && rect.bottom <= frameHeight
    {
      rect := Detect(results, frameWidth, frameHeight, cropToFrame);
    }
  }

  /**
   * NV21VideoFrameProcessor: a YUV420SP frame is converted into the working
   * RGB buffer rgbBytes (width x height pixels) and drawn into the model
   * input. The buffer and the transform are rebuilt on the first frame and
   * whenever the width or height changes, and reused otherwise.
   */
  class NV21Processor {
    /** Crop-to-frame transform for a frame of the given width and height. */
    const buildTransform: (int, int) -> Affine
    const tfInput: array<int>
    var rgbBytes: array?<int>
    /** The pixels of the `original` bitmap, once it has been created. */
    var original: array?<int>
    var frameWidth: nat
    var frameHeight: nat
    var cropToFrame: Affine
    var released: bool

    /**
     * The working buffer always has the stored size. Before the first frame
     * nothing is allocated; once a frame with a positive size has been
     * stored, the bitmap and the transform belong to that size. After a
     * frame with a zero side only the size and the buffer have been
     * updated: the bitmap and transform of the frame before are kept.
     */
    ghost predicate Valid()
      reads this
    {
      tfInput.Length == InputSize * InputSize &&
      (rgbBytes != null ==> rgbBytes.Length == frameWidth * frameHeight) &&
      (rgbBytes == null ==>
         frameWidth == 0 && frameHeight == 0 && original == null && cropToFrame == Identity) &&
      (rgbBytes != null && frameWidth > 0 && frameHeight > 0 ==>
         original != null && original.Length == frameWidth * frameHeight &&
         cropToFrame == buildTransform(frameWidth, frameHeight))
    }

    /** The working buffer has to be (re)allocated for a frame of this size. */
    predicate NeedsRebuild(width: nat, height: nat)
      reads this
    {
      rgbBytes == null || frameWidth != width || frameHeight != height
    }

    /**
     * extractImage completes for a frame of this size: a positive size gets
     * a bitmap of its own; a zero-sided one completes only by reusing an
     * existing bitmap for a size already stored.
     */
    predicate Extracts(width: nat, height: nat)
      reads this
    {
      (width > 0 && height > 0) || (!NeedsRebuild(width, height) && original != null)
    }

    constructor (buildTransform: (int, int) -> Affine)
      ensures Valid() && fresh(tfInput)
      ensures this.buildTransform == buildTransform
      ensures rgbBytes == null && original == null && frameWidth == 0 && frameHeight == 0
      ensures cropToFrame == Identity && !released
    {
      this.buildTransform := buildTransform;
      tfInput := new int[InputSize * InputSize];
      rgbBytes, original := null, null;
      frameWidth, frameHeight := 0, 0;
      cropToFrame := Identity;
      released := false;
    }

    method Release()
      modifies this
      ensures released
      ensures rgbBytes == old(rgbBytes) && original == old(original)
      ensures frameWidth == old(frameWidth) && frameHeight == old(frameHeight)
      ensures cropToFrame == old(cropToFrame)
    {
      released := true;
    }

    /**
     * NV21VideoFrameProcessor.extractImage. `completed` is false when the
     * Java method throws instead of returning: Bitmap.createBitmap rejects
     * a zero width or height with IllegalArgumentException, after the size
     * and the working buffer have been replaced, and setPixels on a bitmap
     * that was never created throws NullPointerException. Its own two
     * `return false` branches test allocations for null, which Java
     * allocation never yields, so the method returns true whenever it
     * returns.
     */
    method ExtractImage(width: nat, height: nat) returns (completed: bool)
      requires Valid()
      modifies this
      ensures Valid() && released == old(released)
      ensures completed == old(Extracts(width, height))
      ensures frameWidth == width && frameHeight == height
      ensures rgbBytes != null && rgbBytes.Length == width * height
      ensures width > 0 && height > 0 ==> cropToFrame == buildTransform(width, height)
      ensures old(NeedsRebuild(width, height)) ==> fresh(rgbBytes)
      ensures old(NeedsRebuild(width, height)) && width > 0 && height > 0 ==> fresh(original)
      // a zero-sided frame of a new size keeps the bitmap and transform of the frame before
      ensures old(NeedsRebuild(width, height)) && (width == 0 || height == 0) ==>
                original == old(original) && cropToFrame == old(cropToFrame)
      ensures !old(NeedsRebuild(width, height)) ==>
                rgbBytes == old(rgbBytes) && original == old(original) && cropToFrame == old(cropToFrame)
    {
      if rgbBytes == null || frameWidth != width || frameHeight != height {
        frameWidth := width;
        frameHeight := height;
        rgbBytes := new int[frameWidth * frameHeight];
        if frameWidth == 0 || frameHeight == 0 {
          // Bitmap.createBitmap throws IllegalArgumentException
          return false;
        }
        original := new int[frameWidth * frameHeight];
        cropToFrame := buildTransform(frameWidth, frameHeight);
      }
      if original == null {
        // setPixels on the missing bitmap throws NullPointerException
        return false;
      }
      completed := true;
    }

    /** NV21VideoFrameProcessor.process: detect with the stored size and transform. */
    method Process(results: seq<Recognition>) returns (rect: Rect)
      ensures rect == DetectSpec(results, frameWidth, frameHeight, cropToFrame)
      ensures 0 <= rect.left && 0 <= rect.top && rect.right <= frameWidth && rect.bottom <= frameHeight
    {
      rect := Detect(results, frameWidth, frameHeight, cropToFrame);
    }
  }
}
