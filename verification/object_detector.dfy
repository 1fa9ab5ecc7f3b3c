/**
 * ObjectDetector's frame pipeline: admission of video frames through the
 * processingImage flag, dispatch on the frame's buffer kind to a lazily
 * created processor, the detection step posted to the inference thread, the
 * synchronous bitmap path, and release of the processors.
 *
 * Threads are not modelled: the posted step is an explicit event,
 * RunPostedDetection, which the inference thread performs later; the
 * detector's output for that frame is its parameter.
 */
module Pipeline {
  import opened Geometry
  import opened Detection
  import opened Processors

  /** The buffer of a VideoFrame, as processVideoFrameInBackground tells them apart. */
  datatype VideoFrame =
    | TextureFrame(width: nat, height: nat, rotation: int)
    | NV21Frame(width: nat, height: nat)
    | OtherFrame

  /** The kind of frame whose detection step has been posted. */
  datatype BufferKind = Texture | NV21

  datatype Option<T> = None | Some(value: T)

  class ObjectDetector {
    /** Crop-to-frame transform builders handed to the processors. */
    const buildTransform: (int, int) -> Affine
    const buildTextureTransform: (int, int, int) -> Affine

    var bitmapProcessor: BitmapProcessor?
    var textureProcessor: TextureProcessor?
    var nv21Processor: NV21Processor?
    /** True while a frame is being processed. */
    var processingImage: bool
    /** handler != null: the inference thread has been started by resume. */
    var handlerReady: bool
    /** The detection step posted to the handler and not yet run, by its frame's kind. */
    var posted: Option<BufferKind>
    /** The rectangles passed to VideoSource.setCrop, in order. */
    var crops: seq<Rect>
    /** The number of frames processVideoFrameInBackground has accepted. */
    ghost var accepted: nat

    /**
     * The flag is set exactly while one step is posted, so at most one frame
     * is in flight, and every accepted frame has produced one crop except
     * the one in flight.
     */
    ghost predicate Valid()
      reads this, bitmapProcessor, textureProcessor, nv21Processor
    {
      (processingImage <==> posted.Some?) &&
      (posted.Some? ==> handlerReady) &&
      (posted == Some(Texture) ==> textureProcessor != null) &&
      (posted == Some(NV21) ==> nv21Processor != null) &&
      (bitmapProcessor != null ==> bitmapProcessor.Valid() && bitmapProcessor.buildTransform == buildTransform) &&
      (textureProcessor != null ==>
         textureProcessor.Valid() && textureProcessor.buildTransform == buildTextureTransform) &&
      (nv21Processor != null ==> nv21Processor.Valid() && nv21Processor.buildTransform == buildTransform) &&
      accepted == |crops| + (if processingImage then 1 else 0)
    }

    constructor (buildTransform: (int, int) -> Affine, buildTextureTransform: (int, int, int) -> Affine)
      ensures Valid()
      ensures this.buildTransform == buildTransform && this.buildTextureTransform == buildTextureTransform
      ensures bitmapProcessor == null && textureProcessor == null && nv21Processor == null
      ensures !processingImage && !handlerReady && posted == None && crops == [] && accepted == 0
    {
      this.buildTransform := buildTransform;
      this.buildTextureTransform := buildTextureTransform;
      bitmapProcessor, textureProcessor, nv21Processor := null, null, null;
      processingImage, handlerReady := false, false;
      posted, crops := None, [];
      accepted := 0;
    }

    /** resume: makes the handler available (starting its thread is not modelled). */
    method Resume()
      requires Valid()
      modifies this
      ensures Valid() && handlerReady
      ensures processingImage == old(processingImage) && posted == old(posted) && crops == old(crops)
      ensures bitmapProcessor == old(bitmapProcessor) && textureProcessor == old(textureProcessor)
      ensures nv21Processor == old(nv21Processor) && accepted == old(accepted)
    {
      handlerReady := true;
    }

    /**
     * processVideoFrameInBackground. A frame is dropped while a frame is in
     * flight or before resume. A texture frame goes to the texture processor
     * (`drawOk` is the outcome of its GL readback) and an NV21 frame to the
     * NV21 processor, each created on first use; any other buffer is
     * dropped. The flag is set and the detection step posted once the image
     * has been extracted; a failed texture copy posts nothing.
     */
    method ProcessVideoFrameInBackground(frame: VideoFrame, drawOk: bool)
      requires Valid()
      modifies this, textureProcessor, nv21Processor
      ensures Valid()
      ensures bitmapProcessor == old(bitmapProcessor) && crops == old(crops) && handlerReady == old(handlerReady)
      // dropped: nothing is extracted, created or posted and the flag is unchanged
      ensures old(processingImage) || !old(handlerReady) || frame.OtherFrame? ==>
                processingImage == old(processingImage) && posted == old(posted) && accepted == old(accepted) &&
                textureProcessor == old(textureProcessor) && nv21Processor == old(nv21Processor) &&
                (textureProcessor != null ==> unchanged(textureProcessor)) &&
                (nv21Processor != null ==> unchanged(nv21Processor))
      // a texture frame: copied by the (possibly new) texture processor; posted only if the copy succeeded
      ensures !old(processingImage) && old(handlerReady) && frame.TextureFrame? ==>
                textureProcessor != null &&
                (old(textureProcessor) == null ==> fresh(textureProcessor)) &&
                (old(textureProcessor) != null ==> textureProcessor == old(textureProcessor)) &&
                textureProcessor.frameWidth == frame.width && textureProcessor.frameHeight == frame.height &&
                processingImage == drawOk &&
                posted == (if drawOk then Some(Texture) else None) &&
                accepted == old(accepted) + (if drawOk then 1 else 0) &&
                nv21Processor == old(nv21Processor) && (nv21Processor != null ==> unchanged(nv21Processor))
      // its transform: rebuilt for the frame on a size change, kept otherwise; a new processor starts at 0 x 0
      ensures !old(processingImage) && old(handlerReady) && frame.TextureFrame? && old(textureProcessor) == null ==>
                !textureProcessor.released &&
                textureProcessor.cropToFrame ==
                  (if frame.width != 0 || frame.height != 0
                   then buildTextureTransform(frame.width, frame.height, frame.rotation)
                   else Identity)
      ensures !old(processingImage) && old(handlerReady) && frame.TextureFrame? && old(textureProcessor) != null ==>
                textureProcessor.released == old(textureProcessor.released) &&
                textureProcessor.cropToFrame ==
                  (if old(textureProcessor.SizeChanges(frame.width, frame.height))
                   then buildTextureTransform(frame.width, frame.height, frame.rotation)
                   else old(textureProcessor.cropToFrame))
      // an NV21 frame: extracted by the (possibly new) NV21 processor and posted unless extraction threw
      ensures !old(processingImage) && old(handlerReady) && frame.NV21Frame? ==>
                nv21Processor != null &&
                (old(nv21Processor) == null ==> fresh(nv21Processor)) &&
                (old(nv21Processor) != null ==> nv21Processor == old(nv21Processor)) &&
                nv21Processor.frameWidth == frame.width && nv21Processor.frameHeight == frame.height &&
                nv21Processor.rgbBytes != null && nv21Processor.rgbBytes.Length == frame.width * frame.height &&
                (frame.width > 0 && frame.height > 0 ==>
                   nv21Processor.cropToFrame == buildTransform(frame.width, frame.height)) &&
                textureProcessor == old(textureProcessor) &&
                (textureProcessor != null ==> unchanged(textureProcessor))
      ensures !old(processingImage) && old(handlerReady) && frame.NV21Frame? && old(nv21Processor) == null ==>
                !nv21Processor.released && fresh(nv21Processor.rgbBytes) &&
                (frame.width > 0 && frame.height > 0 ==> fresh(nv21Processor.original)) &&
                (frame.width == 0 || frame.height == 0 ==>
                   nv21Processor.original == null && nv21Processor.cropToFrame == Identity) &&
                nv21Processor.Extracts(frame.width, frame.height) == (frame.width > 0 && frame.height > 0) &&
                processingImage == (frame.width > 0 && frame.height > 0) &&
                posted == (if frame.width > 0 && frame.height > 0 then Some(NV21) else None) &&
                accepted == old(accepted) + (if frame.width > 0 && frame.height > 0 then 1 else 0)
      ensures !old(processingImage) && old(handlerReady) && frame.NV21Frame? && old(nv21Processor) != null ==>
                nv21Processor.released == old(nv21Processor.released) &&
                // buffer, bitmap and transform: reused for a repeated size, reallocated on a size change,
                // and the bitmap and transform of the frame before kept for a zero side
                (old(nv21Processor.NeedsRebuild(frame.width, frame.height)) ==> fresh(nv21Processor.rgbBytes)) &&
                (old(nv21Processor.NeedsRebuild(frame.width, frame.height)) && frame.width > 0 && frame.height > 0 ==>
                   fresh(nv21Processor.original)) &&
                (!old(nv21Processor.NeedsRebuild(frame.width, frame.height)) ==>
                   nv21Processor.rgbBytes == old(nv21Processor.rgbBytes)) &&
                (!old(nv21Processor.NeedsRebuild(frame.width, frame.height)) || frame.width == 0 || frame.height == 0 ==>
                   nv21Processor.original == old(nv21Processor.original) &&
                   nv21Processor.cropToFrame == old(nv21Processor.cropToFrame)) &&
                processingImage == old(nv21Processor.Extracts(frame.width, frame.height)) &&
                posted == (if old(nv21Processor.Extracts(frame.width, frame.height)) then Some(NV21) else None) &&
                accepted == old(accepted) + (if old(nv21Processor.Extracts(frame.width, frame.height)) then 1 else 0)
    {
      if processingImage || !handlerReady {
        return;
      }
      var kind: BufferKind;
      match frame {
        case TextureFrame(width, height, rotation) =>
          if textureProcessor == null {
            textureProcessor := new TextureProcessor(buildTextureTransform);
          }
          var copied := textureProcessor.Copy(width, height, rotation, drawOk);
          if !copied {
            return;
          }
          kind := Texture;
        case NV21Frame(width, height) =>
          if nv21Processor == null {
            nv21Processor := new NV21Processor(buildTransform);
          }
          // extractImage's boolean result is not consulted, but an exception
          // it throws leaves this method before the flag is set
          var completed := nv21Processor.ExtractImage(width, height);
          if !completed {
            return;
          }
          kind := NV21;
        case OtherFrame =>
          return;
      }
      processingImage := true;
      posted := Some(kind);
      accepted := accepted + 1;
    }

    /**
     * The posted Runnable, run on the inference thread with the detector's
     * output `results`: detect with the frame's processor, pass the rectangle
     * to setCrop, and clear the flag.
     */
    method RunPostedDetection(results: seq<Recognition>)
      requires Valid() && posted.Some?
      modifies this
      ensures Valid()
      ensures !processingImage && posted == None && accepted == old(accepted) && handlerReady == old(handlerReady)
      ensures bitmapProcessor == old(bitmapProcessor) && textureProcessor == old(textureProcessor)
      ensures nv21Processor == old(nv21Processor)
      ensures old(posted) == Some(Texture) ==>
                crops == old(crops) + [DetectSpec(results, textureProcessor.frameWidth, textureProcessor.frameHeight,
                                                  textureProcessor.cropToFrame)]
      ensures old(posted) == Some(NV21) ==>
                crops == old(crops) + [DetectSpec(results, nv21Processor.frameWidth, nv21Processor.frameHeight,
                                                  nv21Processor.cropToFrame)]
    {
      var rect: Rect;
      match posted.value {
        case Texture =>
          rect := textureProcessor.Process(results);
        case NV21 =>
          rect := nv21Processor.Process(results);
      }
      // detect never returns null, so setCrop is always called
      crops := crops + [rect];
      processingImage := false;
      posted := None;
    }

    /**
     * suspend: the handler thread quits safely and is joined, so a step
     * already posted runs (with the detector's output `results`) before the
     * handler is dropped.
     */
    method Suspend(results: seq<Recognition>)
      requires Valid() && handlerReady
      modifies this
      ensures Valid() && !handlerReady && !processingImage && posted == None && accepted == old(accepted)
      ensures bitmapProcessor == old(bitmapProcessor) && textureProcessor == old(textureProcessor)
      ensures nv21Processor == old(nv21Processor)
      ensures old(posted) == None ==> crops == old(crops)
      ensures old(posted) == Some(Texture) ==>
                crops == old(crops) + [DetectSpec(results, textureProcessor.frameWidth, textureProcessor.frameHeight,
                                                  textureProcessor.cropToFrame)]
      ensures old(posted) == Some(NV21) ==>
                crops == old(crops) + [DetectSpec(results, nv21Processor.frameWidth, nv21Processor.frameHeight,
                                                  nv21Processor.cropToFrame)]
    {
      if posted.Some? {
        RunPostedDetection(results);
      }
      handlerReady := false;
    }

    /**
     * processBitmap: the synchronous bitmap path, which creates the bitmap
     * processor on first use and does not consult the flag.
     */
    method ProcessBitmap(width: nat, height: nat, results: seq<Recognition>) returns (rect: Rect)
      requires Valid()
      modifies this, bitmapProcessor
      ensures Valid()
      ensures bitmapProcessor != null
      ensures old(bitmapProcessor) == null ==> fresh(bitmapProcessor)
      ensures old(bitmapProcessor) != null ==> bitmapProcessor == old(bitmapProcessor)
      ensures rect == DetectSpec(results, width, height, buildTransform(width, height))
      ensures bitmapProcessor.frameWidth == width && bitmapProcessor.frameHeight == height
      ensures bitmapProcessor.cropToFrame == buildTransform(width, height)
      ensures bitmapProcessor.released == (old(bitmapProcessor) != null && old(bitmapProcessor.released))
      ensures processingImage == old(processingImage) && posted == old(posted) && crops == old(crops)
      ensures handlerReady == old(handlerReady) && accepted == old(accepted)
      ensures textureProcessor == old(textureProcessor) && nv21Processor == old(nv21Processor)
    {
      if bitmapProcessor == null {
        bitmapProcessor := new BitmapProcessor(buildTransform);
      }
      rect := bitmapProcessor.Process(width, height, results);
    }

    /** release: each processor that has been created releases its buffers. */
    method Release()
      requires Valid()
      modifies bitmapProcessor, textureProcessor, nv21Processor
      ensures Valid()
      ensures bitmapProcessor != null ==> bitmapProcessor.released
      ensures textureProcessor != null ==> textureProcessor.released
      ensures nv21Processor != null ==> nv21Processor.released
      // a step still in flight finds each processor's size, buffers and transform as they were
      ensures bitmapProcessor != null ==>
                bitmapProcessor.frameWidth == old(bitmapProcessor.frameWidth) &&
                bitmapProcessor.frameHeight == old(bitmapProcessor.frameHeight) &&
                bitmapProcessor.cropToFrame == old(bitmapProcessor.cropToFrame)
      ensures textureProcessor != null ==>
                textureProcessor.frameWidth == old(textureProcessor.frameWidth) &&
                textureProcessor.frameHeight == old(textureProcessor.frameHeight) &&
                textureProcessor.cropToFrame == old(textureProcessor.cropToFrame)
      ensures nv21Processor != null ==>
                nv21Processor.frameWidth == old(nv21Processor.frameWidth) &&
                nv21Processor.frameHeight == old(nv21Processor.frameHeight) &&
                nv21Processor.cropToFrame == old(nv21Processor.cropToFrame) &&
                nv21Processor.rgbBytes == old(nv21Processor.rgbBytes) &&
                nv21Processor.original == old(nv21Processor.original)
    {
      if bitmapProcessor != null {
        bitmapProcessor.Release();
      }
      if nv21Processor != null {
        nv21Processor.Release();
      }
      if textureProcessor != null {
        textureProcessor.Release();
      }
    }
  }

  /**
   * Backpressure: two NV21 frames submitted back to back while the first is
   * in flight produce exactly one setCrop; the second frame is dropped. A
   * frame with a zero side makes extractImage throw both times, so nothing
   * is posted.
   */
  method BackToBackFrames(results: seq<Recognition>, width: nat, height: nat) returns (callbacks: nat)
    ensures callbacks == (if width > 0 && height > 0 then 1 else 0)
  {
    var d := new ObjectDetector((w: int, h: int) => Identity, (w: int, h: int, rotation: int) => Identity);
    d.Resume();
    d.ProcessVideoFrameInBackground(NV21Frame(width, height), true);
    d.ProcessVideoFrameInBackground(NV21Frame(width, height), true);
    if d.posted.Some? {
      d.RunPostedDetection(results);
    }
    callbacks := |d.crops|;
  }

  /**
   * The first texture frame of a new detector is detected with the
   * transform built for that frame's size and rotation.
   */
  method FirstTextureFrame(results: seq<Recognition>, width: nat, height: nat, rotation: int,
                           buildTextureTransform: (int, int, int) -> Affine)
    returns (crops: seq<Rect>)
    requires width > 0 || height > 0
    ensures crops == [DetectSpec(results, width, height, buildTextureTransform(width, height, rotation))]
  {
    var d := new ObjectDetector((w: int, h: int) => Identity, buildTextureTransform);
    d.Resume();
    d.ProcessVideoFrameInBackground(TextureFrame(width, height, rotation), true);
    d.RunPostedDetection(results);
    crops := d.crops;
  }

  /**
   * An NV21 stream that drops to a zero width. The first 0x480 frame throws
   * in createBitmap after replacing the stored size; the second finds that
   * size stored and the 640x480 bitmap still there, so it is posted and
   * detected with width 0 and the transform built for 640x480.
   */
  method ZeroWidthAfterFrame(results: seq<Recognition>, buildTransform: (int, int) -> Affine)
    returns (crops: seq<Rect>)
    ensures crops == [DetectSpec(results, 640, 480, buildTransform(640, 480)),
                      DetectSpec(results, 0, 480, buildTransform(640, 480))]
  {
    var d := new ObjectDetector(buildTransform, (w: int, h: int, rotation: int) => Identity);
    d.Resume();
    d.ProcessVideoFrameInBackground(NV21Frame(640, 480), true);
    d.RunPostedDetection(results);
    d.ProcessVideoFrameInBackground(NV21Frame(0, 480), true);
    assert d.posted == None;
    d.ProcessVideoFrameInBackground(NV21Frame(0, 480), true);
    d.RunPostedDetection(results);
    crops := d.crops;
  }

  /** A second NV21 frame of the same size reuses the working buffer of the first. */
  method RepeatedSizeReusesBuffer(results: seq<Recognition>, width: nat, height: nat) returns (same: bool)
    ensures same
  {
    var d := new ObjectDetector((w: int, h: int) => Identity, (w: int, h: int, rotation: int) => Identity);
    d.Resume();
    d.ProcessVideoFrameInBackground(NV21Frame(width, height), true);
    var buffer := d.nv21Processor.rgbBytes;
    if d.posted.Some? {
      d.RunPostedDetection(results);
    }
    d.ProcessVideoFrameInBackground(NV21Frame(width, height), true);
    same := d.nv21Processor.rgbBytes == buffer;
  }
}
