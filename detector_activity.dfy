/** The camera-callback path of `DetectorActivity`: the single-slot gate that
    admits or drops frames, the per-frame release hook, the deferred offload
    task, and the two buffers reused across frames. Each callback is a method
    of the class; a background task the activity posts becomes a method the
    caller may invoke at any later point, so the hand-off between threads is
    one more event in a sequential interleaving. */
module Detection {
  import opened JavaTypes
  import opened Camera
  import opened FrameGate

  /** The plane bytes `fillBytes` copies out of an admitted image. */
  datatype YuvBytes = YuvBytes(y: seq<int8>, u: seq<int8>, v: seq<int8>)

  /** What the `imageConverter` closure captured from its frame: the chroma row
      stride and pixel stride. Everything else it reads from the activity's
      fields when it runs. */
  datatype Converter = Converter(uvRowStride: int, uvPixelStride: int)

  /** The arguments `convertYUV420ToARGB8888` receives. */
  datatype ConverterInput = ConverterInput(
    y: seq<int8>, u: seq<int8>, v: seq<int8>,
    width: nat, height: nat,
    yRowStride: int, uvRowStride: int, uvPixelStride: int)

  /** The contents of a pixel buffer after a converter has written `pixels`
      into it from index 0 on: a converter with more pixels than the buffer
      holds fills the buffer and then fails on the first index past its end. */
  function Overwrite(buffer: seq<int>, pixels: seq<int>): (r: seq<int>)
    ensures |r| == |buffer|
    ensures forall i :: 0 <= i < |r| ==> r[i] == if i < |pixels| then pixels[i] else buffer[i]
  {
    if |pixels| <= |buffer| then pixels + buffer[|pixels|..] else pixels[..|buffer|]
  }

  /** A Java array of `n` elements as `new` creates it. */
  function Zeros<T>(n: nat, zero: T): (r: seq<T>)
    ensures |r| == n && forall i :: 0 <= i < n ==> r[i] == zero
  {
    seq(n, _ => zero)
  }

  class DetectorActivity {
    var previewWidth: nat
    var previewHeight: nat
    var sensorOrientation: int
    var isProcessingFrame: bool
    var frameID: int
    var feedback: bool
    var rgbBytes: array?<int>
    var luminanceCopy: array?<int8>
    var yuvBytes: Option<YuvBytes>
    var yRowStride: int
    var imageConverter: Option<Converter>
    /** `postInferenceCallback`, represented by the image its `run()` closes. */
    var postInferenceCallback: Option<Image>
    /** Offload tasks given to `runInBackground` that have not run yet. */
    var postedOffloads: nat

    /** The gate fields, as the pure state machine of module FrameGate sees them. */
    function GateState(): Gate
      reads this
    {
      Gate(isProcessingFrame, frameID, postInferenceCallback, postedOffloads)
    }

    ghost predicate Valid()
      reads this
    {
      Inv(GateState()) && IsInt(frameID)
    }

    /** The image the release hook would close, as a frame for `modifies`. */
    function HookImage(): set<Image>
      reads this
    {
      match postInferenceCallback
      case None => {}
      case Some(image) => {image}
    }

    /** The preview size is known, so frames are looked at. */
    function Sized(): bool
      reads this
    {
      previewWidth != 0 && previewHeight != 0
    }

    /** What the converter is handed for `image` with the current fields. */
    function InputFor(image: Image): ConverterInput
      reads this
    {
      ConverterInput(image.y.bytes, image.u.bytes, image.v.bytes, previewWidth, previewHeight,
                     image.y.rowStride, image.u.rowStride, image.u.pixelStride)
    }

    /** The pixel buffer a callback will write into: the existing one, or the
        zero-filled one it allocates first. */
    ghost function RgbBefore(): seq<int>
      reads this, rgbBytes
    {
      if rgbBytes == null then Zeros(previewWidth * previewHeight, 0) else rgbBytes[..]
    }

    /** The luminance buffer a copy of `n` bytes will write into. */
    ghost function LuminanceBefore(n: nat): seq<int8>
      reads this, luminanceCopy
    {
      if luminanceCopy == null then Zeros(n, 0) else luminanceCopy[..]
    }

    /** Admitting `image` now would throw inside the callback's `try`: either the
        converter runs past the end of the pixel buffer, or `System.arraycopy`
        is asked to copy a luminance plane longer than the reused copy. */
    ghost function Faults(image: Image?, convert: ConverterInput -> seq<int>): bool
      reads this, rgbBytes, luminanceCopy
    {
      image != null &&
      (|convert(InputFor(image))| > |RgbBefore()| || |image.y.bytes| > |LuminanceBefore(|image.y.bytes|)|)
    }

    /** The event an `onImageAvailable` call is for the gate. */
    ghost function ArrivalOf(image: Image?, convert: ConverterInput -> seq<int>): Event
      reads this, rgbBytes, luminanceCopy
    {
      Arrive(if image == null then None else Some(image as Image), Sized(), Faults(image, convert))
    }

    constructor ()
      ensures Valid() && GateState() == Initial
      ensures previewWidth == 0 && previewHeight == 0 && !feedback
      ensures rgbBytes == null && luminanceCopy == null && yuvBytes == None && imageConverter == None
    {
      previewWidth, previewHeight, sensorOrientation := 0, 0, 0;
      isProcessingFrame, frameID, feedback := false, 0, false;
      rgbBytes, luminanceCopy := null, null;
      yuvBytes, yRowStride, imageConverter := None, 0, None;
      postInferenceCallback, postedOffloads := None, 0;
    }

    /** `onPreviewSizeChosen`: records the preview size and the sensor
        orientation relative to the screen, `rotation - getScreenOrientation()`
        in Java `int` arithmetic. The detector, tracker, bitmaps and transform
        matrices it also sets up are outside this model. */
    method OnPreviewSizeChosen(width: nat, height: nat, rotation: int, screenOrientation: int)
      modifies this
      ensures previewWidth == width && previewHeight == height
      ensures sensorOrientation == Wrap(rotation - screenOrientation)
      ensures IsInt(rotation) && IsInt(screenOrientation) && -360 <= rotation - screenOrientation <= 360
              ==> sensorOrientation == rotation - screenOrientation
      ensures GateState() == old(GateState()) && feedback == old(feedback)
      ensures rgbBytes == old(rgbBytes) && luminanceCopy == old(luminanceCopy)
      ensures yuvBytes == old(yuvBytes) && yRowStride == old(yRowStride) && imageConverter == old(imageConverter)
    {
      previewWidth := width;
      previewHeight := height;
      sensorOrientation := Wrap(rotation - screenOrientation);
    }

    /** `readyForNextImage`: runs the release hook if there is one, which closes
        the image it was built for and reopens the gate. */
    method ReadyForNextImage()
      requires Valid()
      modifies this, HookImage()
      ensures Valid()
      ensures var t := Step(old(GateState()), Ready);
              GateState() == t.next && (t.closes.Some? ==> t.closes.value.closed)
      ensures old(postInferenceCallback).Some? ==> old(postInferenceCallback).value.closed && !isProcessingFrame
      ensures old(postInferenceCallback).None? ==> isProcessingFrame == old(isProcessingFrame)
      ensures feedback == old(feedback) && previewWidth == old(previewWidth) && previewHeight == old(previewHeight)
      ensures sensorOrientation == old(sensorOrientation)
      ensures rgbBytes == old(rgbBytes) && luminanceCopy == old(luminanceCopy)
      ensures yuvBytes == old(yuvBytes) && yRowStride == old(yRowStride) && imageConverter == old(imageConverter)
    {
      match postInferenceCallback
      case None =>
      case Some(image) =>
        image.Close();
        isProcessingFrame := false;
    }

    /** The task `onImageAvailable` posts with `runInBackground`, run now.
        It bumps `frameID` and hands the cropped frame to `offloadImage`, whose
        answer is `success`; only on success does it call `readyForNextImage`. */
    method BackgroundOffload(success: bool)
      requires Valid() && postedOffloads > 0
      modifies this, HookImage()
      ensures Valid()
      ensures var t := Step(old(GateState()), Offload(success));
              GateState() == t.next && (t.closes.Some? ==> t.closes.value.closed)
      ensures frameID == Wrap(old(frameID) + 1) && postedOffloads == old(postedOffloads) - 1
      ensures old(frameID) < IntMax ==> frameID == old(frameID) + 1
      ensures success ==> GateState() == Release(old(GateState()).(frameId := frameID, posted := postedOffloads)).next
      ensures !success ==> isProcessingFrame == old(isProcessingFrame) && postInferenceCallback == old(postInferenceCallback)
      ensures !success ==> unchanged(old(HookImage()))
      ensures !feedback && previewWidth == old(previewWidth) && previewHeight == old(previewHeight)
      ensures sensorOrientation == old(sensorOrientation)
      ensures rgbBytes == old(rgbBytes) && luminanceCopy == old(luminanceCopy)
      ensures yuvBytes == old(yuvBytes) && yRowStride == old(yRowStride) && imageConverter == old(imageConverter)
    {
      postedOffloads := postedOffloads - 1;
      frameID := Wrap(frameID + 1);
      feedback := success;
      if feedback {
        feedback := false;
        ReadyForNextImage();
      }
    }

    /** `getRgbBytes`: runs the pending converter, which writes the frame's
        pixels into `rgbBytes`, and returns that buffer. `converted` is false
        when the converter ran past the end of the buffer and threw. */
    method GetRgbBytes(convert: ConverterInput -> seq<int>) returns (pixels: array<int>, converted: bool)
      requires rgbBytes != null && yuvBytes.Some? && imageConverter.Some?
      modifies rgbBytes
      ensures pixels == rgbBytes
      ensures var input := ConverterInput(yuvBytes.value.y, yuvBytes.value.u, yuvBytes.value.v,
                                          previewWidth, previewHeight, yRowStride,
                                          imageConverter.value.uvRowStride, imageConverter.value.uvPixelStride);
              && converted == (|convert(input)| <= rgbBytes.Length)
              && rgbBytes[..] == Overwrite(old(rgbBytes[..]), convert(input))
    {
      var input := ConverterInput(yuvBytes.value.y, yuvBytes.value.u, yuvBytes.value.v,
                                  previewWidth, previewHeight, yRowStride,
                                  imageConverter.value.uvRowStride, imageConverter.value.uvPixelStride);
      var out := convert(input);
      var n := if |out| <= rgbBytes.Length then |out| else rgbBytes.Length;
      forall i | 0 <= i < n {
        rgbBytes[i] := out[i];
      }
      pixels := rgbBytes;
      converted := |out| <= rgbBytes.Length;
    }

    /** The luminance step of `onImageAvailable`: allocates `luminanceCopy` on
        first use with the length of the plane, then `System.arraycopy`s the
        plane into it. The copy throws, writing nothing, when the plane is
        longer than the reused buffer; `copied` is false then. */
    method CopyLuminance(original: seq<int8>) returns (copied: bool)
      modifies this`luminanceCopy, luminanceCopy
      ensures luminanceCopy != null
      ensures old(luminanceCopy) == null ==> fresh(luminanceCopy) && luminanceCopy.Length == |original|
      ensures old(luminanceCopy) != null ==> luminanceCopy == old(luminanceCopy)
      ensures copied == (|original| <= luminanceCopy.Length)
      ensures luminanceCopy[..] == if copied then original + old(LuminanceBefore(|original|))[|original|..]
                                   else old(LuminanceBefore(|original|))
    {
      ghost var before := LuminanceBefore(|original|);
      if luminanceCopy == null {
        luminanceCopy := new int8[|original|](_ => 0);
      }
      var buffer := luminanceCopy;
      assert buffer[..] == before;
      if |original| > buffer.Length {
        return false;
      }
      var i := 0;
      while i < |original|
        modifies buffer
        invariant 0 <= i <= |original|
        invariant forall j :: 0 <= j < i ==> buffer[j] == original[j]
        invariant forall j :: i <= j < buffer.Length ==> buffer[j] == before[j]
      {
        buffer[i] := original[i];
        i := i + 1;
      }
      assert buffer[..] == original + before[|original|..];
      copied := true;
    }

    /** The rest of `onImageAvailable` once a frame is admitted: close the
        gate, take the planes, build the converter and the release hook,
        convert into the pixel buffer, copy the luminance plane and post the
        offload task. An exception in the conversion or the copy is swallowed
        by the callback's `catch`, which returns before the task is posted. */
    method AdmitFrame(image: Image, convert: ConverterInput -> seq<int>)
      requires Valid() && rgbBytes != null && !isProcessingFrame
      modifies this, rgbBytes, luminanceCopy
      ensures Valid()
      ensures isProcessingFrame && postInferenceCallback == Some(image) && frameID == old(frameID)
      ensures postedOffloads == old(postedOffloads) + if old(Faults(image, convert)) then 0 else 1
      ensures yuvBytes == Some(YuvBytes(image.y.bytes, image.u.bytes, image.v.bytes))
      ensures yRowStride == image.y.rowStride
      ensures imageConverter == Some(Converter(image.u.rowStride, image.u.pixelStride))
      ensures rgbBytes == old(rgbBytes) && rgbBytes[..] == Overwrite(old(rgbBytes[..]), convert(InputFor(image)))
      ensures |convert(InputFor(image))| <= rgbBytes.Length ==>
                && luminanceCopy != null
                && (old(luminanceCopy) == null ==> fresh(luminanceCopy) && luminanceCopy.Length == |image.y.bytes|)
                && (old(luminanceCopy) != null ==> luminanceCopy == old(luminanceCopy))
                && luminanceCopy[..] == if old(Faults(image, convert)) then old(LuminanceBefore(|image.y.bytes|))
                                        else image.y.bytes + old(LuminanceBefore(|image.y.bytes|))[|image.y.bytes|..]
      ensures |convert(InputFor(image))| > rgbBytes.Length ==>
                luminanceCopy == old(luminanceCopy) && (luminanceCopy != null ==> luminanceCopy[..] == old(luminanceCopy[..]))
      ensures previewWidth == old(previewWidth) && previewHeight == old(previewHeight)
      ensures sensorOrientation == old(sensorOrientation) && feedback == old(feedback)
    {
      isProcessingFrame := true;
      yuvBytes := Some(YuvBytes(image.y.bytes, image.u.bytes, image.v.bytes));
      yRowStride := image.y.rowStride;
      imageConverter := Some(Converter(image.u.rowStride, image.u.pixelStride));
      postInferenceCallback := Some(image);
      var pixels, converted := GetRgbBytes(convert);
      if !converted {
        return;
      }
      var copied := CopyLuminance(yuvBytes.value.y);
      if !copied {
        return;
      }
      postedOffloads := postedOffloads + 1;
    }

    /** `onImageAvailable`: the camera callback. Nothing happens before the
        preview size is known. Otherwise the pixel buffer is allocated once, a
        missing image is ignored, an image arriving while a frame is in flight
        is closed and dropped, and any other image is admitted. */
    method OnImageAvailable(image: Image?, convert: ConverterInput -> seq<int>)
      requires Valid()
      modifies this, rgbBytes, luminanceCopy, image
      ensures Valid()
      ensures var t := Step(old(GateState()), old(ArrivalOf(image, convert)));
              && GateState() == t.next
              && (image != null ==> image.closed == (old(image.closed) || t.closes == Some(image as Image)))
      // Configuration is read, never written.
      ensures previewWidth == old(previewWidth) && previewHeight == old(previewHeight)
      ensures sensorOrientation == old(sensorOrientation) && feedback == old(feedback)
      // Before the preview size is known, nothing at all changes.
      ensures !old(Sized()) ==>
                && rgbBytes == old(rgbBytes) && luminanceCopy == old(luminanceCopy) && GateState() == old(GateState())
                && (rgbBytes != null ==> rgbBytes[..] == old(rgbBytes[..]))
      // The pixel buffer is allocated once, with one slot per preview pixel, and then reused.
      ensures old(Sized()) ==> rgbBytes != null
      ensures old(rgbBytes) != null ==> rgbBytes == old(rgbBytes)
      ensures old(rgbBytes) == null && old(Sized()) ==> fresh(rgbBytes) && rgbBytes.Length == previewWidth * previewHeight
      ensures old(luminanceCopy) != null ==> luminanceCopy == old(luminanceCopy)
      ensures old(luminanceCopy) == null && luminanceCopy != null ==>
                fresh(luminanceCopy) && image != null && luminanceCopy.Length == |image.y.bytes|
      // A frame that is not admitted costs no conversion and no copy.
      ensures !Admits(old(GateState()), old(ArrivalOf(image, convert))) ==>
                && luminanceCopy == old(luminanceCopy)
                && (luminanceCopy != null ==> luminanceCopy[..] == old(luminanceCopy[..]))
                && (old(Sized()) ==> rgbBytes[..] == old(RgbBefore()))
                && yuvBytes == old(yuvBytes) && yRowStride == old(yRowStride)
                && imageConverter == old(imageConverter)
      // An admitted frame is converted into the reused buffer and its luminance copied.
      ensures Admits(old(GateState()), old(ArrivalOf(image, convert))) ==>
                && image != null
                && yuvBytes == Some(YuvBytes(image.y.bytes, image.u.bytes, image.v.bytes))
                && yRowStride == image.y.rowStride
                && imageConverter == Some(Converter(image.u.rowStride, image.u.pixelStride))
                && rgbBytes[..] == Overwrite(old(RgbBefore()), convert(InputFor(image)))
                && (|convert(InputFor(image))| > rgbBytes.Length ==>
                      luminanceCopy == old(luminanceCopy)
                      && (luminanceCopy != null ==> luminanceCopy[..] == old(luminanceCopy[..])))
                && (|convert(InputFor(image))| <= rgbBytes.Length ==>
                      luminanceCopy != null
                      && luminanceCopy[..] == if old(Faults(image, convert)) then old(LuminanceBefore(|image.y.bytes|))
                                              else image.y.bytes + old(LuminanceBefore(|image.y.bytes|))[|image.y.bytes|..])
    {
      if previewWidth == 0 || previewHeight == 0 {
        return;
      }
      if rgbBytes == null {
        rgbBytes := new int[previewWidth * previewHeight](_ => 0);
      }
      assert rgbBytes[..] == old(RgbBefore());
      assert LuminanceBefore(if image == null then 0 else |image.y.bytes|)
          == old(LuminanceBefore(if image == null then 0 else |image.y.bytes|));
      if image == null {
        return;
      }
      if isProcessingFrame {
        image.Close();
        return;
      }
      assert Faults(image, convert) == old(Faults(image, convert));
      AdmitFrame(image, convert);
    }
  }
}
