/**
  The start/stop face-detection component: it picks a detector back end once,
  and while detection is on it runs one pass per display frame, drawing one
  outline per face on a 640 by 480 overlay canvas.
 */
module Detection {
  import opened Wrappers
  import opened Geometry
  import opened Canvas

  /** The two detector back ends: the browser's own FaceDetector, or BlazeFace. */
  datatype Backend = Native | BlazeFace

  const InitFailedMessage := "Failed to initialize detection"
  const DetectionFailedMessage := "Detection failed"
  const OverlayWidth: nat := 640
  const OverlayHeight: nat := 480

  /**
    Back-end choice at start-up. `backendReady` says whether constructing the native
    detector, or readying TensorFlow and loading BlazeFace, completed without throwing.
   */
  function SelectBackend(faceDetectorInWindow: bool, backendReady: bool): (r: Result<Backend, string>)
    ensures r.Ok? <==> backendReady
    ensures r.Ok? ==> (r.value == Native <==> faceDetectorInWindow)
    ensures r.Err? ==> r.error == InitFailedMessage
  {
    if !backendReady then Err(InitFailedMessage)
    else if faceDetectorInWindow then Ok(Native)
    else Ok(BlazeFace)
  }

  /** A face as the native detector reports it. */
  datatype NativeFace = NativeFace(boundingBox: Box)

  /**
    `faces.map(face => face.boundingBox)`: the native path passes every bounding
    box through unchanged, one per face, in order.
   */
  function NativeBoxes(faces: seq<NativeFace>): (boxes: seq<Box>)
    ensures |boxes| == |faces|
    ensures forall i :: 0 <= i < |faces| ==> boxes[i] == faces[i].boundingBox
  {
    if faces == [] then [] else [faces[0].boundingBox] + NativeBoxes(faces[1..])
  }

  /**
    `predictions.map(pred => ({ box: ... }))`: the BlazeFace path yields one
    rectangle per prediction, in order, spanning its corners.
   */
  function BlazeBoxes(predictions: seq<Prediction>): (boxes: seq<Box>)
    ensures |boxes| == |predictions|
    ensures forall i :: 0 <= i < |predictions| ==>
      var b, p := boxes[i], predictions[i];
      b.x == p.topLeft[0] && b.y == p.topLeft[1] &&
      b.width == p.bottomRight[0] - p.topLeft[0] && b.height == p.bottomRight[1] - p.topLeft[1]
  {
    if predictions == [] then [] else [CornerBox(predictions[0])] + BlazeBoxes(predictions[1..])
  }

  /**
    What the back ends' detection calls give on the current video frame: the
    native detector's faces and BlazeFace's predictions; None when the call throws.
   */
  datatype Inference = Inference(native: Option<seq<NativeFace>>, blaze: Option<seq<Prediction>>)

  /**
    The normalised face rectangles of one frame, or None when inference failed:
    detection fails exactly when the bound back end's call fails, and otherwise
    normalises that back end's answer, keeping count and order.
   */
  function Detect(backend: Backend, inference: Inference): (r: Option<seq<Box>>)
    ensures r.None? <==> (if backend == Native then inference.native.None? else inference.blaze.None?)
    ensures backend == Native && inference.native.Some? ==>
      var faces, boxes := inference.native.value, r.value;
      |boxes| == |faces| && forall i :: 0 <= i < |faces| ==> boxes[i] == faces[i].boundingBox
    ensures backend == BlazeFace && inference.blaze.Some? ==>
      var preds, boxes := inference.blaze.value, r.value;
      |boxes| == |preds| && forall i :: 0 <= i < |preds| ==> boxes[i] == CornerBox(preds[i])
  {
    match backend
    case Native => if inference.native.Some? then Some(NativeBoxes(inference.native.value)) else None
    case BlazeFace => if inference.blaze.Some? then Some(BlazeBoxes(inference.blaze.value)) else None
  }

  /** How one detection pass ends. */
  datatype PassOutcome = Skipped | Failed | Drawn(boxes: seq<Box>)

  /** The outcome of a pass, given the component's state and the frame's inference. */
  function Outcome(detector: Option<Backend>, videoPresent: bool, canvasPresent: bool,
                   inference: Inference): (o: PassOutcome)
    ensures o.Skipped? <==> detector.None? || !videoPresent || !canvasPresent
    ensures o.Failed? <==> !o.Skipped? && Detect(detector.value, inference).None?
    ensures o.Drawn? ==> Detect(detector.value, inference) == Some(o.boxes)
  {
    if detector.None? || !videoPresent || !canvasPresent then Skipped
    else match Detect(detector.value, inference)
      case None => Failed
      case Some(boxes) => Drawn(boxes)
  }

  /** The `forEach` outlines: exactly one `strokeRect` per face, with that face's box, in order. */
  function Strokes(boxes: seq<Box>): (cmds: seq<Command>)
    ensures |cmds| == |boxes|
    ensures forall i :: 0 <= i < |boxes| ==> cmds[i] == StrokeRect(boxes[i])
  {
    if boxes == [] then [] else [StrokeRect(boxes[0])] + Strokes(boxes[1..])
  }

  lemma {:induction false} StrokesAppend(a: seq<Box>, b: seq<Box>)
    ensures Strokes(a + b) == Strokes(a) + Strokes(b)
  {
    if a == [] {
      assert a + b == b;
    } else {
      assert (a + b)[1..] == a[1..] + b;
      StrokesAppend(a[1..], b);
    }
  }

  /** Outlining the first `i + 1` faces adds the outline of face `i`. */
  lemma StrokesSnoc(boxes: seq<Box>, i: nat)
    requires i < |boxes|
    ensures Strokes(boxes[..i + 1]) == Strokes(boxes[..i]) + [StrokeRect(boxes[i])]
  {
    var init, last := boxes[..i], boxes[i];
    assert boxes[..i + 1] == init + [last];
    StrokesAppend(init, [last]);
    assert Strokes([last]) == [StrokeRect(last)] + Strokes([]);
  }

  /**
    The commands of one successful pass: the full-canvas clear first, then
    exactly one outline per face in order, and nothing else.
   */
  function Overlay(width: nat, height: nat, boxes: seq<Box>): (cmds: seq<Command>)
    ensures |cmds| == |boxes| + 1
    ensures cmds[0] == ClearRect(0.0, 0.0, width as real, height as real)
    ensures forall i :: 0 <= i < |boxes| ==> cmds[i + 1] == StrokeRect(boxes[i])
  {
    [ClearRect(0.0, 0.0, width as real, height as real)] + Strokes(boxes)
  }

  /** Appending a pass's commands is appending the clear, then the outlines. */
  lemma OverlayIsClearThenStrokes(log: seq<Command>, width: nat, height: nat, boxes: seq<Box>)
    ensures log + [ClearRect(0.0, 0.0, width as real, height as real)] + Strokes(boxes) ==
      log + Overlay(width, height, boxes)
  {
  }

  /** Whatever was drawn before, after a pass the canvas shows exactly this frame's outlines. */
  lemma OverlayShowsOnlyThisFrame(log: seq<Command>, width: nat, height: nat, boxes: seq<Box>)
    ensures Visible(log + Overlay(width, height, boxes), width, height) == Strokes(boxes)
  {
    VisibleAfterClear(log, width, height, Strokes(boxes));
    assert log + Overlay(width, height, boxes) ==
      log + [ClearRect(0.0, 0.0, width as real, height as real)] + Strokes(boxes);
  }

  /** The detection component with its React state, refs and the browser's frame scheduler. */
  class PersonDetectionCamera {
    var error: string
    var isLoading: bool
    var isDetecting: bool
    /** The detector handle, identified by the back end it is bound to (also the detection type). */
    var detector: Option<Backend>
    /** `detectionRef.current`: the handle of the last requested animation frame. */
    var frameRef: Option<nat>
    /** Animation frames the browser will still call back: requested, neither run nor cancelled. */
    var pending: set<nat>
    /** The handle `requestAnimationFrame` will return next. */
    var nextHandle: nat
    /** Whether `videoRef.current` is set. */
    const videoPresent: bool
    /** `canvasRef.current`. */
    const canvas: Canvas2D?

    /** At most one frame is ever pending, only while detecting, and it is the stored one. */
    ghost predicate Valid()
      reads this
    {
      pending == {} || (isDetecting && frameRef.Some? && pending == {frameRef.value})
    }

    /** The outcome a pass would have now on `inference`. */
    function PassFor(inference: Inference): PassOutcome
      reads this
    {
      Outcome(detector, videoPresent, canvas != null, inference)
    }

    /**
      The state after a pass on `inference` that began with `isDetecting == detecting`
      and no frame pending, relative to the state before it.
     */
    twostate predicate PassEffect(inference: Inference, detecting: bool)
      reads this, canvas
    {
      var o := PassFor(inference);
      && (o.Failed? ==> error == DetectionFailedMessage && !isDetecting)
      && (!o.Failed? ==> error == old(error) && isDetecting == detecting)
      && (canvas != null ==>
            canvas.log == old(canvas.log) + (if o.Drawn? then Overlay(canvas.width, canvas.height, o.boxes) else []))
      && (if o.Drawn? && detecting
          then frameRef == Some(old(nextHandle)) && pending == {old(nextHandle)} && nextHandle == old(nextHandle) + 1
          else frameRef == old(frameRef) && pending == {} && nextHandle == old(nextHandle))
    }

    constructor (videoPresent: bool, canvasPresent: bool)
      ensures Valid()
      ensures error == "" && isLoading && !isDetecting && detector == None
      ensures frameRef == None && pending == {}
      ensures this.videoPresent == videoPresent && (canvas != null <==> canvasPresent)
      ensures canvas != null ==>
        fresh(canvas) && canvas.width == OverlayWidth && canvas.height == OverlayHeight && canvas.log == []
    {
      error, isLoading, isDetecting, detector := "", true, false, None;
      frameRef, pending, nextHandle := None, {}, 1;
      this.videoPresent := videoPresent;
      if canvasPresent {
        canvas := new Canvas2D(OverlayWidth, OverlayHeight);
      } else {
        canvas := null;
      }
    }

    /** The start-up effect: choose a back end, or record the failure; loading ends either way. */
    method InitializeDetector(faceDetectorInWindow: bool, backendReady: bool)
      requires Valid()
      modifies this`error, this`isLoading, this`detector
      ensures Valid() && !isLoading
      ensures var r := SelectBackend(faceDetectorInWindow, backendReady);
        if r.Ok? then detector == Some(r.value) && error == old(error)
        else detector == old(detector) && error == InitFailedMessage
    {
      var r := SelectBackend(faceDetectorInWindow, backendReady);
      if r.Ok? {
        detector := Some(r.value);
      } else {
        error := r.error;
      }
      isLoading := false;
    }

    /** `requestAnimationFrame(detectFaces)`. */
    method RequestAnimationFrame() returns (h: nat)
      modifies this`pending, this`nextHandle
      ensures h == old(nextHandle) && nextHandle == h + 1 && pending == old(pending) + {h}
    {
      h := nextHandle;
      pending := pending + {h};
      nextHandle := nextHandle + 1;
    }

    /** `cancelAnimationFrame(handle)`; cancelling nothing, or a frame that already ran, does nothing. */
    method CancelAnimationFrame(handle: Option<nat>)
      modifies this`pending
      ensures pending == if handle.Some? then old(pending) - {handle.value} else old(pending)
    {
      if handle.Some? {
        pending := pending - {handle.value};
      }
    }

    /** The `forEach` over the faces: one outline each, in order. */
    method OutlineFaces(boxes: seq<Box>)
      requires canvas != null
      modifies canvas
      ensures canvas.log == old(canvas.log) + Strokes(boxes)
    {
      var i := 0;
      while i < |boxes|
        invariant 0 <= i <= |boxes|
        invariant canvas.log == old(canvas.log) + Strokes(boxes[..i])
      {
        canvas.StrokeRect(boxes[i]);
        StrokesSnoc(boxes, i);
        i := i + 1;
      }
      assert boxes[..i] == boxes;
    }

    /**
      `detectFaces`: one detection pass. It does nothing without a detector, video or
      canvas; a failed inference records the error and stops detection; otherwise it
      clears the canvas, outlines every face, and asks for the next frame only while detecting.
     */
    method DetectFaces(inference: Inference)
      requires Valid() && pending == {}
      modifies this`error, this`isDetecting, this`frameRef, this`pending, this`nextHandle, canvas
      ensures Valid()
      ensures PassEffect(inference, old(isDetecting))
    {
      if detector.None? || !videoPresent || canvas == null {
        assert PassFor(inference) == Skipped;
        return;
      }
      var faces := Detect(detector.value, inference);
      if faces.None? {
        assert PassFor(inference) == Failed;
        error := DetectionFailedMessage;
        isDetecting := false;
        return;
      }
      var boxes := faces.value;
      assert PassFor(inference) == Drawn(boxes);
      canvas.ClearRect(0.0, 0.0, canvas.width as real, canvas.height as real);
      OutlineFaces(boxes);
      OverlayIsClearThenStrokes(old(canvas.log), canvas.width, canvas.height, boxes);
      if isDetecting {
        var h := RequestAnimationFrame();
        frameRef := Some(h);
      }
    }

    /**
      `toggleDetection`: flips `isDetecting`. Stopping cancels the stored frame and
      runs no pass; starting runs a pass at once, which keeps running frame by frame.
     */
    method ToggleDetection(inference: Inference)
      requires Valid()
      modifies this`error, this`isDetecting, this`frameRef, this`pending, this`nextHandle, canvas
      ensures Valid()
      ensures old(isDetecting) ==>
        && !isDetecting && pending == {} && error == old(error)
        && frameRef == old(frameRef) && nextHandle == old(nextHandle)
        && (canvas != null ==> canvas.log == old(canvas.log))
      ensures !old(isDetecting) ==> PassEffect(inference, true)
    {
      if isDetecting {
        CancelAnimationFrame(frameRef);
        isDetecting := false;
      } else {
        isDetecting := true;
        DetectFaces(inference);
      }
    }

    /** The browser calls back the pending frame, if any, which runs the next pass. */
    method OnAnimationFrame(inference: Inference)
      requires Valid()
      modifies this`error, this`isDetecting, this`frameRef, this`pending, this`nextHandle, canvas
      ensures Valid()
      ensures old(pending) == {} ==>
        && error == old(error) && isDetecting == old(isDetecting) && frameRef == old(frameRef)
        && pending == {} && nextHandle == old(nextHandle)
        && (canvas != null ==> canvas.log == old(canvas.log))
      ensures old(pending) != {} ==> PassEffect(inference, true)
    {
      if pending != {} {
        pending := {};
        DetectFaces(inference);
      }
    }
  }
}
