/**
  The auto-polling component: every tick it runs BlazeFace on the video, draws a
  rectangle and an "Intruder Detected" label per face on a 720 by 560 canvas, and
  calls the alert API at most once per 10 000 ms while faces are present.
 */
module App {
  import opened Wrappers
  import opened Geometry
  import opened Canvas

  /** The minimum time between two alert calls, in milliseconds. */
  const CooldownMs: int := 10000
  const Label := "Intruder Detected"
  /** How far above a rectangle's top edge its label sits. */
  const LabelRise: real := 10.0
  const OverlayWidth: nat := 720
  const OverlayHeight: nat := 560

  /**
    The rectangles of a frame's predictions, converted by concatenation and
    destructuring: one per prediction, in order, from its top-left corner to its
    bottom-right corner.
   */
  function PredictionBoxes(predictions: seq<Prediction>): (boxes: seq<Box>)
    ensures |boxes| == |predictions|
    ensures forall i :: 0 <= i < |predictions| ==>
      var b, p := boxes[i], predictions[i];
      b == CornerBox(p) && b.x + b.width == p.bottomRight[0] && b.y + b.height == p.bottomRight[1]
  {
    if predictions == [] then []
    else [DestructuredBox(predictions[0])] + PredictionBoxes(predictions[1..])
  }

  /** The marks for one face: its rectangle, then its label just above the top edge. */
  function Mark(b: Box): seq<Command>
  {
    [StrokeRect(b), FillText(Label, b.x, b.y - LabelRise)]
  }

  /**
    The marks for every face: exactly one rectangle and one label per face, in
    face order, each label just above its rectangle, and nothing that clears.
   */
  function Marks(boxes: seq<Box>): (cmds: seq<Command>)
    ensures |cmds| == 2 * |boxes|
    ensures forall i :: 0 <= i < |boxes| ==>
      cmds[2 * i] == StrokeRect(boxes[i]) &&
      cmds[2 * i + 1] == FillText(Label, boxes[i].x, boxes[i].y - LabelRise)
    ensures NoClears(cmds)
  {
    if boxes == [] then [] else Mark(boxes[0]) + Marks(boxes[1..])
  }

  lemma {:induction false} MarksAppend(a: seq<Box>, b: seq<Box>)
    ensures Marks(a + b) == Marks(a) + Marks(b)
  {
    if a == [] {
      assert a + b == b;
    } else {
      assert (a + b)[1..] == a[1..] + b;
      MarksAppend(a[1..], b);
    }
  }

  /** Marking the first `i + 1` faces adds the marks of face `i`. */
  lemma MarksSnoc(boxes: seq<Box>, i: nat)
    requires i < |boxes|
    ensures Marks(boxes[..i + 1]) == Marks(boxes[..i]) + Mark(boxes[i])
  {
    var init, last := boxes[..i], boxes[i];
    assert boxes[..i + 1] == init + [last];
    MarksAppend(init, [last]);
    assert Marks([last]) == Mark(last) + Marks([]);
  }

  /** Marking face `i` after the first `i` faces' marks gives the first `i + 1` faces' marks. */
  lemma MarkStep(start: seq<Command>, before: seq<Command>, after: seq<Command>, boxes: seq<Box>, i: nat)
    requires i < |boxes|
    requires before == start + Marks(boxes[..i])
    requires after == before + [StrokeRect(boxes[i]), FillText(Label, boxes[i].x, boxes[i].y - LabelRise)]
    ensures after == start + Marks(boxes[..i + 1])
  {
    MarksSnoc(boxes, i);
  }

  /**
    The commands of one pass: the full-canvas clear first, then a rectangle and
    its label for each face in order, and nothing else.
   */
  function Overlay(width: nat, height: nat, boxes: seq<Box>): (cmds: seq<Command>)
    ensures |cmds| == 2 * |boxes| + 1
    ensures cmds[0] == ClearRect(0.0, 0.0, width as real, height as real)
    ensures forall i :: 0 <= i < |boxes| ==>
      cmds[2 * i + 1] == StrokeRect(boxes[i]) &&
      cmds[2 * i + 2] == FillText(Label, boxes[i].x, boxes[i].y - LabelRise)
  {
    [ClearRect(0.0, 0.0, width as real, height as real)] + Marks(boxes)
  }

  /** Whatever was drawn before, after a pass the canvas shows exactly this frame's marks. */
  lemma OverlayShowsOnlyThisFrame(log: seq<Command>, width: nat, height: nat, boxes: seq<Box>)
    ensures Visible(log + Overlay(width, height, boxes), width, height) == Marks(boxes)
  {
    VisibleAfterClear(log, width, height, Marks(boxes));
    assert log + Overlay(width, height, boxes) ==
      log + [ClearRect(0.0, 0.0, width as real, height as real)] + Marks(boxes);
  }

  /**
    The cooldown rule: a pass without faces never calls the API; a pass with faces
    calls it exactly when a full cooldown, boundary included, has gone by since `lastApiCall`.
   */
  function ShouldCallApi(faceCount: nat, now: int, lastApiCall: int): (fire: bool)
    ensures faceCount == 0 ==> !fire
    ensures faceCount > 0 ==> (fire <==> lastApiCall + CooldownMs <= now)
  {
    faceCount > 0 && now - lastApiCall >= CooldownMs
  }

  /** One polling pass as the notifier sees it: the clock reading and the number of faces. */
  datatype Tick = Tick(now: int, faces: nat)

  /**
    The times of the API calls made over a run of passes, starting from
    `lastApiCall`. Whatever the clock does, every call comes at least a cooldown
    after `lastApiCall` and any two calls are at least a cooldown apart.
   */
  function ApiCallTimes(lastApiCall: int, ticks: seq<Tick>): (calls: seq<int>)
    ensures forall i :: 0 <= i < |calls| ==> lastApiCall + CooldownMs <= calls[i]
    ensures forall i, j :: 0 <= i < j < |calls| ==> calls[i] + CooldownMs <= calls[j]
    decreases |ticks|
  {
    if ticks == [] then []
    else if ShouldCallApi(ticks[0].faces, ticks[0].now, lastApiCall)
    then [ticks[0].now] + ApiCallTimes(ticks[0].now, ticks[1..])
    else ApiCallTimes(lastApiCall, ticks[1..])
  }

  /** Passes that see no face never call the API, however much time goes by. */
  lemma {:induction false} NoFacesNoCalls(lastApiCall: int, ticks: seq<Tick>)
    requires forall k :: 0 <= k < |ticks| ==> ticks[k].faces == 0
    ensures ApiCallTimes(lastApiCall, ticks) == []
  {
    if ticks != [] {
      NoFacesNoCalls(lastApiCall, ticks[1..]);
    }
  }

  /**
    From the initial `lastApiCall` of 0, the first pass that sees a face at a
    clock reading of at least 10 000 ms calls the API: the boundary is inclusive.
   */
  lemma {:induction false} FirstSightingCalls(ticks: seq<Tick>, k: nat)
    requires k < |ticks| && ticks[k].faces > 0 && ticks[k].now >= CooldownMs
    requires forall m :: 0 <= m < k ==> ticks[m].faces == 0
    ensures ApiCallTimes(0, ticks) == [ticks[k].now] + ApiCallTimes(ticks[k].now, ticks[k + 1..])
  {
    if k > 0 {
      assert ticks[1..][k - 1..] == ticks[k..];
      FirstSightingCalls(ticks[1..], k - 1);
      assert ticks[1..][k..] == ticks[k + 1..];
    }
  }

  /**
    The call record `calls` with `lastApiCall` as the state keeps them: every call a
    cooldown after time 0 and after the one before, and `lastApiCall` the latest (0 before any).
   */
  ghost predicate Spaced(calls: seq<int>, lastApiCall: int)
  {
    && (calls == [] ==> lastApiCall == 0)
    && (calls != [] ==> lastApiCall == calls[|calls| - 1] && CooldownMs <= calls[0])
    && (forall i, j :: 0 <= i < j < |calls| ==> calls[i] + CooldownMs <= calls[j])
  }

  /** A call that the cooldown rule allows keeps the record spaced. */
  lemma CallKeepsSpaced(calls: seq<int>, lastApiCall: int, faceCount: nat, now: int)
    requires Spaced(calls, lastApiCall) && ShouldCallApi(faceCount, now, lastApiCall)
    ensures Spaced(calls + [now], now)
  {
  }

  /** The App component: its model and video refs, its canvas, `lastApiCall`, and the alert calls made. */
  class AppComponent {
    /** Whether `setModel` has stored the loaded BlazeFace model. */
    var modelLoaded: bool
    /** Whether `videoRef.current` is set. */
    const videoPresent: bool
    /** `canvasRef.current`. */
    const canvas: Canvas2D
    var lastApiCall: int
    /** The clock reading of every `callCustomApi` call so far, in order. */
    var apiCalls: seq<int>

    /**
      The recorded calls are a cooldown apart, the first at least a cooldown after
      time 0, and `lastApiCall` is the latest of them (0 before any call).
     */
    ghost predicate Valid()
      reads this
    {
      Spaced(apiCalls, lastApiCall)
    }

    constructor (videoPresent: bool)
      ensures Valid()
      ensures !modelLoaded && this.videoPresent == videoPresent
      ensures lastApiCall == 0 && apiCalls == []
      ensures fresh(canvas) && canvas.width == OverlayWidth && canvas.height == OverlayHeight && canvas.log == []
    {
      modelLoaded := false;
      this.videoPresent := videoPresent;
      canvas := new Canvas2D(OverlayWidth, OverlayHeight);
      lastApiCall := 0;
      apiCalls := [];
    }

    /** `loadModel`: the model has loaded and is stored. */
    method LoadModel()
      modifies this`modelLoaded
      ensures modelLoaded
    {
      modelLoaded := true;
    }

    /** `callCustomApi`, recorded as an event at clock reading `now`. */
    method CallCustomApi(now: int)
      modifies this`apiCalls
      ensures apiCalls == old(apiCalls) + [now]
    {
      apiCalls := apiCalls + [now];
    }

    /** The `forEach` over the predictions: a rectangle and a label for each, in order. */
    method MarkFaces(predictions: seq<Prediction>)
      modifies canvas
      ensures canvas.log == old(canvas.log) + Marks(PredictionBoxes(predictions))
    {
      ghost var boxes := PredictionBoxes(predictions);
      var i := 0;
      while i < |predictions|
        invariant 0 <= i <= |predictions| == |boxes|
        invariant canvas.log == old(canvas.log) + Marks(boxes[..i])
      {
        var b := DestructuredBox(predictions[i]);
        assert b == boxes[i];
        ghost var before := canvas.log;
        canvas.StrokeRect(b);
        canvas.FillText(Label, b.x, b.y - LabelRise);
        MarkStep(old(canvas.log), before, canvas.log, boxes, i);
        i := i + 1;
      }
      assert boxes[..i] == boxes;
    }

    /**
      `detectFaces`: one polling pass at clock reading `now`. `inference` is what
      `estimateFaces` resolves to, None when it rejects. Without video or model,
      or when inference rejects, nothing happens. Otherwise the canvas is cleared,
      every face gets a rectangle and a label, and the API is called when the
      cooldown rule allows it, which moves `lastApiCall` to `now`.
     */
    method DetectFaces(inference: Option<seq<Prediction>>, now: int)
      requires Valid()
      modifies this`lastApiCall, this`apiCalls, canvas
      ensures Valid()
      ensures !(videoPresent && modelLoaded && inference.Some?) ==>
        lastApiCall == old(lastApiCall) && apiCalls == old(apiCalls) && canvas.log == old(canvas.log)
      ensures videoPresent && modelLoaded && inference.Some? ==>
        var predictions := inference.value;
        && canvas.log == old(canvas.log) + Overlay(canvas.width, canvas.height, PredictionBoxes(predictions))
        && (if ShouldCallApi(|predictions|, now, old(lastApiCall))
            then lastApiCall == now && apiCalls == old(apiCalls) + [now]
            else lastApiCall == old(lastApiCall) && apiCalls == old(apiCalls))
    {
      if !(videoPresent && modelLoaded) || inference.None? {
        return;
      }
      var predictions := inference.value;
      canvas.ClearRect(0.0, 0.0, canvas.width as real, canvas.height as real);
      if |predictions| > 0 {
        MarkFaces(predictions);
        if now - lastApiCall >= CooldownMs {
          CallKeepsSpaced(apiCalls, lastApiCall, |predictions|, now);
          CallCustomApi(now);
          lastApiCall := now;
        }
      } else {
        assert PredictionBoxes(predictions) == [];
      }
    }
  }
}
