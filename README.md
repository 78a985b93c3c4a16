# Face detection overlay: a Dafny model

This project models the logic of a browser face-detection UI. It has two React components.

- `PersonDetectionCamera` (`src/detection.jsx`) picks a detector back end at start-up: the browser's native `FaceDetector`, or TensorFlow's BlazeFace. A Start/Stop toggle is meant to run one detection pass per display frame. Each pass clears a 640×480 overlay canvas and outlines every face.
- `App` (`src/App.jsx`) polls BlazeFace. Each pass clears a 720×560 canvas and draws a rectangle plus an "Intruder Detected" label per face. While faces are present it is meant to call an alert API at most once every 10 000 ms.

Both promises rest on React state read inside closures, and the source reads that state stale. The model states each component's intended logic; "## Left out" says what the program as written does instead.

The foreign calls become inputs:

- Inference results are values: the faces or predictions, or `None` when the call throws or rejects.
- The clock reading is a parameter `now`.
- The frame scheduler is a handle counter plus the set of pending frames. The browser calling a pending frame is the method `OnAnimationFrame`.
- The canvas is a log of draw commands, not pixels. `Canvas.Visible` gives what the surface shows: the commands after the last command that clears all of it.

Modules:

- `Wrappers`: `Option` and `Result`.
- `Geometry`: the face rectangle `Box`. The BlazeFace `Prediction` is a corner pair of two-element coordinate arrays. The module holds both corner-to-rectangle conversions the source uses, and proves they agree.
- `Canvas`: the draw-command log and what it shows.
- `Detection`: the start/stop component.
- `App`: the polling component.

Design decisions:

- Coordinates are `real`. The model claims exact subtraction, not floating-point behaviour.
- In the source, the detector object and `detectionType` are always set together. They are modelled as one field, `detector: Option<Backend>`.
- The model follows each component's intended logic, not React's stale closures. In `toggleDetection`, `isDetecting` becomes true before the pass started by the toggle checks it, so that pass asks for the next frame.
- That pass can fail. Its `setIsDetecting(false)` lands after the toggle's updater has returned `!prev`, so after a failed start `isDetecting` is false.
- `toggleDetection` always flips the flag, so pressing it while detection runs stops it (src/detection.jsx:104-113).
- Starting from `lastApiCall = 0`, the first alert fires only once `now >= 10000` (src/App.jsx:10, 54).

## Model

| member | source | states |
|---|---|---|
| Geometry.CornerBox | src/detection.jsx:72-77 | The rectangle starts at the top-left corner, and its width and height make `x + width` and `y + height` hit the bottom-right corner exactly. |
| Geometry.CornerBoxRoundTrip | src/detection.jsx:72-77 | Corner pair to rectangle and back is the identity, in both directions. |
| Geometry.Differences | src/App.jsx:38 | `bottomRight.map((val, i) => val - topLeft[i])` has one entry per coordinate, and adding it to `topLeft` gives `bottomRight`. |
| Geometry.CornerValues | src/App.jsx:37-39 | `topLeft.concat(...)` yields exactly four values to destructure. |
| Geometry.DestructuredBox | src/App.jsx:37-39 | Destructuring the four values gives the same rectangle as the start/stop component's conversion, so `x + width` and `y + height` are the bottom-right corner. |
| Canvas.VisibleAppend | src/detection.jsx:84-93 | Drawing commands that clear nothing add to what the canvas shows. Earlier marks stay. |
| Canvas.VisibleAfterClear | src/detection.jsx:82 | After a full-canvas `clearRect` and then drawing that clears nothing, the canvas shows exactly that drawing. |
| Canvas.Canvas2D.constructor | src/detection.jsx:139-144 | A canvas of the given pixel size, with nothing drawn yet. |
| Canvas.Canvas2D.ClearRect | src/detection.jsx:82 | `clearRect` appends one clear command and leaves the rest of the log unchanged. |
| Canvas.Canvas2D.StrokeRect | src/detection.jsx:87-92 | `strokeRect` (or `rect` then `stroke`) appends one outline command for the box. |
| Canvas.Canvas2D.FillText | src/App.jsx:50 | `fillText` appends one text command at the given position. |
| Detection.SelectBackend | src/detection.jsx:19-31 | Start-up succeeds exactly when the back end is ready. It picks native exactly when `FaceDetector` is in the window, otherwise BlazeFace. On failure the error is 'Failed to initialize detection'. |
| Detection.NativeBoxes | src/detection.jsx:66-68 | The native path gives one box per face, in order, equal to that face's `boundingBox`. |
| Detection.BlazeBoxes | src/detection.jsx:71-78 | The BlazeFace path gives one box per prediction, in order: `x = topLeft[0]`, `y = topLeft[1]`, `width = bottomRight[0] - topLeft[0]`, `height = bottomRight[1] - topLeft[1]`. |
| Detection.Detect | src/detection.jsx:63-79 | Detection fails exactly when the bound back end's call fails. Otherwise it returns that back end's shape normalised, with the count and order kept. |
| Detection.Outcome | src/detection.jsx:60-101 | A pass is skipped exactly when detector, video or canvas is missing. It fails exactly when it runs and inference fails. Otherwise it draws the normalised boxes. |
| Detection.Strokes | src/detection.jsx:84-93 | The `forEach` emits exactly one `strokeRect` per face, with that face's box, in order. |
| Detection.Overlay | src/detection.jsx:81-93 | A pass's commands are the full-canvas clear first, then one outline per face in order, and nothing else. |
| Detection.OverlayShowsOnlyThisFrame | src/detection.jsx:81-93 | Whatever was drawn before, after a pass the canvas shows exactly this frame's outlines. |
| Detection.PersonDetectionCamera.constructor | src/detection.jsx:6-13 | Initial state: no error, loading, not detecting, no detector, no frame stored or pending. The canvas, when mounted, is 640×480. |
| Detection.PersonDetectionCamera.InitializeDetector | src/detection.jsx:17-33 | Stores the chosen back end or sets the initialisation error. `isLoading` ends false on both paths. Nothing else changes. |
| Detection.PersonDetectionCamera.RequestAnimationFrame | src/detection.jsx:96 | Returns a new handle and adds it to the pending frames. |
| Detection.PersonDetectionCamera.CancelAnimationFrame | src/detection.jsx:109 | Removes the given handle from the pending frames. An absent or already run handle changes nothing. |
| Detection.PersonDetectionCamera.OutlineFaces | src/detection.jsx:84-93 | The `forEach` appends exactly one outline per face, in order, to the canvas log. |
| Detection.PersonDetectionCamera.DetectFaces | src/detection.jsx:59-102 | Missing detector, video or canvas: no commands and no state change. Failure: error 'Detection failed', detection stops, no frame requested. Success: the log gains the clear and the outlines, and a new frame is stored and pending exactly when `isDetecting`. At most one frame is ever pending. |
| Detection.PersonDetectionCamera.ToggleDetection | src/detection.jsx:104-113 | From detecting: stops, cancels the stored frame, draws nothing. From stopped: runs a pass, which leaves detection on unless the pass fails. The detector is never re-initialised. |
| Detection.PersonDetectionCamera.OnAnimationFrame | src/detection.jsx:96 | A pending frame runs the next pass, which asks for another frame. With no frame pending, nothing happens. |
| App.PredictionBoxes | src/App.jsx:36-39 | One rectangle per prediction, in order, spanning its corner pair exactly. |
| App.Marks | src/App.jsx:36-50 | Exactly one rectangle and one 'Intruder Detected' label per prediction, in prediction order. Each label sits at `(x, y - 10)`. None of them clears the canvas. |
| App.Overlay | src/App.jsx:32-51 | A pass's commands are the full-canvas clear first, then for each prediction in order its rectangle and its label, and nothing else. |
| App.OverlayShowsOnlyThisFrame | src/App.jsx:32-51 | After a pass, even one with zero predictions, the canvas shows exactly this frame's rectangles and labels. |
| App.ApiCallTimes | src/App.jsx:53-57 | Over any run of passes, however the clock moves, every API call is at least 10 000 ms after the initial `lastApiCall`. Any two calls are at least 10 000 ms apart. |
| App.ShouldCallApi | src/App.jsx:35-54 | A pass with no predictions never calls the API. With predictions it calls it exactly when `now >= lastApiCall + 10000`, the boundary included. |
| App.NoFacesNoCalls | src/App.jsx:35-57 | Passes with zero predictions never call the API, whatever the elapsed time. |
| App.FirstSightingCalls | src/App.jsx:53-57 | From the initial `lastApiCall` of 0, the first pass that sees a face at `now >= 10000` calls the API. The boundary is inclusive. |
| App.CallKeepsSpaced | src/App.jsx:54-56 | A call that the cooldown rule allows, which records `now` as `lastApiCall`, keeps all recorded calls 10 000 ms apart. |
| App.AppComponent.constructor | src/App.jsx:6-10 | Initial state: no model, `lastApiCall` 0, no API calls, a 720×560 canvas. |
| App.AppComponent.LoadModel | src/App.jsx:12-15 | `setModel` stores the loaded model. |
| App.AppComponent.CallCustomApi | src/App.jsx:62-68 | Records one alert call event at `now`. |
| App.AppComponent.MarkFaces | src/App.jsx:36-51 | The `forEach` appends a rectangle and a label for each prediction, in order, to the canvas log. |
| App.AppComponent.DetectFaces | src/App.jsx:28-60 | Missing video or model, or rejected inference: nothing changes. Otherwise the log gains the full clear, then a rectangle and label per prediction. The API is called, and `lastApiCall` becomes `now`, exactly when there is a prediction and `now - lastApiCall >= 10000`. Otherwise both stay unchanged. Calls stay 10 000 ms apart. |

## Left out

- Model loading and inference (`tf.ready`, `blazeface.load`, `estimateFaces`, `FaceDetector.detect`): foreign library and browser calls. Their results are inputs.
- Camera acquisition and teardown (`getUserMedia`, `srcObject`, `track.stop`, the 'Failed to access webcam' error): I/O.
- `setInterval`, `clearInterval`, `requestAnimationFrame` timing and `Date.now`: scheduler and clock plumbing. Each polling tick is one call of `App.AppComponent.DetectFaces` with `now` as a parameter. Each display frame is one call of `OnAnimationFrame`.
- Overlap of asynchronous passes: each pass is modelled as atomic.
- Canvas styling (`strokeStyle`, `lineWidth`, `font`, `fillStyle`): cosmetic.
- The current path: `beginPath`, `rect` and `stroke` (src/App.jsx:41-45) become one `StrokeRect` command. This is exact only because `beginPath` starts a fresh path for every prediction, so each `stroke` outlines that prediction's rectangle alone. Without it, each `stroke` would redraw all earlier rectangles too.
- JSX markup, the loading banner, the error banner and the disabled state of the button: UI rendering.
- React closure semantics: not modelled. The actual components differ from the model in these ways:
  - `toggleDetection` reads a fresh `prev` through its updater. What is stale is the `detectFaces` closure it calls at src/detection.jsx:107, which belongs to the render where `isDetecting` was still false.
  - So after a Start click that pass reads `isDetecting` as false at src/detection.jsx:95. Start draws one frame, and the frame-by-frame loop never begins. `Detection.PersonDetectionCamera.ToggleDetection` instead promises that the first pass asks for the next frame.
  - The interval is created by the `[model]` effect (src/App.jsx:74-79). Its callback keeps the `detectFaces` of that render and compares against that render's `lastApiCall`. `setLastApiCall` does not re-run the effect.
  - So the program as written does not keep alerts 10 000 ms apart: once the clock passes the stale value by 10 000 ms, every 100 ms tick that sees a face calls the API. `App.AppComponent.DetectFaces` and `App.ApiCallTimes` instead compare against the latest `lastApiCall`.
  - The `[model]` effect dependency re-runs `loadModel` and `startVideo`.
- Floating-point coordinates: coordinates are exact reals.
- What `callCustomApi` would send: it is a logging stub, modelled as a recorded call time.
- Detection.PersonDetectionCamera.DetectFaces: requires that no frame is pending when a pass starts. Toggle-on and the frame callback are its only callers, and both guarantee this.
