/**
  Face regions as the two detector back ends report them, and the one rectangle
  shape the overlay draws. Coordinates are pixels of the video frame.
 */
module Geometry {

  /** The uniform face rectangle `{x, y, width, height}`. */
  datatype Box = Box(x: real, y: real, width: real, height: real)

  /** A two-element coordinate array `[x, y]`, as BlazeFace returns its corners. */
  type Point = p: seq<real> | |p| == 2 witness [0.0, 0.0]

  /** One BlazeFace prediction: the top-left and bottom-right corners of a face. */
  datatype Prediction = Prediction(topLeft: Point, bottomRight: Point)

  /**
    The corner-pair conversion of the start/stop component: the rectangle starts at
    the top-left corner and reaches exactly the bottom-right corner.
   */
  function CornerBox(p: Prediction): (b: Box)
    ensures b.x == p.topLeft[0] && b.y == p.topLeft[1]
    ensures b.x + b.width == p.bottomRight[0]
    ensures b.y + b.height == p.bottomRight[1]
  {
    Box(p.topLeft[0], p.topLeft[1],
        p.bottomRight[0] - p.topLeft[0], p.bottomRight[1] - p.topLeft[1])
  }

  /** The corner pair a rectangle spans; the inverse of CornerBox. */
  function BoxCorners(b: Box): Prediction
  {
    Prediction([b.x, b.y], [b.x + b.width, b.y + b.height])
  }

  lemma CornerBoxRoundTrip(p: Prediction, b: Box)
    ensures BoxCorners(CornerBox(p)) == p
    ensures CornerBox(BoxCorners(b)) == b
  {
  }

  /** `a.map((val, i) => val - b[i])`: what must be added to `b` componentwise to reach `a`. */
  function Differences(a: seq<real>, b: seq<real>): (d: seq<real>)
    requires |a| <= |b|
    ensures |d| == |a|
    ensures forall i :: 0 <= i < |a| ==> b[i] + d[i] == a[i]
  {
    seq(|a|, i requires 0 <= i < |a| => a[i] - b[i])
  }

  /** `topLeft.concat(bottomRight.map((val, i) => val - topLeft[i]))`: the four values `[x, y, width, height]`. */
  function CornerValues(p: Prediction): (v: seq<real>)
    ensures |v| == 4
  {
    p.topLeft + Differences(p.bottomRight, p.topLeft)
  }

  /**
    The auto-polling component's conversion: destructure the four values into a
    rectangle. It is the very same rectangle the start/stop component builds.
   */
  function DestructuredBox(p: Prediction): (b: Box)
    ensures b == CornerBox(p)
    ensures b.x + b.width == p.bottomRight[0] && b.y + b.height == p.bottomRight[1]
  {
    var v := CornerValues(p);
    Box(v[0], v[1], v[2], v[3])
  }
}
