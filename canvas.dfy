/**
  A 2D drawing surface modelled as the log of commands issued to it. What the
  surface shows is the suffix of the log after the last command that clears all of it.
 */
module Canvas {
  import opened Geometry

  datatype Command =
    | ClearRect(x: real, y: real, w: real, h: real)
    | StrokeRect(box: Box)
    | FillText(text: string, tx: real, ty: real)

  /** True when `c` clears every pixel of a `width` by `height` surface. */
  predicate Erases(c: Command, width: nat, height: nat)
  {
    c.ClearRect? && c.x <= 0.0 && c.y <= 0.0 &&
    c.x + c.w >= width as real && c.y + c.h >= height as real
  }

  /** The commands whose marks are still on the surface after `log` has run. */
  function Visible(log: seq<Command>, width: nat, height: nat): seq<Command>
  {
    if log == [] then []
    else if Erases(log[|log| - 1], width, height) then []
    else Visible(log[..|log| - 1], width, height) + [log[|log| - 1]]
  }

  /** `s` contains no clearing command at all. */
  predicate NoClears(s: seq<Command>)
  {
    forall i :: 0 <= i < |s| ==> !s[i].ClearRect?
  }

  /** Drawing that clears nothing only adds to what is shown. */
  lemma {:induction false} VisibleAppend(log: seq<Command>, tail: seq<Command>, width: nat, height: nat)
    requires NoClears(tail)
    ensures Visible(log + tail, width, height) == Visible(log, width, height) + tail
  {
    if tail == [] {
      assert log + tail == log;
    } else {
      var init, last := tail[..|tail| - 1], tail[|tail| - 1];
      assert (log + tail)[..|log + tail| - 1] == log + init;
      assert (log + tail)[|log + tail| - 1] == last && !Erases(last, width, height);
      assert NoClears(init);
      VisibleAppend(log, init, width, height);
      calc {
        Visible(log + tail, width, height);
        Visible(log + init, width, height) + [last];
        Visible(log, width, height) + init + [last];
        { assert tail == init + [last]; }
        Visible(log, width, height) + tail;
      }
    }
  }

  /** After a full clear followed by drawing that clears nothing, exactly that drawing is shown. */
  lemma VisibleAfterClear(log: seq<Command>, width: nat, height: nat, tail: seq<Command>)
    requires NoClears(tail)
    ensures Visible(log + [ClearRect(0.0, 0.0, width as real, height as real)] + tail, width, height) == tail
  {
    var cleared := log + [ClearRect(0.0, 0.0, width as real, height as real)];
    assert cleared[..|cleared| - 1] == log;
    VisibleAppend(cleared, tail, width, height);
  }

  /** An HTML canvas of fixed pixel size whose 2D context records every call made on it. */
  class Canvas2D {
    const width: nat
    const height: nat
    var log: seq<Command>

    constructor (width: nat, height: nat)
      ensures this.width == width && this.height == height && log == []
    {
      this.width := width;
      this.height := height;
      log := [];
    }

    /** `ctx.clearRect(x, y, w, h)`. */
    method ClearRect(x: real, y: real, w: real, h: real)
      modifies this
      ensures log == old(log) + [Command.ClearRect(x, y, w, h)]
    {
      log := log + [Command.ClearRect(x, y, w, h)];
    }

    /** `ctx.strokeRect(...)`, or `ctx.rect(...)` followed by `ctx.stroke()`. */
    method StrokeRect(b: Box)
      modifies this
      ensures log == old(log) + [Command.StrokeRect(b)]
    {
      log := log + [Command.StrokeRect(b)];
    }

    /** `ctx.fillText(text, x, y)`. */
    method FillText(text: string, x: real, y: real)
      modifies this
      ensures log == old(log) + [Command.FillText(text, x, y)]
    {
      log := log + [Command.FillText(text, x, y)];
    }
  }
}
