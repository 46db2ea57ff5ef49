/** The framebuffer as the renderer uses it. Its own implementation is not
    part of this model: what the renderer does to it is recorded as a trace
    of events, and no depth-test rule is assumed for `point`. */
module Screen {
  import opened Numeric
  import opened Records

  /** A depth-buffer cell: an f32 that is either +infinity or finite. */
  datatype Depth = Infinity | Finite(z: real)

  /** What the renderer does to the framebuffer, in order. */
  datatype Event =
    | ColorSet(color: Color)         // set_current_color(color.to_hex())
    | PointDrawn(x: nat, y: nat, depth: real)    // point(x, y, depth)
    | PixelSet(x: nat, y: nat, packed: u32)  // set_pixel_raw(x, y, color)
    | DepthCleared                          // marker: the renderer's loop reset every zbuffer cell to +infinity

  class Framebuffer {
    const width: nat
    const height: nat
    /** One cell per pixel. */
    const zbuffer: array<Depth>
    var events: seq<Event>

    constructor (w: nat, h: nat)
      ensures width == w && height == h && events == []
      ensures zbuffer.Length == w * h && fresh(zbuffer)
    {
      width := w;
      height := h;
      zbuffer := new Depth[w * h](_ => Infinity);
      events := [];
    }

    /** `set_current_color(color.to_hex())`. */
    method SetCurrentColor(color: Color)
      modifies this
      ensures events == old(events) + [ColorSet(color)]
    {
      events := events + [ColorSet(color)];
    }

    /** `point(x, y, depth)`: it may read and write the depth buffer, in a
        way this model does not fix. */
    method Point(x: nat, y: nat, depth: real)
      modifies this, zbuffer
      ensures events == old(events) + [PointDrawn(x, y, depth)]
    {
      events := events + [PointDrawn(x, y, depth)];
    }

    /** `set_pixel_raw(x, y, color)`. */
    method SetPixelRaw(x: nat, y: nat, color: u32)
      modifies this
      ensures events == old(events) + [PixelSet(x, y, color)]
    {
      events := events + [PixelSet(x, y, color)];
    }
  }
}
