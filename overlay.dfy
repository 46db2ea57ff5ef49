/** The two full-screen overlays of the frame loop: the colour of a
    skybox star and the warp overlay's pixel loop, both packing three
    clamped 8-bit channels into a 24-bit `0xRRGGBB` value. */
module Overlay {
  import opened Numeric
  import opened Bits
  import opened Records
  import opened Screen

  /** `(r << 16) | (g << 8) | b` on u32, for channels already clamped to
      0..255. */
  function Pack(c: Color): (p: u32)
    ensures p == c.r * 0x1_0000 + c.g * 0x100 + c.b
    ensures p < 0x100_0000
  {
    Pow2Bytes();
    OrDisjoint(c.r, c.g * 0x100, 16);
    OrDisjoint(c.r * 0x100 + c.g, c.b, 8);
    Or(Or(Shl(c.r, 16), Shl(c.g, 8)), c.b)
  }

  /** Each channel comes back out by shift and mask. */
  lemma {:induction false} Unpack(c: Color)
    ensures And(Shr(Pack(c), 16), 0xFF) == c.r
    ensures And(Shr(Pack(c), 8), 0xFF) == c.g
    ensures And(Pack(c), 0xFF) == c.b
  {
    Pow2Bytes();
    var p := Pack(c);
    var high := c.r * 0x100 + c.g;
    assert p == high * 0x100 + c.b;
    ShrExact(c.r, c.g * 0x100 + c.b, 16);
    ShrExact(high, c.b, 8);
    AndLowMask(c.r, 8);
    AndLowMask(high, 8);
    AndLowMask(p, 8);
    DivModUnique(c.r, 0x100, 0, c.r);
    DivModUnique(high, 0x100, c.r, c.g);
    DivModUnique(p, 0x100, high, c.b);
  }

  /** `v.clamp(0.0, 255.0) as u32`: the clamped value is non-negative, so
      the cast truncates toward zero, which is floor. */
  function Chan(v: real): (r: u8)
    ensures r as real <= Clamp(v, 0.0, 255.0) < r as real + 1.0
    ensures v <= 0.0 ==> r == 0
    ensures 255.0 <= v ==> r == 255
  {
    Floor(Clamp(v, 0.0, 255.0))
  }

  lemma ChanMonotone(v1: real, v2: real)
    requires v1 <= v2
    ensures Chan(v1) <= Chan(v2)
  {
  }

  // ---- draw_star_skybox ----

  /** The channels of a star that passed the noise threshold, from the sine
      that drives its sparkle and its noise value. Sparkle and intensity are
      both clamped to [0, 1], so blue is never below green and green never
      below red: stars are white or bluish. */
  function StarChannels(sparkleSin: real, noise: real): (c: Color)
    ensures c.r <= c.g <= c.b
  {
    var sparkle := Clamp(sparkleSin * 0.5 + 0.5, 0.0, 1.0);
    var intensity := Clamp((noise - 0.996) * 250.0, 0.0, 1.0);
    var brightness := (0.65 + 0.35 * sparkle) * intensity;
    StarOrder(brightness, sparkle);
    ChanMonotone(brightness * (0.85 + 0.15 * sparkle) * 255.0, brightness * (0.9 + 0.1 * sparkle) * 255.0);
    ChanMonotone(brightness * (0.9 + 0.1 * sparkle) * 255.0, brightness * (1.0 + 0.2 * sparkle) * 255.0);
    Color(
      Chan(brightness * (0.85 + 0.15 * sparkle) * 255.0),
      Chan(brightness * (0.9 + 0.1 * sparkle) * 255.0),
      Chan(brightness * (1.0 + 0.2 * sparkle) * 255.0))
  }

  lemma StarOrder(brightness: real, sparkle: real)
    requires 0.0 <= brightness && 0.0 <= sparkle <= 1.0
    ensures brightness * (0.85 + 0.15 * sparkle) * 255.0 <= brightness * (0.9 + 0.1 * sparkle) * 255.0
    ensures brightness * (0.9 + 0.1 * sparkle) * 255.0 <= brightness * (1.0 + 0.2 * sparkle) * 255.0
  {
    MulLe(brightness * 255.0, 0.85 + 0.15 * sparkle, 0.9 + 0.1 * sparkle);
    MulLe(brightness * 255.0, 0.9 + 0.1 * sparkle, 1.0 + 0.2 * sparkle);
  }

  lemma MulLe(k: real, a: real, b: real)
    requires 0.0 <= k && a <= b
    ensures k * a <= k * b
  {
  }

  /** The packed colour `draw_star_skybox` writes for a star. */
  function StarColor(sparkleSin: real, noise: real): (p: u32)
    ensures p < 0x100_0000
  {
    Pack(StarChannels(sparkleSin, noise))
  }

  // ---- draw_warp_overlay ----

  /** The per-pixel terms the model leaves abstract: `f32::sin`, and the
      streak and flare values of pixel (x, y), which depend on its offset
      from the screen centre through sin, cos, sqrt and powf. */
  datatype WarpNumerics = WarpNumerics(sin: real -> real, streak: (int, int) -> real, flare: (int, int) -> real)

  /** The glow of pixel (x, y) at the given warp progress. */
  function Glow(progress: real, wn: WarpNumerics, x: int, y: int): real {
    var pulse := Abs(wn.sin(progress * PI));
    var intensity := Clamp(0.35 + progress * 0.65, 0.0, 1.0);
    (wn.streak(x, y) * 0.55 + wn.flare(x, y)) * intensity + pulse * 0.4
  }

  /** The overlay's channels for a glow value. Whenever the glow is not
      negative the pixel is at least (40, 110, 180) and blue dominates
      green, which dominates red. */
  function WarpChannels(glow: real): (c: Color)
    ensures 0.0 <= glow ==> 40 <= c.r <= c.g <= c.b && 110 <= c.g && 180 <= c.b
  {
    WarpOrder(glow);
    Color(Chan(40.0 + glow * 90.0), Chan(110.0 + glow * 110.0), Chan(180.0 + glow * 160.0))
  }

  lemma WarpOrder(glow: real)
    ensures 0.0 <= glow ==>
      40 <= Chan(40.0 + glow * 90.0) <= Chan(110.0 + glow * 110.0) <= Chan(180.0 + glow * 160.0) &&
      110 <= Chan(110.0 + glow * 110.0) && 180 <= Chan(180.0 + glow * 160.0)
  {
    if 0.0 <= glow {
      ChanMonotone(40.0, 40.0 + glow * 90.0);
      ChanMonotone(110.0, 110.0 + glow * 110.0);
      ChanMonotone(180.0, 180.0 + glow * 160.0);
      ChanMonotone(40.0 + glow * 90.0, 110.0 + glow * 110.0);
      ChanMonotone(110.0 + glow * 110.0, 180.0 + glow * 160.0);
    }
  }

  /** The packed colour of each pixel. */
  function WarpColours(progress: real, wn: WarpNumerics): (int, int) -> u32 {
    (x: int, y: int) => Pack(WarpChannels(Glow(progress, wn, x, y)))
  }

  /** The calls for columns 0 .. x-1 of row y, left to right, each pixel
      written with its colour. */
  function OverlayRow(colour: (int, int) -> u32, y: nat, x: nat): seq<Event> {
    if x == 0 then []
    else OverlayRow(colour, y, x - 1) + [PixelSet(x - 1, y, colour(x - 1, y))]
  }

  /** The calls for rows 0 .. y-1, top to bottom, each of the given width. */
  function OverlayRows(colour: (int, int) -> u32, width: nat, y: nat): seq<Event> {
    if y == 0 then []
    else OverlayRows(colour, width, y - 1) + OverlayRow(colour, y - 1, width)
  }

  lemma {:induction false} OverlayRowShape(colour: (int, int) -> u32, y: nat, x: nat)
    ensures |OverlayRow(colour, y, x)| == x
    ensures forall i :: 0 <= i < x ==> OverlayRow(colour, y, x)[i] == PixelSet(i, y, colour(i, y))
  {
    if x > 0 {
      OverlayRowShape(colour, y, x - 1);
    }
  }

  lemma {:induction false} OverlayRowsLength(colour: (int, int) -> u32, width: nat, height: nat)
    ensures |OverlayRows(colour, width, height)| == width * height
  {
    if height > 0 {
      OverlayRowsLength(colour, width, height - 1);
      OverlayRowShape(colour, height - 1, width);
      LastRowOffset(width, height);
    }
  }

  /** Exactly one `set_pixel_raw` per pixel of a width x height screen:
      with width * height calls in all, the call at position
      y * width + x writes pixel (x, y) with its colour. */
  lemma {:induction false} OverlayPixel(colour: (int, int) -> u32, width: nat, height: nat, x: nat, y: nat)
    requires x < width && y < height
    ensures y * width + x < |OverlayRows(colour, width, height)|
    ensures OverlayRows(colour, width, height)[y * width + x] == PixelSet(x, y, colour(x, y))
    decreases height
  {
    var prev := OverlayRows(colour, width, height - 1);
    var row := OverlayRow(colour, height - 1, width);
    OverlayRowsLength(colour, width, height - 1);
    OverlayRowShape(colour, height - 1, width);
    var base := (height - 1) * width;
    var i := y * width + x;
    MulLeNat(width, 0, y);
    assert 0 <= i;
    assert |prev| == base;
    if y < height - 1 {
      OverlayPixel(colour, width, height - 1, x, y);
      assert i < |prev|;
      assert (prev + row)[i] == prev[i];
    } else {
      assert i == base + x;
      assert (prev + row)[base + x] == row[x];
    }
  }

  lemma LastRowOffset(width: nat, height: nat)
    requires 0 < height
    ensures (height - 1) * width + width == width * height
  {
  }

  lemma MulLeNat(k: nat, a: nat, b: nat)
    requires a <= b
    ensures a * k <= b * k
  {
  }

  /** The pixel loops of `draw_warp_overlay`: rows 0 .. height-1, each
      column 0 .. width-1, `set_pixel_raw` with the pixel's colour.
      `width as i32` and `height as i32` wrap, and a negative bound makes
      its loop empty: `0..n` runs `SaturateUsize(n)` times. */
  method SetEveryPixel(fb: Framebuffer, colour: (int, int) -> u32)
    modifies fb
    ensures fb.events == old(fb.events) + OverlayRows(colour, SaturateUsize(WrapI32(fb.width)), SaturateUsize(WrapI32(fb.height)))
  {
    var width := WrapI32(fb.width);
    var height := WrapI32(fb.height);
    ghost var columns := SaturateUsize(width);
    ghost var rows := SaturateUsize(height);
    var y := 0;
    while y < height
      invariant 0 <= y <= rows
      invariant fb.events == old(fb.events) + OverlayRows(colour, columns, y)
    {
      var x := 0;
      while x < width
        invariant 0 <= x <= columns
        invariant fb.events == old(fb.events) + OverlayRows(colour, columns, y) + OverlayRow(colour, y, x)
      {
        fb.SetPixelRaw(x, y, colour(x, y));
        x := x + 1;
      }
      y := y + 1;
    }
  }

  /** `draw_warp_overlay`: every pixel gets the packed warp colour of its
      glow. */
  method DrawWarpOverlay(fb: Framebuffer, progress: real, wn: WarpNumerics)
    modifies fb
    ensures fb.events == old(fb.events) + OverlayRows(WarpColours(progress, wn), SaturateUsize(WrapI32(fb.width)), SaturateUsize(WrapI32(fb.height)))
  {
    SetEveryPixel(fb, WarpColours(progress, wn));
  }

  /** On a screen whose sides fit in i32, the pixel loops make
      width * height calls, and the one at y * width + x writes pixel (x, y)
      with its colour. */
  lemma {:induction false} EveryPixelOnce(colour: (int, int) -> u32, width: nat, height: nat, x: nat, y: nat)
    requires width <= I32_MAX && height <= I32_MAX
    requires x < width && y < height
    ensures |OverlayRows(colour, SaturateUsize(WrapI32(width)), SaturateUsize(WrapI32(height)))| == width * height
    ensures OverlayRows(colour, SaturateUsize(WrapI32(width)), SaturateUsize(WrapI32(height)))[y * width + x] == PixelSet(x, y, colour(x, y))
  {
    assert SaturateUsize(WrapI32(width)) == width;
    assert SaturateUsize(WrapI32(height)) == height;
    OverlayRowsLength(colour, width, height);
    OverlayPixel(colour, width, height, x, y);
  }
}
