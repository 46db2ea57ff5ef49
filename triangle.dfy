/** The triangle rasterizer: edge functions, barycentric weights, the
    bounding box, and the pixel walk that turns a triangle into fragments. */
module Raster {
  import opened Numeric
  import opened LinAlg
  import opened Records
  import opened Shaders

  // ---- edge function and weights ----

  /** `edge_function(a, b, c)`: the signed area (doubled) of the triangle
      a, b, c in the xy plane; z is ignored. */
  function Edge(a: Vec3, b: Vec3, c: Vec3): real {
    (c.x - a.x) * (b.y - a.y) - (c.y - a.y) * (b.x - a.x)
  }

  lemma EdgeSumScalar(x1: real, y1: real, x2: real, y2: real, x3: real, y3: real, px: real, py: real)
    ensures ((px - x2) * (y3 - y2) - (py - y2) * (x3 - x2))
          + ((px - x3) * (y1 - y3) - (py - y3) * (x1 - x3))
          + ((px - x1) * (y2 - y1) - (py - y1) * (x2 - x1))
         == (x3 - x1) * (y2 - y1) - (y3 - y1) * (x2 - x1)
  {
  }

  /** The three sub-triangles a point cuts a triangle into have signed
      areas that add up to the triangle's own, wherever the point is. */
  lemma {:induction false} EdgeSum(a: Vec3, b: Vec3, c: Vec3, p: Vec3)
    ensures Edge(b, c, p) + Edge(c, a, p) + Edge(a, b, p) == Edge(a, b, c)
  {
    EdgeSumScalar(a.x, a.y, b.x, b.y, c.x, c.y, p.x, p.y);
  }

  lemma EdgeSwapScalar(x1: real, y1: real, x2: real, y2: real, x3: real, y3: real)
    ensures (x3 - x1) * (y2 - y1) - (y3 - y1) * (x2 - x1) == -((x3 - x2) * (y1 - y2) - (y3 - y2) * (x1 - x2))
    ensures (x3 - x1) * (y2 - y1) - (y3 - y1) * (x2 - x1) == (x1 - x2) * (y3 - y2) - (y1 - y2) * (x3 - x2)
  {
  }

  /** Swapping two corners flips the sign; rotating them keeps it. */
  lemma {:induction false} EdgeOrientation(a: Vec3, b: Vec3, c: Vec3)
    ensures Edge(b, a, c) == -Edge(a, b, c)
    ensures Edge(b, c, a) == Edge(a, b, c)
  {
    EdgeSwapScalar(a.x, a.y, b.x, b.y, c.x, c.y);
  }

  datatype Weights = Weights(w1: real, w2: real, w3: real)

  /** `barycentric_coordinates`: the three sub-triangle areas divided by
      `area`. With `area` zero the f32 quotients are infinite or NaN; None
      stands for those non-finite weights, which fail every range test. */
  function Barycentric(p: Vec3, a: Vec3, b: Vec3, c: Vec3, area: real): (r: Option<Weights>)
    ensures r.None? <==> area == 0.0
  {
    if area == 0.0 then None
    else Some(Weights(Edge(b, c, p) / area, Edge(c, a, p) / area, Edge(a, b, p) / area))
  }

  /** Each weight times the area is the matching sub-triangle's signed
      area: weight i belongs to the corner opposite edge i. */
  lemma BarycentricWeights(p: Vec3, a: Vec3, b: Vec3, c: Vec3, area: real)
    requires area != 0.0
    ensures var w := Barycentric(p, a, b, c, area).value;
      w.w1 * area == Edge(b, c, p) && w.w2 * area == Edge(c, a, p) && w.w3 * area == Edge(a, b, p)
  {
    DivTimes(Edge(b, c, p), area);
    DivTimes(Edge(c, a, p), area);
    DivTimes(Edge(a, b, p), area);
  }

  lemma DivSum(e1: real, e2: real, e3: real, d: real)
    requires d != 0.0
    ensures e1 / d + e2 / d + e3 / d == (e1 + e2 + e3) / d
  {
  }

  /** With the triangle's own area as divisor the weights sum to one. */
  lemma {:induction false} WeightsSumToOne(p: Vec3, a: Vec3, b: Vec3, c: Vec3)
    requires Edge(a, b, c) != 0.0
    ensures var w := Barycentric(p, a, b, c, Edge(a, b, c)).value;
            w.w1 + w.w2 + w.w3 == 1.0
  {
    var area := Edge(a, b, c);
    EdgeSum(a, b, c, p);
    DivSum(Edge(b, c, p), Edge(c, a, p), Edge(a, b, p), area);
  }

  /** All three weights in the closed range [0, 1]: the test `triangle`
      applies to each pixel centre. */
  predicate InRange(w: Weights) {
    0.0 <= w.w1 <= 1.0 && 0.0 <= w.w2 <= 1.0 && 0.0 <= w.w3 <= 1.0
  }

  /** The reference notion of a point lying in the closed triangle: the
      three sub-triangle areas share the sign of the (non-degenerate)
      triangle's area, or vanish. */
  predicate InsideClosed(p: Vec3, a: Vec3, b: Vec3, c: Vec3) {
    var area := Edge(a, b, c);
    (0.0 < area && 0.0 <= Edge(b, c, p) && 0.0 <= Edge(c, a, p) && 0.0 <= Edge(a, b, p))
    || (area < 0.0 && Edge(b, c, p) <= 0.0 && Edge(c, a, p) <= 0.0 && Edge(a, b, p) <= 0.0)
  }

  lemma QuotientSign(e: real, d: real, q: real)
    requires d != 0.0 && q * d == e
    ensures 0.0 <= q <==> (0.0 < d && 0.0 <= e) || (d < 0.0 && e <= 0.0)
  {
    if 0.0 < d {
      assert 0.0 <= q ==> 0.0 <= q * d;
      assert q < 0.0 ==> q * d < 0.0;
    } else {
      assert 0.0 <= q ==> q * d <= 0.0;
      assert q < 0.0 ==> 0.0 < q * d;
    }
  }

  /** The range test accepts exactly the points of the closed triangle. */
  lemma {:induction false} AcceptedIffInside(p: Vec3, a: Vec3, b: Vec3, c: Vec3)
    ensures (var r := Barycentric(p, a, b, c, Edge(a, b, c)); r.Some? && InRange(r.value))
            <==> InsideClosed(p, a, b, c)
  {
    var area := Edge(a, b, c);
    if area != 0.0 {
      var w := Barycentric(p, a, b, c, area).value;
      BarycentricWeights(p, a, b, c, area);
      WeightsSumToOne(p, a, b, c);
      QuotientSign(Edge(b, c, p), area, w.w1);
      QuotientSign(Edge(c, a, p), area, w.w2);
      QuotientSign(Edge(a, b, p), area, w.w3);
    }
  }

  // ---- bounding box ----

  /** `(min_x, min_y, max_x, max_y)`. */
  datatype BBox = BBox(minX: int, minY: int, maxX: int, maxY: int)

  predicate InBox(box: BBox, x: int, y: int) {
    box.minX <= x <= box.maxX && box.minY <= y <= box.maxY
  }

  function Min3(a: real, b: real, c: real): real { Min(Min(a, b), c) }
  function Max3(a: real, b: real, c: real): real { Max(Max(a, b), c) }

  /** `calculate_bounding_box`: floor of the least and ceiling of the
      greatest coordinate, each cast to i32 (the float-to-int `as` cast
      saturates). */
  function BoundingBox(a: Vec3, b: Vec3, c: Vec3): (r: BBox)
    ensures r.minX <= r.maxX && r.minY <= r.maxY
    ensures I32_MIN <= r.minX && r.maxX <= I32_MAX && I32_MIN <= r.minY && r.maxY <= I32_MAX
  {
    BBox(SaturateI32(Floor(Min3(a.x, b.x, c.x))), SaturateI32(Floor(Min3(a.y, b.y, c.y))),
         SaturateI32(Ceil(Max3(a.x, b.x, c.x))), SaturateI32(Ceil(Max3(a.y, b.y, c.y))))
  }

  /** A coordinate the i32 casts do not saturate. */
  predicate InI32Range(v: real) {
    I32_MIN as real <= v <= I32_MAX as real
  }

  predicate VertexInRange(v: Vec3) {
    InI32Range(v.x) && InI32Range(v.y)
  }

  lemma FloorInRange(v: real)
    requires InI32Range(v)
    ensures I32_MIN <= Floor(v) <= I32_MAX && I32_MIN <= Ceil(v) <= I32_MAX
  {
  }

  /** When no cast saturates, the box encloses all three corners. */
  lemma {:induction false} BoxEnclosesVertices(a: Vec3, b: Vec3, c: Vec3)
    requires VertexInRange(a) && VertexInRange(b) && VertexInRange(c)
    ensures var box := BoundingBox(a, b, c);
            forall v | v in [a, b, c] ::
              box.minX as real <= v.x <= box.maxX as real && box.minY as real <= v.y <= box.maxY as real
  {
    FloorInRange(Min3(a.x, b.x, c.x));
    FloorInRange(Min3(a.y, b.y, c.y));
    FloorInRange(Max3(a.x, b.x, c.x));
    FloorInRange(Max3(a.y, b.y, c.y));
  }

  // ---- fragments ----

  /** A triangle of shaded vertices, as `triangle` receives it. */
  datatype Tri = Tri(v1: Vertex, v2: Vertex, v3: Vertex)

  /** The f32 library operations the fragment stage uses and the abstract
      shader layers. */
  datatype ShadeNumerics = ShadeNumerics(normalize: Vec3 -> Vec3, layers: Layers)

  /** `(v * 255.0).clamp(0.0, 255.0) as u8`: the clamped value is
      non-negative, so the cast truncates toward zero, which is floor. */
  function Channel8(v: real): (r: u8)
    ensures r as real <= Clamp(v * 255.0, 0.0, 255.0) < r as real + 1.0
    ensures v <= 0.0 ==> r == 0
    ensures 1.0 <= v ==> r == 255
  {
    Floor(Clamp(v * 255.0, 0.0, 255.0))
  }

  function ToColor(rgb: Vec3): Color {
    Color(Channel8(rgb.x), Channel8(rgb.y), Channel8(rgb.z))
  }

  /** `u1 * w1 + u2 * w2 + u3 * w3`. */
  function Interpolate(u1: Vec3, u2: Vec3, u3: Vec3, w: Weights): Vec3 {
    Add(Add(Scale(u1, w.w1), Scale(u2, w.w2)), Scale(u3, w.w3))
  }

  /** The sample point of pixel (x, y): its centre, at z = 0. */
  function PixelCentre(x: int, y: int): Vec3 {
    Vec3(x as real + 0.5, y as real + 0.5, 0.0)
  }

  /** The weights `triangle` computes at pixel (x, y). */
  function PixelWeights(t: Tri, x: int, y: int): Option<Weights> {
    var a, b, c := t.v1.transformedPosition, t.v2.transformedPosition, t.v3.transformedPosition;
    Barycentric(PixelCentre(x, y), a, b, c, Edge(a, b, c))
  }

  predicate Accepted(t: Tri, x: int, y: int) {
    var w := PixelWeights(t, x, y);
    w.Some? && InRange(w.value)
  }

  /** The fragment of an accepted pixel: position and normal interpolated
      with the weights, the normal renormalized, the selected shader's
      colour converted to 8-bit channels, and the depth interpolated from
      the transformed corners. */
  function ShadeSample(t: Tri, st: ShadeState, num: ShadeNumerics, x: int, y: int, w: Weights): (f: Fragment)
    ensures f.x == x && f.y == y
  {
    var interpPos := Interpolate(t.v1.position, t.v2.position, t.v3.position, w);
    var interpNorm := num.normalize(Interpolate(t.v1.transformedNormal, t.v2.transformedNormal, t.v3.transformedNormal, w));
    var rgb := Shade(st, num.layers, interpPos, interpNorm);
    var depth := t.v1.transformedPosition.z * w.w1 + t.v2.transformedPosition.z * w.w2 + t.v3.transformedPosition.z * w.w3;
    Fragment(x, y, ToColor(rgb), depth)
  }

  /** What one iteration of the pixel loop produces for (x, y). */
  function PixelFragment(t: Tri, st: ShadeState, num: ShadeNumerics, x: int, y: int): (r: Option<Fragment>)
    ensures r.Some? <==> Accepted(t, x, y)
    ensures r.Some? ==> r.value == ShadeSample(t, st, num, x, y, PixelWeights(t, x, y).value)
  {
    match PixelWeights(t, x, y)
    case None => None
    case Some(w) => if InRange(w) then Some(ShadeSample(t, st, num, x, y, w)) else None
  }

  /** What the pixel loop yields at each pixel (x, y): a fragment or
      nothing. */
  type PixelFn = (int, int) -> Option<Fragment>

  /** The pixel function of triangle t under shader state st. */
  function Pixels(t: Tri, st: ShadeState, num: ShadeNumerics): PixelFn {
    (x: int, y: int) => PixelFragment(t, st, num, x, y)
  }

  /** Every fragment sits at the pixel it was produced for. */
  ghost predicate AtOwnPixel(pixel: PixelFn) {
    forall x: int, y: int :: pixel(x, y).Some? ==> pixel(x, y).value.x == x && pixel(x, y).value.y == y
  }

  lemma PixelsAtOwnPixel(t: Tri, st: ShadeState, num: ShadeNumerics)
    ensures AtOwnPixel(Pixels(t, st, num))
  {
    var pixel := Pixels(t, st, num);
    forall x: int, y: int | pixel(x, y).Some?
      ensures pixel(x, y).value.x == x && pixel(x, y).value.y == y
    {
      assert pixel(x, y) == PixelFragment(t, st, num, x, y);
    }
  }

  /** The fragments of row y, columns x0 .. x-1, in column order. */
  function RowFragments(pixel: PixelFn, y: int, x0: int, x: int): seq<Fragment>
    requires x0 <= x
    decreases x - x0
  {
    if x == x0 then []
    else
      var rest := RowFragments(pixel, y, x0, x - 1);
      match pixel(x - 1, y)
      case None => rest
      case Some(f) => rest + [f]
  }

  lemma RowFragmentsStep(pixel: PixelFn, y: int, x0: int, x: int)
    requires x0 <= x
    ensures RowFragments(pixel, y, x0, x + 1)
         == RowFragments(pixel, y, x0, x) + match pixel(x, y) case None => [] case Some(f) => [f]
  {
  }

  /** The fragments of rows box.minY .. y-1, row after row. */
  function GridFragments(pixel: PixelFn, box: BBox, y: int): seq<Fragment>
    requires box.minY <= y && box.minX <= box.maxX
    decreases y - box.minY
  {
    if y == box.minY then []
    else GridFragments(pixel, box, y - 1) + RowFragments(pixel, y - 1, box.minX, box.maxX + 1)
  }

  function TriangleBox(t: Tri): BBox {
    BoundingBox(t.v1.transformedPosition, t.v2.transformedPosition, t.v3.transformedPosition)
  }

  lemma GridFragmentsStep(pixel: PixelFn, box: BBox, y: int)
    requires box.minY <= y && box.minX <= box.maxX
    ensures GridFragments(pixel, box, y + 1)
         == GridFragments(pixel, box, y) + RowFragments(pixel, y, box.minX, box.maxX + 1)
  {
  }

  /** One step of the column loop, in the terms the loop computes: the
      sample point, then its weights. */
  lemma {:induction false} RowStepAt(t: Tri, st: ShadeState, num: ShadeNumerics, y: int, x0: int, x: int,
                                     point: Vec3, weights: Option<Weights>)
    requires x0 <= x
    requires point == Vec3(x as real + 0.5, y as real + 0.5, 0.0)
    requires weights == Barycentric(point, t.v1.transformedPosition, t.v2.transformedPosition, t.v3.transformedPosition,
                                    Edge(t.v1.transformedPosition, t.v2.transformedPosition, t.v3.transformedPosition))
    ensures RowFragments(Pixels(t, st, num), y, x0, x + 1)
         == RowFragments(Pixels(t, st, num), y, x0, x)
          + if weights.Some? && InRange(weights.value) then [ShadeSample(t, st, num, x, y, weights.value)] else []
  {
    assert PixelWeights(t, x, y) == weights;
    assert Pixels(t, st, num)(x, y) == PixelFragment(t, st, num, x, y);
    RowFragmentsStep(Pixels(t, st, num), y, x0, x);
  }

  /** Every fragment `triangle` returns, in order. */
  function TriangleFragments(t: Tri, st: ShadeState, num: ShadeNumerics): seq<Fragment> {
    var box := TriangleBox(t);
    GridFragments(Pixels(t, st, num), box, box.maxY + 1)
  }

  /** `triangle(v1, v2, v3)`, reading the shader state from the globals:
      the rows of the bounding box from top to bottom, each row's
      fragments appended in turn. */
  method Triangle(v1: Vertex, v2: Vertex, v3: Vertex, g: ShaderGlobals, num: ShadeNumerics)
    returns (fragments: seq<Fragment>)
    ensures fragments == TriangleFragments(Tri(v1, v2, v3), g.State(), num)
  {
    var t := Tri(v1, v2, v3);
    var st := g.State();
    var a, b, c := v1.transformedPosition, v2.transformedPosition, v3.transformedPosition;
    var box := BoundingBox(a, b, c);
    var area := Edge(a, b, c);
    fragments := [];
    var y := box.minY;
    while y <= box.maxY
      invariant box.minY <= y <= box.maxY + 1
      invariant fragments == GridFragments(Pixels(t, st, num), box, y)
    {
      var row := ScanRow(t, st, num, area, y, box.minX, box.maxX);
      GridFragmentsStep(Pixels(t, st, num), box, y);
      fragments := fragments + row;
      y := y + 1;
    }
  }

  /** The column loop of `triangle` for row y: sample each pixel of
      minX ..= maxX at its centre and keep the accepted ones, shaded. */
  method ScanRow(t: Tri, st: ShadeState, num: ShadeNumerics, area: real, y: int, minX: int, maxX: int)
    returns (row: seq<Fragment>)
    requires minX <= maxX + 1
    requires area == Edge(t.v1.transformedPosition, t.v2.transformedPosition, t.v3.transformedPosition)
    ensures row == RowFragments(Pixels(t, st, num), y, minX, maxX + 1)
  {
    var a, b, c := t.v1.transformedPosition, t.v2.transformedPosition, t.v3.transformedPosition;
    row := [];
    var x := minX;
    while x <= maxX
      invariant minX <= x <= maxX + 1
      invariant row == RowFragments(Pixels(t, st, num), y, minX, x)
    {
      var point := Vec3(x as real + 0.5, y as real + 0.5, 0.0);
      var weights := Barycentric(point, a, b, c, area);
      RowStepAt(t, st, num, y, minX, x, point, weights);
      if weights.Some? && InRange(weights.value) {
        var fragment := ShadeSample(t, st, num, x, y, weights.value);
        row := row + [fragment];
      }
      x := x + 1;
    }
  }

  // ---- properties of the pixel walk ----

  /** Row-major order: y first, then x. */
  predicate Before(f: Fragment, g: Fragment) {
    f.y < g.y || (f.y == g.y && f.x < g.x)
  }

  predicate RowMajor(fs: seq<Fragment>) {
    forall i, j :: 0 <= i < j < |fs| ==> Before(fs[i], fs[j])
  }

  lemma {:induction false} RowFragmentsSound(pixel: PixelFn, y: int, x0: int, x: int)
    requires x0 <= x && AtOwnPixel(pixel)
    ensures forall f <- RowFragments(pixel, y, x0, x) ::
              f.y == y && x0 <= f.x < x && pixel(f.x, f.y) == Some(f)
    ensures forall i, j :: 0 <= i < j < |RowFragments(pixel, y, x0, x)| ==>
              RowFragments(pixel, y, x0, x)[i].x < RowFragments(pixel, y, x0, x)[j].x
    decreases x - x0
  {
    if x != x0 {
      RowFragmentsSound(pixel, y, x0, x - 1);
    }
  }

  lemma {:induction false} RowFragmentsComplete(pixel: PixelFn, y: int, x0: int, x: int, xi: int)
    requires x0 <= xi < x
    requires pixel(xi, y).Some?
    ensures pixel(xi, y).value in RowFragments(pixel, y, x0, x)
    decreases x - x0
  {
    if xi < x - 1 {
      RowFragmentsComplete(pixel, y, x0, x - 1, xi);
    }
  }

  /** Appending a later row, left to right, keeps the order row-major. */
  lemma AppendRow(g: seq<Fragment>, r: seq<Fragment>, y: int)
    requires RowMajor(g)
    requires forall f <- g :: f.y < y
    requires forall f <- r :: f.y == y
    requires forall i, j :: 0 <= i < j < |r| ==> r[i].x < r[j].x
    ensures RowMajor(g + r)
  {
    forall i, j | 0 <= i < j < |g + r|
      ensures Before((g + r)[i], (g + r)[j])
    {
      if j < |g| {
        assert (g + r)[i] == g[i] && (g + r)[j] == g[j];
      } else if i < |g| {
        assert g[i] in g && r[j - |g|] in r;
      } else {
        assert (g + r)[i] == r[i - |g|] && (g + r)[j] == r[j - |g|];
        assert r[i - |g|] in r;
      }
    }
  }

  lemma {:induction false} GridFragmentsSound(pixel: PixelFn, box: BBox, y: int)
    requires box.minY <= y && box.minX <= box.maxX && AtOwnPixel(pixel)
    ensures forall f <- GridFragments(pixel, box, y) ::
              box.minY <= f.y < y && box.minX <= f.x <= box.maxX && pixel(f.x, f.y) == Some(f)
    ensures RowMajor(GridFragments(pixel, box, y))
    decreases y - box.minY
  {
    if y != box.minY {
      GridFragmentsSound(pixel, box, y - 1);
      RowFragmentsSound(pixel, y - 1, box.minX, box.maxX + 1);
      var g := GridFragments(pixel, box, y - 1);
      var r := RowFragments(pixel, y - 1, box.minX, box.maxX + 1);
      assert GridFragments(pixel, box, y) == g + r;
      AppendRow(g, r, y - 1);
    }
  }

  lemma {:induction false} GridFragmentsComplete(pixel: PixelFn, box: BBox, y: int, xi: int, yi: int)
    requires box.minY <= yi < y && box.minX <= xi <= box.maxX
    requires pixel(xi, yi).Some?
    ensures pixel(xi, yi).value in GridFragments(pixel, box, y)
    decreases y - box.minY
  {
    if yi < y - 1 {
      GridFragmentsComplete(pixel, box, y - 1, xi, yi);
    } else {
      RowFragmentsComplete(pixel, yi, box.minX, box.maxX + 1, xi);
    }
  }

  /** Every fragment is an accepted pixel of the box, at its own integer
      index, and the fragments come out row by row, left to right. */
  lemma TriangleSound(t: Tri, st: ShadeState, num: ShadeNumerics)
    ensures forall f <- TriangleFragments(t, st, num) ::
              InBox(TriangleBox(t), f.x, f.y) && Accepted(t, f.x, f.y) && PixelFragment(t, st, num, f.x, f.y) == Some(f)
    ensures RowMajor(TriangleFragments(t, st, num))
  {
    var box := TriangleBox(t);
    PixelsAtOwnPixel(t, st, num);
    GridFragmentsSound(Pixels(t, st, num), box, box.maxY + 1);
  }

  /** Every accepted pixel of the box yields its fragment. */
  lemma TriangleComplete(t: Tri, st: ShadeState, num: ShadeNumerics, x: int, y: int)
    requires InBox(TriangleBox(t), x, y) && Accepted(t, x, y)
    ensures PixelFragment(t, st, num, x, y).value in TriangleFragments(t, st, num)
  {
    var box := TriangleBox(t);
    GridFragmentsComplete(Pixels(t, st, num), box, box.maxY + 1, x, y);
  }

  /** A pixel function that yields nothing anywhere. */
  ghost predicate Blank(pixel: PixelFn) {
    forall x: int, y: int :: pixel(x, y).None?
  }

  lemma {:induction false} RowFragmentsBlank(pixel: PixelFn, y: int, x0: int, x: int)
    requires x0 <= x && Blank(pixel)
    ensures RowFragments(pixel, y, x0, x) == []
    decreases x - x0
  {
    if x != x0 {
      RowFragmentsBlank(pixel, y, x0, x - 1);
    }
  }

  lemma {:induction false} GridFragmentsBlank(pixel: PixelFn, box: BBox, y: int)
    requires box.minY <= y && box.minX <= box.maxX && Blank(pixel)
    ensures GridFragments(pixel, box, y) == []
    decreases y - box.minY
  {
    if y != box.minY {
      GridFragmentsBlank(pixel, box, y - 1);
      RowFragmentsBlank(pixel, y - 1, box.minX, box.maxX + 1);
    }
  }

  /** A triangle with zero area yields no fragment. */
  lemma TriangleZeroArea(t: Tri, st: ShadeState, num: ShadeNumerics)
    requires Edge(t.v1.transformedPosition, t.v2.transformedPosition, t.v3.transformedPosition) == 0.0
    ensures TriangleFragments(t, st, num) == []
  {
    var box := TriangleBox(t);
    var pixel := Pixels(t, st, num);
    forall x: int, y: int
      ensures pixel(x, y).None?
    {
      assert PixelWeights(t, x, y).None?;
    }
    GridFragmentsBlank(pixel, box, box.maxY + 1);
  }

  /** Two pixel functions that agree everywhere give the same rows. */
  lemma {:induction false} RowFragmentsAgree(p: PixelFn, q: PixelFn, y: int, x0: int, x: int)
    requires x0 <= x
    requires forall x: int, y: int :: p(x, y) == q(x, y)
    ensures RowFragments(p, y, x0, x) == RowFragments(q, y, x0, x)
    decreases x - x0
  {
    if x != x0 {
      RowFragmentsAgree(p, q, y, x0, x - 1);
    }
  }

  lemma {:induction false} GridFragmentsAgree(p: PixelFn, q: PixelFn, box: BBox, y: int)
    requires box.minY <= y && box.minX <= box.maxX
    requires forall x: int, y: int :: p(x, y) == q(x, y)
    ensures GridFragments(p, box, y) == GridFragments(q, box, y)
    decreases y - box.minY
  {
    if y != box.minY {
      GridFragmentsAgree(p, q, box, y - 1);
      RowFragmentsAgree(p, q, y - 1, box.minX, box.maxX + 1);
    }
  }

  lemma MulMonotone(a: real, b: real, w: real)
    requires a <= b && 0.0 <= w
    ensures a * w <= b * w
  {
  }

  lemma Distribute3(m: real, w1: real, w2: real, w3: real)
    requires w1 + w2 + w3 == 1.0
    ensures m * w1 + m * w2 + m * w3 == m
  {
    assert m * w1 + m * w2 + m * w3 == m * (w1 + w2 + w3);
  }

  lemma {:induction false} WeightedLower(lo: real, z1: real, z2: real, z3: real, w1: real, w2: real, w3: real)
    requires lo <= z1 && lo <= z2 && lo <= z3
    requires 0.0 <= w1 && 0.0 <= w2 && 0.0 <= w3
    ensures lo * w1 + lo * w2 + lo * w3 <= z1 * w1 + z2 * w2 + z3 * w3
  {
    MulMonotone(lo, z1, w1);
    MulMonotone(lo, z2, w2);
    MulMonotone(lo, z3, w3);
  }

  lemma {:induction false} WeightedUpper(hi: real, z1: real, z2: real, z3: real, w1: real, w2: real, w3: real)
    requires z1 <= hi && z2 <= hi && z3 <= hi
    requires 0.0 <= w1 && 0.0 <= w2 && 0.0 <= w3
    ensures z1 * w1 + z2 * w2 + z3 * w3 <= hi * w1 + hi * w2 + hi * w3
  {
    MulMonotone(z1, hi, w1);
    MulMonotone(z2, hi, w2);
    MulMonotone(z3, hi, w3);
  }

  /** A convex combination of three values lies between their least and
      greatest. */
  lemma {:induction false} ConvexCombination(z1: real, z2: real, z3: real, w1: real, w2: real, w3: real)
    requires 0.0 <= w1 && 0.0 <= w2 && 0.0 <= w3 && w1 + w2 + w3 == 1.0
    ensures Min3(z1, z2, z3) <= z1 * w1 + z2 * w2 + z3 * w3 <= Max3(z1, z2, z3)
  {
    var lo, hi := Min3(z1, z2, z3), Max3(z1, z2, z3);
    WeightedLower(lo, z1, z2, z3, w1, w2, w3);
    WeightedUpper(hi, z1, z2, z3, w1, w2, w3);
    Distribute3(lo, w1, w2, w3);
    Distribute3(hi, w1, w2, w3);
  }

  lemma {:induction false} ConvexDepth(d: real, z1: real, z2: real, z3: real, w1: real, w2: real, w3: real)
    requires 0.0 <= w1 && 0.0 <= w2 && 0.0 <= w3 && w1 + w2 + w3 == 1.0
    requires d == z1 * w1 + z2 * w2 + z3 * w3
    ensures Min3(z1, z2, z3) <= d <= Max3(z1, z2, z3)
    ensures z1 == z2 == z3 ==> d == z1
  {
    ConvexCombination(z1, z2, z3, w1, w2, w3);
    Distribute3(z1, w1, w2, w3);
  }

  /** The depth of every fragment is a convex combination of the corners'
      depths: it lies between the least and the greatest, and equals the
      common depth of a triangle parallel to the screen. */
  lemma {:induction false} FragmentDepth(t: Tri, st: ShadeState, num: ShadeNumerics, x: int, y: int)
    requires PixelFragment(t, st, num, x, y).Some?
    ensures var z1, z2, z3 := t.v1.transformedPosition.z, t.v2.transformedPosition.z, t.v3.transformedPosition.z;
            var d := PixelFragment(t, st, num, x, y).value.depth;
            Min3(z1, z2, z3) <= d <= Max3(z1, z2, z3)
            && (z1 == z2 == z3 ==> d == z1)
  {
    var a, b, c := t.v1.transformedPosition, t.v2.transformedPosition, t.v3.transformedPosition;
    var w := PixelWeights(t, x, y).value;
    var f := PixelFragment(t, st, num, x, y).value;
    assert f.depth == a.z * w.w1 + b.z * w.w2 + c.z * w.w3 by {
      assert f == ShadeSample(t, st, num, x, y, w);
    }
    assert InRange(w) && Edge(a, b, c) != 0.0;
    WeightsSumToOne(PixelCentre(x, y), a, b, c);
    ConvexDepth(f.depth, a.z, b.z, c.z, w.w1, w.w2, w.w3);
  }
}
