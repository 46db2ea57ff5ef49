/** The per-frame orchestration: the model matrix, the render pass over a
    vertex array, and the camera ship's pass with its own shader and a
    cleared depth buffer. */
module Scene {
  import opened Numeric
  import opened LinAlg
  import opened Records
  import opened Shaders
  import opened Raster
  import opened Screen

  /** `f32::sin` and `f32::cos`, which the model leaves abstract. */
  datatype Trig = Trig(sin: real -> real, cos: real -> real)

  function RotationX(trig: Trig, a: real): Mat4 {
    var s, c := trig.sin(a), trig.cos(a);
    Mat4New(
      1.0, 0.0, 0.0, 0.0,
      0.0, c, -s, 0.0,
      0.0, s, c, 0.0,
      0.0, 0.0, 0.0, 1.0)
  }

  function RotationY(trig: Trig, a: real): Mat4 {
    var s, c := trig.sin(a), trig.cos(a);
    Mat4New(
      c, 0.0, s, 0.0,
      0.0, 1.0, 0.0, 0.0,
      -s, 0.0, c, 0.0,
      0.0, 0.0, 0.0, 1.0)
  }

  function RotationZ(trig: Trig, a: real): Mat4 {
    var s, c := trig.sin(a), trig.cos(a);
    Mat4New(
      c, -s, 0.0, 0.0,
      s, c, 0.0, 0.0,
      0.0, 0.0, 1.0, 0.0,
      0.0, 0.0, 0.0, 1.0)
  }

  /** Uniform scale followed by a translation. */
  function ScaleTranslate(t: Vec3, scale: real): Mat4 {
    Mat4New(
      scale, 0.0, 0.0, t.x,
      0.0, scale, 0.0, t.y,
      0.0, 0.0, scale, t.z,
      0.0, 0.0, 0.0, 1.0)
  }

  /** An affine transform that moves no point at the origin: its last
      column is (0, 0, 0, 1). */
  predicate IsLinear(m: Mat4) {
    IsAffine(m) && m.r0.w == 0.0 && m.r1.w == 0.0 && m.r2.w == 0.0
  }

  lemma LinearProduct(a: Mat4, b: Mat4)
    requires IsLinear(a) && IsLinear(b)
    ensures IsLinear(Mul4(a, b))
  {
  }

  /** An affine transform after a linear one keeps its translation. */
  lemma AffineAfterLinear(a: Mat4, b: Mat4)
    requires IsAffine(a) && IsLinear(b)
    ensures IsAffine(Mul4(a, b))
    ensures Mul4(a, b).r0.w == a.r0.w && Mul4(a, b).r1.w == a.r1.w && Mul4(a, b).r2.w == a.r2.w
  {
  }

  /** An affine transform maps every point to w = 1. */
  lemma AffineUnitW(m: Mat4)
    requires IsAffine(m)
    ensures forall p :: Transformed(m, p).w == 1.0
  {
  }

  /** `rotation_matrix_z * rotation_matrix_y * rotation_matrix_x`. */
  function Rotation(trig: Trig, rotation: Vec3): (r: Mat4)
    ensures IsLinear(r)
  {
    var rx := RotationX(trig, rotation.x);
    var ry := RotationY(trig, rotation.y);
    var rz := RotationZ(trig, rotation.z);
    LinearProduct(rz, ry);
    LinearProduct(Mul4(rz, ry), rx);
    Mul4(Mul4(rz, ry), rx)
  }

  /** `create_model_matrix`: rotate about x, then y, then z, then scale and
      translate. The bottom row is (0, 0, 0, 1) whatever the angles, so the
      vertex stage divides by w = 1, and the last column is the
      translation. */
  function CreateModelMatrix(trig: Trig, translation: Vec3, scale: real, rotation: Vec3): (r: Mat4)
    ensures IsAffine(r)
    ensures r.r0.w == translation.x && r.r1.w == translation.y && r.r2.w == translation.z
    ensures forall p :: Transformed(r, p).w == 1.0
  {
    var r := Mul4(ScaleTranslate(translation, scale), Rotation(trig, rotation));
    AffineAfterLinear(ScaleTranslate(translation, scale), Rotation(trig, rotation));
    AffineUnitW(r);
    r
  }

  lemma UnitRows(b: Mat4)
    ensures MulRow4(Vec4(1.0, 0.0, 0.0, 0.0), b) == b.r0
    ensures MulRow4(Vec4(0.0, 1.0, 0.0, 0.0), b) == b.r1
    ensures MulRow4(Vec4(0.0, 0.0, 1.0, 0.0), b) == b.r2
    ensures MulRow4(Vec4(0.0, 0.0, 0.0, 1.0), b) == b.r3
  {
  }

  lemma IdentityProduct(a: Mat4, b: Mat4)
    requires a == Identity4
    ensures Mul4(a, b) == b
  {
    UnitRows(b);
  }

  lemma ZeroRotations(trig: Trig)
    requires trig.sin(0.0) == 0.0 && trig.cos(0.0) == 1.0
    ensures RotationX(trig, 0.0) == Identity4
    ensures RotationY(trig, 0.0) == Identity4
    ensures RotationZ(trig, 0.0) == Identity4
  {
  }

  lemma UnitScaleNoTranslation(t: Vec3, scale: real)
    requires t == Vec3(0.0, 0.0, 0.0) && scale == 1.0
    ensures ScaleTranslate(t, scale) == Identity4
  {
  }

  lemma RotationOfZero(trig: Trig, rotation: Vec3)
    requires trig.sin(0.0) == 0.0 && trig.cos(0.0) == 1.0
    requires rotation == Vec3(0.0, 0.0, 0.0)
    ensures Rotation(trig, rotation) == Identity4
  {
    ZeroRotations(trig);
    var rx, ry, rz := RotationX(trig, 0.0), RotationY(trig, 0.0), RotationZ(trig, 0.0);
    IdentityProduct(rz, ry);
    IdentityProduct(Mul4(rz, ry), rx);
  }

  /** With zero angles, unit scale and no translation the model matrix is
      the identity, given sin 0 = 0 and cos 0 = 1. */
  lemma {:induction false} CreateModelMatrixIdentity(trig: Trig)
    requires trig.sin(0.0) == 0.0 && trig.cos(0.0) == 1.0
    ensures CreateModelMatrix(trig, Vec3(0.0, 0.0, 0.0), 1.0, Vec3(0.0, 0.0, 0.0)) == Identity4
  {
    var zero := Vec3(0.0, 0.0, 0.0);
    RotationOfZero(trig, zero);
    UnitScaleNoTranslation(zero, 1.0);
    IdentityProduct(ScaleTranslate(zero, 1.0), Rotation(trig, zero));
  }

  // ---- render ----

  /** Every vertex has a non-zero w after the model matrix, so the vertex
      stage's perspective division is defined. */
  predicate Divisible(vs: seq<Vertex>, u: Uniforms) {
    forall i :: 0 <= i < |vs| ==> Transformed(u.modelMatrix, vs[i].position).w != 0.0
  }

  /** The vertex stage over the whole array, in order. */
  function TransformAll(vs: seq<Vertex>, u: Uniforms): (r: seq<Vertex>)
    requires Divisible(vs, u)
    ensures |r| == |vs|
  {
    if vs == [] then [] else TransformAll(vs[..|vs| - 1], u) + [VertexShader(vs[|vs| - 1], u)]
  }

  /** The transformed array keeps the input's order: element i is the
      vertex stage applied to vertex i. */
  lemma {:induction false} TransformAllElements(vs: seq<Vertex>, u: Uniforms)
    requires Divisible(vs, u)
    ensures forall i :: 0 <= i < |vs| ==> TransformAll(vs, u)[i] == VertexShader(vs[i], u)
  {
    if vs != [] {
      TransformAllElements(vs[..|vs| - 1], u);
    }
  }

  /** The first k triangles of consecutive vertex triples. */
  function Group(ts: seq<Vertex>, k: nat): (r: seq<Tri>)
    requires 3 * k <= |ts|
    ensures |r| == k
  {
    if k == 0 then [] else Group(ts, k - 1) + [Tri(ts[3 * k - 3], ts[3 * k - 2], ts[3 * k - 1])]
  }

  /** Triangle j is vertices 3j, 3j + 1 and 3j + 2. */
  lemma {:induction false} GroupElements(ts: seq<Vertex>, k: nat)
    requires 3 * k <= |ts|
    ensures forall j :: 0 <= j < k ==> Group(ts, k)[j] == Tri(ts[3 * j], ts[3 * j + 1], ts[3 * j + 2])
  {
    if k > 0 {
      GroupElements(ts, k - 1);
    }
  }

  /** The triangles `render` assembles: one per complete triple, a trailing
      one or two vertices dropped. */
  function Triangles(ts: seq<Vertex>): seq<Tri> {
    Group(ts, |ts| / 3)
  }

  /** The vertices of a triangle list, corner by corner. */
  function Flatten(trs: seq<Tri>): seq<Vertex> {
    if trs == [] then []
    else
      var t := trs[|trs| - 1];
      Flatten(trs[..|trs| - 1]) + [t.v1, t.v2, t.v3]
  }

  lemma {:induction false} FlattenGroup(ts: seq<Vertex>, k: nat)
    requires 3 * k <= |ts|
    ensures Flatten(Group(ts, k)) == ts[..3 * k]
  {
    if k > 0 {
      var g := Group(ts, k);
      var last := Tri(ts[3 * k - 3], ts[3 * k - 2], ts[3 * k - 1]);
      assert g == Group(ts, k - 1) + [last];
      assert g[..k - 1] == Group(ts, k - 1);
      assert g[k - 1] == last;
      assert Flatten(g) == Flatten(Group(ts, k - 1)) + [last.v1, last.v2, last.v3];
      FlattenGroup(ts, k - 1);
      assert ts[..3 * k] == ts[..3 * k - 3] + [ts[3 * k - 3], ts[3 * k - 2], ts[3 * k - 1]];
    }
  }

  /** Grouping loses nothing but the trailing |ts| % 3 vertices. */
  lemma TrianglesKeepPrefix(ts: seq<Vertex>)
    ensures Flatten(Triangles(ts)) == ts[..|ts| - |ts| % 3]
    ensures |ts| % 3 <= 2
  {
    FlattenGroup(ts, |ts| / 3);
  }

  /** The fragments of a triangle list, triangle after triangle. */
  function AllFragments(trs: seq<Tri>, st: ShadeState, num: ShadeNumerics): seq<Fragment> {
    if trs == [] then []
    else AllFragments(trs[..|trs| - 1], st, num) + TriangleFragments(trs[|trs| - 1], st, num)
  }

  lemma {:induction false} AllFragmentsMember(trs: seq<Tri>, st: ShadeState, num: ShadeNumerics, f: Fragment)
    ensures f in AllFragments(trs, st, num)
        <==> exists k :: 0 <= k < |trs| && f in TriangleFragments(trs[k], st, num)
  {
    if f in AllFragments(trs, st, num) {
      var k := AllFragmentsSource(trs, st, num, f);
    }
    if exists k :: 0 <= k < |trs| && f in TriangleFragments(trs[k], st, num) {
      var k :| 0 <= k < |trs| && f in TriangleFragments(trs[k], st, num);
      AllFragmentsInclude(trs, st, num, k, f);
    }
  }

  /** A fragment of the concatenation comes from some triangle. */
  lemma {:induction false} AllFragmentsSource(trs: seq<Tri>, st: ShadeState, num: ShadeNumerics, f: Fragment)
      returns (k: nat)
    requires f in AllFragments(trs, st, num)
    ensures k < |trs| && f in TriangleFragments(trs[k], st, num)
  {
    var last := |trs| - 1;
    var init := trs[..last];
    var head := AllFragments(init, st, num);
    AllFragmentsStep(trs, st, num, last);
    assert trs[..last + 1] == trs;
    if f in head {
      k := AllFragmentsSource(init, st, num, f);
      assert trs[k] == init[k];
    } else {
      k := last;
    }
  }

  /** Every fragment of every triangle is in the concatenation. */
  lemma {:induction false} AllFragmentsInclude(trs: seq<Tri>, st: ShadeState, num: ShadeNumerics, k: nat, f: Fragment)
    requires k < |trs| && f in TriangleFragments(trs[k], st, num)
    ensures f in AllFragments(trs, st, num)
  {
    var last := |trs| - 1;
    var init := trs[..last];
    var head := AllFragments(init, st, num);
    var tail := TriangleFragments(trs[last], st, num);
    assert AllFragments(trs, st, num) == head + tail;
    if k < last {
      assert init[k] == trs[k];
      AllFragmentsInclude(init, st, num, k, f);
      assert f in head;
    } else {
      assert k == last;
    }
  }

  /** The framebuffer indices a fragment is written at: `as usize` of its
      integral coordinates, which takes negative values to 0. */
  function Column(f: Fragment): nat { SaturateUsize(f.x) }
  function Row(f: Fragment): nat { SaturateUsize(f.y) }

  predicate OnScreen(f: Fragment, width: nat, height: nat) {
    Column(f) < width && Row(f) < height
  }

  /** The calls `render` makes for a fragment list: for every fragment
      whose indices are on screen, its colour becomes current and then the
      point is drawn. */
  function WriteEvents(fs: seq<Fragment>, width: nat, height: nat): seq<Event> {
    if fs == [] then []
    else
      var f := fs[|fs| - 1];
      WriteEvents(fs[..|fs| - 1], width, height)
        + if OnScreen(f, width, height) then [ColorSet(f.color), PointDrawn(Column(f), Row(f), f.depth)] else []
  }

  /** The fragments that reach the framebuffer, in order. */
  function OnScreenFragments(fs: seq<Fragment>, width: nat, height: nat): (r: seq<Fragment>)
    ensures forall f <- r :: f in fs && OnScreen(f, width, height)
    ensures forall f <- fs :: OnScreen(f, width, height) ==> f in r
  {
    if fs == [] then []
    else
      var f := fs[|fs| - 1];
      OnScreenFragments(fs[..|fs| - 1], width, height) + if OnScreen(f, width, height) then [f] else []
  }

  /** Two calls per on-screen fragment, in fragment order: its colour, then
      its point. */
  lemma {:induction false} WriteEventsShape(fs: seq<Fragment>, width: nat, height: nat)
    ensures var vis := OnScreenFragments(fs, width, height);
      |WriteEvents(fs, width, height)| == 2 * |vis| &&
      forall k :: 0 <= k < |vis| ==>
        WriteEvents(fs, width, height)[2 * k] == ColorSet(vis[k].color) &&
        WriteEvents(fs, width, height)[2 * k + 1] == PointDrawn(Column(vis[k]), Row(vis[k]), vis[k].depth)
  {
    if fs != [] {
      var init := fs[..|fs| - 1];
      var f := fs[|fs| - 1];
      var events, vis := WriteEvents(init, width, height), OnScreenFragments(init, width, height);
      WriteEventsShape(init, width, height);
      if OnScreen(f, width, height) {
        var pair := [ColorSet(f.color), PointDrawn(Column(f), Row(f), f.depth)];
        assert WriteEvents(fs, width, height) == events + pair;
        assert OnScreenFragments(fs, width, height) == vis + [f];
        forall k | 0 <= k < |vis| + 1
          ensures (events + pair)[2 * k] == ColorSet((vis + [f])[k].color)
          ensures (events + pair)[2 * k + 1] == PointDrawn(Column((vis + [f])[k]), Row((vis + [f])[k]), (vis + [f])[k].depth)
        {
          if k < |vis| {
            assert (vis + [f])[k] == vis[k];
          } else {
            assert 2 * k == |events|;
          }
        }
      } else {
        assert WriteEvents(fs, width, height) == events;
        assert OnScreenFragments(fs, width, height) == vis;
      }
    }
  }

  /** A fragment left of the screen (or above it) is drawn in column 0 (or
      row 0), because `as usize` saturates. */
  lemma NegativeColumnDrawnAtZero(fs: seq<Fragment>, width: nat, height: nat, f: Fragment)
    requires f in fs && f.x < 0 && 0 < width && Row(f) < height
    ensures PointDrawn(0, Row(f), f.depth) in WriteEvents(fs, width, height)
  {
    WriteEventsShape(fs, width, height);
    var vis := OnScreenFragments(fs, width, height);
    var k :| 0 <= k < |vis| && vis[k] == f;
    assert WriteEvents(fs, width, height)[2 * k + 1] == PointDrawn(0, Row(f), f.depth);
  }

  lemma TransformAllStep(vs: seq<Vertex>, u: Uniforms, i: int)
    requires Divisible(vs, u) && 0 <= i < |vs|
    ensures TransformAll(vs[..i + 1], u) == TransformAll(vs[..i], u) + [VertexShader(vs[i], u)]
  {
    assert vs[..i + 1][..i] == vs[..i];
  }

  lemma GroupExtend(ts: seq<Vertex>, k: nat)
    requires 3 * k + 3 <= |ts|
    ensures Group(ts, k + 1) == Group(ts, k) + [Tri(ts[3 * k], ts[3 * k + 1], ts[3 * k + 2])]
  {
  }

  lemma AllFragmentsStep(trs: seq<Tri>, st: ShadeState, num: ShadeNumerics, k: int)
    requires 0 <= k < |trs|
    ensures AllFragments(trs[..k + 1], st, num) == AllFragments(trs[..k], st, num) + TriangleFragments(trs[k], st, num)
  {
    assert trs[..k + 1][..k] == trs[..k];
  }

  lemma WriteEventsStep(fs: seq<Fragment>, width: nat, height: nat, j: int)
    requires 0 <= j < |fs|
    ensures WriteEvents(fs[..j + 1], width, height) == WriteEvents(fs[..j], width, height)
      + if OnScreen(fs[j], width, height) then [ColorSet(fs[j].color), PointDrawn(Column(fs[j]), Row(fs[j]), fs[j].depth)] else []
  {
    assert fs[..j + 1][..j] == fs[..j];
  }

  /** `render`. */
  method Render(fb: Framebuffer, g: ShaderGlobals, num: ShadeNumerics, u: Uniforms, vertices: seq<Vertex>)
    requires Divisible(vertices, u)
    modifies fb, fb.zbuffer
    ensures fb.events == old(fb.events)
      + WriteEvents(AllFragments(Triangles(TransformAll(vertices, u)), g.State(), num), fb.width, fb.height)
  {
    var transformed := TransformVertices(vertices, u);
    var triangles := AssembleTriangles(transformed);
    var fragments := RasterizeAll(triangles, g, num);
    WriteFragments(fb, fragments);
  }

  /** The vertex loop of `render`: the vertex stage applied to each vertex in order. */
  method TransformVertices(vertices: seq<Vertex>, u: Uniforms) returns (transformed: seq<Vertex>)
    requires Divisible(vertices, u)
    ensures transformed == TransformAll(vertices, u)
  {
    transformed := [];
    var i := 0;
    while i < |vertices|
      invariant 0 <= i <= |vertices|
      invariant transformed == TransformAll(vertices[..i], u)
    {
      TransformAllStep(vertices, u, i);
      transformed := transformed + [VertexShader(vertices[i], u)];
      i := i + 1;
    }
    assert vertices[..i] == vertices;
  }

  /** The grouping loop of `render`: steps of three, a triangle whenever
      index + 2 is still in range. */
  method AssembleTriangles(transformed: seq<Vertex>) returns (triangles: seq<Tri>)
    ensures triangles == Triangles(transformed)
  {
    triangles := [];
    var n := |transformed|;
    var i := 0;
    while i < n
      invariant 0 <= i && 3 * |triangles| <= n
      invariant i == 3 * |triangles| || (3 * |triangles| < n <= 3 * |triangles| + 2 && i == 3 * |triangles| + 3)
      invariant triangles == Group(transformed, |triangles|)
    {
      if i + 2 < n {
        GroupExtend(transformed, |triangles|);
        triangles := triangles + [Tri(transformed[i], transformed[i + 1], transformed[i + 2])];
      }
      i := i + 3;
    }
  }

  /** The rasterization loop of `render`: each triangle's fragments appended in turn. */
  method RasterizeAll(triangles: seq<Tri>, g: ShaderGlobals, num: ShadeNumerics) returns (fragments: seq<Fragment>)
    ensures fragments == AllFragments(triangles, g.State(), num)
  {
    fragments := [];
    var k := 0;
    while k < |triangles|
      invariant 0 <= k <= |triangles|
      invariant fragments == AllFragments(triangles[..k], g.State(), num)
    {
      AllFragmentsStep(triangles, g.State(), num, k);
      var tri := triangles[k];
      var produced := Triangle(tri.v1, tri.v2, tri.v3, g, num);
      fragments := fragments + produced;
      k := k + 1;
    }
    assert triangles[..k] == triangles;
  }

  /** The last loop of `render`: each on-screen fragment sets its colour as
      current and then draws its point. */
  method WriteFragments(fb: Framebuffer, fragments: seq<Fragment>)
    modifies fb, fb.zbuffer
    ensures fb.events == old(fb.events) + WriteEvents(fragments, fb.width, fb.height)
  {
    var j := 0;
    while j < |fragments|
      invariant 0 <= j <= |fragments|
      invariant fb.events == old(fb.events) + WriteEvents(fragments[..j], fb.width, fb.height)
    {
      WriteEventsStep(fragments, fb.width, fb.height, j);
      ghost var written := fb.events;
      var fragment := fragments[j];
      var x := SaturateUsize(fragment.x);
      var y := SaturateUsize(fragment.y);
      if x < fb.width && y < fb.height {
        fb.SetCurrentColor(fragment.color);
        fb.Point(x, y, fragment.depth);
        assert fb.events == written + [ColorSet(fragment.color), PointDrawn(Column(fragment), Row(fragment), fragment.depth)];
      }
      j := j + 1;
    }
    assert fragments[..j] == fragments;
  }

  // ---- render_camera_ship ----

  const DEFAULT_SCALE: real := 4.5

  /** The model matrix of the ship: the default translation moved by
      (70, 80, -220), scale 4.5 * 0.26, a quarter turn about each axis. */
  function CameraShipMatrix(trig: Trig, defaultTranslation: Vec3): (r: Mat4)
    ensures IsAffine(r)
  {
    var halfPi := PI / 2.0;
    CreateModelMatrix(trig, Add(defaultTranslation, Vec3(70.0, 80.0, -220.0)), DEFAULT_SCALE * 0.26,
      Vec3(halfPi, halfPi, halfPi))
  }

  /** `render_camera_ship`. The light setters it calls are not part of this
      model. `cleared` is the depth buffer as the ship's render pass finds
      it: every cell +infinity. */
  method RenderCameraShip(fb: Framebuffer, g: ShaderGlobals, trig: Trig, num: ShadeNumerics,
                          ship: seq<Vertex>, defaultTranslation: Vec3)
    returns (ghost cleared: seq<Depth>)
    modifies fb, fb.zbuffer, g
    ensures |cleared| == fb.zbuffer.Length && forall d <- cleared :: d == Infinity
    ensures g.State() == old(g.State())
    ensures fb.events == old(fb.events) + [DepthCleared]
      + WriteEvents(
          AllFragments(Triangles(TransformAll(ship, Uniforms(CameraShipMatrix(trig, defaultTranslation)))),
                       ShadeState(8, g.noiseSeed), num),
          fb.width, fb.height)
  {
    var previous := g.GetShaderIndex();
    g.SetShaderIndex(8);
    ghost var during := g.State();
    assert during == ShadeState(8, old(g.noiseSeed));

    var i := 0;
    while i < fb.zbuffer.Length
      modifies fb.zbuffer
      invariant 0 <= i <= fb.zbuffer.Length
      invariant forall j :: 0 <= j < i ==> fb.zbuffer[j] == Infinity
      invariant g.State() == during && fb.events == old(fb.events)
    {
      fb.zbuffer[i] := Infinity;
      i := i + 1;
    }
    cleared := fb.zbuffer[..];
    // The trace marks the point where the reset loop ends and drawing begins.
    fb.events := fb.events + [DepthCleared];

    var modelMatrix := CameraShipMatrix(trig, defaultTranslation);
    var uniforms := Uniforms(modelMatrix);
    ghost var beforeDraw := fb.events;
    Render(fb, g, num, uniforms, ship);
    assert g.State() == during;
    assert fb.events == beforeDraw + WriteEvents(AllFragments(Triangles(TransformAll(ship, uniforms)), during, num), fb.width, fb.height);

    g.SetShaderIndex(previous);
  }

  /** Index 8, which `render_camera_ship` selects, shades with the gas
      variant: a triangle gives the same fragments as under index 0. */
  lemma CameraShipShadesGas(t: Tri, seed: u32, num: ShadeNumerics)
    ensures TriangleFragments(t, ShadeState(8, seed), num) == TriangleFragments(t, ShadeState(0, seed), num)
  {
    var box := TriangleBox(t);
    var p, q := Pixels(t, ShadeState(8, seed), num), Pixels(t, ShadeState(0, seed), num);
    forall x: int, y: int
      ensures p(x, y) == q(x, y)
    {
      PixelSameShade(t, seed, num, x, y);
    }
    GridFragmentsAgree(p, q, box, box.maxY + 1);
  }

  lemma PixelSameShade(t: Tri, seed: u32, num: ShadeNumerics, x: int, y: int)
    ensures PixelFragment(t, ShadeState(8, seed), num, x, y) == PixelFragment(t, ShadeState(0, seed), num, x, y)
  {
    var w := PixelWeights(t, x, y);
    if w.Some? && InRange(w.value) {
      var ww := w.value;
      var interpPos := Interpolate(t.v1.position, t.v2.position, t.v3.position, ww);
      var interpNorm := num.normalize(Interpolate(t.v1.transformedNormal, t.v2.transformedNormal, t.v3.transformedNormal, ww));
      ShadeFallback(8, seed, seed, num.layers, interpPos, interpNorm);
    }
  }
}
