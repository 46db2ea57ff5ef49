# Lab5Graficas rasterizer core in Dafny

A model of the CPU software rasterizer in `src/triangle.rs`, `src/shaders.rs` and `src/main.rs`, with proofs about that model.

It covers the parts of the renderer that are integer or algebraic:

- **Vertex stage.** The 4x4 model matrix is applied to each vertex, followed by the perspective division by w. The normal is multiplied by a 3x3 normal matrix.
- **Shader state and dispatch.** `CURRENT_SHADER` and `NOISE_SEED` are process-wide statics. `shade` is a dispatch table, and each procedural planet shader ends with a per-channel clamp.
- **Rasterizer.** The edge function, the barycentric weights, the bounding box, and the nested pixel walk that turns one triangle into fragments.
- **Per-frame orchestration.** This includes:
  - `create_model_matrix`;
  - `render`, which maps the vertex stage, groups vertices into triangles, concatenates the fragments and writes the on-screen ones;
  - `render_camera_ship`;
  - the 24-bit colour packing of the star skybox and the warp overlay;
  - the warp overlay's pixel loop.

Numbers:

- f32 values are exact `real`s.
- sin, cos, powf, sqrt, `normalize`, the noise layers and the trig layers of every shader are function-typed parameters. They are the `Trig`, `ShadeNumerics`, `Layers` and `WarpNumerics` values. The proofs hold for any such functions.
- Integer casts are written out:
  - float to i32 saturates (`Numeric.SaturateI32`);
  - float to usize takes negative values to 0 (`Numeric.SaturateUsize`);
  - usize to i32 wraps (`Numeric.WrapI32`);
  - a clamped float to u8 or u32 is floor (`Raster.Channel8`, `Overlay.Chan`).

The framebuffer's own code (`framebuffer.rs`) is not part of this model. `Screen.Framebuffer` keeps a trace of the three framebuffer calls the renderer makes (`set_current_color`, `point`, `set_pixel_raw`), plus the depth-buffer array. The depth-buffer reset in `render_camera_ship` is not a framebuffer call: it is a loop over the array, and the model appends a `DepthCleared` marker event to the trace after that loop.

Modules:

- `Numeric` (numeric.dfy): scalar helpers and casts.
- `Bits` (bits.dfy): u32 shifts, `|` and `&`.
- `LinAlg` (linalg.dfy): vectors, matrices, determinant, adjugate and inverse.
- `Records` (records.dfy): Color, Vertex and Fragment.
- `Shaders` (shaders.dfy).
- `Raster` (triangle.dfy).
- `Screen` (framebuffer.dfy).
- `Overlay` (overlay.dfy): star and warp colours, and the overlay loop.
- `Scene` (main.dfy): model matrix, `render`, `render_camera_ship`.

Two points where the code behaves differently from a textbook reading:

- **The normal matrix.** `Index<usize>` on an nalgebra matrix is column-major, while `Mat3::new` takes rows. So `model_mat3` is the transpose of the upper-left block, and `.transpose().try_inverse()` inverts the block itself, not its transpose. The model does exactly that (`Shaders.NormalMatrix`). `Shaders.QuarterTurnNormal` shows the consequence: for a quarter turn about z, the normal (1,0,0) becomes (0,-1,0), while the textbook inverse-transpose gives (0,1,0).
- **Negative fragment coordinates.** `as usize` saturates, so a fragment left of the screen (or above it) passes the bounds test and is drawn in column 0 (or row 0). This is `Scene.NegativeColumnDrawnAtZero`.

## Model

| member | source | states |
|---|---|---|
| Numeric.Clamp | src/triangle.rs:49-51 | `f32::clamp`: the result lies in [lo, hi]; a value in range is kept; values below or above are replaced by the nearer bound |
| Numeric.Floor | src/triangle.rs:66-67 | `floor`: the greatest integer not above v |
| Numeric.Ceil | src/triangle.rs:68-69 | `ceil`: the least integer not below v |
| Numeric.SaturateI32 | src/triangle.rs:66-69 | float-to-i32 `as`: in i32 range; unchanged in range; I32_MIN below and I32_MAX above |
| Numeric.SaturateUsize | src/main.rs:132-133 | float-to-usize `as`: unchanged when non-negative, 0 when negative (also the iteration count of an i32 range `0..n`) |
| Numeric.WrapI32 | src/main.rs:460-461 | usize-to-i32 `as`: in i32 range, congruent to the input modulo 2^32, and unchanged up to I32_MAX |
| Raster.EdgeSum | src/triangle.rs:74-84 | for every point p, E(b,c,p) + E(c,a,p) + E(a,b,p) = E(a,b,c) |
| Raster.EdgeOrientation | src/triangle.rs:82-84 | swapping two corners negates the edge function; rotating them keeps it |
| Raster.Barycentric | src/triangle.rs:74-80 | no weights exactly when the area is zero (the non-finite f32 quotients) |
| Raster.BarycentricWeights | src/triangle.rs:74-80 | each weight times the area is the signed area of the sub-triangle opposite its corner |
| Raster.WeightsSumToOne | src/triangle.rs:74-80 | with the triangle's own non-zero area as divisor, w1 + w2 + w3 = 1 at every point |
| Raster.AcceptedIffInside | src/triangle.rs:34-39 | the [0,1] range test on the three weights accepts exactly the points of the closed triangle (sub-areas sharing the sign of a non-zero area), for any point |
| Raster.BoundingBox | src/triangle.rs:65-72 | min ≤ max on both axes, and every bound is in i32 range |
| Raster.BoxEnclosesVertices | src/triangle.rs:65-72 | when no cast saturates, each of the three corners lies in [min_x, max_x] × [min_y, max_y] |
| Raster.Channel8 | src/triangle.rs:49-51 | the u8 channel is the floor of clamp(v·255, 0, 255): 0 for v ≤ 0 and 255 for v ≥ 1 |
| Raster.ShadeSample | src/triangle.rs:41-57 | the fragment stores the integer pixel index (x, y), not the sampled centre |
| Raster.PixelFragment | src/triangle.rs:31-58 | a pixel yields a fragment iff its centre's weights exist and all lie in [0,1]; the fragment is then the shaded sample with those weights |
| Raster.Triangle | src/triangle.rs:18-63 | the nested y/x loop returns exactly the row-by-row concatenation of the accepted pixels' fragments over the bounding box |
| Raster.ScanRow | src/triangle.rs:30-59 | the inner x loop for one row returns that row's accepted fragments in column order |
| Raster.TriangleSound | src/triangle.rs:29-57 | every fragment is an accepted pixel of the box, at its own integer index; the fragments are in row-major order (y, then x) |
| Raster.TriangleComplete | src/triangle.rs:29-39 | every accepted pixel of the box contributes its fragment |
| Raster.TriangleZeroArea | src/triangle.rs:26-39 | a triangle with zero area yields no fragments |
| Raster.FragmentDepth | src/triangle.rs:55 | a fragment's depth lies between the least and greatest corner z, and equals the common z when the three are equal |
| Shaders.ShaderGlobals.constructor | src/shaders.rs:7-8 | both statics start at 0 |
| Shaders.ShaderGlobals.SetShaderIndex | src/shaders.rs:10-12 | stores the index and leaves the seed alone |
| Shaders.ShaderGlobals.GetShaderIndex | src/shaders.rs:14-16 | returns the stored index |
| Shaders.ShaderGlobals.SetNoiseSeed | src/shaders.rs:18-20 | stores the seed and leaves the index alone |
| Shaders.ShaderGlobals.GetNoiseSeed | src/shaders.rs:22-24 | returns the stored seed |
| Shaders.SetGetRoundTrip | src/shaders.rs:10-24 | each getter returns the last value given to its setter, even after the other static was set |
| Shaders.ModelMat3 | src/shaders.rs:56-60 | the column-major indices laid out by rows give the transpose of the upper-left block |
| LinAlg.TryInverse | src/shaders.rs:61 | None exactly when the determinant is zero, otherwise a two-sided inverse |
| LinAlg.InverseIsTwoSided | src/shaders.rs:61 | adj(m)/det(m) times m, on either side, is the identity |
| Shaders.NormalMatrix | src/shaders.rs:56-61 | the two-sided inverse of the upper-left block when it is invertible, the identity otherwise |
| Shaders.VertexShader | src/shaders.rs:36-74 | position, normal, tex_coords and color are copied unchanged; the transformed normal is the normal matrix times the normal |
| Shaders.PerspectiveDivision | src/shaders.rs:44-52 | the transformed position scaled back by w is the x, y, z of M·(p, 1) |
| Shaders.AffineNoDivision | src/shaders.rs:44-52 | with an affine model matrix, w = 1 and the transformed position is the affine image of the position |
| Shaders.IdentityModelMatrix | src/shaders.rs:36-63 | with the identity model matrix, w = 1 and both the position and the normal come back unchanged |
| Shaders.NormalMatrixOfIdentity | src/shaders.rs:61 | the identity model matrix has the identity normal matrix |
| Shaders.QuarterTurnNormal | src/shaders.rs:56-63 | for a quarter turn about z, the code's normal matrix maps (1,0,0) to (0,-1,0), while its transpose (the inverse-transpose) maps it to (0,1,0) |
| Shaders.SeedSeen | src/shaders.rs:26-34 | only the rock, cheese, cat, bubblegum and ice variants read the noise seed |
| Shaders.Clamp01 | src/shaders.rs:146 | the closing clamp puts every channel in [0,1] and leaves a colour already there unchanged |
| Shaders.CapAt1 | src/shaders.rs:582 | the sun's closing `min(1.0)` caps every channel at 1, never raises a channel, keeps channels ≤ 1, and sets no lower bound |
| Shaders.PlanetShader | src/shaders.rs:166-221 | every variant but sun ends in [0,1]³ (lines 146, 221, 328, 388, 433, 472, 514); sun ends at most 1 per channel (line 582) |
| Shaders.SeedIndependent | src/shaders.rs:166-221 | gas, sun and the classic shader give the same colour whatever the noise seed |
| Shaders.PlanetShaderCool | src/shaders.rs:150-154 | stays in [0,1]³; red and green never rise, and blue never falls |
| Shaders.PlanetShaderWarm | src/shaders.rs:158-162 | stays in [0,1]³; red never falls, and green and blue never rise |
| Shaders.Dispatch | src/shaders.rs:518-528 | never the classic shader; every index ≥ 7 selects gas |
| Shaders.DispatchTable | src/shaders.rs:519-526 | 0..6 select gas, rock, sun, cheese, cat, bubblegum, ice; within 0..6 each variant is reached only from its own index |
| Shaders.Shade | src/shaders.rs:518-529 | the output is at most 1 per channel, and in [0,1]³ unless the index selects sun |
| Shaders.ShadeFallback | src/shaders.rs:527 | any index ≥ 7 (the 7 and 8 the main loop uses included) shades exactly as index 0, whatever the seeds |
| Scene.Rotation | src/main.rs:50-71 | the product of the three rotations has bottom row and last column (0,0,0,1) |
| Scene.CreateModelMatrix | src/main.rs:45-81 | for any angles, scale and translation: bottom row (0,0,0,1), last column the translation, every point mapped to w = 1 |
| Scene.CreateModelMatrixIdentity | src/main.rs:45-81 | zero angles, unit scale and no translation give the identity, when sin 0 = 0 and cos 0 = 1 |
| Scene.TransformAll | src/main.rs:109-113 | the transformed array has the input's length |
| Scene.TransformAllElements | src/main.rs:109-113 | element i of the transformed array is the vertex stage applied to vertex i |
| Scene.Group | src/main.rs:115-124 | k triples give k triangles |
| Scene.GroupElements | src/main.rs:115-124 | triangle j is vertices 3j, 3j+1, 3j+2 |
| Scene.TrianglesKeepPrefix | src/main.rs:115-124 | the triangles' corners, in order, are the vertices minus the trailing n mod 3 (at most 2) |
| Scene.AllFragmentsMember | src/main.rs:126-129 | a fragment is in the concatenation iff some triangle produced it |
| Scene.OnScreenFragments | src/main.rs:131-134 | the fragments kept are exactly those whose usize indices are inside width × height |
| Scene.WriteEventsShape | src/main.rs:131-139 | two calls per on-screen fragment, in fragment order: set_current_color with its colour, then point at its indices with its depth |
| Scene.NegativeColumnDrawnAtZero | src/main.rs:132-137 | a fragment with negative x and an on-screen row is drawn in column 0 |
| Scene.TransformVertices | src/main.rs:109-113 | the vertex loop yields the transformed array |
| Scene.AssembleTriangles | src/main.rs:115-124 | the step-by-3 loop yields one triangle per complete triple |
| Scene.RasterizeAll | src/main.rs:126-129 | the triangle loop yields every triangle's fragments, in triangle order |
| Scene.WriteFragments | src/main.rs:131-139 | the framebuffer trace grows by exactly the write calls of the on-screen fragments |
| Scene.Render | src/main.rs:108-140 | the trace grows by the write calls of all fragments of all triangles of the transformed vertices, under the current shader state |
| Scene.CameraShipMatrix | src/main.rs:430-444 | the ship's model matrix is affine, so its vertices divide by w = 1 |
| Scene.RenderCameraShip | src/main.rs:425-449 | the shader index and seed are the same on exit as on entry; the depth buffer the render pass starts from (`cleared`) has every cell +infinity; the trace is the reset marker followed by the ship drawn with shader index 8 |
| Scene.CameraShipShadesGas | src/main.rs:436 | under index 8 a triangle gives exactly the fragments it gives under index 0 (gas) |
| Screen.Framebuffer.SetCurrentColor | src/main.rs:135-136 | appends the colour-set call |
| Screen.Framebuffer.Point | src/main.rs:137 | appends the point call with its indices and depth |
| Screen.Framebuffer.SetPixelRaw | src/main.rs:482 | appends the raw pixel write |
| Bits.Shl | src/main.rs:296 | `x << k` is x·2^k when that fits in 32 bits |
| Bits.OrDisjoint | src/main.rs:296 | `|` of operands whose set bits do not overlap is their sum |
| Bits.ShrExact | src/main.rs:296 | shifting a·2^k + b right by k (with b < 2^k) gives a |
| Bits.AndLowMask | src/main.rs:296 | `& (2^k - 1)` is the remainder modulo 2^k |
| Overlay.Pack | src/main.rs:296 | `(r << 16) | (g << 8) | b` of 8-bit channels equals r·65536 + g·256 + b, which is below 2^24 |
| Overlay.Unpack | src/main.rs:296 | each channel comes back by shift and `& 0xFF` |
| Overlay.Chan | src/main.rs:293-295 | the channel is the floor of clamp(v, 0, 255): 0 for v ≤ 0 and 255 for v ≥ 255 |
| Overlay.StarChannels | src/main.rs:290-295 | a star's channels satisfy r ≤ g ≤ b, so it is white or bluish |
| Overlay.StarColor | src/main.rs:290-296 | the packed star colour is below 2^24 |
| Overlay.WarpChannels | src/main.rs:476-480 | for a non-negative glow, r ≥ 40, g ≥ 110, b ≥ 180, and r ≤ g ≤ b |
| Overlay.OverlayRowShape | src/main.rs:469-483 | one row makes width calls; call i writes pixel (i, y) with its colour |
| Overlay.OverlayRowsLength | src/main.rs:468-484 | height rows make width·height calls |
| Overlay.OverlayPixel | src/main.rs:468-484 | call y·width + x writes pixel (x, y) with its colour |
| Overlay.SetEveryPixel | src/main.rs:460-484 | the nested loop over the wrapped i32 bounds appends exactly the row-major pixel writes |
| Overlay.DrawWarpOverlay | src/main.rs:459-485 | every pixel is written with the packed warp colour of its glow, in row-major order |
| Overlay.EveryPixelOnce | src/main.rs:468-484 | on a screen whose sides fit in i32, there are width·height calls, and call y·width + x writes pixel (x, y) |

## Left out

- Window, event loop, keyboard input, timing, sleep and the warp sequencing state in `main`: UI and time-driven I/O.
- OBJ loading: file I/O.
- `random_warp_offset`: it uses a random number generator.
- `render_solar_system`: orbital and lighting maths outside the rendering core.
- `rotate_vec3`: not used by the modelled functions.
- `draw_star_skybox`'s pixel loop, its sin/fract noise and its 0.996 threshold. Only the colour of a star that passed the threshold is modelled (`Overlay.StarChannels`, `Overlay.StarColor`).
- The sin, cos, powf, acos, sqrt, fract and `normalize` numerics, `noise_seed_vec3`, and the layers inside every `planet_shader_*`. They are parameters, and only the closing clamp of each variant is stated.
- f32 rounding, NaN and infinity. Values are exact reals. The zero-area case is an explicit `None` in `Raster.Barycentric`, standing for the non-finite weights that fail the range test.
- `set_light_direction` and `set_light_intensity`, called by `render_camera_ship`: they are not part of this model.
- Atomic memory ordering: the program is single-threaded, so the two statics are plain fields of `Shaders.ShaderGlobals`.
- `framebuffer.rs`, `fragment.rs`, `color.rs`, `vertex.rs`, `line.rs` and `obj.rs` are not part of this model. In particular:
  - No depth-test rule is stated for `point`, so `Screen.Framebuffer.Point` may change the depth buffer in any way.
  - `Color::to_hex` is not modelled: the trace records the `Color` whose hex value is set.
- `_triangle`: it calls the unseen `line`.
- Scene.RenderCameraShip: the reset depth buffer is stated as it is before drawing (the ghost result `cleared`), not on exit, because `render` then calls `point`, whose effect on the depth buffer is not modelled.
- Shaders.VertexShader: requires w ≠ 0 instead of modelling the f32 infinities of a division by zero. Every caller in the source uses `create_model_matrix`, which gives w = 1 (`Scene.CreateModelMatrix`), so `Scene.Render`'s precondition holds there.
- Raster.Triangle: it reads the shader state from `Shaders.ShaderGlobals` once per triangle. `shade` reads it per pixel, but nothing changes it during a triangle.
- Scene.Render: the vertex, grouping and triangle loops are the separate methods `Scene.TransformVertices`, `Scene.AssembleTriangles` and `Scene.RasterizeAll`. The column loop of `triangle` is `Raster.ScanRow`, and the write loop is `Scene.WriteFragments`.
- Overlay.WarpChannels: states its bounds only for a non-negative glow. With the abstract streak and flare terms, the model does not establish that the source's glow is never negative.
