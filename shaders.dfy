/** The vertex stage and the fragment-shader dispatch: the process-wide
    shader selection and noise seed, the vertex transform with its normal
    matrix, and the closing step of every procedural planet shader. The
    trig, pow and noise layers of the shaders are kept abstract. */
module Shaders {
  import opened Numeric
  import opened LinAlg
  import opened Records

  // ---- process-wide state ----

  /** What a shader reads from the process-wide state when it runs. */
  datatype ShadeState = ShadeState(shaderIndex: nat, noiseSeed: u32)

  /** `CURRENT_SHADER` and `NOISE_SEED`. The source keeps them in two
      atomics accessed with relaxed ordering from a single thread, so they
      behave as plain mutable globals. */
  class ShaderGlobals {
    var currentShader: nat
    var noiseSeed: u32

    /** Both statics start at zero. */
    constructor ()
      ensures currentShader == 0 && noiseSeed == 0
    {
      currentShader := 0;
      noiseSeed := 0;
    }

    function State(): ShadeState
      reads this
    {
      ShadeState(currentShader, noiseSeed)
    }

    method SetShaderIndex(idx: nat)
      modifies this
      ensures currentShader == idx
      ensures noiseSeed == old(noiseSeed)
    {
      currentShader := idx;
    }

    method GetShaderIndex() returns (idx: nat)
      ensures idx == currentShader
    {
      idx := currentShader;
    }

    method SetNoiseSeed(seed: u32)
      modifies this
      ensures noiseSeed == seed
      ensures currentShader == old(currentShader)
    {
      noiseSeed := seed;
    }

    method GetNoiseSeed() returns (seed: u32)
      ensures seed == noiseSeed
    {
      seed := noiseSeed;
    }
  }

  /** Each getter returns the last value given to its setter, whatever was
      set on the other global in between. */
  method SetGetRoundTrip(g: ShaderGlobals, idx: nat, seed: u32) returns (idx': nat, seed': u32)
    modifies g
    ensures idx' == idx && seed' == seed
  {
    g.SetShaderIndex(idx);
    g.SetNoiseSeed(seed);
    idx' := g.GetShaderIndex();
    seed' := g.GetNoiseSeed();
  }

  // ---- vertex stage ----

  datatype Uniforms = Uniforms(modelMatrix: Mat4)

  /** The model matrix applied to the vertex position in homogeneous
      coordinates. */
  function Transformed(m: Mat4, p: Vec3): Vec4 {
    MulVec4(m, Homogeneous(p))
  }

  function Xyz(v: Vec4): Vec3 {
    Vec3(v.x, v.y, v.z)
  }

  /** `model_mat3`: the linear indices 0,1,2 / 4,5,6 / 8,9,10 walk the
      columns of the upper-left block, and `Mat3::new` lays them out as
      rows, so the result is the transpose of that block. */
  function ModelMat3(m: Mat4): (r: Mat3)
    ensures r == Transpose(UpperLeft(m))
  {
    Mat3New(
      ColumnMajorIndex(m, 0), ColumnMajorIndex(m, 1), ColumnMajorIndex(m, 2),
      ColumnMajorIndex(m, 4), ColumnMajorIndex(m, 5), ColumnMajorIndex(m, 6),
      ColumnMajorIndex(m, 8), ColumnMajorIndex(m, 9), ColumnMajorIndex(m, 10))
  }

  /** `model_mat3.transpose().try_inverse().unwrap_or(identity)`: the two
      transposes cancel, so this is the inverse of the upper-left block
      itself when that block is invertible, and the identity otherwise. */
  function NormalMatrix(m: Mat4): (r: Mat3)
    ensures Det(UpperLeft(m)) != 0.0 ==> Mul(UpperLeft(m), r) == Identity3 && Mul(r, UpperLeft(m)) == Identity3
    ensures Det(UpperLeft(m)) == 0.0 ==> r == Identity3
  {
    TransposeInvolutive(UpperLeft(m));
    match TryInverse(Transpose(ModelMat3(m)))
    case Some(inv) => inv
    case None => Identity3
  }

  /** `vertex_shader`. The perspective division needs w != 0; the f32
      infinities and NaNs a zero w would produce are not modelled. */
  function VertexShader(v: Vertex, u: Uniforms): (r: Vertex)
    requires Transformed(u.modelMatrix, v.position).w != 0.0
    ensures r.position == v.position && r.normal == v.normal
    ensures r.texCoords == v.texCoords && r.color == v.color
    ensures r.transformedNormal == MulVec(NormalMatrix(u.modelMatrix), v.normal)
  {
    var t := Transformed(u.modelMatrix, v.position);
    var w := t.w;
    var transformedPosition := Vec3(t.x / w, t.y / w, t.z / w);
    var transformedNormal := MulVec(NormalMatrix(u.modelMatrix), v.normal);
    Vertex(v.position, v.normal, v.texCoords, v.color, transformedPosition, transformedNormal)
  }

  /** The transformed position is the homogeneous image divided by its w:
      scaling it back by w gives the image's x, y and z. */
  lemma PerspectiveDivision(v: Vertex, u: Uniforms)
    requires Transformed(u.modelMatrix, v.position).w != 0.0
    ensures Scale(VertexShader(v, u).transformedPosition, Transformed(u.modelMatrix, v.position).w)
         == Xyz(Transformed(u.modelMatrix, v.position))
  {
    ScaleUndoesDivision(Transformed(u.modelMatrix, v.position));
  }

  lemma ScaleUndoesDivision(t: Vec4)
    requires t.w != 0.0
    ensures Scale(Vec3(t.x / t.w, t.y / t.w, t.z / t.w), t.w) == Xyz(t)
  {
    DivTimes(t.x, t.w);
    DivTimes(t.y, t.w);
    DivTimes(t.z, t.w);
  }

  /** An affine model matrix leaves w at 1, so the division changes
      nothing and the transformed position is the affine image of the
      position. */
  lemma {:induction false} AffineNoDivision(v: Vertex, u: Uniforms)
    requires IsAffine(u.modelMatrix)
    ensures Transformed(u.modelMatrix, v.position).w == 1.0
    ensures VertexShader(v, u).transformedPosition == Xyz(Transformed(u.modelMatrix, v.position))
  {
    var t := Transformed(u.modelMatrix, v.position);
    assert t.w == Dot4(AffineBottom, Homogeneous(v.position)) == 1.0;
  }

  lemma MulIdentityLeft(m: Mat3)
    ensures Mul(Identity3, m) == m
  {
  }

  lemma MulVecIdentity(n: Vec3)
    ensures MulVec(Identity3, n) == n
  {
  }

  /** The two transposes cancel: the normal matrix is the inverse of the
      linear block, or the identity. */
  lemma NormalMatrixOfBlock(m: Mat4)
    ensures NormalMatrix(m) == match TryInverse(UpperLeft(m)) case Some(inv) => inv case None => Identity3
  {
    TransposeInvolutive(UpperLeft(m));
  }

  lemma {:induction false} TryInverseIdentity(b: Mat3)
    requires b == Identity3
    ensures TryInverse(b) == Some(Identity3)
  {
    assert Det(b) == 1.0;
    var r := TryInverse(b);
    assert Mul(b, r.value) == Identity3;
    MulIdentityLeft(r.value);
  }

  lemma IdentityBlock(m: Mat4)
    requires m == Identity4
    ensures UpperLeft(m) == Identity3 && IsAffine(m)
  {
  }

  lemma IdentityImage(m: Mat4, p: Vec3)
    requires m == Identity4
    ensures Xyz(Transformed(m, p)) == p
  {
  }

  /** The identity model matrix has the identity as its normal matrix. */
  lemma {:induction false} NormalMatrixOfIdentity(m: Mat4)
    requires m == Identity4
    ensures NormalMatrix(m) == Identity3
  {
    IdentityBlock(m);
    NormalMatrixOfBlock(m);
    TryInverseIdentity(UpperLeft(m));
  }

  /** With the identity model matrix the shader hands back the position
      and the normal unchanged. */
  lemma {:induction false} IdentityModelMatrix(v: Vertex, u: Uniforms)
    requires u.modelMatrix == Identity4
    ensures Transformed(u.modelMatrix, v.position).w == 1.0
    ensures VertexShader(v, u).transformedPosition == v.position
    ensures VertexShader(v, u).transformedNormal == v.normal
  {
    IdentityBlock(u.modelMatrix);
    AffineNoDivision(v, u);
    IdentityImage(u.modelMatrix, v.position);
    NormalMatrixOfIdentity(u.modelMatrix);
    MulVecIdentity(v.normal);
  }

  /** The 3x3 quarter turn about z, as rows. */
  predicate IsQuarterTurnBlock(b: Mat3) {
    b == Mat3(Vec3(0.0, -1.0, 0.0), Vec3(1.0, 0.0, 0.0), Vec3(0.0, 0.0, 1.0))
  }

  lemma QuarterTurnAdjugate()
    ensures Adjugate(Mat3(Vec3(0.0, -1.0, 0.0), Vec3(1.0, 0.0, 0.0), Vec3(0.0, 0.0, 1.0)))
         == Mat3(Vec3(0.0, 1.0, 0.0), Vec3(-1.0, 0.0, 0.0), Vec3(0.0, 0.0, 1.0))
  {
  }

  lemma QuarterTurnDet(b: Mat3)
    requires IsQuarterTurnBlock(b)
    ensures Det(b) == 1.0
  {
  }

  lemma {:induction false} TryInverseQuarterTurn(b: Mat3)
    requires IsQuarterTurnBlock(b)
    ensures TryInverse(b) == Some(Mat3(Vec3(0.0, 1.0, 0.0), Vec3(-1.0, 0.0, 0.0), Vec3(0.0, 0.0, 1.0)))
  {
    QuarterTurnDet(b);
    TryInverseUnitDet(b);
    QuarterTurnAdjugate();
  }

  /** The normal matrix of a model matrix whose linear part is a quarter
      turn about z. */
  lemma {:induction false} NormalMatrixOfQuarterTurn(m: Mat4)
    requires IsQuarterTurnBlock(UpperLeft(m))
    ensures NormalMatrix(m) == Mat3(Vec3(0.0, 1.0, 0.0), Vec3(-1.0, 0.0, 0.0), Vec3(0.0, 0.0, 1.0))
  {
    NormalMatrixOfBlock(m);
    TryInverseQuarterTurn(UpperLeft(m));
  }

  /** For a quarter turn about z the code maps the normal (1,0,0) to
      (0,-1,0): it applies the inverse of the linear block, which for a
      rotation turns normals the opposite way. The textbook normal matrix
      (the inverse-transpose) maps it to (0,1,0). */
  lemma {:induction false} QuarterTurnNormal(m: Mat4)
    requires IsQuarterTurnBlock(UpperLeft(m))
    ensures MulVec(NormalMatrix(m), Vec3(1.0, 0.0, 0.0)) == Vec3(0.0, -1.0, 0.0)
    ensures MulVec(Transpose(NormalMatrix(m)), Vec3(1.0, 0.0, 0.0)) == Vec3(0.0, 1.0, 0.0)
  {
    NormalMatrixOfQuarterTurn(m);
  }

  // ---- fragment shaders ----

  /** The procedural planet shaders: the seven `shade` dispatches to and
      the classic `planet_shader` that the cool and warm palettes build on. */
  datatype Variant = Gas | Rock | Sun | Cheese | Cat | Bubblegum | Ice | Classic

  /** The variants that read the noise seed (through `noise_seed_vec3`). */
  predicate Seeded(v: Variant) {
    v == Rock || v == Cheese || v == Cat || v == Bubblegum || v == Ice
  }

  /** The colour a shader variant has computed just before its closing
      step, from the noise seed (for the variants that read it), the
      position and the normal: the trig, pow and noise layers, kept
      abstract. */
  type Layers = (Variant, Option<u32>, Vec3, Vec3) -> Vec3

  /** The seed a variant's layers see. */
  function SeedSeen(v: Variant, seed: u32): (r: Option<u32>)
    ensures r.Some? <==> Seeded(v)
    ensures r.Some? ==> r.value == seed
  {
    if Seeded(v) then Some(seed) else None
  }

  predicate InUnitCube(c: Vec3) {
    0.0 <= c.x <= 1.0 && 0.0 <= c.y <= 1.0 && 0.0 <= c.z <= 1.0
  }

  /** The per-channel `clamp(0.0, 1.0)` that ends every variant but sun. */
  function Clamp01(c: Vec3): (r: Vec3)
    ensures InUnitCube(r)
    ensures InUnitCube(c) ==> r == c
  {
    Vec3(Clamp(c.x, 0.0, 1.0), Clamp(c.y, 0.0, 1.0), Clamp(c.z, 0.0, 1.0))
  }

  /** The per-channel `min(1.0)` that ends the sun shader: no lower bound. */
  function CapAt1(c: Vec3): (r: Vec3)
    ensures r.x <= 1.0 && r.y <= 1.0 && r.z <= 1.0
    ensures r.x <= c.x && r.y <= c.y && r.z <= c.z
    ensures c.x <= 1.0 ==> r.x == c.x
    ensures c.y <= 1.0 ==> r.y == c.y
    ensures c.z <= 1.0 ==> r.z == c.z
  {
    Vec3(Min(c.x, 1.0), Min(c.y, 1.0), Min(c.z, 1.0))
  }

  /** `planet_shader_*(pos, normal)`: the abstract layers followed by the
      variant's closing step. */
  function PlanetShader(v: Variant, seed: u32, layers: Layers, pos: Vec3, normal: Vec3): (c: Vec3)
    ensures v != Sun ==> InUnitCube(c)
    ensures v == Sun ==> c.x <= 1.0 && c.y <= 1.0 && c.z <= 1.0
  {
    var raw := layers(v, SeedSeen(v, seed), pos, normal);
    if v == Sun then CapAt1(raw) else Clamp01(raw)
  }

  /** Gas, sun and the classic shader never read the noise seed. */
  lemma SeedIndependent(v: Variant, s1: u32, s2: u32, layers: Layers, pos: Vec3, normal: Vec3)
    requires !Seeded(v)
    ensures PlanetShader(v, s1, layers, pos, normal) == PlanetShader(v, s2, layers, pos, normal)
  {
  }

  /** `planet_shader_cool`: damps red and green, boosts blue capped at 1. */
  function PlanetShaderCool(seed: u32, layers: Layers, pos: Vec3, normal: Vec3): (r: Vec3)
    ensures InUnitCube(r)
    ensures var c := PlanetShader(Classic, seed, layers, pos, normal);
            r.x <= c.x && r.y <= c.y && c.z <= r.z
  {
    var c := PlanetShader(Classic, seed, layers, pos, normal);
    Vec3(c.x * 0.6, c.y * 0.9, Min(c.z * 1.1, 1.0))
  }

  /** `planet_shader_warm`: boosts red capped at 1, damps green and blue. */
  function PlanetShaderWarm(seed: u32, layers: Layers, pos: Vec3, normal: Vec3): (r: Vec3)
    ensures InUnitCube(r)
    ensures var c := PlanetShader(Classic, seed, layers, pos, normal);
            c.x <= r.x && r.y <= c.y && r.z <= c.z
  {
    var c := PlanetShader(Classic, seed, layers, pos, normal);
    Vec3(Min(c.x * 1.1, 1.0), Min(c.y * 0.9, 1.0), c.z * 0.6)
  }

  /** The `match` in `shade`. */
  function Dispatch(idx: nat): (v: Variant)
    ensures v != Classic
    ensures 7 <= idx ==> v == Gas
  {
    match idx
    case 0 => Gas
    case 1 => Rock
    case 2 => Sun
    case 3 => Cheese
    case 4 => Cat
    case 5 => Bubblegum
    case 6 => Ice
    case _ => Gas
  }

  /** The index `shade` selects each dispatchable variant under. */
  function IndexOf(v: Variant): (idx: nat)
    requires v != Classic
    ensures idx < 7
  {
    match v
    case Gas => 0
    case Rock => 1
    case Sun => 2
    case Cheese => 3
    case Cat => 4
    case Bubblegum => 5
    case Ice => 6
  }

  /** The table is complete: every variant but the classic one is reached,
      and only from its own index among 0..6. */
  lemma DispatchTable(v: Variant, idx: nat)
    requires v != Classic
    ensures Dispatch(IndexOf(v)) == v
    ensures idx < 7 ==> (Dispatch(idx) == v <==> idx == IndexOf(v))
  {
  }

  /** `shade(pos, normal)`: the variant the current index selects, with the
      current noise seed. */
  function Shade(st: ShadeState, layers: Layers, pos: Vec3, normal: Vec3): (c: Vec3)
    ensures Dispatch(st.shaderIndex) != Sun ==> InUnitCube(c)
    ensures c.x <= 1.0 && c.y <= 1.0 && c.z <= 1.0
  {
    PlanetShader(Dispatch(st.shaderIndex), st.noiseSeed, layers, pos, normal)
  }

  /** Any index past the table (the 7 and 8 the main loop selects included)
      shades exactly like index 0, whatever the seeds. */
  lemma {:induction false} ShadeFallback(idx: nat, s1: u32, s2: u32, layers: Layers, pos: Vec3, normal: Vec3)
    requires 7 <= idx
    ensures Shade(ShadeState(idx, s1), layers, pos, normal) == Shade(ShadeState(0, s2), layers, pos, normal)
    ensures Shade(ShadeState(idx, s1), layers, pos, normal) == PlanetShader(Gas, s1, layers, pos, normal)
  {
    SeedIndependent(Gas, s1, s2, layers, pos, normal);
  }
}
