/** The value types the pipeline passes between stages: colours, vertices
    and fragments. Their defining files are not part of this model; the
    fields are the ones the renderer reads and writes. */
module Records {
  import opened Numeric
  import opened LinAlg

  /** An 8-bit-per-channel colour (`Color::new(r, g, b)` with u8 channels). */
  datatype Color = Color(r: u8, g: u8, b: u8)

  /** A mesh vertex: four object-space fields, and the two fields the
      vertex shader fills in. */
  datatype Vertex = Vertex(
    position: Vec3,
    normal: Vec3,
    texCoords: Vec2,
    color: Color,
    transformedPosition: Vec3,
    transformedNormal: Vec3)

  /** A shaded sample of a triangle. The position is the integer pixel
      index the rasterizer visited (stored by the source as an integral
      f32), not the pixel centre it sampled. */
  datatype Fragment = Fragment(x: int, y: int, color: Color, depth: real)
}
