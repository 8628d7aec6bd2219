/**
 * The vertex type the backend shares with nuklear, and the layout
 * descriptor that tells nuklear's converter where each attribute lives
 * inside one vertex (src/lib.rs:8-13, 28-32, 99-102).
 */
module Layout {

  /** nuklear's `NkVec2`: two 32-bit floats, kept here as exact reals. */
  datatype Vec2 = Vec2(x: real, y: real)

  /** Four unsigned bytes of colour. */
  datatype Rgba = Rgba(r: bv8, g: bv8, b: bv8, a: bv8)

  datatype Vertex = Vertex(pos: Vec2, tex: Vec2, col: Rgba)

  /** `Vertex::default()`: the all-zero bit pattern. */
  const ZERO_VERTEX: Vertex := Vertex(Vec2(0.0, 0.0), Vec2(0.0, 0.0), Rgba(0, 0, 0, 0))

  /** Byte sizes of the fields: two f32, two f32, four u8. */
  const VEC2_SIZE: nat := 8
  const RGBA_SIZE: nat := 4

  /** `size_of::<Vertex>()`: the fields are packed in declaration order with 4-byte alignment. */
  const VERTEX_SIZE: nat := 20

  /** Byte offset of each field inside a vertex, in declaration order. */
  function FieldOffset(a: Attribute): nat
  {
    match a
    case Position => 0
    case TexCoord => VEC2_SIZE
    case Color => 2 * VEC2_SIZE
    case AttributeCount => VERTEX_SIZE
  }

  /** Byte size of the field that carries an attribute. */
  function FieldSize(a: Attribute): nat
  {
    match a
    case Position => VEC2_SIZE
    case TexCoord => VEC2_SIZE
    case Color => RGBA_SIZE
    case AttributeCount => 0
  }

  datatype Attribute = Position | TexCoord | Color | AttributeCount
  datatype Format = FormatFloat | R8G8B8A8 | FormatCount

  /** One `(attribute, format, offset)` triple of nuklear's vertex layout. */
  datatype LayoutElement = LayoutElement(attribute: Attribute, format: Format, offset: nat)

  /** The descriptor built in `Drawer::new`; the last triple is nuklear's end marker. */
  const VERTEX_LAYOUT: seq<LayoutElement> := [
    LayoutElement(Position, FormatFloat, 0),
    LayoutElement(TexCoord, FormatFloat, 8),
    LayoutElement(Color, R8G8B8A8, 16),
    LayoutElement(AttributeCount, FormatCount, 32)
  ]

  /** How many bytes the converter writes for an attribute in a format. */
  function AttributeBytes(a: Attribute, f: Format): nat
  {
    match f
    case FormatFloat => (if a == Color then 4 else 2) * 4
    case R8G8B8A8 => 4
    case FormatCount => 0
  }

  /**
   * The descriptor agrees with the vertex type: every attribute before the
   * end marker is at its field's offset with its field's size, the attributes
   * follow one another without gaps or overlap, and the last one ends
   * exactly at the vertex stride.
   */
  lemma LayoutMatchesVertex()
    ensures |VERTEX_LAYOUT| == 4 && VERTEX_LAYOUT[3].attribute == AttributeCount
    ensures forall i :: 0 <= i < 3 ==>
      var e := VERTEX_LAYOUT[i];
      e.offset == FieldOffset(e.attribute) && AttributeBytes(e.attribute, e.format) == FieldSize(e.attribute)
    ensures forall i :: 0 <= i < 2 ==>
      VERTEX_LAYOUT[i].offset + FieldSize(VERTEX_LAYOUT[i].attribute) == VERTEX_LAYOUT[i + 1].offset
    ensures VERTEX_LAYOUT[2].offset + FieldSize(VERTEX_LAYOUT[2].attribute) == VERTEX_SIZE
  {
  }
}
