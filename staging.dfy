/**
 * Sizing of the host-side staging vectors and of the GPU buffers that
 * mirror them (src/lib.rs:92-97), and of the byte views the converter
 * writes through (src/lib.rs:139-146).
 */
module Staging {
  import opened Layout

  /** `size_of::<u16>()`. */
  const INDEX_SIZE: nat := 2

  /**
   * Length in bytes of the view over a staging vector of `capacity`
   * elements of `elemSize` bytes that is handed to the converter: the
   * element capacity, reused as a byte count. It never reaches past the
   * vector's true byte size. A vector built by `vec![x; n]` has capacity `n`.
   */
  function ByteView(capacity: nat, elemSize: nat): (bytes: nat)
    ensures elemSize >= 1 ==> bytes <= capacity * elemSize
  {
    capacity
  }

  /**
   * Element count of `vbf` and of the GPU vertex buffer,
   * `vbo_size * size_of::<Vertex>()`. The view over a vector this long holds
   * the bytes of exactly `vbo_size` vertices, though the vector itself
   * holds at least that many vertices.
   */
  function VertexElems(vboSize: nat): (n: nat)
    ensures ByteView(n, VERTEX_SIZE) == vboSize * VERTEX_SIZE
    ensures vboSize <= n
  {
    vboSize * VERTEX_SIZE
  }

  /**
   * Element count of `ebf` and of the GPU index buffer,
   * `ebo_size * size_of::<u16>()`. The view over a vector this long holds
   * the bytes of exactly `ebo_size` indices, though the vector itself holds
   * at least that many indices.
   */
  function IndexElems(eboSize: nat): (n: nat)
    ensures ByteView(n, INDEX_SIZE) == eboSize * INDEX_SIZE
    ensures eboSize <= n
  {
    eboSize * INDEX_SIZE
  }
}
