/**
 * `Drawer` (src/lib.rs:63-215): the texture registry, the staging vectors
 * and the lengths of the GPU buffers that mirror them. Shader programs, the
 * nuklear command buffer and the GPU buffers' contents are not modelled.
 */
module Renderer {
  import opened Wrappers
  import opened Layout
  import opened Staging
  import opened Registry
  import opened Scissoring
  import opened Frame

  class Drawer {
    /** `tex`: the registry, append-only. */
    var tex: seq<Entry>
    /** `vbf`, `ebf`: the staging vectors the converter writes into. */
    const vbf: array<Vertex>
    const ebf: array<bv16>
    /** Lengths, in elements, of the GPU vertex and index buffers `vbo`, `ebo`. */
    const vboLen: nat
    const eboLen: nat

    /**
     * Each GPU buffer is exactly as long as its staging vector, so the
     * full-capacity uploads `slice_mut(0..capacity).write(&vec)` of
     * src/lib.rs:152-153 are in range and as long as the data written.
     */
    ghost predicate Valid()
      reads this
    {
      vbf.Length == vboLen && ebf.Length == eboLen
    }

    /**
     * `Drawer::new`: an empty registry, zeroed staging vectors and GPU
     * buffers of `vbo_size * size_of::<Vertex>()` vertices and
     * `ebo_size * size_of::<u16>()` indices. `texture_count` only reserves
     * room in the registry.
     */
    constructor (textureCount: nat, vboSize: nat, eboSize: nat)
      ensures Valid() && tex == []
      ensures fresh(vbf) && fresh(ebf)
      ensures vbf.Length == VertexElems(vboSize) && ebf.Length == IndexElems(eboSize)
      ensures ByteView(vbf.Length, VERTEX_SIZE) == vboSize * VERTEX_SIZE <= vbf.Length * VERTEX_SIZE
      ensures ByteView(ebf.Length, INDEX_SIZE) == eboSize * INDEX_SIZE <= ebf.Length * INDEX_SIZE
      ensures forall i :: 0 <= i < vbf.Length ==> vbf[i] == ZERO_VERTEX
      ensures forall i :: 0 <= i < ebf.Length ==> ebf[i] == 0
    {
      tex := [];
      vbf := new Vertex[VertexElems(vboSize)](_ => ZERO_VERTEX);
      ebf := new bv16[IndexElems(eboSize)](_ => 0);
      vboLen := VertexElems(vboSize);
      eboLen := IndexElems(eboSize);
    }

    /**
     * `add_texture`, given the GPU texture already created from the image:
     * appends one entry, leaves the earlier ones as they were, and returns
     * the handle `len as i32 + 1`, which resolves to the new entry while the
     * registry is below the i32 limit.
     */
    method AddTexture(texture: GpuTexture, samplerOpts: Option<SamplerPolicy>) returns (hnd: int)
      modifies this
      ensures tex == old(tex) + [Entry(texture, samplerOpts)]
      ensures hnd == NextHandle(|old(tex)|)
      ensures |old(tex)| < I32_MAX ==>
        hnd == |old(tex)| + 1 && FindTexEntry(tex, hnd) == Some(Entry(texture, samplerOpts))
      ensures forall id :: FindTexEntry(old(tex), id).Some? ==> FindTexEntry(tex, id) == FindTexEntry(old(tex), id)
    {
      hnd := NextHandle(|tex|);
      if |tex| < I32_MAX {
        AddThenFind(tex, texture, samplerOpts);
      }
      tex := tex + [Entry(texture, samplerOpts)];
    }

    /**
     * The command loop of `draw`: the frame issued for the command list
     * nuklear produced, with the cursor `idx_start` starting at 0. The
     * registry is only read.
     */
    method Draw(cmds: seq<Command>, scale: Scale, height: nat) returns (r: FrameResult)
      ensures r == Run(cmds, tex, FrameParams(scale, height, eboLen), 0)
    {
      var p := FrameParams(scale, height, eboLen);
      var idxStart: nat := 0;
      var draws: seq<DrawRecord> := [];
      var i := 0;
      while i < |cmds|
        invariant 0 <= i <= |cmds|
        invariant idxStart == SumCounts(cmds[..i])
        invariant Run(cmds, tex, p, 0) == Then(draws, Run(cmds[i..], tex, p, idxStart))
      {
        var cmd := cmds[i];
        assert cmds[..i + 1] == cmds[..i] + [cmd];
        SumCountsAppend(cmds[..i], [cmd]);
        RunStep(cmds, i, tex, p, idxStart);
        if cmd.elemCount < 1 {
          i := i + 1;
          continue;
        }
        if cmd.texture.None? {
          return FrameResult(draws, Some(MissingTextureId));
        }
        var id := cmd.texture.value;
        var entry := FindTexEntry(tex, id);
        if entry.None? {
          return FrameResult(draws, Some(UnknownTexture(id)));
        }
        var idxEnd := idxStart + cmd.elemCount;
        var sampler := SamplerFor(entry.value);
        var scissor := ScissorAsWritten(cmd.clip, scale, height);
        if idxEnd > eboLen {
          return FrameResult(draws, Some(IndexRangeOutOfBounds(idxStart, idxEnd)));
        }
        var d := DrawRecord(idxStart, idxEnd, id - 1, sampler, scissor);
        var rest := Run(cmds[i + 1..], tex, p, idxEnd).draws;
        assert Dispatch(cmd, tex, p, idxStart) == Issue(d);
        assert draws + ([d] + rest) == (draws + [d]) + rest;
        draws := draws + [d];
        idxStart := idxEnd;
        i := i + 1;
      }
      r := FrameResult(draws, None);
    }
  }

  /**
   * nuklear can write at most `ebo_size` indices through the index view of
   * a drawer, and its GPU index buffer holds `ebo_size * 2`: as long as the
   * commands' element counts stay within what the view can hold, no index
   * range is out of bounds.
   */
  lemma EmittedIndicesNeverOverrun(d: Drawer, cmds: seq<Command>, scale: Scale, height: nat)
    requires d.Valid()
    requires SumCounts(cmds) * INDEX_SIZE <= ByteView(d.ebf.Length, INDEX_SIZE)
    ensures var r := Run(cmds, d.tex, FrameParams(scale, height, d.eboLen), 0);
      r.error.Some? ==> !r.error.value.IndexRangeOutOfBounds?
  {
    RunNeverOverrunsWhenCountsFit(cmds, d.tex, FrameParams(scale, height, d.eboLen), 0);
  }
}
