# nuklear-backend-glium, modelled in Dafny

This project models the integer logic of the glium rendering backend for the nuklear GUI library (`src/lib.rs`):

- the **texture registry** of `Drawer`. It is an append-only list of `TextureEntry` values. `add_texture` hands out dense 1-based handles (`len as i32 + 1`), and `find_tex_entry` resolves them.
- the **staging buffers**. The vertex and index vectors and their GPU mirrors are sized in `Drawer::new`. `draw` hands the byte views over them to nuklear's converter and then uploads them at full capacity.
- the **draw loop** of `Drawer::draw`. It walks nuklear's command list in order and skips commands with no elements. For each other command it resolves the texture, picks the sampler and computes the scissor rectangle, then issues one draw over the next `elem_count` indices of the shared index buffer. A failing `unwrap` aborts the frame.
- the **scissor rectangle**. It is the clip rectangle scaled by the content scale, with the left and top edges clamped, flipped to glium's bottom-left origin and cast to `u32`.

Modules, in dependency order:

- `Wrappers` (`Option`).
- `Layout`: the vertex type and nuklear's vertex layout descriptor.
- `Staging`: buffer sizes and byte views.
- `Registry`: entries, handles, lookup and sampler choice.
- `Scissoring`: the scissor rectangle as written and as intended.
- `Frame`: the command loop as a function `Run`, with its lemmas.
- `Renderer`: the class `Drawer`, with its constructor, `AddTexture` and the `Draw` loop method, which is proved equal to `Run`.

Modelling choices:

- A GPU texture is an opaque token (`GpuTexture`). `add_texture` receives it already created.
- Clip rectangles and the content scale are integers.
- Rust's `as u32` is written out as saturation to `[0, U32_MAX]`.
- `len as i32 + 1` is written out as two's-complement truncation followed by a wrapping addition, which is what a release build does.
- A frame's result is the list of draws issued, in order, plus the error that aborted it, if any. Draws issued before an abort stand, as they do on the GPU.

The model follows the code as written, including where it departs from a plain reading of its design:

- Both staging vectors are sized `count * size_of::<T>()` elements. The views handed to the converter are `capacity()` bytes long, so the converter can write exactly `vbo_size` vertices and `ebo_size` indices. The vectors are over-allocated by the element size, but nothing is exposed past the requested counts. The constructor of `Renderer.Drawer` states this about the vectors it creates.
- The draw loop records the scissor rectangle that lines 193-198 compute (`Scissoring.ScissorAsWritten`). Two defects in that rectangle are listed under Findings, with a corrected rectangle beside it.

## Model

| member | source | states |
|---|---|---|
| `Layout.LayoutMatchesVertex` | src/lib.rs:99-102 | Position, TexCoord and Color sit at their field offsets 0, 8 and 16, with their field sizes. They follow one another without gap or overlap, and the last one ends at the 20-byte vertex stride. |
| `Staging.ByteView` | src/lib.rs:139-146 | The view handed to the converter is `capacity()` bytes long. For any element size of at least one byte, it never reaches past the vector's true byte size `capacity * elemSize`. |
| `Staging.VertexElems` | src/lib.rs:92-94 | `vbf` and the GPU vertex buffer hold `vbo_size * 20` vertices, at least `vbo_size`. The byte view over `vbf` is exactly the bytes of `vbo_size` vertices. |
| `Staging.IndexElems` | src/lib.rs:93-97 | `ebf` and the GPU index buffer hold `ebo_size * 2` indices, at least `ebo_size`. The byte view over `ebf` is exactly the bytes of `ebo_size` indices. |
| `Registry.AsI32` | src/lib.rs:115 | `as i32` always gives a value in the i32 range, and leaves a value already in that range unchanged. |
| `Registry.NextHandle` | src/lib.rs:115 | `len as i32 + 1` is always an i32. Below the i32 limit it is `len + 1`. |
| `Registry.HandleWrapsAtI32Limit` | src/lib.rs:115 | At `len == i32::MAX` the handle wraps to `-2^31`, which resolves in no registry. |
| `Registry.FindTexEntry` | src/lib.rs:208-213 | `find_tex_entry(id)` returns an entry iff `0 < id <= len`, and that entry is `tex[id - 1]`. So 0, negative ids and `len + 1` give `None`. |
| `Registry.ResolvesExactlyIssuedHandles` | src/lib.rs:208-213 | Below the i32 limit, the handle of entry `k` resolves to entry `k`. Every id that resolves is the handle of some entry. |
| `Registry.AddThenFind` | src/lib.rs:115-120 | Round trip: after appending, the handle just issued resolves to the new entry. The sampler chosen for the entry it resolves to is its `sampler_opts` when given, else the default policy. Every id that resolved before still resolves to the same entry. |
| `Registry.SamplerFor` | src/lib.rs:176-182 | The entry's own sampler policy when it has one. Otherwise linear magnification with nearest minification. |
| `Scissoring.CastU32` | src/lib.rs:194-197 | `as u32` always gives a value in the u32 range, and leaves a value already in that range unchanged. |
| `Scissoring.ScissorAsWritten` | src/lib.rs:171-198 | The source's rectangle: every field is a `u32`. |
| `Scissoring.AsWrittenColumnsAreExact` | src/lib.rs:194-196 | Without saturation, the columns the source's rectangle covers are exactly the scaled clip's columns at or right of the framebuffer's left edge. |
| `Scissoring.Scissor` | src/lib.rs:171-198 | The corrected rectangle: every field is a `u32`. Without saturation, it covers exactly the pixels of the scaled clip rectangle that lie inside the framebuffer's left, top and bottom edges. |
| `Scissoring.ScissorAgreesInsideFramebuffer` | src/lib.rs:193-198 | When the scaled clip lies vertically within the framebuffer, including whenever `x < 0`, the corrected and the source rectangle are equal. |
| `Scissoring.NegativeLeftEdgeExample` | src/lib.rs:194-197 | Clip `(-10, 5, 50, 20)` at scale 1 gives left 0, width 40, height 20 and bottom `hh - 25`, in both versions. |
| `Scissoring.AsWrittenMisplacesTopClippedRect` | src/lib.rs:195 | For clip `(0, -10, 10, 100)` and `hh = 600`, the source's rectangle cuts a pixel the clip covers and keeps a pixel the clip does not. |
| `Scissoring.AsWrittenOverreachesPastBottom` | src/lib.rs:195-197 | For clip `(0, 550, 10, 100)` and `hh = 600`, the source's rectangle keeps a pixel above the clip's top edge. |
| `Frame.Dispatch` | src/lib.rs:165-203 | A non-empty command is drawn iff its id is present, resolves in the registry and `idx_start + elem_count` fits the index buffer. The draw then covers `[idx_start, idx_start + elem_count)` with entry `id - 1`, that entry's sampler and the scissor rectangle the source computes. A missing id, an unknown id and an index range past the buffer each give their own error. |
| `Frame.Run` | src/lib.rs:159-205 | No contract of its own: it is the loop as a function over the command list and the starting cursor. Its meaning is fixed by `RunFollowsCommands`, `RunIsContiguous`, `RunCompletesIff`, `RunCursorIsSum`, `RunSkipsEmpty` and `RunBounds`, and `Renderer.Drawer.Draw` is proved equal to it. |
| `Frame.RunBounds` | src/lib.rs:159-205 | The frame `Run` defines issues at most one draw per command, and strictly fewer when it aborts. Every draw is bound to a registry entry and covers indices at or past the starting cursor. |
| `Frame.NonEmpty` | src/lib.rs:161-163 | The commands the loop keeps are exactly those with at least one element. There are no more of them than commands, and their element counts add up to the same total as all commands. That they stay in command order holds by its definition and is not part of the contract. |
| `Frame.RunIsContiguous` | src/lib.rs:169-204 | The draws' index ranges are non-empty. They start at the initial cursor, each starts where the previous one ended, and all lie inside the index buffer. |
| `Frame.RunCursorIsSum` | src/lib.rs:156-204 | In a frame that completes, the cursor ends at the start plus the sum of all element counts. |
| `Frame.RunSkipsEmpty` | src/lib.rs:161-163 | Commands with `elem_count < 1` change nothing: the frame equals the frame of the non-empty commands alone. |
| `Frame.RunFollowsCommands` | src/lib.rs:159-205 | Draw `k` is the dispatch of the `k`-th non-empty command. The frame completes iff every non-empty command is drawn. On abort, the first undrawn non-empty command is the one whose dispatch failed, with the frame's error, and no draw is issued for it. |
| `Frame.RunCompletesIff` | src/lib.rs:165-185 | A frame completes iff every non-empty command names a registered texture and the element counts fit the index buffer. |
| `Frame.RunNeverOverrunsWhenCountsFit` | src/lib.rs:184-185 | If the element counts fit the index buffer, the frame never aborts for an index range out of bounds. |
| `Frame.EmptyFrameDrawsNothing` | src/lib.rs:159-205 | An empty command list issues no draw and no error. |
| `Frame.CursorExample` | src/lib.rs:156-204 | Element counts `[0, 6, 0, 12]` give exactly two draws, over `[0, 6)` and `[6, 18)`. |
| `Renderer.Drawer.constructor` | src/lib.rs:88-103 | The registry starts empty. The staging vectors are fresh and zeroed, with `vbo_size * 20` vertices and `ebo_size * 2` indices, and the GPU buffers have the same lengths. The byte views over the vectors are exactly `vbo_size * 20` and `ebo_size * 2` bytes, within the vectors' byte sizes. Each GPU buffer is as long as its vector (`Valid`), so the full-capacity uploads at lines 152-153 are in range. |
| `Renderer.Drawer.AddTexture` | src/lib.rs:106-121 | Appends exactly one entry and returns `len as i32 + 1`. Below the i32 limit that is `len + 1` and resolves to the new entry. Earlier entries resolve as before. |
| `Renderer.Drawer.Draw` | src/lib.rs:156-205 | The loop with the cursor `idx_start` issues exactly the frame `Run` defines, starting at 0. The method only reads the registry. That the cursor equals the sum of the element counts consumed so far is a loop invariant checked in the body, not part of the contract. |
| `Renderer.EmittedIndicesNeverOverrun` | src/lib.rs:143-185 | For a drawer whose buffers are as the constructor makes them: if the commands use no more indices than the index view lets nuklear write, no index range exceeds the GPU index buffer. |

## Findings

| source | as written | input that shows it | evidently intended | confidence | as-written member | corrected member |
|---|---|---|---|---|---|---|
| src/lib.rs:195 | `bottom` is 0 whenever `y < 0` | clip `(0, -10, 10, 100)`, scale 1, `hh = 600`: pixel row 520 (from the bottom) is in the clip but not in the scissor; row 0 is in the scissor but not in the clip | `bottom = hh - y - h` (clamped at 0) whatever the sign of `y`; only the height shrinks by `-y` | high, not executed | `Scissoring.AsWrittenMisplacesTopClippedRect` | `Scissoring.Scissor` |
| src/lib.rs:195-197 | when `y + h > hh`, `bottom` saturates to 0 but the height stays `h` | clip `(0, 550, 10, 100)`, scale 1, `hh = 600`: pixel row 60 is in the scissor but above the clip's top edge | height reduced to `hh - y`, so the top edge stays at the clip's top | medium, not executed | `Scissoring.AsWrittenOverreachesPastBottom` | `Scissoring.Scissor` |

`ScissorAsWritten` is the source's rectangle, and it is what `Frame.Dispatch`, and so the draw loop, records. `Scissor` is the corrected rectangle. The two coincide whenever the clip lies vertically within the framebuffer (`Scissoring.ScissorAgreesInsideFramebuffer`).

## Left out

- GPU calls (`Program::new`, buffer creation, `invalidate`, `write`, `slice_mut`, `Frame::draw`, `Texture2d::new`) are foreign library calls. Each is taken to succeed. `Texture2d::new`'s result is the `texture` argument of `AddTexture`. The one GPU-call `unwrap` whose failure is modelled is `ebo.slice(idx_start..idx_end)`, at line 185. The `unwrap`s of `texture().id()` and `find_tex_entry` at lines 165-166 are modelled too, as `MissingTextureId` and `UnknownTexture`. A failing `unwrap` panics and unwinds out of `draw`. The model shows this as the frame's error, after the draws already issued.
- `NkContext::convert` and `draw_command_iterator` belong to nuklear. The command list they produce is an input. What the converter writes into the staging vectors is not modelled, only how large the regions it may write are.
- The shader sources `VS` and `FS` are constants with no logic.
- `build_bindings` and its `transmute` offset trick are raw memory layout. `Vertex` is assumed laid out in declaration order (offsets 0, 8, 16, size 20). `Vertex::default()` is `ZERO_VERTEX`.
- The orthographic matrix (line 130), `set_vertex_layout` and `set_vertex_size` are pure `f32` arithmetic and configuration calls.
- Floating point: clip rectangles and the content scale are integers. Fractional truncation by `as u32`, NaN and `f32` rounding are not modelled, only saturation.
- `Renderer.Drawer.AddTexture` ignores the pixel data, width and height. Only the registry bookkeeping is modelled. `texture_count` in `Drawer::new` only reserves capacity and has no effect on the model.
- `Registry.NextHandle` follows release-build wrapping. The overflow panic of a debug build is not modelled. The sizes `vbo_size * size_of::<Vertex>()` and the cursor `idx_start + elem_count` are unbounded integers, so `usize` overflow is not modelled.
- A command's texture handle is read through `NkHandle::id` as an `Option<int>`. Handles that carry a raw address instead of an id are not modelled.
- Concurrency does not arise: the source is single-threaded.
