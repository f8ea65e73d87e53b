# Frame-buffer and render-stack model of `rasterizer.py`

This project models the frame pipeline of a small software rasterizer. It covers three parts:

- **The frame store** (`FrameBuffer`). It holds two display buffers (front and back), a texture
  plane, a render plane, the previous frame, a blank pixel, and a flag that says which display
  buffer is active.
- **The stage passes of `ScreenDrawer`**. Each pass reads and rewrites the frame store. Shaders,
  the session's coordinate map and the world-space snapshot are inputs to the passes.
- **The frame loop of `draw`**. The render stack is a list of stage names. Each name is resolved
  to its pass, and the whole stack runs once per iteration for 8192 iterations while rendering is
  on.

The model is written as pure functions over immutable values:

- `Planes` models Python's insertion-ordered dictionaries. A plane is a key sequence with no
  repeats plus a map over exactly those keys. A write to a new key appends that key. A write to
  an existing key keeps its position. `Lookup` is the reference reading of a sequence of writes:
  the last write wins.
- `FrameStore` models every `FrameBuffer` method as a state transformer or, for
  `get_from_render_plane`, `get_from_buffer`, `return_buffer` and `return_previous_frame`, as a
  query.
- `ScreenDrawer` models the stage passes that do work of their own. The five stages that only
  pass the call on (`buffer_flip`, `log_current_frame`, `blit_render_plane`,
  `render_frame_buffer`, `flush_buffer`, rasterizer.py:211-220 and 247-248) have no member there:
  `Pipeline.Resolve` maps them straight to the `FrameStore` functions they call. The background
  pass and motion blur read the render plane while they rewrite it, so they are folds over a
  prefix that read the current state at each step. Lensing uses the same fold as motion blur, but
  with the one-argument shader, which ignores the render pixel: it iterates the copy
  `return_previous_frame` hands out and never reads the plane it writes. Lighting, tone map and
  float-to-RGB iterate the items of a plane they rewrite in place; they are folds over a snapshot
  of those items, which agrees with Python's live iteration because each key is visited once and
  no key is added to the plane being iterated.
- `Pipeline` models `getattr(self, render_stage)` as a registry from stage names to passes. It
  models one frame as a left fold over the stack and `draw` as a bounded loop. The output
  controller becomes a trace of `DrawPixel` and `Show` events.

Colours are a type parameter. Shaders are function-valued parameters: their internals are not
part of this model.

Behaviour of the code worth noting, which the model keeps:

- `buffer_scan` draws in the active buffer's insertion order (rasterizer.py:207).
- `float_to_rgb_pass` reads the FRONT buffer whichever buffer is active and writes into the
  active one (rasterizer.py:168-171); `sprite_pass` also reads the front buffer
  (rasterizer.py:159-162).
- `sprite_pass` writes through `write_to_texture`, so it only changes the texture plane, and it
  changes nothing at all while the back buffer is active (rasterizer.py:120-128).
- `object_colour_pass` draws only every 16th world-space point, through the `[::16]` slice
  (rasterizer.py:180).
- Of the stages, only `log_current_frame` (rasterizer.py:214-215, 56-57) writes the previous
  frame; no stage calls `write_to_previous_frame` (rasterizer.py:65-66). Motion blur and lensing
  therefore see the render plane as of the last `log_current_frame` that ran.

## Model

Some members are specified through the rows of others. `Pipeline.Resolve`, the `getattr`
registry, and `Pipeline.RunStages`, one frame, are specified by `Pipeline.Step`,
`Pipeline.StepScanDrawsBuffer` and `Pipeline.RunStagesAppend`. `Pipeline.Draw` and
`Pipeline.RunFrames`, the loop of `draw`, are specified by `Pipeline.DrawPresents`.
`FrameStore.ReturnBuffer` is specified by `FrameStore.GetFromBufferReadsReturnBuffer` and the
`FrameStore.GetFromBuffer` row.

| member | source | states |
|---|---|---|
| FrameStore.Init | rasterizer.py:28-54 | A fresh store has every plane empty, the front buffer active and the given blank pixel |
| FrameStore.LogCurrentFrame | rasterizer.py:56-57 | The previous frame reads exactly what the render plane reads, in the same key order; nothing else changes |
| FrameStore.ReturnPreviousFrame | rasterizer.py:59-60 | The returned plane reads the previous frame pixel for pixel |
| FrameStore.WriteToRenderPlane | rasterizer.py:62-63 | After the write the coordinate reads the new colour; every other render pixel and every other plane is unchanged |
| FrameStore.WriteToPreviousFrame | rasterizer.py:65-66 | After the write the coordinate reads the new colour in the previous frame; every other pixel and plane is unchanged |
| FrameStore.GetFromRenderPlane | rasterizer.py:68-73 | Returns the stored colour when the coordinate was written, and exactly the blank pixel otherwise |
| FrameStore.BlitRenderPlaneToBuffer | rasterizer.py:75-79 | The active buffer becomes a copy of the render plane, with the same keys and order; the inactive buffer, the flag and the other planes are untouched |
| FrameStore.RenderRenderPlaneToBuffer | rasterizer.py:81-82 | A full scan of the coordinate map: every listed coordinate reads its render colour, or blank where the render plane has none; other buffer pixels, the inactive buffer and the other planes are untouched |
| FrameStore.WriteToBuffer | rasterizer.py:84-88 | The write is visible through `get_from_buffer` at that coordinate only; the inactive buffer, the flag and the other planes are unchanged |
| FrameStore.GetFromBuffer | rasterizer.py:96-105 | Reads the buffer the flag selects: present exactly when the coordinate is among that buffer's keys, and then its colour; absent is `None`, not blank |
| FrameStore.GetFromBufferReadsReturnBuffer | rasterizer.py:90-105 | Reading a pixel through the store agrees with reading the plane `return_buffer` hands out |
| FrameStore.FlipBuffers | rasterizer.py:107-108 | Negates the flag and changes nothing else, so the active and inactive buffers swap roles |
| FrameStore.FlipTwice | rasterizer.py:107-108 | Two flips restore the store, and a write after two flips lands in the same buffer as a write before them |
| FrameStore.FlushBuffer | rasterizer.py:110-118 | Afterwards the render plane, the texture plane and the active buffer read nothing at any coordinate; the inactive buffer, the previous frame, the flag and the blank pixel survive |
| FrameStore.WriteToTexture | rasterizer.py:120-122 | While the front buffer is active the texel is stored and no other texel changes; while the back buffer is active the store is unchanged |
| FrameStore.WriteAllToTexture | rasterizer.py:126-128 | A run of texture writes lands completely while the front buffer is active and not at all otherwise |
| FrameStore.WriteTextureToBuffer | rasterizer.py:124-132 | With a texture and the front buffer active, the texture is overlaid on the texture plane; with no texture, or the back buffer active, the store is unchanged |
| FrameStore.TexelsLandAsStored | rasterizer.py:126-128 | Writing all of a plane's items onto another overlays it: its keys read its colours and other keys keep theirs |
| ScreenDrawer.SpritePass | rasterizer.py:159-162 | With the back buffer active nothing changes; otherwise only the texture plane changes, receiving the texels of every sprite found for the front buffer's pixels in order |
| ScreenDrawer.WriteTexture | rasterizer.py:164-166 | The texture plane is overlaid on the active buffer: texture coordinates read their texel and other buffer pixels are kept |
| ScreenDrawer.FloatToRgbPass | rasterizer.py:168-171 | Every front-buffer coordinate reads the converted front colour through `get_from_buffer`; other coordinates and the inactive buffer are untouched |
| ScreenDrawer.EveryNth | rasterizer.py:180 | Every item at a position divisible by 16 is kept, in order, in slot position/16, and every slot holds such an item: the slice drops exactly the other items |
| ScreenDrawer.EveryNthAt | rasterizer.py:180 | Slot j of the slice is the input item at position 16·j |
| ScreenDrawer.ObjectColourPass | rasterizer.py:173-182 | World points at positions 0, 16, 32, ... are drawn with their world colour; the other world points and all non-world coordinates keep their render colour; no render pixel is removed |
| ScreenDrawer.BackgroundShaderPass | rasterizer.py:191-195 | A full fill: every coordinate of the map ends up in the render plane, with the shader stack applied to its prior value (or blank); other coordinates are unchanged |
| ScreenDrawer.LightingPass | rasterizer.py:197-200 | The render plane keeps its keys and order, and each pixel becomes the lighting shader of its coordinate and old colour |
| ScreenDrawer.ToneMapPass | rasterizer.py:202-204 | The render plane keeps its keys and order, and each pixel becomes the tone-mapped old colour |
| ScreenDrawer.BufferScan | rasterizer.py:206-209 | One draw per pixel of the active buffer, in insertion order, each carrying the colour `get_from_buffer` returns, then one `show` |
| ScreenDrawer.ScanDrawsBufferExactly | rasterizer.py:206-209 | Every pixel the active buffer holds is drawn with its colour, nothing else is drawn, and no coordinate is drawn twice |
| ScreenDrawer.MotionBlurPass | rasterizer.py:225-235 | For each previous-frame pixel the blur shader gets the current render pixel when there is one; a non-empty result replaces the render pixel; coordinates outside the previous frame are untouched |
| ScreenDrawer.LensingPass | rasterizer.py:237-245 | For each previous-frame pixel the one-argument shader result, when non-empty, replaces the render pixel, whatever that pixel held; other pixels are untouched |
| Pipeline.Step | rasterizer.py:255 | A stage other than `buffer_scan` is exactly the pass its name resolves to and emits nothing; the scan leaves the store as it is and emits one event per active-buffer pixel plus one |
| Pipeline.StepScanDrawsBuffer | rasterizer.py:206-209 | The scan stage draws every pixel of the active buffer once, with the colour `get_from_buffer` returns, draws nothing else, and ends with `show` |
| Pipeline.StepKeepsRouting | rasterizer.py:211-212 | No stage changes the blank pixel, and only `buffer_flip` changes the flag or reaches the inactive buffer |
| Pipeline.StepGatesTexture | rasterizer.py:120-122 | While the back buffer is active no stage adds or recolours a texel |
| Pipeline.RunStagesKeepRouting | rasterizer.py:255 | A render stack without `buffer_flip` keeps the flag, the inactive buffer and the blank pixel |
| Pipeline.StepKeepsPrevious | rasterizer.py:56-57 | Every stage other than `log_current_frame` leaves the previous frame as it was |
| Pipeline.RunStagesKeepPrevious | rasterizer.py:255 | A render stack without `log_current_frame` hands the previous frame on untouched |
| Pipeline.RunStagesAppend | rasterizer.py:255 | Running a stack is running its first part and then its second part on the result, with the event traces concatenated |
| Pipeline.TextureGatedWhileBackActive | rasterizer.py:255 | With the back buffer active and no flip in the stack, no stage order puts a texel into the texture plane |
| Pipeline.PresentsPerScan | rasterizer.py:206-209 | A frame presents exactly as often as `buffer_scan` occurs in the stack, whatever the stages do |
| Pipeline.DrawPresents | rasterizer.py:250-255 | With rendering on, `draw` presents 8192 times per scan stage; with it off, `draw` changes nothing and draws nothing |
| Pipeline.DefaultFrameCoversScreen | rasterizer.py:150-157 | One frame of the default stack draws every coordinate of the map, ends with `show`, leaves the render plane, texture plane and active buffer empty, and logs every mapped coordinate in the previous frame |
| Pipeline.DefaultFrameKeepsRouting | rasterizer.py:150-157 | One frame of the default stack keeps the flag, the inactive buffer and the blank pixel |
| Pipeline.DefaultFrameLogsObjectPass | rasterizer.py:150-157 | After one frame of the default stack the previous frame is the render plane as it stood right after `object_colour_pass`; the later passes do not disturb it |

## Left out

- The `timer` decorator, the frame-pacing deadline (`next_frame`, `time()`), `print` and logging are left out: they have no effect on the pixels.
- Stopping the render thread by a sentinel or a `TypeError`, and the `KeyboardInterrupt` handler that flushes and scans once more, are left out: they are control flow for the host process.
- Threading is left out, and so is the concurrent host writing into world space. `draw` reads one world-space snapshot per iteration, given as a function of the iteration number.
- Shader internals (`ShaderStack`, lighting, tone map, float-to-RGB, motion blur, sprites) are left out. They are opaque function parameters.
- Shaders are taken as stateless and fixed for a whole `draw`: one pure function per shader serves all 8192 iterations. A shader that keeps state across calls (such as a retained motion-blur decay) or whose output depends on the time cannot be expressed.
- The blank pixel `(0.0, 0.0, 0.0)` is not fixed: colours are generic, so it is a parameter of `Init`.
- The output controller is left out. `draw_to_output` and `show` become `DrawPixel` and `Show` events.
- Session fields other than `coord_map` and `rendering_on` are left out, and `rendering_on` is taken as constant during one `draw`.
- FrameStore.WriteTextureToBuffer: a sprite result that is not a texture dictionary is modelled as `None`, so nothing is written. A partial write before a `TypeError` part-way through a malformed dictionary is not modelled.
- ScreenDrawer.BackgroundShaderPass: states the exact colour only when the coordinate map has no repeated coordinate. With repeats, the model only states that every coordinate is filled and that other coordinates are untouched.
- Pipeline.DefaultFrameCoversScreen: states which coordinates are drawn and which planes are emptied, not the drawn colours. Those colours follow from the per-pass contracts.
- Pipeline.DrawPresents: counts presents per `draw`, not the pixels of each frame.
