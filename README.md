# PlayStation GPU: hardware-renderer batching and software copy-out

This project is a Dafny model of two parts of a PlayStation GPU emulator.

The first is the hardware renderer's command front end (`src/core/gpu_hw.cpp`). GPU drawing commands (polygons, rectangles, lines) become batch vertices. These are written into a mapped vertex buffer and drawn together once the batch is flushed. A batch is flushed whenever the next command needs a different batch configuration: texture mode, transparency, dithering, depth test, uniforms or drawing area. Textures are sampled from a copy of VRAM, the *read texture*. To keep that copy coherent, the renderer does three things:

- it tracks the *dirty rectangle*, the VRAM area drawn since the copy was last refreshed;
- it tracks the range of texels the current batch samples;
- it refreshes the copy, after flushing, before a primitive samples texels that were drawn.

VRAM fills, writes, reads and copies go through the same bookkeeping.

The second part is the software renderer's display copy-out (`src/core/gpu_sw.cpp`). It converts the displayed VRAM area into a display texture, either as 15-bit pixels or as packed 24-bit pixels, and handles reads that wrap around the edges of VRAM.

Modules:

- `GpuTypes` (gpu_types.dfy): VRAM and texture-page dimensions, vertex-count limits, and the texture, transparency and render-mode enumerations.
- `Rectangles` (rectangles.dfy): the half-open `Rect` with `Include`, `Clamped`, `Intersects` and `Scaled`.
- `HwHelpers` (hw_helpers.dfy): the file-level helpers:
  - transfer bounds with wrap-around;
  - UV-limit packing;
  - downsampling scale and mip levels;
  - the scissor rectangle.
- `HwState` (hw_state.dfy): the command and register values the renderer reads:
  - the texture-page word;
  - the blending alpha factors;
  - the vertices each command requires;
  - drawing-area clipping;
  - 11-bit vertex truncation;
  - line corners.
- `Pipelines` (pipelines.dfy): which shaders and pipelines are compiled, which render passes a batch needs, and which pipeline each pass draws with.
- `HwBatch` (hw_batch.dfy): pure descriptions of what each operation emits:
  - flush draws;
  - the vertex-buffer space plan;
  - polygon vertices and UV limits;
  - triangle culling and clipping;
  - rectangle quads;
  - polyline segments;
  - fill and copy rectangles.
- `RectangleSplit` (rect_split.dfy): how a textured rectangle is split into sub-quads that each stay inside one 256x256 texture page.
- `TexPageOverlap` (tex_overlap.dfy): the texel range a primitive samples, as VRAM halfword columns, computed from its UV limits and the page's colour depth.
- `GpuHardware` (gpu_hw.dfy): the renderer itself, a class `GpuHw` whose methods update its fields in place. Device calls are recorded in a ghost `log` of `DeviceEvent`s. Vertices added to the vertex buffer are recorded in a ghost `stream`, and the VRAM areas written since the last refresh in a ghost `written`. `Valid()` ties these together:
  - every vertex of the mapped buffer is the tail of `stream`;
  - every written area lies inside VRAM and inside the dirty rectangle;
  - the uniforms on the device match the batch uniforms whenever they are not marked dirty.
- `SoftwareCopyOut` (gpu_sw.dfy): `CopyOut15Bit`, `CopyOut24Bit`, the `CopyOut` dispatch and `UpdateDisplay`. VRAM is a `seq<u16>` and the display texture an `array2<u32>`.

Modelling decisions:

- **Constants and enum order** follow their use in `gpu_hw.cpp`: VRAM is 1024x512, texture pages are 256x256, the depth counter allows 65534 vertices per range, and rectangles reserve 90 vertices. `gpu_types.h` is not part of this model.
- **`Common::Rectangle`** is modelled as a half-open rectangle. "Invalid" means empty, and including an area into an invalid rectangle yields that area. `common/rectangle.h` is not part of this model.
- **The graphics device** is not modelled; each call to it appears as an event appended to the ghost log. The size the device grants when the vertex buffer is mapped is `required + deviceSlack`, where `deviceSlack` is a constructor parameter.
- **Settings and device features** are constructor parameters. These are the resolution scale, multisampling, PGXP depth buffer, true colour, UV clamping, texture copy to self and framebuffer fetch.
- **The software renderer thread** is a flag (`softwareReadbacks`).

## Model

| member | source | states |
|---|---|---|
| GpuTypes.WrapU32 | src/core/gpu_sw.cpp:302 | a value that fits in 32 bits is kept unchanged by the truncation to an unsigned 32-bit register |
| GpuTypes.TransparencyIndex | src/core/gpu_hw.cpp:817-924 | each transparency mode has a table index below 5, and TransparencyOfIndex maps every index back to its mode |
| GpuTypes.RenderModeIndex | src/core/gpu_hw.cpp:817-924 | each render mode has a table index below 4, and RenderModeOfIndex maps every index back to its mode |
| Rectangles.Rect.Include | src/core/gpu_hw.cpp:1701 | the result covers the old rectangle and the included edges, and stays valid when the old one was |
| Rectangles.Rect.IncludeRect | src/core/gpu_hw.cpp:2049-2051 | the result covers both rectangles and stays valid when the old one was |
| Rectangles.Rect.Clamped | src/core/gpu_hw.cpp:2289-2290 | the result lies within the bounds and is unchanged when the rectangle already lies inside them |
| Rectangles.ScaledShape | src/core/gpu_hw.cpp:2486 | scaling by the resolution scale multiplies the width and height by it and keeps a valid rectangle valid |
| Rectangles.FromExtents | src/core/gpu_hw.cpp:2502-2503 | the rectangle has the given left and top, and the given width and height |
| Rectangles.IncludeIsLeast | src/core/gpu_hw.cpp:2049-2061 | every rectangle that covers the old one and the included edges covers the result, so Include is the least such rectangle |
| Rectangles.IncludeIntoInvalid | src/core/gpu_hw.cpp:583-586 | including edges into the invalid (cleared) rectangle gives exactly those edges |
| Rectangles.InvalidIntersectsNothing | src/core/gpu_hw.cpp:2090 | the invalid (cleared) rectangle intersects no rectangle, in either order |
| Rectangles.CoversPreservesIntersection | src/core/gpu_hw.cpp:2457 | a rectangle that covers another intersects everything the other intersects |
| HwHelpers.MinMax | src/core/gpu_hw.cpp:40-47 | the pair holds the smaller then the larger of the two values, each equal to one of them |
| HwHelpers.GetVRAMTransferBounds | src/core/gpu_hw.cpp:80-95 | the bounds start inside VRAM and end within its width and height |
| HwHelpers.TransferBoundsShape | src/core/gpu_hw.cpp:80-95 | a transfer that wraps a VRAM edge spans that whole dimension from 0; one that does not starts at its coordinate modulo the VRAM size with its own width or height |
| HwHelpers.TransferBoundsCoverWrappedCells | src/core/gpu_hw.cpp:80-95 | every VRAM cell the transfer touches, after wrap-around, lies inside the bounds |
| HwHelpers.PackUVLimits | src/core/gpu_hw.cpp:169-172 | the minimum U occupies the low byte of the packed word (the whole layout is pinned by PackUnpackRoundTrip) |
| HwHelpers.UnpackUVLimits | src/core/gpu_hw.cpp:169-172 | the unpacked minimum U is the low byte of the word |
| HwHelpers.PackUnpackRoundTrip | src/core/gpu_hw.cpp:169-172 | unpacking a packed word returns the four limits unchanged |
| HwHelpers.PackUVLimitsInjective | src/core/gpu_hw.cpp:169-172 | different limits pack to different words |
| HwHelpers.LargestDivisorAtMost | src/core/gpu_hw.cpp:54-60 | the result divides the scale, lies between 1 and the bound, and no larger value within the bound divides the scale |
| HwHelpers.GetBoxDownsampleScale | src/core/gpu_hw.cpp:54-60 | the box-downsampling scale is the largest divisor of the resolution scale not above the configured scale, so it divides the resolution scale and is at least 1 |
| HwHelpers.GetAdaptiveDownsamplingMipLevels | src/core/gpu_hw.cpp:1505-1516 | the loop computes the number of halvings of the scaled VRAM width down to one pixel, which is floor(log2(scale)) + 1, and 0 at scale 0 |
| HwHelpers.MipLevelsOfScale | src/core/gpu_hw.cpp:1505-1516 | the number of halvings of a width between 1024a and 1024a + 1023 is floor(log2(a)) + 1 |
| HwHelpers.ScissorRect | src/core/gpu_hw.cpp:1305-1313 | the scissor starts at the scaled drawing-area origin, is never empty, and for a valid area is the area with an inclusive right and bottom, scaled |
| HwHelpers.GetDownsampleMode | src/core/gpu_hw.cpp:562-565 | the mode is the setting or Disabled, and always Disabled at native resolution |
| HwHelpers.BoxDownsampleRect | src/core/gpu_hw.cpp:2932-2952 | the factor times the box scale is the resolution scale, and each edge and size of the result is the source's divided by the factor, rounded down |
| HwState.TexPageWord | src/core/gpu_hw.cpp:1613 | the low half of the word is the mode register and the high half the palette register |
| HwState.TransparentAlpha | src/core/gpu_hw.cpp:2612-2623 | the source and destination alpha factors, in quarters: two and two for half-and-half, one and four for background plus a quarter, four and four for addition and subtraction |
| HwState.RequiredVertices | src/core/gpu_hw.cpp:2166-2182 | a polygon needs 6 vertices (quad) or 3, a rectangle 90, a polyline 6 per polyline point, a single line 6 |
| HwState.ClipSpan | src/core/gpu_hw.cpp:1694-1701 | the clipped span lies within the area (inclusive right edge), is non-empty for a non-empty span, and a span already inside is kept with an exclusive end |
| HwState.ClipRect | src/core/gpu_hw.cpp:1850-1857 | the clipped rectangle lies inside the drawing area and is non-empty |
| HwState.TruncateVertexPosition | src/core/gpu_hw.cpp:1770-1771 | coordinates are truncated to 11 bits and sign-extended, giving a value in -1024..1023 congruent modulo 2048 |
| HwState.LineVertices | src/core/gpu_hw.cpp:1518-1605 | a line becomes two triangles over its four corners in the order 0,1,2,3,2,1 at the command depth; the far end takes the second colour, or the first when the line is a single point |
| Pipelines.GetRenderMode | src/core/gpu_hw.cpp:1238-1242 | a batch without transparency renders opaque-only, and any transparency renders transparent-and-opaque |
| Pipelines.DepthTestIndex | src/core/gpu_hw.cpp:863-864 | the depth test is 2 exactly when the depth buffer is used, 1 exactly when the mask is checked without it, and 0 otherwise |
| Pipelines.BlendStateFor | src/core/gpu_hw.cpp:865-911 | fixed-function blending is on exactly when the shader does not blend and the pass draws transparent pixels or the texture filter blends; it subtracts exactly for background-minus-foreground; the destination factor is the second source, or the constant 0x808080 for half-and-half without dual-source blending |
| Pipelines.PipelineConfigFor | src/core/gpu_hw.cpp:817-924 | a pipeline is textured exactly when its texture mode is, uses the fragment shader of its modes, writes depth unless the PGXP depth buffer is in use with depth test 0, and compares with the function of its depth test |
| Pipelines.TwoPassOnlyWithoutFramebufferFetch | src/core/gpu_hw.cpp:2125-2141 | two-pass rendering happens only without framebuffer fetch, shader blending only with it, and never both |
| Pipelines.NeedsTwoPassRendering | src/core/gpu_hw.cpp:2125-2133 | a batch is drawn in two passes only when it is textured, semi-transparent and without framebuffer fetch, and always when such a batch subtracts the foreground from the background |
| Pipelines.NeedsShaderBlending | src/core/gpu_hw.cpp:2135-2141 | blending moves into the shader only with framebuffer fetch; with it, always for subtractive blending, and without dual-source blending for every semi-transparent batch and for blended texture filtering |
| Pipelines.PipelineFragmentsGenerated | src/core/gpu_hw.cpp:742-788 | every generated pipeline uses a generated fragment shader |
| Pipelines.BatchRenderPasses | src/core/gpu_hw.cpp:2680-2723 | a batch draws opaque then transparent in two passes exactly when it needs two-pass rendering, and otherwise in the single pass of its render mode |
| Pipelines.SelectedPipeline | src/core/gpu_hw.cpp:1337-1346 | a draw's depth-test slot is 2 exactly with the depth buffer, 1 exactly without it when the mask is checked, 0 otherwise; its other slots are the render mode and the batch's texture mode, transparency, dithering and interlacing |
| Pipelines.SelectedPipelinesGenerated | src/core/gpu_hw.cpp:1337-1346 | every pass of every batch draws through a pipeline the table compiled |
| Pipelines.FragmentOrdinal | src/core/gpu_hw.cpp:742-788 | each fragment variant's position in the compile order is below the 720 positions of the loops |
| Pipelines.PipelineOrdinal | src/core/gpu_hw.cpp:817-924 | each pipeline variant's position in the compile order is below the 2160 positions of the loops |
| Pipelines.TransparencyIndexInjective | src/core/gpu_hw.cpp:817-924 | distinct transparency modes index distinct table slots |
| Pipelines.RenderModeIndexInjective | src/core/gpu_hw.cpp:817-924 | distinct render modes index distinct table slots |
| Pipelines.CompileBatchPipelines | src/core/gpu_hw.cpp:713-1206 | compilation succeeds exactly when every shader and pipeline creation succeeds; on success the tables hold exactly the generated fragment shaders and pipeline configurations |
| Pipelines.CompileFragmentShaders | src/core/gpu_hw.cpp:742-788 | the fragment table holds a shader for every generated variant, or creation failed for one of them |
| Pipelines.CompileFragmentBlock | src/core/gpu_hw.cpp:742-788 | one block of the loops succeeds exactly when every variant of its render mode and transparency compiles, and then holds exactly those variants |
| Pipelines.CompileFragmentVariants | src/core/gpu_hw.cpp:742-788 | the innermost loops succeed exactly when every variant of their render mode, transparency and texture mode compiles, and then hold exactly those variants |
| Pipelines.FragmentBlockSkipped | src/core/gpu_hw.cpp:742-788 | a block whose render mode or transparency the device features exclude contains no variant the renderer generates |
| Pipelines.FragmentBlockOrdinals | src/core/gpu_hw.cpp:742-788 | the variants of one render mode and transparency occupy exactly one run of 36 ordinals |
| Pipelines.CompilePipelineTable | src/core/gpu_hw.cpp:817-924 | the pipeline table holds the configuration of every generated pipeline, or creation failed for one |
| Pipelines.PipelineBlockOrdinals | src/core/gpu_hw.cpp:817-924 | the pipelines of one depth test and render mode occupy exactly one run of 180 ordinals |
| Pipelines.CompilePipelineBlock | src/core/gpu_hw.cpp:817-924 | one block of the loops succeeds exactly when every pipeline of its depth test and render mode is created, and then maps each of them to its configuration |
| Pipelines.CompilePipelineRow | src/core/gpu_hw.cpp:817-924 | one row of the loops succeeds exactly when every pipeline of its depth test, render mode and transparency is created, and then maps each to its configuration |
| Pipelines.CompilePipelineVariants | src/core/gpu_hw.cpp:817-924 | the innermost loops succeed exactly when every variant of their texture mode is created, and then map each to its configuration |
| HwBatch.PassDraws | src/core/gpu_hw.cpp:2680-2723 | one draw per pass, each through the pipeline the batch's depth test, texture mode, transparency, dithering and interlacing select |
| HwBatch.FlushDraws | src/core/gpu_hw.cpp:2698-2723 | the draws of a flushed batch in order: one per render pass unless only the wireframe is drawn, then the wireframe overlay when it is on (no contract of its own: FlushDrawCount and FlushDrawsUseBatchPipelines state its count, order and pipelines) |
| HwBatch.FlushDrawsUseBatchPipelines | src/core/gpu_hw.cpp:2680-2723 | every draw of a flush covers the whole batch, through a compiled pipeline matching the batch configuration |
| HwBatch.FlushDrawCount | src/core/gpu_hw.cpp:2680-2723 | a flush draws nothing in wireframe-only mode, otherwise two passes exactly when needed; a wireframe overlay adds one last draw |
| HwBatch.EnsureSpacePlanAsWritten | src/core/gpu_hw.cpp:2184-2197 | the source's steps to make room: on a depth-counter overflow a reset and then a map, else a flush and a map when the mapped buffer is short of room, a map when nothing is mapped (no contract of its own: EnsureSpacePlanAsWrittenSteps and AsWrittenMapsWhileMapped state its properties) |
| HwBatch.EnsureSpacePlanAsWrittenSteps | src/core/gpu_hw.cpp:2184-2197 | the source's plan is empty exactly when the buffer is mapped with room and no depth reset is due, otherwise ends by mapping; it resets the depth counter exactly on an overflow and flushes only a mapped buffer |
| HwBatch.AsWrittenMapsWhileMapped | src/core/gpu_hw.cpp:2184-2197 | as written, a command that overflows the depth range with the PGXP depth buffer maps the buffer while it is still mapped |
| HwBatch.EnsureSpacePlan | src/core/gpu_hw.cpp:2184-2197 | the corrected steps: the overflow branch is taken only when a depth reset happens, that is without the PGXP depth buffer (no contract of its own: EnsureSpacePlanSound states its properties) |
| HwBatch.EnsureSpacePlanSound | src/core/gpu_hw.cpp:2166-2198 | the corrected plan resets the depth counter exactly on an overflow without the PGXP depth buffer, flushes only a mapped buffer, never maps a mapped buffer, does nothing exactly when the buffer already has room, ends with a map, and agrees with the source elsewhere |
| HwBatch.VertexColor | src/core/gpu_hw.cpp:1631-1651 | a vertex takes the command colour when the polygon is flat-shaded or it is the first vertex; otherwise its own 24-bit colour |
| HwBatch.PolygonBatchVertex | src/core/gpu_hw.cpp:1631-1651 | each vertex is offset by the drawing offset, carries the depth and texture page, has byte texture coordinates and no UV limits yet |
| HwBatch.PolygonBatchVertices | src/core/gpu_hw.cpp:1631-1651 | one batch vertex per polygon vertex, in order, with 8-bit texture coordinates |
| HwBatch.PolygonTexcoords | src/core/gpu_hw.cpp:1631-1651 | a textured vertex's coordinates are the two bytes of its texcoord word; an untextured one has zero coordinates |
| HwBatch.UVExtrema | src/core/gpu_hw.cpp:1446-1466 | the computed minimum and maximum U and V bound every vertex's coordinates and are attained by some vertex |
| HwBatch.ByteExtrema | src/core/gpu_hw.cpp:1446-1466 | the limits of byte texture coordinates are bytes |
| HwBatch.PolygonUVLimits | src/core/gpu_hw.cpp:1446-1460 | the polygon's UV limits: the least and the greatest texture coordinates, each maximum less one when it differs from its minimum (no contract of its own: PolygonUVLimitsBounded states its bounds) |
| HwBatch.PolygonUVLimitsBounded | src/core/gpu_hw.cpp:1446-1466 | the limits are ordered bytes, every vertex's coordinates lie within them (the maxima one texel short at most), and the minima are attained |
| HwBatch.WithUVLimits | src/core/gpu_hw.cpp:174-177 | every vertex gets the packed limits and keeps everything else |
| HwBatch.TriangleBounds | src/core/gpu_hw.cpp:1679-1710 | the triangle's bounding box contains its three vertices |
| HwBatch.TriangleBoundsTight | src/core/gpu_hw.cpp:1679-1710 | each edge of the bounding box is attained by a vertex |
| HwBatch.PolygonEmitted | src/core/gpu_hw.cpp:1679-1744 | a polygon emits 0, 3 or 6 vertices (at most 3 for a triangle), all of them its own |
| HwBatch.TriangleClip | src/core/gpu_hw.cpp:1694-1701 | the area a triangle writes lies inside the drawing area (inclusive right and bottom) and is non-empty |
| HwBatch.PolygonWrites | src/core/gpu_hw.cpp:1679-1744 | a polygon writes at most two areas, one per triangle drawn |
| HwBatch.QuadVertices | src/core/gpu_hw.cpp:1814-1848 | a sub-quad becomes six vertices carrying the depth, colour, texture page and the packed UV limits of its page-relative texel range |
| HwBatch.QuadsVertices | src/core/gpu_hw.cpp:1814-1848 | six vertices per sub-quad |
| HwBatch.RectangleQuadsInPage | src/core/gpu_hw.cpp:1814-1848 | the sub-quads a rectangle is split into each sample within one texture page |
| HwBatch.RectangleVertices | src/core/gpu_hw.cpp:1814-1848 | a rectangle's vertices are six per sub-quad of its split |
| HwBatch.RectangleExtent | src/core/gpu_hw.cpp:1776-1806 | the size is 1, 8 or 16 for the fixed sizes, or the command's width masked to 10 bits and height masked to 9 bits; always below the VRAM size |
| HwBatch.RectangleCullOnlyVariable | src/core/gpu_hw.cpp:1776-1809 | no rectangle size, fixed or read from the command, reaches the maximum primitive size, so the too-large cull never fires |
| HwBatch.RectangleShapeOf | src/core/gpu_hw.cpp:1766-1809 | the position is the offset position truncated to 11 signed bits, the texture origin is the texcoord word's bytes (zero when untextured), and the size is the command's extent |
| HwBatch.RowQuadsInPage | src/core/gpu_hw.cpp:1814-1848 | the sub-quads of one row stay within one texture page |
| HwBatch.SegmentVertices | src/core/gpu_hw.cpp:1936-2001 | a segment that is not culled adds the six vertices of its line, and a culled one adds none |
| HwBatch.PolylineVertexCount | src/core/gpu_hw.cpp:1936-2005 | a polyline of n points adds at most 6 vertices per segment |
| HwBatch.SegmentClip | src/core/gpu_hw.cpp:1972-1987 | the bounding box of a segment's two offset end points, clipped to the drawing area (no contract of its own: SegmentClipInArea states where it lies) |
| HwBatch.SegmentClipInArea | src/core/gpu_hw.cpp:1914-1920 | a segment's clipped box is never empty and lies inside the drawing area, so the dirty area grows only by drawn pixels |
| HwBatch.IncludeSegment | src/core/gpu_hw.cpp:1975-1987 | the dirty rectangle keeps what it covered and, for a drawn segment, grows to cover its clipped area |
| HwBatch.PolylineDirty | src/core/gpu_hw.cpp:1936-2005 | the dirty rectangle after a polyline covers the old one and stays valid |
| HwBatch.PolylineDirtyCoversSegments | src/core/gpu_hw.cpp:1936-2005 | the dirty rectangle after a polyline covers the clipped area of every segment it drew |
| HwBatch.AsWrittenResetBreaksTracking | src/core/gpu_hw.cpp:246-263 | as written, a reset that clears VRAM leaves the page marked dirty against an invalid dirty rectangle, and a cell such as (0, 0) drops out of the tracking |
| HwBatch.ResetKeepsTracking | src/core/gpu_hw.cpp:686-696 | the corrected reset keeps the tracking consistent, marks all of VRAM dirty when VRAM is cleared, and otherwise agrees with the source |
| HwBatch.CopyVRAMUsesShader | src/core/gpu_hw.cpp:2447-2451 | a copy uses the shader whenever masking is on or the area is wider or taller than VRAM, and never without masking when both windows lie inside VRAM |
| HwBatch.DirectCopyDoesNotWrap | src/core/gpu_hw.cpp:2447-2451 | a copy without the shader has no masking and wraps no VRAM edge, so both transfer bounds are the plain extents |
| HwBatch.DirectCopyDestination | src/core/gpu_hw.cpp:2511-2512 | the direct copy's clamped destination equals its transfer bounds |
| HwBatch.TransferDepthStep | src/core/gpu_hw.cpp:2382-2386 | the depth counter advances by one exactly when the mask is checked, except on the shader copy path with the PGXP depth buffer |
| HwBatch.AsWrittenFillMissesWrappedColumns | src/core/gpu_hw.cpp:2289-2290 | as written, a fill at x = 1008 of width 32 draws columns 0..15 but leaves them out of the dirty rectangle |
| HwBatch.FillDirty | src/core/gpu_hw.cpp:2289-2296 | the corrected dirty area of a fill lies inside VRAM |
| HwBatch.FillDirtyCoversFill | src/core/gpu_hw.cpp:2289-2296 | the corrected dirty area contains every VRAM cell the fill writes, wrapped ones included, and covers the source's clamped area |
| RectangleSplit.Spans | src/core/gpu_hw.cpp:1814-1848 | a rectangle's extent along one axis is split into no spans exactly when it is empty (SpansTile and SpansTotal state the tiling) |
| RectangleSplit.SpansStep | src/core/gpu_hw.cpp:1814-1848 | the next span runs to the page boundary or to the end of the rectangle, whichever comes first, and the rest starts at the next page |
| RectangleSplit.SpansTile | src/core/gpu_hw.cpp:1814-1848 | the spans cover the rectangle's length contiguously, without gaps or overlap |
| RectangleSplit.SpansTotal | src/core/gpu_hw.cpp:1814-1848 | the span lengths add up to the rectangle's length |
| RectangleSplit.SpanCount | src/core/gpu_hw.cpp:1814-1848 | the number of spans times 256 is at most the start plus the length, rounded up to a page |
| RectangleSplit.RowQuads | src/core/gpu_hw.cpp:1814-1848 | one sub-quad per column span, all on the given row |
| RectangleSplit.GridQuadsLength | src/core/gpu_hw.cpp:1814-1848 | the grid has one sub-quad per column-row pair |
| RectangleSplit.SplitRectangle | src/core/gpu_hw.cpp:1814-1848 | the nested loops produce exactly the grid of sub-quads, row by row |
| RectangleSplit.SplitRow | src/core/gpu_hw.cpp:1814-1848 | the inner loop produces the sub-quads of one row, column by column |
| RectangleSplit.RectangleFitsReservedSpace | src/core/gpu_hw.cpp:1812 | a rectangle's sub-quads need at most the 90 vertices reserved for it |
| RectangleSplit.RectangleGridBounds | src/core/gpu_hw.cpp:1814-1848 | a rectangle below the maximum primitive size splits into at most 5 columns and 3 rows |
| RectangleSplit.QuadsStayInPage | src/core/gpu_hw.cpp:1814-1848 | every sub-quad's texel range lies within one page, has the sub-quad's size and lies within the rectangle |
| RectangleSplit.GridQuadsMember | src/core/gpu_hw.cpp:1814-1848 | each sub-quad is built from one column span and one row span |
| RectangleSplit.TiledEnds | src/core/gpu_hw.cpp:1814-1848 | every span lies within the rectangle's extent |
| TexPageOverlap.TextureDepth | src/core/gpu_hw.cpp:2072-2073 | the colour-depth field of the texture page, below 4 |
| TexPageOverlap.TexelsPerHalfword | src/core/gpu_hw.cpp:2072-2073 | a VRAM halfword holds 4, 2 or 1 texels |
| TexPageOverlap.ShiftAdd | src/core/gpu_hw.cpp:2072-2073 | the shift and round-up add of each table row: 2 and 3 for row 0, 1 and 1 for row 1, none for rows 2 and 3 |
| TexPageOverlap.TableIndexAsWritten | src/core/gpu_hw.cpp:2072-2073 | as written, the table row is 0 or 2, and 2 exactly when the depth is at least 15-bit |
| TexPageOverlap.TableIndex | src/core/gpu_hw.cpp:2072-2073 | the corrected table row is the page's colour depth |
| TexPageOverlap.SampledRange | src/core/gpu_hw.cpp:2074-2083 | the sampled VRAM rows are the windowed V limits offset by the page's vertical base |
| TexPageOverlap.SampledRangeAsWritten | src/core/gpu_hw.cpp:2072-2083 | the source's range agrees with the range of the page's own depth on every page except 8-bit ones |
| TexPageOverlap.CorrectedRangeHoldsSampledTexels | src/core/gpu_hw.cpp:2063-2087 | the corrected range starts at the halfword of the windowed minimum U and ends at, or one past, the halfword of the windowed maximum U |
| TexPageOverlap.AsWrittenMissesEightBitTexels | src/core/gpu_hw.cpp:2072-2073 | as written, an 8-bit page sampling u in 8..255 gets columns u/4..(u+3)/4, short of the texel's halfword u/2 |
| TexPageOverlap.SampledRect | src/core/gpu_hw.cpp:2084-2087 | the rectangle contains every halfword of the range, maxima included |
| TexPageOverlap.IncludeSampled | src/core/gpu_hw.cpp:2087 | the grown UV range covers the old one and the rectangle of the sampled range |
| TexPageOverlap.AsWrittenRangeMissesItsTexel | src/core/gpu_hw.cpp:2087 | as written, a one-texel 15-bit range adds a rectangle that does not meet its own texel; the corrected include does |
| TexPageOverlap.AsWrittenIncludeDropsLastColumnAndRow | src/core/gpu_hw.cpp:2087 | as written, on any colour depth, no texel of a range's last column or last row is in the UV range it starts; the corrected include holds every texel of the range |
| TexPageOverlap.EightBitRangesApart | src/core/gpu_hw.cpp:2072-2087 | on an 8-bit page the as-written and corrected ranges lie apart (columns at most 64 against at least 100 for texels 200..255), and a dirty area at columns 55..59 meets the as-written UV range but not the corrected one |
| TexPageOverlap.IncludeSampledMeetsDirtyTexels | src/core/gpu_hw.cpp:2084-2090 | after the corrected include, a dirty area holding any sampled halfword intersects the UV range |
| TexPageOverlap.WindowedFull | src/core/gpu_hw.cpp:1446-1466 | the full texture window (AND 0xFF, OR 0) leaves a byte coordinate unchanged |
| GpuHardware.CommandTextureMode | src/core/gpu_hw.cpp:2582-2592 | the texture mode is Disabled exactly when the command is untextured; otherwise the page's mode, with the raw bit exactly when the command asks for raw texturing |
| GpuHardware.CommandTransparency | src/core/gpu_hw.cpp:2597-2598 | the page's transparency when the command is semi-transparent, Disabled otherwise |
| GpuHardware.CommandDithering | src/core/gpu_hw.cpp:2599 | a command dithers exactly when true colour is off, the command dithers and the status register enables dithering |
| GpuHardware.NeedsNewBatch | src/core/gpu_hw.cpp:2600-2603 | a command whose texture mode, transparency or dithering differs from the batch's always needs a new batch; one whose modes match needs one exactly when it subtracts the foreground from the background without framebuffer fetch |
| GpuHardware.BatchFor | src/core/gpu_hw.cpp:2609-2647 | a new batch takes the command's modes and the status register's mask and interlacing bits, and keeps the depth buffer setting |
| GpuHardware.BatchUniforms | src/core/gpu_hw.cpp:2612-2658 | the uniforms take the mode's alpha factors, the mask bit, the displayed field when interlaced, and the window when it changed; the rest is kept |
| GpuHardware.EncodedWidth | src/core/gpu_hw.cpp:2337 | the readback's encoded width is half the transfer width rounded up |
| GpuHardware.LoadedPolygon | src/core/gpu_hw.cpp:1618-1674 | one native-position batch vertex per polygon vertex |
| GpuHardware.WritesTrackedInclude | src/core/gpu_hw.cpp:2049-2061 | after including an area, every written area, the new one included, lies inside the dirty rectangle |
| GpuHardware.WritesTrackedAt | src/core/gpu_hw.cpp:2049-2061 | each tracked write lies inside VRAM and inside the dirty rectangle |
| GpuHardware.WritesTrackedWithin | src/core/gpu_hw.cpp:2049-2061 | writes tracked by a dirty rectangle are tracked by any rectangle covering it |
| GpuHardware.QuadsCoveredGrow | src/core/gpu_hw.cpp:2084-2087 | sub-quads covered by a UV range stay covered when the range grows |
| GpuHardware.QuadsCoveredAppend | src/core/gpu_hw.cpp:1814-1848 | covered sub-quad lists concatenate |
| GpuHardware.UntouchedWhenClean | src/core/gpu_hw.cpp:2457-2458 | an area that does not intersect the dirty rectangle was not written since the last refresh |
| GpuHardware.GpuHw.constructor | src/core/gpu_hw.cpp:202-244 | a new renderer is valid, with the buffer unmapped, all of VRAM dirty, the depth counter at 1, UV-range computation following UV clamping, and the page marked changed |
| GpuHardware.GpuHw.Granted | src/core/gpu_hw.cpp:1315-1326 | the device grants at least the space asked for |
| GpuHardware.GpuHw.MapBatchVertexPointer | src/core/gpu_hw.cpp:1315-1326 | the buffer is mapped empty with at least the required space and the map is logged |
| GpuHardware.GpuHw.UnmapBatchVertexPointer | src/core/gpu_hw.cpp:1328-1335 | the buffer is unmapped and the vertices written are handed to the device |
| GpuHardware.GpuHw.AddVertices | src/core/gpu_hw.cpp:179-183 | the vertices are appended to the buffer and the stream, using up that much space |
| GpuHardware.GpuHw.DrawBatchVertices | src/core/gpu_hw.cpp:1337-1346 | one draw through the pipeline the pass and the batch select |
| GpuHardware.GpuHw.FlushRender | src/core/gpu_hw.cpp:2680-2723 | the buffer is unmapped, then, when it held vertices, the dirty uniforms are uploaded and every pass is drawn; the log grows by exactly those events |
| GpuHardware.GpuHw.DrawPendingBatch | src/core/gpu_hw.cpp:2695-2722 | dirty uniforms are uploaded before the batch's draws |
| GpuHardware.GpuHw.UploadDirtyUniforms | src/core/gpu_hw.cpp:2695-2699 | the uniforms are uploaded exactly when dirty, and are clean afterwards |
| GpuHardware.GpuHw.DrawFlushedBatch | src/core/gpu_hw.cpp:2700-2722 | the log grows by the flush draws of the batch |
| GpuHardware.GpuHw.SetScissor | src/core/gpu_hw.cpp:1305-1313 | the scissor is set to the scaled drawing area |
| GpuHardware.GpuHw.UpdateDepthBufferFromMaskBit | src/core/gpu_hw.cpp:1278-1295 | the depth buffer is reloaded from the mask bits unless the PGXP depth buffer is in use |
| GpuHardware.GpuHw.ResetBatchVertexDepth | src/core/gpu_hw.cpp:2200-2210 | with the PGXP depth buffer nothing changes; otherwise the batch is flushed, the depth buffer reloaded and the counter reset to 1 |
| GpuHardware.GpuHw.EnsureVertexBufferSpace | src/core/gpu_hw.cpp:2153-2164 | afterwards the buffer is mapped with room for the required vertices; a buffer that already had room is untouched, otherwise it is flushed and mapped anew |
| GpuHardware.GpuHw.EnsureVertexBufferSpaceForCurrentCommand | src/core/gpu_hw.cpp:2166-2198 | the steps taken are the corrected space plan of Finding B for the command's required vertices; afterwards the buffer has room and, without PGXP, the depth counter leaves room for the command |
| GpuHardware.GpuHw.ResetDepthAndMap | src/core/gpu_hw.cpp:2184-2197 | the pending batch is flushed, the depth reset and the buffer mapped empty, in that order |
| GpuHardware.GpuHw.FlushAndMap | src/core/gpu_hw.cpp:2189-2197 | the pending batch is flushed and the buffer mapped empty |
| GpuHardware.GpuHw.FlushAndRefill | src/core/gpu_hw.cpp:2089-2102 | the pending batch is flushed and the buffer remapped with the same required space |
| GpuHardware.GpuHw.ClearVRAMDirtyRectangle | src/core/gpu_hw.cpp:583-586 | the dirty rectangle becomes invalid |
| GpuHardware.GpuHw.UpdateVRAMReadTexture | src/core/gpu_hw.cpp:1244-1276 | the dirty area is copied into the read texture, after which nothing is dirty and no write is pending |
| GpuHardware.GpuHw.SetFullVRAMDirtyRectangle | src/core/gpu_hw.cpp:577-581 | all of VRAM becomes dirty and the texture page is marked changed |
| GpuHardware.GpuHw.IncludeVRAMDirtyRectangle | src/core/gpu_hw.cpp:2049-2061 | the dirty rectangle grows to include the area, the write is tracked, and the page is marked changed exactly when the area touches the texture page or palette |
| GpuHardware.GpuHw.IncludeDrawnArea | src/core/gpu_hw.cpp:1701 | a drawn area grows the dirty rectangle and is tracked as written |
| GpuHardware.GpuHw.CheckForTexPageOverlap | src/core/gpu_hw.cpp:2063-2105 | with the corrected range and include of Findings A and E: a sampled range outside the UV range is included; when the grown range meets the dirty area, the batch is flushed and the read texture refreshed; afterwards the UV range covers what is sampled |
| GpuHardware.GpuHw.CheckSampledRange | src/core/gpu_hw.cpp:2084-2102 | the same for one sampled range: it is included with the corrected include of Finding E, and a grown range meeting the dirty area causes a flush and refresh |
| GpuHardware.GpuHw.RefreshReadTexture | src/core/gpu_hw.cpp:2089-2102 | a pending batch is flushed, then the read texture is refreshed and nothing stays dirty |
| GpuHardware.GpuHw.ComputePolygonUVLimits | src/core/gpu_hw.cpp:1446-1466 | every vertex receives the packed UV limits of the polygon, and the UV range covers the texels they sample, taken by the corrected range of Finding A |
| GpuHardware.GpuHw.PolygonLimitsOf | src/core/gpu_hw.cpp:1446-1460 | the limits gathered over the vertex array are the polygon's UV limits over its vertices |
| GpuHardware.GpuHw.StoreUVLimits | src/core/gpu_hw.cpp:1464-1466 | every vertex of the array gets the packed limits and nothing else changes |
| GpuHardware.GpuHw.SetBatchDepthBuffer | src/core/gpu_hw.cpp:1468-1480 | the batch's depth-buffer setting becomes the argument, flushing the pending batch first when it changes |
| GpuHardware.GpuHw.LoadPolygon | src/core/gpu_hw.cpp:1618-1764 | the polygon's vertices are built, the depth setting settled and, when the drawing area is valid, its triangles are emitted and their areas tracked |
| GpuHardware.GpuHw.SettlePolygonDepth | src/core/gpu_hw.cpp:1653-1667 | the batch uses the depth buffer exactly when PGXP supplies valid depth |
| GpuHardware.GpuHw.BuildAndEmitPolygon | src/core/gpu_hw.cpp:1631-1764 | the polygon is built and emitted |
| GpuHardware.GpuHw.BuildPolygon | src/core/gpu_hw.cpp:1631-1674 | the built vertices are the loaded polygon, with UV limits when they are computed |
| GpuHardware.GpuHw.NewPolygonVertices | src/core/gpu_hw.cpp:1631-1651 | a fresh array holds the polygon's vertices as first set, and every texture coordinate fits in a byte |
| GpuHardware.GpuHw.EmitPolygon | src/core/gpu_hw.cpp:1676-1744 | with a valid drawing area the stream grows by the polygon's emitted vertices and the written areas by its triangles' clipped areas; otherwise neither changes |
| GpuHardware.GpuHw.EmitTriangle | src/core/gpu_hw.cpp:1679-1710 | a culled triangle adds nothing; otherwise its vertices are added and its clipped area is tracked |
| GpuHardware.GpuHw.LoadRectangle | src/core/gpu_hw.cpp:1766-1873 | the shape is decoded; with a valid drawing area the depth buffer is disabled, the sub-quads' vertices emitted, the clipped area tracked and the UV range covers the sub-quads' texels (corrected range of Finding A); otherwise nothing changes |
| GpuHardware.GpuHw.DrawRectangle | src/core/gpu_hw.cpp:1811-1857 | the depth buffer is disabled, the sub-quads' vertices are emitted, the clipped area is tracked and the UV range covers the sub-quads' texels (corrected range of Finding A) |
| GpuHardware.GpuHw.EmitAndMarkRectangle | src/core/gpu_hw.cpp:1814-1857 | the sub-quads' vertices are emitted and then the clipped area is tracked |
| GpuHardware.GpuHw.MarkRectangleDrawn | src/core/gpu_hw.cpp:1850-1857 | the clipped rectangle becomes the last tracked write |
| GpuHardware.GpuHw.EmitRectangle | src/core/gpu_hw.cpp:1814-1848 | the emitted vertices are those of the rectangle's split into sub-quads |
| GpuHardware.GpuHw.EmitRectangleQuads | src/core/gpu_hw.cpp:1814-1848 | the loop emits each sub-quad's vertices in order, and the UV range covers all their texels (corrected range of Finding A) |
| GpuHardware.GpuHw.EmitQuadOfRectangle | src/core/gpu_hw.cpp:1814-1848 | after sub-quad i, the emitted vertices are those of the first i+1 sub-quads and room remains for the rest |
| GpuHardware.GpuHw.EmitSubQuad | src/core/gpu_hw.cpp:1824-1846 | one sub-quad's six vertices are added after its sampled texels are checked |
| GpuHardware.GpuHw.CheckQuadTexels | src/core/gpu_hw.cpp:1834-1838 | the sub-quad's sampled range (corrected range of Finding A) is checked against the dirty area and the UV range covers it |
| GpuHardware.GpuHw.LoadLine | src/core/gpu_hw.cpp:1875-2005 | the depth buffer is disabled and, with a valid drawing area, the segments are emitted and their clipped areas tracked |
| GpuHardware.GpuHw.EmitSegments | src/core/gpu_hw.cpp:1965-2001 | the emitted vertices, the written areas and the dirty rectangle are those of the polyline's segments |
| GpuHardware.GpuHw.DrawSegment | src/core/gpu_hw.cpp:1975-1998 | one segment's vertices are added and its clipped area is included and tracked |
| GpuHardware.GpuHw.EmitSegment | src/core/gpu_hw.cpp:1965-2001 | after segment i, the stream, the written areas and the dirty rectangle are those of the first i+1 segments |
| GpuHardware.GpuHw.LoadVertices | src/core/gpu_hw.cpp:1607-2013 | with a valid drawing area the stream grows by the command's vertices at the depth advanced when the mask is checked, with the current texture-page word; otherwise nothing is emitted; the batch keeps its texture mode, transparency and dithering |
| GpuHardware.GpuHw.LoadPayload | src/core/gpu_hw.cpp:1616-2005 | with a valid drawing area the stream grows by the vertices of the polygon, rectangle or line; otherwise nothing is emitted |
| GpuHardware.GpuHw.DispatchRenderCommand | src/core/gpu_hw.cpp:2527-2678 | after dispatch the batch draws with the command's texture mode, transparency and dithering; when the command needs a new batch and one is pending, the pending batch is drawn first; the device log only grows; with a valid drawing area exactly the command's vertices are added, otherwise none |
| GpuHardware.GpuHw.PrepareBatch | src/core/gpu_hw.cpp:2532-2675 | the command's texture mode, transparency and dithering become the batch's; a command that needs a new batch flushes the pending one and starts empty; room for the command is reserved |
| GpuHardware.GpuHw.SelectBatch | src/core/gpu_hw.cpp:2600-2675 | a command that needs a new batch flushes the pending one and starts an empty batch with its modes |
| GpuHardware.GpuHw.ReserveAndStart | src/core/gpu_hw.cpp:2607-2675 | room for the command is reserved and the batch takes the command's modes |
| GpuHardware.GpuHw.CheckTexturePageChange | src/core/gpu_hw.cpp:2532-2580 | a textured command after a page change marks the page unchanged, flushes and refreshes when the palette is dirty, and sets the dirty-page flag exactly when the page meets the dirty area; otherwise nothing changes |
| GpuHardware.GpuHw.CheckChangedPage | src/core/gpu_hw.cpp:2555-2579 | the page is marked unchanged; a dirty palette forces a flush and refresh; the dirty-page flag holds exactly when the page meets the dirty area, with UV-range computation on when it does or UVs are clamped |
| GpuHardware.GpuHw.RefreshPaletteAndMark | src/core/gpu_hw.cpp:2555-2579 | a pending batch is flushed, the read texture refreshed, and the page then marked clean |
| GpuHardware.GpuHw.MarkTexturePage | src/core/gpu_hw.cpp:2565-2579 | the dirty-page flag holds exactly when the page meets the dirty area, and a dirty page resets the UV range |
| GpuHardware.GpuHw.RefreshForPalette | src/core/gpu_hw.cpp:2555-2563 | a pending batch is flushed and the read texture refreshed |
| GpuHardware.GpuHw.StartBatch | src/core/gpu_hw.cpp:2609-2675 | the batch and uniforms become those of the command; the uniforms are marked dirty when they changed or the window changed; a changed drawing area is applied |
| GpuHardware.GpuHw.SetUniforms | src/core/gpu_hw.cpp:2612-2658 | the uniforms are replaced and marked dirty when they differ or the window changed |
| GpuHardware.GpuHw.ApplyDrawingArea | src/core/gpu_hw.cpp:2660-2674 | a changed drawing area is applied to the device, and with the PGXP depth buffer the depth buffer is cleared |
| GpuHardware.GpuHw.ClearDepthBuffer | src/core/gpu_hw.cpp:1297-1303 | the depth buffer is cleared and the last depth is no longer below the far plane |
| GpuHardware.GpuHw.RestoreDeviceContext | src/core/gpu_hw.cpp:317-324 | the scissor is restored and the uniforms must be uploaded again |
| GpuHardware.GpuHw.DrawTransfer | src/core/gpu_hw.cpp:2319-2321 | the transfer's draw is followed by restoring the device context |
| GpuHardware.GpuHw.FillVRAM | src/core/gpu_hw.cpp:2273-2322 | the corrected dirty area (the fill's transfer bounds) is included, and the fill is drawn over the scaled bounds with the oversized pipeline exactly when the fill crosses a VRAM edge |
| GpuHardware.GpuHw.ReadVRAM | src/core/gpu_hw.cpp:2324-2357 | with the software renderer nothing is drawn; otherwise the transfer bounds are read back and the device context restored |
| GpuHardware.GpuHw.UpdateVRAM | src/core/gpu_hw.cpp:2359-2428 | the transfer bounds are included; a masked write advances the depth counter; an unmasked write with a replacement blits it, and any other write is uploaded and drawn |
| GpuHardware.GpuHw.CopyVRAM | src/core/gpu_hw.cpp:2430-2525 | the depth counter steps as the mask and path say; the destination is tracked; on the path taken (shader when masking, wrapping or multisampled) the source was not written since the refresh |
| GpuHardware.GpuHw.RefreshReadTextureFor | src/core/gpu_hw.cpp:2457-2458 | afterwards the source was not written since the last refresh, and the read texture is refreshed when the dirty area met the source |
| GpuHardware.GpuHw.IncludeCopyDestination | src/core/gpu_hw.cpp:2459 | the destination becomes the last tracked write |
| GpuHardware.GpuHw.CopyVRAMWithShader | src/core/gpu_hw.cpp:2453-2499 | the destination bounds are tracked, the source bounds are untouched, and the depth counter steps as the mask and PGXP say |
| GpuHardware.GpuHw.DrawCopy | src/core/gpu_hw.cpp:2486-2493 | the copy is drawn over the scaled areas with the masked pipeline exactly when the mask is checked without PGXP, and the depth counter steps accordingly |
| GpuHardware.GpuHw.CopyVRAMDirect | src/core/gpu_hw.cpp:2501-2524 | the clamped destination is tracked; when the read texture is the source it was not written since the refresh; the copy is the last event |
| GpuHardware.GpuHw.CopyRegion | src/core/gpu_hw.cpp:2511-2524 | the scaled region copy is logged and the depth counter steps when the mask is checked |
| SoftwareCopyOut.FastPath15AsWritten | src/core/gpu_sw.cpp:207 | the 15-bit copy's fast-path guard as written, which ignores the line skip (no contract of its own: AsWrittenFastPath15Overreads and FastPathNarrowsAsWritten state what it lets through) |
| SoftwareCopyOut.FastPath | src/core/gpu_sw.cpp:271 | the 24-bit copy's fast-path guard, which the corrected 15-bit copy uses too (no contract of its own: FastPathRowsInVram states that every read it admits lies in VRAM, FastPathNarrowsAsWritten that it is never weaker than the guard as written) |
| SoftwareCopyOut.AsWrittenFastPath15Overreads | src/core/gpu_sw.cpp:207 | as written, a 200-line interlaced read from line 300 passes the guard yet reads line 698, beyond VRAM |
| SoftwareCopyOut.FastPathNarrowsAsWritten | src/core/gpu_sw.cpp:207 | the corrected guard admits only reads the source's guard admits, and the same ones when no lines are skipped |
| SoftwareCopyOut.FastPathRowsInVram | src/core/gpu_sw.cpp:206-233 | under the corrected guard every source line and word read lies inside VRAM |
| SoftwareCopyOut.FastPathReadsWrappedWord | src/core/gpu_sw.cpp:206-251 | under the corrected guard the direct read and the wrapped read fetch the same word |
| SoftwareCopyOut.AsWrittenDirectReadAgrees | src/core/gpu_sw.cpp:207-235 | under the guard as written, every direct read that stays inside VRAM fetches the word the modelled pixel takes, so the source's copy and the model's agree wherever the source reads VRAM |
| SoftwareCopyOut.CopyOut15Bit | src/core/gpu_sw.cpp:196-259 | when the display texture is ready every output pixel is the converted VRAM word at its wrapped position; otherwise nothing is written and false is returned |
| SoftwareCopyOut.CopyOut15Direct | src/core/gpu_sw.cpp:206-233 | the direct loops write every output pixel from its VRAM word |
| SoftwareCopyOut.CopyOut15Wrapped | src/core/gpu_sw.cpp:234-251 | the wrapping loops write every output pixel from its wrapped VRAM word |
| SoftwareCopyOut.WrappedLine | src/core/gpu_sw.cpp:242-248 | a line number wrapped to 32 bits selects the same VRAM line |
| SoftwareCopyOut.VramByte | src/core/gpu_sw.cpp:273 | each byte of VRAM read as bytes is below 256 |
| SoftwareCopyOut.Pack24 | src/core/gpu_sw.cpp:279-284 | three bytes pack into the low 24 bits with an opaque alpha byte |
| SoftwareCopyOut.Unpack24 | src/core/gpu_sw.cpp:302-308 | two halfwords give the pixel starting at the low byte (even) or the high byte (odd), with an opaque alpha |
| SoftwareCopyOut.LowBytes | src/core/gpu_sw.cpp:306 | the 24-bit windows of a 32-bit pair of halfwords |
| SoftwareCopyOut.Pixel24Opaque | src/core/gpu_sw.cpp:261-322 | every 24-bit output pixel, as written and corrected, has an opaque alpha byte |
| SoftwareCopyOut.PackedMatchesWrap | src/core/gpu_sw.cpp:271-313 | the byte-packed read and the halfword read give the same pixel |
| SoftwareCopyOut.PackedPixelWords | src/core/gpu_sw.cpp:273-283 | an even pixel starts at a halfword's low byte, an odd pixel at its high byte |
| SoftwareCopyOut.FastPathMatchesWrap | src/core/gpu_sw.cpp:271-313 | under the guard, the fast path and the corrected wrapping path produce the same pixel |
| SoftwareCopyOut.WrapAsWrittenAgreesOnEvenSkip | src/core/gpu_sw.cpp:297-306 | with an even pixel skip, the wrapping pixel as written equals the corrected one |
| SoftwareCopyOut.OddPixelStartsInHighByte | src/core/gpu_sw.cpp:302-305 | pixel p starts at byte 3p, in halfword 3p/2, on the high byte exactly when p is odd |
| SoftwareCopyOut.PackMatchesUnpack | src/core/gpu_sw.cpp:279-308 | packing bytes and unpacking halfwords agree |
| SoftwareCopyOut.WrapReadsWords | src/core/gpu_sw.cpp:302-304 | without wrap-around the wrapping path reads the same two halfwords as the packed path |
| SoftwareCopyOut.PackedBytes | src/core/gpu_sw.cpp:273-283 | the bytes of a halfword pair are its low and high bytes in order |
| SoftwareCopyOut.AsWrittenWrapMisplacesOddSkip | src/core/gpu_sw.cpp:305 | as written, with an odd horizontal skip the wrapping path reads 0x34ABCD where the fast path reads 0x1234AB |
| SoftwareCopyOut.TwoWords | src/core/gpu_sw.cpp:290-313 | the VRAM image of the counterexample is a well-formed VRAM image |
| SoftwareCopyOut.FastPath24CanOverrun | src/core/gpu_sw.cpp:271-289 | a full-width read of the last line passes the guard yet its last byte read lies past the end of VRAM |
| SoftwareCopyOut.CopyOut24Bit | src/core/gpu_sw.cpp:261-322 | when the display texture is ready every output pixel is the 24-bit pixel at its position after the skip; otherwise nothing is written and false is returned |
| SoftwareCopyOut.CopyOut24Packed | src/core/gpu_sw.cpp:271-289 | the fast loops write every output pixel |
| SoftwareCopyOut.CopyLinePacked | src/core/gpu_sw.cpp:277-285 | one line's pixels are written and every other line is unchanged |
| SoftwareCopyOut.CopyOut24Wrapped | src/core/gpu_sw.cpp:290-313 | the wrapping loops write every output pixel |
| SoftwareCopyOut.CopyLineWrapped | src/core/gpu_sw.cpp:297-309 | one wrapped line's pixels are written and every other line is unchanged |
| SoftwareCopyOut.ReadWrappedPixel | src/core/gpu_sw.cpp:302-308 | the pixel read is the wrapped pixel of the line: the two halfwords at its wrapped offset, unpacked from the high byte when the pixel index is odd (the corrected parity of Finding G) |
| SoftwareCopyOut.CopyOut | src/core/gpu_sw.cpp:324-355 | dispatches to the 15-bit or 24-bit copy-out and promises what that one promises |
| SoftwareCopyOut.DisplayCopy | src/core/gpu_sw.cpp:357-408 | nothing is copied exactly when the display is off and VRAM is not shown; showing VRAM copies all of it; otherwise the displayed area, half its height when interlaced, from column `x` with a skip of `vramLeft - x` pixels in 24-bit mode and from `vramLeft` without skip otherwise, skipping every other line and starting at the shown field's line exactly when interlaced and interleaved |
| SoftwareCopyOut.InterleavedReadsShownField | src/core/gpu_sw.cpp:367-379 | an interleaved display reads only the lines of the shown field |
| SoftwareCopyOut.UpdateDisplay | src/core/gpu_sw.cpp:357-408 | the display is cleared exactly when nothing is to be copied or no display texture can be had (the fetch clears it before failing), and otherwise shows a fresh texture holding the copied area |

## Left out

- Floating-point vertex positions, PGXP precise coordinates and normalized depth are not modelled: positions are integers and whether PGXP gave a valid w is an input (`validW`). `CheckForDepthClear` (gpu_hw.cpp:1482, called at 1666) and `HandleFlippedQuadTextureCoordinates` (gpu_hw.cpp:1356, called at 1671) are therefore not modelled.
- The geometry of thick lines (`DrawLine`'s float outline, gpu_hw.cpp:1518-1605) is reduced to its four corner vertices and their order.
- Texture replacement is a flag (`replaced`) telling whether a replacement was blitted.
- Shader source generation, pipeline objects, sampler setup, statistics, the on-screen display and SIMD code are not modelled.
- Deinterlacing, chroma smoothing and the display pipelines are not modelled. Downsampling is modelled only as the size arithmetic (`GetBoxDownsampleScale`, `GetAdaptiveDownsamplingMipLevels`, `BoxDownsampleRect`).
- `CalculateResolutionScale` is left out; the resolution scale is an input.
- The software renderer thread and its command queue are not modelled. Readbacks through it are the `softwareReadbacks` flag.
- `GetDisplayTexture` and the texture's `Map`/`Update` calls are reduced to whether the display texture is ready (`textureReady`). The per-format pixel conversion of `CopyOut15Bit` is the uninterpreted function `convert`.
- The colour of a fill and the uniform contents of transfer draws are not modelled; only their bounds and pipelines are.
- Save states and `Reset` are modelled only through their effect on the dirty-rectangle tracking. The source's reset empties the dirty rectangle (`ResetDirtyTrackingAsWritten`, gpu_hw.cpp:686-696, which calls 583-586); the model's `ResetDirtyTracking` marks all of VRAM dirty instead, which is the correction of Finding C, because the emptied rectangle leaves a stale read texture untracked.
- SoftwareCopyOut.CopyOut15Bit: the coordinates are assumed to fit the 32-bit sums the source forms (`srcX + width < 2^32`) and `lineSkip < 32`. It chooses its path by the corrected guard of Finding F, where the source tests `src_y + height` (gpu_sw.cpp:207). The pixels do not depend on the path: `AsWrittenDirectReadAgrees` shows the source's direct reads give the modelled pixels wherever they stay inside VRAM, and the reads past VRAM that the guard as written lets through have no defined value to model.
- SoftwareCopyOut.CopyOut24Bit: bytes the fast path reads past the end of VRAM are taken as 0 (see `FastPath24CanOverrun`); the source reads whatever memory follows VRAM there. Its wrapping path shifts by the parity of `skip_x + col`, the correction of Finding G; the source shifts by `col & 1` (gpu_sw.cpp:305). The two agree whenever the skip is even (`WrapAsWrittenAgreesOnEvenSkip`); for an odd skip the source's pixels are `Pixel24WrapAsWritten`, computed by no method here.
- GpuHardware.GpuHw.ComputePolygonUVLimits: the coverage of sampled texels by the UV range is of the corrected range of Finding A, and is stated here and at `BuildPolygon`, not carried up to `LoadVertices`.
- GpuHardware.GpuHw.CheckForTexPageOverlap: runs the corrected check of Findings A and E (shift row `(texpage >> 7) & 3`, sampled maxima included as max + 1). The source uses row `(texpage >> 7) & 2` and includes the maxima as exclusive edges (gpu_hw.cpp:2072-2073, 2087), and differs from the model in three ways. (1) On 8-bit pages its range lies in other columns than the model's (`EightBitRangesApart`: columns 50..64 against 100..128 for texels 200..255), so each can flush where the other does not, and from then on the two UV ranges stay different for every later check. (2) On every colour depth its include leaves out the last column and the last row of the range (`AsWrittenIncludeDropsLastColumnAndRow`), so a dirty area holding only those texels is missed, and a range one row high adds no row to an empty UV range. (3) The as-written range `SampledRangeAsWritten` equals the corrected one on 4-bit and 15-bit pages, but its include `IncludeSampledAsWritten` still differs there as in (2).
- GpuHardware.GpuHw.CheckSampledRange: includes with `IncludeSampled` (max + 1, Finding E) where the source includes min..max (gpu_hw.cpp:2087).
- GpuHardware.GpuHw.BuildPolygon: the UV-range coverage it promises is of the corrected range of Finding A.
- GpuHardware.GpuHw.LoadRectangle: the UV-range coverage it promises is of the corrected range of Finding A; the source's range differs on 8-bit pages.
- GpuHardware.GpuHw.DrawRectangle: as for `LoadRectangle`, the coverage is of the corrected range of Finding A.
- GpuHardware.GpuHw.EmitAndMarkRectangle: as for `LoadRectangle`, the coverage is of the corrected range of Finding A.
- GpuHardware.GpuHw.EmitRectangle: as for `LoadRectangle`, the coverage is of the corrected range of Finding A.
- GpuHardware.GpuHw.EmitRectangleQuads: the loop's coverage invariant is of the corrected range of Finding A.
- GpuHardware.GpuHw.EmitQuadOfRectangle: the coverage it extends is of the corrected range of Finding A.
- GpuHardware.GpuHw.EmitSubQuad: the texel check before the six vertices is the corrected check of Findings A and E.
- GpuHardware.GpuHw.CheckQuadTexels: checks and covers the corrected range of Finding A, included with max + 1 (Finding E).
- GpuHardware.GpuHw.EnsureVertexBufferSpaceForCurrentCommand: runs the corrected plan of Finding B. With the PGXP depth buffer and a depth counter that would overflow, the source takes the overflow branch, whose reset returns at once, and maps the vertex buffer while it is still mapped (gpu_hw.cpp:2184-2197, 2202-2203); the model skips the overflow branch there and applies the room check. `AsWrittenMapsWhileMapped` exhibits the source's behaviour; a double map has no meaning in the model's buffer state.
- GpuHardware.GpuHw.FillVRAM: marks dirty the fill's transfer bounds, the correction of Finding D. The source marks the fill's extents clamped to VRAM (gpu_hw.cpp:2289-2290), which miss the columns and rows a wrapping fill writes; `FillDirtyCoversFill` shows the model's area covers the source's.
- GpuHardware.GpuHw.DispatchRenderCommand: the depth the command's vertices carry is returned as a ghost value rather than stated; it is the counter after the batch is prepared, moved on by one when the mask is checked.
- SoftwareCopyOut.CopyOut24Wrapped: writes the corrected wrapping pixels of Finding G, as for `CopyOut24Bit`.
- SoftwareCopyOut.CopyLineWrapped: shifts by the parity of `skipX + col` (Finding G) where the source shifts by `col & 1`.
- SoftwareCopyOut.ReadWrappedPixel: shifts by the parity of the pixel index `skipX + col` (Finding G) where the source shifts by `col & 1` (gpu_sw.cpp:305).
- SoftwareCopyOut.CopyOut: promises what the corrected `CopyOut15Bit` and `CopyOut24Bit` promise (Findings F and G).
- SoftwareCopyOut.UpdateDisplay: in 24-bit mode with an odd pixel skip, the texture shown holds the corrected wrapping pixels of Finding G, not the source's.
- The too-large cull of rectangles (gpu_hw.cpp:1798-1802) can never fire, because the size is masked to 10 and 9 bits first (`RectangleCullOnlyVariable`); the model has no such early return.

## Findings

The rows below are Findings A to G, in order. The rest of the model uses each row's corrected member; every operation that therefore behaves differently from the source is named under "## Left out".

| source | as written | input that shows it | evidently intended | confidence | as-written member | corrected member |
|---|---|---|---|---|---|---|
| src/core/gpu_hw.cpp:2072-2073 | the shift table row is `(texpage >> 7) & 2`, which is only 0 or 2, so 8-bit pages use the 4-bit row | an 8-bit page sampling only u = 200: the range covers halfword column 50, but the texel lives in column 100 | the row is the colour depth `(texpage >> 7) & 3` | not executed | TexPageOverlap.AsWrittenMissesEightBitTexels | TexPageOverlap.CorrectedRangeHoldsSampledTexels |
| src/core/gpu_hw.cpp:2184-2197 | with the PGXP depth buffer, the overflow branch calls `ResetBatchVertexDepth`, which returns without flushing, then maps the buffer while it is still mapped | depth 65000, 600 vertices required, a mapped batch, PGXP depth buffer on | take the overflow branch only when the reset happens, otherwise fall through to the space check | not executed | HwBatch.AsWrittenMapsWhileMapped | HwBatch.EnsureSpacePlanSound |
| src/core/gpu_hw.cpp:246-263 | `Reset` clears the framebuffer, which clears the dirty rectangle (line 690) without refreshing the read texture, while the texture-page flag may stay set | a dirty area holding drawn pixels, then a reset: the stale read texture no longer meets any dirty area | refresh the read texture, or keep the dirty area, when clearing | not executed | HwBatch.AsWrittenResetBreaksTracking | HwBatch.ResetKeepsTracking |
| src/core/gpu_hw.cpp:2289-2290 | the dirty area of a fill is its extents clamped to VRAM, which misses the columns or rows a wrapping fill writes | a fill at x = 1008, width 32, height 16: columns 0..15 are written but not dirty | include the transfer bounds, which cover the wrap | not executed | HwBatch.AsWrittenFillMissesWrappedColumns | HwBatch.FillDirtyCoversFill |
| src/core/gpu_hw.cpp:2084-2087 | the inclusive maxima of the sampled range are included as the exclusive right and bottom | a one-texel range, min = max: the included rectangle is empty and meets no dirty area | include max + 1 | not executed | TexPageOverlap.AsWrittenRangeMissesItsTexel | TexPageOverlap.IncludeSampledMeetsDirtyTexels |
| src/core/gpu_sw.cpp:207 | the 15-bit fast path's guard tests `src_y + height`, ignoring `line_skip` | an interlaced read (line skip 1) of 200 lines from line 300 passes the guard and reads line 698 | test `src_y + (height << line_skip)`, as the 24-bit guard does | not executed | SoftwareCopyOut.AsWrittenFastPath15Overreads | SoftwareCopyOut.FastPathRowsInVram |
| src/core/gpu_sw.cpp:305 | the wrapping 24-bit path picks the byte within a halfword by `col & 1` instead of the pixel's parity `(skip_x + col) & 1` | skip 1, VRAM starting 0xABCD, 0x1234: the fast path gives 0x1234AB, the wrapping path 0x34ABCD | shift by the parity of `skip_x + col` | not executed | SoftwareCopyOut.AsWrittenWrapMisplacesOddSkip | SoftwareCopyOut.FastPathMatchesWrap |
