# Software rasterizer of the dual (software / hardware) renderer, modelled in Dafny

This project models the discrete core of the renderer's software path: the per-frame reset of
the colour and depth buffers, the rebuild of the transformed-vertex cache, triangle assembly for
triangle lists and strips, the whole-triangle view-volume cull, the clamped pixel bounding box,
the edge-function coverage test, barycentric weights, the interpolated depth and the depth test,
perspective-correct attribute interpolation, nearest-neighbour texture sampling, and the
mode/toggle state machine driven by the function keys.

Geometry is exact: all coordinates are Dafny `real`s, so IEEE single-precision rounding is not
modelled. `static_cast<int>` is written out as truncation toward zero. The conversion to `Uint32`
in the texture sampler is truncation as well, but it is defined only where the truncated value
lies in [0, 2^32), so the sampler's domain is exactly that; the texel index `x + y * w` it then
computes in `Uint32` is taken modulo 2^32, and texture dimensions are bounded by the `int` fields
of the surface they come from. Loop counters and corner positions are unbounded integers; only the
parity test of the strip loop is done on a 64-bit value (`bv64`), as on the `size_t` counter.

Modules, one per component:

- `Geometry` (geometry.dfy): vectors, colours, `Vertex`, `VertexOut` (`Vertex_Out`) and
  `PrimitiveTopology`.
- `Numeric` (numeric.dfy): truncation, `std::clamp`, the row-major index `x + y * width`, FLT_MAX.
- `Modes` (modes.dfy): the `SystemMode`, `RenderMode` and `ColorMode` enumerations, each with its
  END sentinel kept as a constructor, the renderer's switches, and the `Switch*` / `Toggle*`
  handlers. `Initial` describes the state after construction: system mode Software, the boolean
  members at their initialisers, render and colour modes in range but otherwise unknown (they
  have no initialiser).
- `Input` (input.dfy): the event loop's `SDL_KEYUP` dispatch as a pure (state, event) -> state function.
- `Assembly` (assembly.dfy): list and strip assembly, as reference definitions and as the two
  loops of `SoftWareRender`.
- `Cull` (cull.dfy): `IsInsideFrustrum` (true for a point OUTSIDE the volume) and the triangle cull.
- `Coverage` (coverage.dfy): screen mapping, edge functions, weights, bounding box, interpolated depth.
- `Interpolation` (interpolation.dfy): perspective-correct interpolation of the vertex attributes.
- `Raster` (raster.dfy): the frame buffers, the depth test and `RenderTriangle`.
- `Pipeline` (pipeline.dfy): the vertex cache rebuild and `SoftWareRender` for one mesh.
- `Texture` (texture.dfy): `Texture::Sample` as written, with its 32-bit texel index, and a
  clamped sampler next to it.

Parameters stand for code that is foreign or not part of this model: the projection stage's
matrix maps (`Pipeline.VertexStage`), `Vector3::Normalized`, and the colour a pixel receives
(`Raster.Shader`), which covers `PixelShading`, `Lambert`, `Phong`, `Utils::Remap`, `MaxToOne`
and the byte conversion.

Some behaviour of the code differs from what its names or a casual reading suggest; the model
follows the code:

- The depth test discards a fragment only when the stored depth is strictly smaller
  (source/Renderer.cpp:400), so a fragment at exactly the stored depth overwrites it.
- The depth buffer is reset to FLT_MAX, not to infinity (source/Renderer.cpp:256).
- The coverage sample point of pixel (px, py) is the integer corner (px, py), with no
  half-pixel offset (source/Renderer.cpp:375).
- The bounding box is half-open, `[start, end)`, with `end` being the truncated maximum plus one.
- The system mode starts as Software (source/Renderer.cpp:32); the colour mode has no default.

## Model

| member | source | states |
|---|---|---|
| Modes.NextSystemMode | source/Renderer.cpp:223-226 | (mode + 1) % END always yields a live mode, never END, and changes every live mode |
| Modes.NextRenderMode | source/Renderer.cpp:206-209 | (mode + 1) % END always yields a live render mode and changes every live one |
| Modes.NextColorMode | source/Renderer.cpp:210-213 | (mode + 1) % END always yields a live colour mode and changes every live one |
| Modes.SystemModeToggleInvolution | source/Renderer.h:16-22 | with two live system modes, toggling twice is the identity and lands on Hardware or Software |
| Modes.RenderModeAlternates | source/Renderer.h:24-30 | cycling the render mode alternates between Texture and DepthBuffer |
| Modes.ColorModePeriodFour | source/Renderer.h:32-40 | colour modes cycle observedArea, Diffuse, Specular, Combined and return after exactly four steps, not fewer |
| Modes.InitialIsLive | source/Renderer.cpp:32 | the renderer right after construction is in Software mode with all three modes in range |
| Modes.ToggleSystemMode | source/Renderer.cpp:223-226 | the system mode becomes a different live mode; nothing else changes |
| Modes.SwitchRenderMode | source/Renderer.cpp:206-209 | the render mode becomes live and differs from a live previous one; nothing else changes |
| Modes.SwitchColorMode | source/Renderer.cpp:210-213 | the colour mode becomes live and differs from a live previous one; nothing else changes |
| Modes.SwitchTechnique | source/Renderer.cpp:201-205 | one more technique switch is requested of the hardware effects; nothing else changes |
| Modes.ToggleNormals | source/Renderer.cpp:215-218 | the normal-mapping flag flips; nothing else changes |
| Modes.ToggleRotation | source/Renderer.cpp:219-222 | the rotation flag flips; nothing else changes |
| Modes.ToggleUniformClearColor | source/Renderer.cpp:231-234 | the clear-colour flag flips; nothing else changes |
| Modes.ToggleFireMesh | source/Renderer.cpp:238-241 | the fire-mesh flag flips; nothing else changes |
| Modes.BooleanTogglesAreInvolutions | source/Renderer.cpp:215-241 | applying any boolean toggle twice restores the state |
| Input.OnKeyUp | source/main.cpp:58-101 | only F1 changes the system mode, every key keeps the three modes in range, a key requests at most one technique switch, and no key changes the bounding-box switch |
| Input.PollEvents | source/main.cpp:51-104 | a queue without key-up events leaves the renderer's switches unchanged, and a stopped loop stays stopped |
| Input.StartupModesStayLive | source/main.cpp:51-104 | from the state right after construction, every event sequence keeps all three modes in range |
| Input.OnEvent | source/main.cpp:53-103 | a quit event stops the loop without touching the renderer, a key-up keeps the loop flag, any other event changes nothing |
| Input.GlobalKeys | source/main.cpp:61-98 | F1 toggles the system mode, F2 the rotation and F10 the clear colour in either system mode, changing nothing else |
| Input.HardwareOnlyKeys | source/main.cpp:65-74 | F3 (fire mesh) and F4 (technique) change the state if and only if the system mode is Hardware |
| Input.SoftwareOnlyKeys | source/main.cpp:75-89 | F5 (colour mode), F6 (normals) and F7 (render mode) change the state if and only if the system mode is Software |
| Input.InertKeys | source/main.cpp:90-100 | F8, F9, F11 and unbound keys reach empty handlers and leave the state unchanged |
| Input.KeysPreserveLive | source/main.cpp:51-104 | draining any event queue keeps all three modes in range |
| Input.QuitStopsLoop | source/main.cpp:51-57 | after a queue is drained the loop runs on if and only if it was running and the queue held no quit event |
| Assembly.XorDetectsOddIndex | source/Renderer.cpp:284 | the 64-bit test (i ^ 1) != i + 1 holds exactly when i is odd, wrap-around included |
| Assembly.AssembleList | source/Renderer.cpp:295-304 | the list loop emits n / 3 triangles, the k-th being positions 3k, 3k+1, 3k+2 |
| Assembly.AssembleStrip | source/Renderer.cpp:277-293 | the strip loop with its size_t parity test emits max(0, n - 2) windows, swapping the last two positions on odd windows |
| Assembly.ListTrianglesPartition | source/Renderer.cpp:296-300 | list triangles read consecutive, disjoint, in-range triples; the one or two trailing positions are never read |
| Assembly.StripTrianglesWindow | source/Renderer.cpp:278-289 | strip triangle k reads position k first and positions k+1, k+2 in some order, all in range |
| Assembly.StripWindingConsistent | source/Renderer.cpp:284-289 | consecutive strip triangles traverse their shared edge in opposite directions, so the winding is consistent |
| Cull.OutsideFrustum | source/Renderer.cpp:335-338 | true if and only if the point is outside x, y in [-1, 1], z in [0, 1] |
| Cull.Culled | source/Renderer.cpp:344-347 | a triangle is kept if and only if all three vertices are inside the canonical volume |
| Coverage.ToScreen | source/Renderer.cpp:267-270 | on a non-empty screen the mapping is invertible: x / width * 2 - 1 and 1 - y / height * 2 give back the NDC coordinates |
| Coverage.EdgeValues | source/Renderer.cpp:353-378 | each edge function is zero at both endpoints of its own edge |
| Coverage.Area | source/Renderer.cpp:358 | the doubled signed area is the same from any starting vertex and changes sign when the winding is reversed |
| Coverage.Covers | source/Renderer.cpp:376-381 | a covered point is never one of the triangle's vertices |
| Coverage.ScreenOfVisiblePoint | source/Renderer.cpp:267-270 | a vertex inside the volume maps into the [0, width] x [0, height] screen rectangle |
| Coverage.EdgeValuesSumToArea | source/Renderer.cpp:353-378 | for every point the three edge values sum to the triangle area |
| Coverage.CoveredOnlyByPositiveArea | source/Renderer.cpp:376-381 | a covered pixel implies positive area; a triangle of area at most 0 covers nothing; a pixel on an edge is never covered |
| Coverage.BarycentricWeights | source/Renderer.cpp:383-385 | the weights sum to 1, and at a covered pixel each lies strictly between 0 and 1 |
| Coverage.WeightsReconstructPoint | source/Renderer.cpp:383-385 | weighting the screen vertices by the weights gives back the pixel position |
| Coverage.CoveredPointInHull | source/Renderer.cpp:360-381 | a covered point lies within the min/max of the screen vertices on both axes |
| Coverage.BoundingBox | source/Renderer.cpp:360-366 | 0 <= startX <= endX <= width and 0 <= startY <= endY <= height |
| Coverage.BoxPixelsOnScreen | source/Renderer.cpp:369-399 | every visited pixel is on screen and its index px + py * width lies in [0, width * height) |
| Coverage.CoveredPixelInBox | source/Renderer.cpp:360-381 | the widened, clamped box contains every covered on-screen pixel |
| Coverage.InterpolatedDepth | source/Renderer.cpp:387-397 | the pixel depth lies in [0, max z], and between min z and max z when no vertex depth is 0 |
| Numeric.Trunc | source/Renderer.cpp:363-366 | static_cast<int> truncates toward zero: within one unit of x, on the side of 0 |
| Numeric.Clamp | source/Renderer.cpp:363-366 | the result lies in [lo, hi], equals v inside, and the nearer bound outside |
| Numeric.IndexInRange | source/Renderer.cpp:399 | x + y * width of an on-screen pixel lies in [0, width * height) |
| Numeric.IndexInjective | source/Renderer.cpp:399 | distinct on-screen pixels have distinct linear indices |
| Numeric.IndexCovers | source/Renderer.cpp:256 | every position of a width * height buffer is the index of one on-screen pixel |
| Interpolation.PerspectiveCorrect | source/Renderer.cpp:416-433 | three equal attribute values are returned exactly, independent of the weights and of each vertex's w |
| Interpolation.EqualDepthsGiveAffineBlend | source/Renderer.cpp:416-433 | when the vertices share one w, the result is the plain barycentric blend |
| Interpolation.PerspectiveCorrectIsConvex | source/Renderer.cpp:416-433 | with positive weights and positive w the result lies between the smallest and the largest attribute value |
| Interpolation.InterpolateVec2 | source/Renderer.cpp:426-433 | a uv shared by the three vertices is returned unchanged |
| Interpolation.InterpolateVec3 | source/Renderer.cpp:437-465 | a vector shared by the three vertices is returned unchanged |
| Interpolation.InterpolateVertex | source/Renderer.cpp:424-465 | shared uv, normal, tangent and view direction pass through (the last three normalised); position and colour keep their defaults |
| Raster.ClearFrame | source/Renderer.cpp:256-261 | both buffers get width * height entries: depth FLT_MAX, colour grey 100 (grey 3 when toggled) |
| Raster.FragmentAt | source/Renderer.cpp:344-397 | a pixel gets a fragment if and only if the triangle is not culled and covers it, and its depth lies in [0, 1] |
| Raster.FragmentDepthIgnoresShader | source/Renderer.cpp:344-405 | whether a pixel receives a fragment, and at what depth, does not depend on the shader, which is consulted only after the depth test |
| Raster.DepthTest | source/Renderer.cpp:399-403 | the stored depth never increases and becomes the minimum of stored and new; a fragment at least as close (a tie included) replaces depth and colour, a farther one leaves the pixel as it was |
| Raster.DepthTestSkipsOnlyCloser | source/Renderer.cpp:400-403 | the stored pixel survives a fragment exactly when it is strictly closer (or the fragment is identical) |
| Raster.NoFragmentOutsideBox | source/Renderer.cpp:360-381 | no on-screen pixel outside the bounding box receives a fragment |
| Raster.RenderTriangle | source/Renderer.cpp:340-403 | a culled triangle changes nothing; otherwise every pixel of both buffers equals the depth test of its old value against the triangle's fragment there |
| Pipeline.TransformVertex | source/Renderer.cpp:319-331 | colour, uv and tangent are copied from the input vertex, the position is the projected one, the normal goes through the world transform and the view direction is the normalised projected position |
| Pipeline.RebuildCache | source/Renderer.cpp:312-334 | the cache holds exactly one transformed vertex per input vertex, in order, whatever it held before |
| Pipeline.AssembledCornersInRange | source/Renderer.cpp:275-305 | every assembled triangle reads positions inside the index array, for both topologies |
| Pipeline.DepthIndependentOfShader | source/Renderer.cpp:399-405 | the closest depth of every pixel over any sequence of triangles is the same for every shader: the render-mode, colour-mode and normal-map switches never change depths |
| Pipeline.ClosestDepthIsMinimum | source/Renderer.cpp:399-403 | the final depth of a pixel is at most every fragment depth it received, and is either FLT_MAX or one of them |
| Pipeline.FrameInvariantStep | source/Renderer.cpp:290-302 | drawing one more triangle keeps depths equal to the closest fragment so far and untouched pixels at the clear colour |
| Pipeline.ClearedFrameInvariant | source/Renderer.cpp:256-261 | a freshly cleared frame has every depth at FLT_MAX and every colour at the clear colour, the state before any triangle |
| Pipeline.DrawTriangles | source/Renderer.cpp:277-304 | drawing a sequence of triangles in order onto a cleared frame leaves every pixel at its closest fragment depth, untouched pixels at the clear colour |
| Pipeline.SoftwareRender | source/Renderer.cpp:251-306 | after a frame every pixel holds the closest fragment depth or FLT_MAX, written depths lie in [0, 1], and pixels at FLT_MAX hold the clear colour |
| Texture.RawTexelIndex | source/Texture.h:90-96 | the `Uint32` index lies in [0, 2^32), is congruent to the exact `x + y * w` modulo 2^32, never exceeds it, and equals it whenever it fits |
| Texture.RawTexelIndexDecodes | source/Texture.h:90-96 | for u in [0, 1) and an exact index below 2^32, the index gives back the truncated column with % width and the row with / width |
| Texture.RawTexelIndexInRange | source/Texture.h:90-96 | for u, v in the conversion's domain and below 1 the texel x = trunc(u w), y = trunc(v h) is in the image and both the exact and the `Uint32` index address the texel array |
| Texture.RawTexelIndexOverrunsAtOne | source/Texture.h:90-96 | at v = 1 the exact index is `w * h` (u = 0) or `w * h + w` (u = 1), at or past the end of the texel array, and while that stays below 2^32 the sampler reads outside the image |
| Texture.RawTexelIndexWrapsAtRightEdge | source/Texture.h:90-96 | at u = 1 the exact index is the first texel of the next row; for textures below 2^32 texels the sampler returns that wrong texel while the row exists, and reads one past the image on the last row |
| Texture.RawTexelIndexWrapsModulo32 | source/Texture.h:90-96 | on a 1024 x 1024 texture uv = (0, 4096) is in the conversion's domain, its exact index is 2^32, the `Uint32` index wraps to 0, and the sampler returns texel 0 |
| Texture.TexelIndex | source/Texture.h:90-96 | the clamped index is in range for u, v in [0, 1], equals the exact `x + y * w` for u, v in [0, 1), and at u = 1 is the last texel of the same row |
| Texture.Channel | source/Texture.h:102 | byte / 255 lies in [0, 1] and scaling back by 255 gives the byte |
| Texture.TexelColor | source/Texture.h:102 | every channel of a sampled texel lies in [0, 1] and scales back to the stored byte |
| Texture.Sample | source/Texture.h:86-104 | on the `Uint32` conversion's domain, the read stays inside the image exactly when the `Uint32` index is below w * h; for u, v below 1 it always does and returns the texel at the truncated column and row, whose index is the exact one for textures of at most 2^32 texels |
| Texture.ClampedSample | source/Texture.h:90-96 | the clamped sampler is defined on all of [0, 1], returns the texel at the exact index on [0, 1), agrees there with the sampler as written for textures of at most 2^32 texels, and at u = 1 returns the last texel of the same row |
| Texture.SampleDependsOnlyOnTexel | source/Texture.h:90-96 | two uv coordinates that truncate to the same column and row sample the same colour, or both read outside the image |

## Left out

- Hardware path: `InitializeDirectX`, `HardwareRender`, the effect classes, the D3D mesh buffers
  and `Texture::LoadFromFile` are calls into Direct3D/DXGI.
- SDL plumbing: surface locking, blitting, window creation, `SDL_MapRGB`/`SDL_GetRGB` pixel
  packing, timer and FPS printing are I/O. Colours are kept as unpacked 8-bit RGB.
- Pixel shading (`PixelShading`, `Lambert`, `Phong`, normal mapping), `Utils::Remap` for the
  depth view, `MaxToOne` and the float-to-byte cast are floating-point numerics over helpers not
  part of this model; they are the opaque `Raster.Shader`.
- Camera (`Camera.h`), `Renderer::Update` and mesh rotation: trigonometry and matrix inversion
  from a math library not part of this model.
- `Render()` dispatch between the two paths and the fire mesh (hardware only) are not modelled;
  the software frame draws the vehicle mesh.
- `Effect::SwitchCurrentTechnique` is not part of this model; a technique switch is counted in
  `RendererState.techniqueSwitches`.
- Raster.RenderTriangle: the colour written is stated only as the `Shader`'s value for the
  triangle, weights and depth; the render-mode switch inside it is part of the shader.
- Pipeline.SoftwareRender: states the final depth of every pixel but the final colour only for
  pixels no fragment reached; the colour of a written pixel is whatever the last winning
  fragment's shader produced.
- Pipeline.TransformVertex: the world-view-projection transform and the divide by w are one
  opaque map, so a clip-space w of 0 (an unguarded division in the code) is not modelled.
- Coverage.InterpolatedDepth: a vertex depth of exactly 0 is modelled as IEEE division giving
  +infinity and hence depth 0; signed zero (-0.0, which also passes the cull) is not modelled.
- Interpolation.PerspectiveCorrect: requires every w and the reciprocal sum to be non-zero; the
  code divides unguarded and its IEEE infinities and NaNs are not modelled.
- Numeric.Trunc: `static_cast<int>` of a float outside the `int` range is undefined and not modelled.
- Texture.Sample: requires a non-empty texture and u, v whose scaled values convert to `Uint32`,
  that is truncate into [0, 2^32) (a scaled value in (-1, 0) included); outside that range the
  conversion is undefined and not modelled. The product `uv.x * w` is exact rather than rounded
  to single precision. A read past the pixel array, which the code performs at v = 1 (and at
  u = 1 on the last row), is the result `None` rather than whatever memory follows the surface.
- Texture.Texture: `Valid` bounds width and height by 2^31 - 1, the range of the `int` fields of
  the surface a texture is loaded from; larger images are not modelled.
- Assembly.AssembleStrip: the corners are built with `static_cast<int>(i)`, `i + 1` and `i + 2`
  (source/Renderer.cpp:280-282), which leave the `int` range once an index array holds more than
  2^31 - 1 entries; the model's corners are unbounded, so those negative or wrapped corners are
  not modelled. The `requires` of fewer than 2^64 indices only keeps the `size_t` parity test exact.
- Assembly.AssembleList: the counter is a plain `int i` advanced by 3 (source/Renderer.cpp:296),
  which overflows for index arrays near 2^31 - 1 entries; the model's counter is unbounded, so
  that overflow is not modelled.
- Interpolation.InterpolateVertex: stands alone; the opaque `Raster.Shader` does not call it, so
  nothing in `RenderTriangle` or `SoftwareRender` depends on it.
- Modes.InitialIsLive: the render and colour modes have no initialiser; the model assumes they
  start at some named value, and an indeterminate value outside the enumeration is not modelled.

## Findings

| source | as written | input that shows it | evidently intended | confidence | as-written member | corrected member |
|---|---|---|---|---|---|---|
| source/Texture.h:90-96 | the texel is `x = Uint32(u * w)`, `y = Uint32(v * h)` read at `x + y * w` with no clamping | v = 1: uv = (0, 1) gives index `w * h`, one past the last texel; uv = (1, 1) gives `w * h + w` | clamp the row to `h - 1` so that every uv in [0, 1] reads inside the image | medium, not executed | Texture.RawTexelIndexOverrunsAtOne | Texture.TexelIndex |
| source/Texture.h:90-96 | at u = 1 the column is `x = w`, one past the row, and `x + y * w` is not clamped | u = 1, v = 0 on a 2 x 2 texture gives index 2, the first texel of the second row instead of texel 1 at the end of the first row; on the last row it gives `w * h` | clamp the column to `w - 1` so that u = 1 samples the last texel of the same row | medium, not executed | Texture.RawTexelIndexWrapsAtRightEdge | Texture.ClampedSample |
