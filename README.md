# deproject2: point-cloud capture, grid and render-message model

deproject2 reads depth and colour frames from a RealSense camera and turns each
pair into an `ImagePointCloud`. That is a per-pixel record of a validity flag,
a 3D position and an RGB colour, plus the image width. The viewer draws the
clouds together with a floor grid, and passes the vertices it draws in a
`RenderMsg`.

This project models four parts of that system in Dafny:

- **`PointCloud`**: the `ImagePointCloud` container.
  - Its checked constructor `new`, with each failing assertion as a `ShapeError`.
  - `height`, `iter_pixels`, the accessors, and the derived `Default`.
- **`Realsense`**: one iteration of the capture loop, as the class `FrameBuffers`, which owns the worker's three reusable buffers.
  - It clears the buffers.
  - It copies the Z16 depth samples.
  - It copies the BGR8 colour samples as `[r, g, b]`.
  - It resizes the output colour buffer to black entries.
  - It aligns.
  - It derives validity from the zero-depth sentinel.
  - It deprojects every pixel in raster order.
  - It builds the cloud.
  - Each panic of the loop body is a `FrameError`. The pure function `ConvertFrame` states what a frame converts to, and the lemmas characterise it.
- **`UiShapes`** and **`AppShapes`**: `grid` and `default_grid` of the viewer (`deproject-ui/src/shapes.rs`) and of the root crate's `src/shapes.rs`.
  - These are nested loops over `i in -size..=size` and `j in -(size/div)..(size/div)` that push four vertices per step.
  - The colour depends on `|i| % div`.
  - The datatype `GridArgs` holds a call's arguments. Its functions `Quad`, `Cells`, `Rows` and `Vertices` give the output the loops build.
- **`View3d`**: the `RenderMsg` class with `new` and the in-place `append`.

`Primitives` holds the shared value types: `u8`, `u16`, `i32`, `Rgb`, `Vec3` and `Vertex`. It also holds `Option` and `Result`, Rust's truncating `/` and `%`, and a few arithmetic lemmas.

The alignment (`align_images`) and the deprojection (`rs2_deproject_pixel_to_point`) come from the module `realsense_utils`, which is not part of this model. Both are function-valued parameters, with the camera intrinsics and extrinsics already bound. Nothing is assumed about what they compute.

## Model

| member | source | states |
|---|---|---|
| PointCloud.ImagePointCloud.Wellformed | deproject-io/src/lib.rs:20-22 | no contract; the shape the three asserts of `new` demand, characterised by `New` |
| PointCloud.Default | deproject-io/src/lib.rs:7-13 | no contract; the derived default, characterised by `DefaultCloud` |
| PointCloud.New | deproject-io/src/lib.rs:19-30 | succeeds exactly when the lengths agree, the width is non-zero and divides the pixel count; the cloud then holds the four arguments; the first failing assertion is the error reported |
| PointCloud.NewAccessors | deproject-io/src/lib.rs:48-65 | the accessors `valid`, `position`, `color`, `width` of a built cloud return exactly the arguments `new` stored in the struct (lib.rs lines 24-29) |
| PointCloud.NewRejectsZeroWidth | deproject-io/src/lib.rs:22 | width 0 never yields a cloud, because the remainder by zero panics |
| PointCloud.NewHeight | deproject-io/src/lib.rs:22 | after a successful `new`, `height() * width()` is the pixel count |
| PointCloud.ImagePointCloud.Height | deproject-io/src/lib.rs:43-45 | defined exactly when the width is non-zero; then it is the number of whole rows: `h * width <= len < (h + 1) * width` |
| PointCloud.ImagePointCloud.IterPixels | deproject-io/src/lib.rs:33-40 | yields at most one item per pixel |
| PointCloud.PixelSamples | deproject-io/src/lib.rs:34-39 | the zip of the three sequences stops at the shortest one |
| PointCloud.PixelSamplesAt | deproject-io/src/lib.rs:34-39 | item `i` of the zip is `Some((position[i], color[i]))` when `valid[i]`, else `None` |
| PointCloud.PixelSamplesCount | deproject-io/src/lib.rs:34-39 | on equal lengths, the number of `Some` items is the number of true flags |
| PointCloud.IterPixelsExact | deproject-io/src/lib.rs:33-40 | on a built cloud, `iter_pixels` has one item per pixel; item `i` is `Some` iff `valid[i]`, and then it holds that pixel's position and colour |
| PointCloud.IterPixelsCount | deproject-io/src/lib.rs:33-40 | on a built cloud, the number of present samples equals the number of valid pixels |
| PointCloud.DefaultCloud | deproject-io/src/lib.rs:7-13 | the derived default is not a shape `new` accepts, its `height()` divides by zero, and it yields no pixels |
| Realsense.DepthPrefix | deproject-io/src/realsense.rs:88-91 | the samples pushed before the first non-Z16 pixel: the depths of the leading Z16 pixels, in order |
| Realsense.ColorPrefix | deproject-io/src/realsense.rs:93-96 | the leading BGR8 pixels, each stored with its channels reversed to `[r, g, b]` |
| Realsense.Resize | deproject-io/src/realsense.rs:98 | `Vec::resize`: length `n`, the old entries kept, the rest the fill value |
| Realsense.ValidMask | deproject-io/src/realsense.rs:110 | no contract; `depth != 0` per sample, characterised by `ConvertFrameCloud` |
| Realsense.PositionAt | deproject-io/src/realsense.rs:115-122 | no contract; the deprojected corner of one flat pixel index, characterised by `PositionsAt` |
| Realsense.Positions | deproject-io/src/realsense.rs:111-124 | no contract; the raster of the nested loop, characterised by `PositionsAt` and `DeprojectRaster` |
| Realsense.ConvertFrame | deproject-io/src/realsense.rs:84-126 | no contract; the outcome of one loop iteration, characterised by `ConvertFrameSucceeds`, `ConvertFrameDepthError`, `ConvertFrameColorError`, `ConvertFrameCloud` and `ConvertFramePosition`, and equal to the result of `ProcessFrame` |
| Realsense.ConvertFrameSucceeds | deproject-io/src/realsense.rs:88-126 | a frame yields a cloud iff every depth pixel is Z16, every colour pixel is BGR8, the colour width is non-zero, the depth count is `width * height`, and the alignment keeps the buffer length |
| Realsense.ConvertFrameDepthError | deproject-io/src/realsense.rs:88-91 | the depth panic is reported at index `k` iff `k` is the first non-Z16 pixel |
| Realsense.ConvertFrameColorError | deproject-io/src/realsense.rs:93-96 | with a valid depth frame, the colour panic is reported at index `k` iff `k` is the first non-BGR8 pixel |
| Realsense.ConvertFrameCloud | deproject-io/src/realsense.rs:98-126 | the cloud is well formed, as wide and high as the colour frame, with one entry per depth sample, valid exactly where the depth is non-zero; its colours are the aligned buffer, which alignment received as `len(in_depth)` black entries |
| Realsense.ConvertFramePosition | deproject-io/src/realsense.rs:111-124 | position `y * width + x` is the deprojection of pixel corner `(x - 0.5, y - 0.5)` at that pixel's depth |
| Realsense.PositionsAt | deproject-io/src/realsense.rs:113-122 | the raster holds `width * height` entries in row-major order, entry `y * width + x` deprojecting pixel `(x, y)` |
| Realsense.DeprojectRaster | deproject-io/src/realsense.rs:111-124 | the nested loop finishes iff `width * height <= len(in_depth)`, producing exactly the raster; otherwise it stops at the first index past the end of the depth buffer |
| Realsense.FrameBuffers.constructor | deproject-io/src/realsense.rs:68-70 | the three buffers start empty |
| Realsense.FrameBuffers.ExtendDepth | deproject-io/src/realsense.rs:88-91 | appends the leading Z16 depths to the buffer, reports the first other pixel, and touches no other buffer |
| Realsense.FrameBuffers.ExtendColor | deproject-io/src/realsense.rs:93-96 | appends the leading BGR8 pixels as `[r, g, b]` to the buffer, reports the first other pixel, and touches no other buffer |
| Realsense.FrameBuffers.ProcessFrame | deproject-io/src/realsense.rs:84-126 | the loop body returns `ConvertFrame` of the two frames; each buffer ends as a function of the current frame alone (cleared, then refilled), so nothing of an earlier frame survives |
| UiShapes.GridArgs.Subgrid | deproject-ui/src/shapes.rs:38 | no contract; `size / div` with truncating division, characterised by `GridLength` |
| UiShapes.GridArgs.LineColor | deproject-ui/src/shapes.rs:30-34 | no contract; the colour chosen by `i.abs() % div`, characterised by `QuadColor` and `CellsColors` |
| UiShapes.GridArgs.Quad | deproject-ui/src/shapes.rs:35-43 | no contract; the four vertices of one inner step, characterised by `QuadSegments` and `QuadColor` |
| UiShapes.GridArgs.Rows | deproject-ui/src/shapes.rs:29-45 | no contract; the output of the outer loop over `lo .. hi`, characterised by `RowsLength`, `RowsAt`, `RowsColors` and `RowsFlat` |
| UiShapes.GridArgs.Vertices | deproject-ui/src/shapes.rs:28-46 | no contract; the whole output of `grid`, characterised by `GridLength`, `GridAt` and `GridColors`, and equal to the result of `Grid` |
| UiShapes.GridArgs.QuadColor | deproject-ui/src/shapes.rs:30-34 | every vertex of a group is in the primary colour iff `i.abs() % div == 0`, else the secondary one |
| UiShapes.GridArgs.QuadSegments | deproject-ui/src/shapes.rs:35-43 | a group is two segments of length `div * scale`, along the first and the second coordinate of `map_3d`, at offset `i * scale`, in one colour |
| UiShapes.GridArgs.Cells | deproject-ui/src/shapes.rs:39-44 | the inner loop over `lo .. hi` pushes `4 * max(0, hi - lo)` vertices |
| UiShapes.GridArgs.CellsAt | deproject-ui/src/shapes.rs:39-44 | vertex `4 * (j - lo) + k` of the inner loop is vertex `k` of group `j` |
| UiShapes.GridArgs.RowsLength | deproject-ui/src/shapes.rs:29-44 | `hi - lo` outer steps push `(hi - lo) * 4 * max(0, 2 * (size / div))` vertices |
| UiShapes.GridArgs.RowsAt | deproject-ui/src/shapes.rs:29-44 | the vertices of outer value `i` follow directly after those of all smaller outer values |
| UiShapes.GridArgs.VerticesAt | deproject-ui/src/shapes.rs:29-46 | in the whole output, the vertices of outer value `i` follow directly after those of `-size .. i` |
| UiShapes.GridArgs.VertexAt | deproject-ui/src/shapes.rs:29-46 | group `(i, j)` is at offset `4 * (j + sub)` within the vertices of outer value `i` |
| UiShapes.GridArgs.CellsColors | deproject-ui/src/shapes.rs:30-34 | the inner loop colours every vertex with the colour chosen for `i` |
| UiShapes.GridArgs.RowsColors | deproject-ui/src/shapes.rs:29-44 | every vertex pushed by the outer loop has one of the two colours |
| UiShapes.GridArgs.CellsFlat | deproject-ui/src/shapes.rs:40-43 | when `map_3d` maps into `y = 0`, so does every vertex of an inner loop |
| UiShapes.GridArgs.RowsFlat | deproject-ui/src/shapes.rs:29-44 | when `map_3d` maps into `y = 0`, so does every vertex of the outer loop |
| UiShapes.GridLength | deproject-ui/src/shapes.rs:29-44 | the output holds `4 * (2 * size + 1) * max(0, 2 * (size / div))` vertices for `size >= 0` and none otherwise, with truncating division |
| UiShapes.GridAt | deproject-ui/src/shapes.rs:29-44 | vertex `4 * ((i + size) * 2 * sub + (j + sub)) + k` is vertex `k` of group `(i, j)`, with `i` and `j` ascending; its colour is primary iff `i.abs() % div == 0` |
| UiShapes.GridColors | deproject-ui/src/shapes.rs:30-34 | every vertex has the primary or the secondary colour |
| UiShapes.Grid | deproject-ui/src/shapes.rs:20-47 | the nested loops build exactly `Vertices()` of their arguments; they need `div != 0` whenever the outer range is non-empty |
| UiShapes.PushRow | deproject-ui/src/shapes.rs:39-44 | one inner loop appends exactly the groups of `j in -sub..sub` to the output |
| UiShapes.DefaultGridShape | deproject-ui/src/shapes.rs:9-18 | size `50 * 12` and divisor 12 on a map into `y = 0`: 480400 vertices, all in that plane, all in the two colours |
| UiShapes.XzPlane | deproject-ui/src/shapes.rs:14 | no contract; the closure that maps `(x, y)` to `[x, 0., y]`, the plane `y = 0` that `DefaultGridShape` relies on |
| UiShapes.DefaultGrid | deproject-ui/src/shapes.rs:9-18 | `default_grid` is `grid(600, 12, 1.0, [x, 0, y], [0.2; 3], [0.1; 3])`, which yields 480400 vertices, all with second coordinate 0, all in grey 0.2 or grey 0.1 |
| AppShapes.Args | src/shapes.rs:14-16 | no contract; a call of this `grid` as the viewer grid's arguments with `LIGHT_GRAY` and `DARK_GRAY` as its two colours, characterised by `Grid` and `GridColorAt` |
| AppShapes.Grid | src/shapes.rs:14-36 | this `grid` is the viewer's grid coloured `LIGHT_GRAY`/`DARK_GRAY` (the constants `AppShapes.LightGray` and `AppShapes.DarkGray`, `[0.1; 3]` and `[0.02; 3]` at src/shapes.rs lines 15-16); its length is `4 * (2 * size + 1) * max(0, 2 * (size / div))`; every vertex is one of the two greys |
| AppShapes.GridColorAt | src/shapes.rs:15-33 | vertex `4 * ((i + size) * 2 * sub + (j + sub)) + k` is vertex `k` of group `(i, j)`; it is light grey iff `i.abs() % div == 0` and dark grey otherwise |
| AppShapes.DefaultGridShape | src/shapes.rs:9-11 | size `50 * 12` and divisor 12 on a map into `y = 0`: 480400 vertices, all in that plane |
| AppShapes.DefaultGrid | src/shapes.rs:9-11 | `default_grid` is `grid(600, 12, 1.0, [x, 0, y])`, which yields 480400 vertices in the plane `y = 0`, each light or dark grey |
| View3d.RenderMsg.constructor | deproject-ui/src/view3d.rs:8-12 | `new()` has empty `lines` and empty `points` |
| View3d.RenderMsg.Append | deproject-ui/src/view3d.rs:273-276 | `lines` and `points` each become the old list followed by `other`'s; their lengths add up; the old contents stay as a prefix; `other` is unchanged |

## Left out

- `align_images` and `rs2_deproject_pixel_to_point` are in `realsense_utils`, which is not part of this model. They are parameters, and nothing is proved about their internals.
- Device discovery and pipeline configuration are left out. So are waiting for frames with a timeout, FPS printing and the endless loop (deproject-io/src/realsense.rs:30-82), which are hardware I/O. One iteration is modelled, on two frames given as values.
- Picking the colour and depth frame out of a frameset (`frames_of_type()[0]`) is left out. So is the call of `callback`: the cloud is the result of `ProcessFrame`.
- A panic ends the worker thread. The model returns the panic as an `Err` and states the buffers' contents at that point, but no later iteration observes them.
- Floating point is reals: `as f32` conversions and the products `n as f32 * scale` have no rounding. `Scaled` is such a product.
- Integers are unbounded except where a limit matters. `usize` arithmetic of the pixel index cannot overflow in the model.
- `UiShapes.Grid`: excludes `size == i32::MIN`, because `-size` overflows there, and it does not model the overflow.
- `AppShapes.Grid`: calls the viewer grid's loops with the fixed greys rather than repeating them, since both functions differ only in the colour constants.
- `UiShapes.PushRow`: the four `push` calls of one step are one append of four vertices.
- `PointCloud.ImagePointCloud.IterPixels`: its own contract bounds only the length. The exact item-by-item result is `IterPixelsExact`.
- `Vertex::new` (`vertex.rs`) is not part of this model. A vertex is a position and a colour.
- The derived `Clone` on `RenderMsg` is left out, as is the rest of `view3d.rs`: shaders, GPU buffers, drawing and the egui widget.
- `camera.rs` is left out: floating-point trigonometry and matrices from a foreign library.
- Both `main.rs` files are left out: UI layout, the channel and thread spawning (concurrency), and the float `log2` subdivision fit.
