# Tiled Mandelbrot texture cache, modelled in Dafny

This project models the core of an interactive Mandelbrot explorer written in Rust: the cache of
fractal tiles behind its texture, and the application's event and redraw logic.

The **texture cache** (`src/mandel_texture.rs`, module `MandelTexture`) works as follows:
- A 2048×2048 one-byte-per-pixel texture is cut into a 16×16 grid of 128×128 tiles.
- Each tile has a state (`Idle`, `Computing`, `WaitForUpload`, `Ready`) and a generation token. The token is a wrapping 32-bit counter.
- An `update` pass handles a change of scale by bumping every token and resetting every tile to `Idle`.
- The same pass cancels work on tiles that are no longer visible, and dispatches work for visible idle tiles.
- A dispatched task runs the pixel kernel, and then a completion closure that parks the buffer or resets the tile.
- The kernel polls the live token every 32 columns and gives up when the token has moved.
- A `render` pass turns every parked buffer into one texture write and marks its tile `Ready`.

The **application** (`src/tiled_fractal_app.rs`, module `TiledFractalApp`) works as follows:
- It maps window and user events to `Continue`, `Redraw` or `Exit`.
- A left-button press starts a drag, and any other button event ends it.
- A `TileReady` notification raises a flag. The next frame render lowers the flag and uploads every `Ready { buffer }` tile.
- That file is written against another revision of the tile type, so the module has its own `TileState` and `Tile` (with `offset` and `size`).

Both modules share the integer geometry in module `Math` (`math.dfy`):
- `u8` and `u32`.
- `Vec2u32` and `RectU32`.
- The record of one `write_texture` call.

How the model stands in for what it does not run:
- Threads, locks and atomics are replaced by sequential method calls.
- Spawning a task is recorded as `Computing(token)` by `Update`. Running it is a separate call, `RunTask`.
- The floating-point parts of the source are parameters:
  - whether the scale changed is a `bool`;
  - whether a tile's fractal rectangle meets the requested frame is a function of the tile's texture rectangle;
  - the escape-time iteration count is an abstract function of the pixel's texture coordinate.
- The token values that a running kernel reads at each poll are a parameter (`liveToken`). They stand for updates interleaved on other threads.
- GPU writes, tile-ready callbacks, `move_scale`, `render_fractal` and the renderer calls are recorded in logs on the objects.

## Model

| member | source | states |
|---|---|---|
| `MandelTexture.Bump` | src/mandel_texture.rs:158 | one `fetch_add(1)` always gives a value different from the old token; it is `t + 1` except at the 32-bit wrap |
| `MandelTexture.BumpNWraps` | src/mandel_texture.rs:157-174 | after `k` invalidations the token is `(t + k) mod 2^32` |
| `MandelTexture.StaleTokenDetected` | src/mandel_texture.rs:295-313 | a value captured before 1 to 2^32−1 bumps never equals the live token; after exactly 2^32 bumps it reads as current again |
| `MandelTexture.GridRect` | src/mandel_texture.rs:79-87 | tile `k` is 128×128 and lies inside the texture |
| `MandelTexture.NewTiles` | src/mandel_texture.rs:78-95 | building the grid yields exactly `(texSize/128)^2` tiles; tile `k` has index `k`, position `((k / n)*128, (k % n)*128)` with the outer loop driving x, state `Idle` and token 0 |
| `MandelTexture.GridPartition` | src/mandel_texture.rs:79-94 | a texture pixel `(x, y)` lies in tile `k` exactly when `k == (x/128)*n + y/128` |
| `MandelTexture.GridDisjoint` | src/mandel_texture.rs:79-94 | no pixel lies in two different tiles |
| `MandelTexture.GridCovers` | src/mandel_texture.rs:79-94 | every pixel of `[0, texSize)²` lies in some tile |
| `MandelTexture.DefaultGrid` | src/mandel_texture.rs:55-95 | the built-in size 2048 passes both construction assertions; its tile list has 256 tiles, the 17th at x = 128 (the outer loop drives x), the last at (1920, 1920), and every parked buffer holds 16384 bytes |
| `MandelTexture.Pixels` | src/mandel_texture.rs:299 | a tile buffer has `size.x * size.y` bytes |
| `MandelTexture.PixelsRowMajor` | src/mandel_texture.rs:307-332 | the write index `y * size.x + x` of every tile pixel is inside the buffer and holds that pixel's truncated escape count |
| `MandelTexture.Mandelbrot` | src/mandel_texture.rs:287-346 | the kernel returns a buffer exactly when every poll (every column that is a multiple of 32, in every row) reads the start token; it is then the full row-major pixel buffer; otherwise it returns the cancellation error and no buffer |
| `MandelTexture.BumpedTokenCancels` | src/mandel_texture.rs:307-313 | a kernel whose poll finds the token bumped 1 to 2^32−1 times since it started gives no buffer |
| `MandelTexture.UpdateTransitions` | src/mandel_texture.rs:157-214 | on a scale change every token goes up by one and the state is reset before visibility is tested; an invisible computing tile is cancelled (token bumped, `Idle`); other invisible tiles are untouched; a visible idle tile becomes `Computing` bound to its current token; other visible tiles are untouched |
| `MandelTexture.UpdateSettlesVisibility` | src/mandel_texture.rs:165-180 | after `update`, no invisible tile is `Computing` and no visible tile is `Idle` |
| `MandelTexture.UpdateIdempotent` | src/mandel_texture.rs:178-214 | a second `update` without scale change or completion in between changes nothing, so it dispatches nothing |
| `MandelTexture.UpdateKeepsGrid` | src/mandel_texture.rs:151-215 | `update` keeps the grid; a computing tile always belongs to its tile's current generation |
| `MandelTexture.CompleteKeepsGrid` | src/mandel_texture.rs:201-209 | completing a tile with a full-size buffer or with a cancellation keeps the grid, and a parked buffer has 128×128 bytes |
| `MandelTexture.StaleResultParked` | src/mandel_texture.rs:190-209 | a kernel started on an older token that saw no bump at its polls yields a buffer, the completion parks it while the tile keeps its newer token, and the next `render` uploads it at the tile's rectangle |
| `MandelTexture.LateCancelRedispatches` | src/mandel_texture.rs:190-209 | a kernel started on an older token that sees the current one at its first poll is cancelled; its completion turns the tile's newer `Computing` into `Idle`, and the next visible `update` dispatches the same generation again |
| `MandelTexture.PendingWritesCount` | src/mandel_texture.rs:218-262 | `render` makes exactly as many texture writes as there are `WaitForUpload` tiles |
| `MandelTexture.PendingWritesExactlyOnce` | src/mandel_texture.rs:218-262 | each parked buffer is written once, at its tile's rectangle, and every write comes from a parked tile |
| `MandelTexture.RenderDrains` | src/mandel_texture.rs:226-235 | `render` turns each `WaitForUpload` tile into `Ready` and leaves every other tile alone; a second `render` with no completion in between writes nothing |
| `MandelTexture.RenderKeepsGrid` | src/mandel_texture.rs:218-236 | `render` keeps the grid |
| `MandelTexture.MandelTexture.constructor` | src/mandel_texture.rs:51-114 | construction checks both assertions and starts every tile `Idle` with token 0, with nothing uploaded or notified |
| `MandelTexture.MandelTexture.Update` | src/mandel_texture.rs:116-216 | the whole tile list after an update pass is the per-tile transition of the old list; the grid invariant is kept |
| `MandelTexture.MandelTexture.RunTask` | src/mandel_texture.rs:190-210 | if the kernel was not cancelled, the tile gets `WaitForUpload` with the kernel's buffer and the callback fires exactly once with the tile's index; otherwise the tile becomes `Idle` and no callback fires; no other tile changes |
| `MandelTexture.MandelTexture.Render` | src/mandel_texture.rs:218-263 | `render` appends exactly the pending writes, in tile order, to the upload log and moves those tiles to `Ready` |
| `TiledFractalApp.ExitIffClose` | src/tiled_fractal_app.rs:102-149 | `update` returns `Exit` exactly for `WindowClose` |
| `TiledFractalApp.RedrawCases` | src/tiled_fractal_app.rs:103-146 | `Redraw` exactly for `Resized`, `MouseWheel`, a `MouseMove` while dragging, and any user event; `Init`, `RedrawFinished` and unknown events continue |
| `TiledFractalApp.ButtonsDecideDrag` | src/tiled_fractal_app.rs:122-133 | a button event always continues; it sets `Drag` exactly for a left-button press and `Idle` otherwise |
| `TiledFractalApp.MoveOnlyWhileDragging` | src/tiled_fractal_app.rs:112-121 | a mouse move never changes the drag state; while idle it continues and moves nothing; while dragging it moves the view once and redraws |
| `TiledFractalApp.FlagRaisedOnlyByTileReady` | src/tiled_fractal_app.rs:216-225 | only `TileReady` raises the pending-tiles flag; the `Redraw` user event leaves it alone; no event lowers it |
| `TiledFractalApp.ReadyWritesCount` | src/tiled_fractal_app.rs:242-287 | `update_tiles` makes exactly one upload per `Ready` tile |
| `TiledFractalApp.ReadyWritesSound` | src/tiled_fractal_app.rs:242-287 | every upload of `update_tiles` is some `Ready` tile's buffer at its offset and size; with `ReadyWritesCount` and `ReadyWritesComplete`, each ready tile is uploaded exactly once |
| `TiledFractalApp.ReadyWritesComplete` | src/tiled_fractal_app.rs:242-287 | every `Ready` tile's buffer is uploaded at its offset and size |
| `TiledFractalApp.DrainEmptiesReady` | src/tiled_fractal_app.rs:248-258 | `update_tiles` makes every `Ready` tile `Idle` and no other tile changes; draining again uploads nothing |
| `TiledFractalApp.TiledFractalApp.constructor` | src/tiled_fractal_app.rs:81-99 | the app starts idle, with the flag lowered and empty logs |
| `TiledFractalApp.TiledFractalApp.Update` | src/tiled_fractal_app.rs:102-149 | `update` returns the event's result and sets the drag state, the flag, the view-move log and the fractal-render count as the event dictates |
| `TiledFractalApp.TiledFractalApp.MoveScale` | src/tiled_fractal_app.rs:174-214 | one view move is recorded with its position, movement and scroll amount |
| `TiledFractalApp.TiledFractalApp.UpdateUserEvent` | src/tiled_fractal_app.rs:216-225 | every user event redraws; `TileReady` raises the flag |
| `TiledFractalApp.TiledFractalApp.Render` | src/tiled_fractal_app.rs:151-161 | tiles are drained exactly when the flag was raised, the flag is always lowered afterwards, and a frame is drawn |
| `TiledFractalApp.TiledFractalApp.UpdateTiles` | src/tiled_fractal_app.rs:242-287 | the tile list becomes the drained list and the upload log grows by the ready tiles' writes in tile order |
| `TiledFractalApp.TiledFractalApp.Resize` | src/tiled_fractal_app.rs:163-170 | an unchanged window size is a no-op; otherwise the size is stored and passed to the renderer once |

## Left out

- Floating-point computations are parameters of the model, as described above:
  - the scale-change comparison against `f64::EPSILON` and the recomputed `fractal_rect` (src/mandel_texture.rs:134-146);
  - `Tile::fractal_rect` and the frame intersection test;
  - the complex escape-time loop;
  - `move_scale`'s zoom and offset arithmetic.
- `window_size`, `resize_window` and `max_iter` of the texture are left out. The window size only feeds the float scale test, and `max_iter` is never read.
- Texture and view creation, the tokio runtime and `JoinHandle::abort` are left out. Abort is a best-effort layer on top of the token check.
- The timing block in the kernel (`if false { … }`) and the `println!` in `update_tiles` are left out.
- The kernel loads its token value when it starts (src/mandel_texture.rs:295), not when it is dispatched. `RunTask`'s `startToken` is that value. `Computing(captured)` records the token at dispatch.
- Stale results are not excluded, because the code does not exclude them:
  - the completion closure writes `WaitForUpload` without re-reading the token, so a task whose last poll passed just before a bump still parks its buffer;
  - a late cancelled task resets whatever state the tile has to `Idle`, which can be a newer `Computing`.
  `StaleResultParked` and `LateCancelRedispatches` state these. The completion closure never re-reads the token before writing back (src/mandel_texture.rs:201-209).
- `MandelTexture.Mandelbrot`: requires `size.x * size.y` to fit in a `u32`. The source computes it in `u32` and would overflow otherwise; tiles are 128×128.
- `TiledFractalApp.TiledFractalApp.constructor`: takes the tiles as a parameter. This revision's texture type (and its `render(&runtime, callback)`) is not part of the files modelled.
- `src/main.rs` (winit and wgpu plumbing, input translation) and `src/mandelbrot.rs` (an f64 kernel parallelised with rayon) are not part of this model. The event variants and mouse-button names come from how `src/main.rs` builds events; the `event` module that defines them is not part of this model.
