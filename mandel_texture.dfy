/** The tile cache behind the Mandelbrot explorer (`src/mandel_texture.rs`):
    a square texture split into a fixed grid of tiles, each with a state
    (`Idle`, `Computing`, `WaitForUpload`, `Ready`) and a generation token.
    `Update` dispatches and cancels work, `RunTask` is one spawned task (the
    kernel followed by its completion closure), `Render` drains finished
    buffers into texture writes. Threads, locks and atomics are replaced by
    sequential calls; what another thread may do to a token while a kernel
    runs is the kernel's `liveToken` parameter. */
module MandelTexture {
  import opened Math

  /** Side of a square tile in pixels. */
  const TILE_SIZE: u32 := 128
  /** Smallest texture side accepted by construction. */
  const MIN_TEX_SIZE: u32 := 1024
  /** The texture side `MandelTexture::new` uses (`1024 * 2`). */
  const TEX_SIZE: u32 := 2048
  /** The kernel polls the live token at every column that is a multiple of this. */
  const CHECK_INTERVAL: nat := 32

  /** `Computing` records the token value of the generation it was dispatched
      for, in place of the task handle. */
  datatype TileState =
    | Idle
    | Computing(captured: u32)
    | WaitForUpload(buffer: seq<u8>)
    | Ready

  datatype Tile = Tile(index: nat, texRect: Rect, state: TileState, token: u32)

  /** What the kernel returns: the pixel buffer, or the cancellation error. */
  datatype KernelResult = Ok(buffer: seq<u8>) | Cancelled

  // ---------------------------------------------------------------------------
  // Generation tokens (`AtomicU32::fetch_add(1)`, which wraps around)
  // ---------------------------------------------------------------------------

  /** One invalidation: the token moves to a value different from the one it had. */
  function Bump(t: u32): (r: u32)
    ensures r != t
    ensures t < U32_LIMIT - 1 ==> r == t + 1
  {
    (t + 1) % U32_LIMIT
  }

  /** `k` invalidations in a row. */
  function BumpN(t: u32, k: nat): u32
  {
    if k == 0 then t else Bump(BumpN(t, k - 1))
  }

  lemma {:induction false} BumpNWraps(t: u32, k: nat)
    ensures BumpN(t, k) == (t + k) % U32_LIMIT
  {
    if k > 0 {
      BumpNWraps(t, k - 1);
    }
  }

  /** A captured token is recognised as stale after any number of bumps short of
      a full wrap-around; after exactly 2^32 bumps the token reads as current again. */
  lemma StaleTokenDetected(t: u32, k: nat)
    ensures 0 < k < U32_LIMIT ==> BumpN(t, k) != t
    ensures BumpN(t, U32_LIMIT) == t
  {
    BumpNWraps(t, k);
    if 0 < k < U32_LIMIT {
      WrapOnce(t + k);
    }
    BumpNWraps(t, U32_LIMIT);
    WrapOnce(t + U32_LIMIT);
  }

  /** A sum of a `u32` and a count up to 2^32 wraps at most once. */
  lemma WrapOnce(a: nat)
    requires a < 2 * U32_LIMIT
    ensures a < U32_LIMIT ==> a % U32_LIMIT == a
    ensures U32_LIMIT <= a ==> a % U32_LIMIT == a - U32_LIMIT
  {
  }

  // ---------------------------------------------------------------------------
  // Integer arithmetic of the grid and of row-major buffers
  // ---------------------------------------------------------------------------

  lemma RowMajor(q: nat, r: nat, n: nat, m: nat)
    requires r < n && q < m
    ensures q * n + r < n * m
    ensures (q * n + r) / n == q && (q * n + r) % n == r
  {
    assert q * n + r < (q + 1) * n;
    assert (q + 1) * n <= m * n by {
      MulMonotone(q + 1, m, n);
    }
    var k := q * n + r;
    var a, b := k / n, k % n;
    assert k == a * n + b;
    if a < q {
      MulMonotone(a + 1, q, n);
      assert false;
    } else if a > q {
      MulMonotone(q + 1, a, n);
      assert false;
    }
  }

  lemma MulMonotone(a: nat, b: nat, n: nat)
    requires a <= b
    ensures a * n <= b * n
  {
  }

  /** The tile at position `k` of the `n`×`n` grid has outer index `k / n` (x) and
      inner index `k % n` (y), both inside the grid. */
  lemma GridCoordinates(k: nat, n: nat)
    requires k < n * n
    ensures k / n < n && k % n < n
  {
    var q, r := k / n, k % n;
    if q >= n {
      MulMonotone(n, q, n);
      assert false;
    }
  }

  // ---------------------------------------------------------------------------
  // The tile grid (`MandelTexture::new`)
  // ---------------------------------------------------------------------------

  /** The two assertions of construction. */
  predicate ValidTexSize(texSize: u32) {
    texSize >= MIN_TEX_SIZE && texSize % TILE_SIZE == 0
  }

  /** Tiles along one side of the texture. */
  function TileCount(texSize: u32): nat {
    texSize / TILE_SIZE
  }

  /** The texture rectangle of tile `k`: the outer loop (`k / n`) drives x. */
  function GridRect(texSize: u32, k: nat): (r: Rect)
    requires ValidTexSize(texSize) && k < TileCount(texSize) * TileCount(texSize)
    ensures r.size == Vec2(TILE_SIZE, TILE_SIZE)
    ensures r.pos.x + TILE_SIZE <= texSize && r.pos.y + TILE_SIZE <= texSize
  {
    var n := TileCount(texSize);
    GridCoordinates(k, n);
    Rect(Vec2((k / n) * TILE_SIZE, (k % n) * TILE_SIZE), Vec2(TILE_SIZE, TILE_SIZE))
  }

  /** Every pixel of the texture lies in exactly one tile: the one whose grid
      position is `(x / TILE_SIZE, y / TILE_SIZE)`. Hence the tiles are pairwise
      disjoint and together cover `[0, texSize)²`. */
  lemma GridPartition(texSize: u32, k: nat, p: Vec2)
    requires ValidTexSize(texSize) && k < TileCount(texSize) * TileCount(texSize)
    requires p.x < texSize && p.y < texSize
    ensures GridRect(texSize, k).Contains(p)
        <==> k == (p.x / TILE_SIZE) * TileCount(texSize) + p.y / TILE_SIZE
  {
    var n := TileCount(texSize);
    GridRectContains(texSize, k, p);
    RowMajorIff(k, n, p.x / TILE_SIZE, p.y / TILE_SIZE);
  }

  lemma GridRectContains(texSize: u32, k: nat, p: Vec2)
    requires ValidTexSize(texSize) && k < TileCount(texSize) * TileCount(texSize)
    ensures GridRect(texSize, k).Contains(p)
        <==> k / TileCount(texSize) == p.x / TILE_SIZE && k % TileCount(texSize) == p.y / TILE_SIZE
  {
    var n := TileCount(texSize);
    TileSpan(p.x, k / n);
    TileSpan(p.y, k % n);
  }

  /** Grid position `(i, j)` of an `n`-wide grid is list position `i * n + j`, and no other. */
  lemma RowMajorIff(k: nat, n: nat, i: nat, j: nat)
    requires i < n && j < n
    ensures k / n == i && k % n == j <==> k == i * n + j
  {
    RowMajor(i, j, n, n);
    if k / n == i && k % n == j {
      assert k == (k / n) * n + k % n;
    }
  }

  /** Pixel coordinate `x` lies in the tile span starting at `a * TILE_SIZE` exactly when `x / TILE_SIZE == a`. */
  lemma TileSpan(x: nat, a: nat)
    ensures a * TILE_SIZE <= x < a * TILE_SIZE + TILE_SIZE <==> x / TILE_SIZE == a
  {
  }

  lemma GridDisjoint(texSize: u32, k1: nat, k2: nat, p: Vec2)
    requires ValidTexSize(texSize)
    requires k1 < TileCount(texSize) * TileCount(texSize)
    requires k2 < TileCount(texSize) * TileCount(texSize)
    requires GridRect(texSize, k1).Contains(p) && GridRect(texSize, k2).Contains(p)
    ensures k1 == k2
  {
    GridPartition(texSize, k1, p);
    GridPartition(texSize, k2, p);
  }

  lemma GridCovers(texSize: u32, p: Vec2) returns (k: nat)
    requires ValidTexSize(texSize) && p.x < texSize && p.y < texSize
    ensures k < TileCount(texSize) * TileCount(texSize)
    ensures GridRect(texSize, k).Contains(p)
  {
    var n := TileCount(texSize);
    RowMajor(p.x / TILE_SIZE, p.y / TILE_SIZE, n, n);
    k := (p.x / TILE_SIZE) * n + p.y / TILE_SIZE;
    GridPartition(texSize, k, p);
  }

  /** The default texture passes both construction assertions, and its tile
      list has 256 tiles: the 17th starts the second column of tiles (x = 128),
      the last sits in the far corner, and every parked buffer has 16384 bytes. */
  lemma DefaultGrid(ts: seq<Tile>)
    requires GridTiles(TEX_SIZE, ts)
    ensures ValidTexSize(TEX_SIZE)
    ensures |ts| == 256
    ensures ts[16].texRect == Rect(Vec2(128, 0), Vec2(128, 128))
    ensures ts[255].texRect == Rect(Vec2(1920, 1920), Vec2(128, 128))
    ensures forall k :: 0 <= k < |ts| && ts[k].state.WaitForUpload? ==>
              |ts[k].state.buffer| == 16384
  {
  }

  /** Builds the tile list, the outer loop driving x and the inner loop y: tile
      `k` has index `k`, the grid rectangle
      `GridRect(texSize, k)`, state `Idle` and token 0. */
  method NewTiles(texSize: u32) returns (tiles: seq<Tile>)
    requires ValidTexSize(texSize)
    ensures |tiles| == TileCount(texSize) * TileCount(texSize)
    ensures forall k :: 0 <= k < |tiles| ==>
              tiles[k] == Tile(k, GridRect(texSize, k), Idle, 0)
  {
    var n := texSize / TILE_SIZE;
    tiles := [];
    var i := 0;
    while i < n
      invariant 0 <= i <= n
      invariant |tiles| == i * n <= n * n
      invariant forall k :: 0 <= k < |tiles| ==> tiles[k] == Tile(k, GridRect(texSize, k), Idle, 0)
    {
      var j := 0;
      while j < n
        invariant 0 <= j <= n
        invariant |tiles| == i * n + j <= n * n
        invariant forall k :: 0 <= k < |tiles| ==> tiles[k] == Tile(k, GridRect(texSize, k), Idle, 0)
      {
        GridRectAt(texSize, i, j);
        var index := |tiles|;
        var rect := Rect(Vec2(i * TILE_SIZE, j * TILE_SIZE), Vec2(TILE_SIZE, TILE_SIZE));
        assert rect == GridRect(texSize, index);
        tiles := tiles + [Tile(index, rect, Idle, 0)];
        j := j + 1;
      }
      NextRow(i, n);
      i := i + 1;
    }
  }

  lemma NextRow(i: nat, n: nat)
    ensures i * n + n == (i + 1) * n
  {
  }

  /** The tile at outer index `i` (x) and inner index `j` (y) sits at
      `(i, j) * TILE_SIZE`. */
  lemma GridRectAt(texSize: u32, i: nat, j: nat)
    requires ValidTexSize(texSize) && i < TileCount(texSize) && j < TileCount(texSize)
    ensures i * TileCount(texSize) + j < TileCount(texSize) * TileCount(texSize)
    ensures i * TILE_SIZE < texSize && j * TILE_SIZE < texSize
    ensures GridRect(texSize, i * TileCount(texSize) + j)
         == Rect(Vec2(i * TILE_SIZE, j * TILE_SIZE), Vec2(TILE_SIZE, TILE_SIZE))
  {
    var n := TileCount(texSize);
    RowMajor(i, j, n, n);
  }

  // ---------------------------------------------------------------------------
  // The kernel's integer skeleton (`mandelbrot`)
  // ---------------------------------------------------------------------------

  /** Every poll of the live token (row `y`, column `x` a multiple of 32) reads
      the value the kernel loaded when it started. */
  ghost predicate CheckpointsPass(size: Vec2, startToken: u32, liveToken: (nat, nat) -> u32) {
    forall y: nat, x: nat :: y < size.y && x < size.x && x % CHECK_INTERVAL == 0 ==>
      liveToken(y, x) == startToken
  }

  /** The byte for buffer position `k`: pixel `(k % w, k / w)` of the tile,
      the escape count at its absolute texture coordinate truncated to 8 bits. */
  function PixelAt(tileRect: Rect, escape: (int, int) -> nat, k: nat): u8
  {
    var w := tileRect.size.x;
    if w == 0 then 0 else escape(tileRect.pos.x + k % w, tileRect.pos.y + k / w) % 256
  }

  /** The finished tile buffer, row-major, one byte per pixel. */
  function Pixels(tileRect: Rect, escape: (int, int) -> nat): (r: seq<u8>)
    ensures |r| == tileRect.size.x * tileRect.size.y
  {
    MulMonotone(0, tileRect.size.x, tileRect.size.y);
    seq(tileRect.size.x * tileRect.size.y, k requires 0 <= k => PixelAt(tileRect, escape, k))
  }

  /** Pixel `(x, y)` of the tile is stored at `y * w + x`, which is inside the buffer. */
  lemma PixelsRowMajor(tileRect: Rect, escape: (int, int) -> nat, x: nat, y: nat)
    requires x < tileRect.size.x && y < tileRect.size.y
    ensures y * tileRect.size.x + x < |Pixels(tileRect, escape)|
    ensures Pixels(tileRect, escape)[y * tileRect.size.x + x]
         == escape(tileRect.pos.x + x, tileRect.pos.y + y) % 256
  {
    RowMajor(y, x, tileRect.size.x, tileRect.size.y);
  }

  /** The first `n` bytes of `s` are the tile's pixels. */
  ghost predicate FilledUpTo(s: seq<u8>, tileRect: Rect, escape: (int, int) -> nat, n: nat) {
    n <= |s| && forall k :: 0 <= k < n ==> s[k] == PixelAt(tileRect, escape, k)
  }

  /** Every poll before column `x` of row `y` read `startToken`. */
  ghost predicate PolledUpTo(w: nat, y: nat, x: nat, startToken: u32, liveToken: (nat, nat) -> u32) {
    forall yy: nat, xx: nat :: ((yy < y && xx < w) || (yy == y && xx < x)) && xx % CHECK_INTERVAL == 0 ==>
      liveToken(yy, xx) == startToken
  }

  lemma FillStep(s: seq<u8>, tileRect: Rect, escape: (int, int) -> nat, x: nat, y: nat)
    requires x < tileRect.size.x && y < tileRect.size.y
    requires |s| == tileRect.size.x * tileRect.size.y
    requires FilledUpTo(s, tileRect, escape, y * tileRect.size.x + x)
    ensures y * tileRect.size.x + x < |s|
    ensures FilledUpTo(s[y * tileRect.size.x + x := escape(x + tileRect.pos.x, y + tileRect.pos.y) % 256],
                       tileRect, escape, y * tileRect.size.x + x + 1)
  {
    RowMajor(y, x, tileRect.size.x, tileRect.size.y);
  }

  lemma PollStep(w: nat, y: nat, x: nat, startToken: u32, liveToken: (nat, nat) -> u32)
    requires x < w && PolledUpTo(w, y, x, startToken, liveToken)
    requires x % CHECK_INTERVAL == 0 ==> liveToken(y, x) == startToken
    ensures PolledUpTo(w, y, x + 1, startToken, liveToken)
  {
  }

  lemma PollNextRow(w: nat, y: nat, startToken: u32, liveToken: (nat, nat) -> u32)
    requires PolledUpTo(w, y, w, startToken, liveToken)
    ensures PolledUpTo(w, y + 1, 0, startToken, liveToken)
  {
  }

  lemma KernelDone(s: seq<u8>, tileRect: Rect, escape: (int, int) -> nat, startToken: u32,
                   liveToken: (nat, nat) -> u32)
    requires |s| == tileRect.size.x * tileRect.size.y
    requires FilledUpTo(s, tileRect, escape, tileRect.size.y * tileRect.size.x)
    requires PolledUpTo(tileRect.size.x, tileRect.size.y, 0, startToken, liveToken)
    ensures s == Pixels(tileRect, escape)
    ensures CheckpointsPass(tileRect.size, startToken, liveToken)
  {
    assert tileRect.size.y * tileRect.size.x == |s|;
  }

  /** A kernel that, at any poll, finds the token bumped between 1 and
      2^32 - 1 times since it started does not produce a buffer. */
  lemma BumpedTokenCancels(size: Vec2, startToken: u32, liveToken: (nat, nat) -> u32,
                           y: nat, x: nat, k: nat)
    requires y < size.y && x < size.x && x % CHECK_INTERVAL == 0
    requires 0 < k < U32_LIMIT && liveToken(y, x) == BumpN(startToken, k)
    ensures !CheckpointsPass(size, startToken, liveToken)
  {
    StaleTokenDetected(startToken, k);
  }

  /** Fills a `size.x * size.y` buffer row by row; at every column that is a
      multiple of 32 it re-reads the live token and gives up with `Cancelled` if
      it no longer equals the value read at the start. */
  method Mandelbrot(tileRect: Rect, startToken: u32, liveToken: (nat, nat) -> u32,
                    escape: (int, int) -> nat) returns (r: KernelResult)
    requires tileRect.size.x * tileRect.size.y < U32_LIMIT
    ensures r.Ok? <==> CheckpointsPass(tileRect.size, startToken, liveToken)
    ensures r.Ok? ==> |r.buffer| == tileRect.size.x * tileRect.size.y
    ensures r.Ok? ==> r.buffer == Pixels(tileRect, escape)
  {
    var w, h := tileRect.size.x, tileRect.size.y;
    MulMonotone(0, w, h);
    var buffer := new u8[w * h](_ => 128);
    var y := 0;
    while y < h
      invariant 0 <= y <= h
      invariant y * w <= w * h
      invariant PolledUpTo(w, y, 0, startToken, liveToken)
      invariant FilledUpTo(buffer[..], tileRect, escape, y * w)
    {
      var x := 0;
      while x < w
        invariant 0 <= x <= w
        invariant PolledUpTo(w, y, x, startToken, liveToken)
        invariant FilledUpTo(buffer[..], tileRect, escape, y * w + x)
      {
        if x % CHECK_INTERVAL == 0 && liveToken(y, x) != startToken {
          return Cancelled;
        }
        PollStep(w, y, x, startToken, liveToken);
        FillStep(buffer[..], tileRect, escape, x, y);
        buffer[y * w + x] := escape(x + tileRect.pos.x, y + tileRect.pos.y) % 256;
        x := x + 1;
      }
      PollNextRow(w, y, startToken, liveToken);
      NextRow(y, w);
      MulMonotone(y + 1, h, w);
      y := y + 1;
    }
    KernelDone(buffer[..], tileRect, escape, startToken, liveToken);
    r := Ok(buffer[..]);
  }

  // ---------------------------------------------------------------------------
  // Per-tile transitions
  // ---------------------------------------------------------------------------

  /** The `update` pass on one tile, given whether the scale changed and whether
      the tile's fractal rectangle meets the requested frame. */
  function UpdateTile(t: Tile, scaleChanged: bool, visible: bool): Tile {
    var t1 := if scaleChanged then t.(token := Bump(t.token), state := Idle) else t;
    if !visible then
      if t1.state.Computing? then t1.(token := Bump(t1.token), state := Idle) else t1
    else if t1.state.Idle? then t1.(state := Computing(t1.token))
    else t1
  }

  function UpdatedTiles(ts: seq<Tile>, scaleChanged: bool, visible: Rect -> bool): (r: seq<Tile>)
    ensures |r| == |ts|
  {
    seq(|ts|, k requires 0 <= k < |ts| => UpdateTile(ts[k], scaleChanged, visible(ts[k].texRect)))
  }

  /** The completion closure: an `Ok` buffer is parked for upload, a cancelled
      run leaves the tile `Idle`. The token is not consulted. */
  function CompleteTile(t: Tile, r: KernelResult): Tile {
    match r
    case Ok(buf) => t.(state := WaitForUpload(buf))
    case Cancelled => t.(state := Idle)
  }

  /** The `render` pass on one tile. */
  function RenderTile(t: Tile): Tile {
    if t.state.WaitForUpload? then t.(state := Ready) else t
  }

  function RenderedTiles(ts: seq<Tile>): (r: seq<Tile>)
    ensures |r| == |ts|
  {
    seq(|ts|, k requires 0 <= k < |ts| => RenderTile(ts[k]))
  }

  /** The texture write a tile contributes to a `render` pass, if any. */
  function WriteOf(t: Tile): seq<TextureWrite> {
    if t.state.WaitForUpload? then [TextureWrite(t.texRect.pos, t.texRect.size, t.state.buffer)]
    else []
  }

  /** The writes of one `render` pass over `ts`, in tile order. */
  function PendingWrites(ts: seq<Tile>): seq<TextureWrite> {
    if ts == [] then [] else PendingWrites(ts[..|ts| - 1]) + WriteOf(ts[|ts| - 1])
  }

  function WaitingIndices(ts: seq<Tile>): set<nat> {
    set k: nat | k < |ts| && ts[k].state.WaitForUpload?
  }

  /** A tile's own bookkeeping is consistent: a computing tile belongs to its
      current generation, and a parked buffer has one byte per tile pixel. */
  predicate Coherent(t: Tile) {
    (t.state.Computing? ==> t.state.captured == t.token) &&
    (t.state.WaitForUpload? ==> |t.state.buffer| == TILE_SIZE * TILE_SIZE)
  }

  /** The tile list of a texture of side `texSize`: the grid, in order, each
      tile coherent. */
  ghost predicate GridTiles(texSize: u32, ts: seq<Tile>) {
    ValidTexSize(texSize) &&
    |ts| == TileCount(texSize) * TileCount(texSize) &&
    forall k :: 0 <= k < |ts| ==>
      ts[k].index == k && ts[k].texRect == GridRect(texSize, k) && Coherent(ts[k])
  }

  // ---------------------------------------------------------------------------
  // Properties of the update pass
  // ---------------------------------------------------------------------------

  /** The transitions of one update, case by case: a scale change bumps every
      token once and discards every state before visibility is looked at; an
      invisible computing tile is cancelled (token bumped, `Idle`); a visible
      idle tile is dispatched with its current token; everything else stays. */
  lemma UpdateTransitions(ts: seq<Tile>, scaleChanged: bool, visible: Rect -> bool, k: nat)
    requires k < |ts|
    ensures var t, u := ts[k], UpdatedTiles(ts, scaleChanged, visible)[k];
      var vis := visible(t.texRect);
      u.index == t.index && u.texRect == t.texRect &&
      (scaleChanged ==> u.token == Bump(t.token) &&
                        u.state == (if vis then Computing(u.token) else Idle)) &&
      (!scaleChanged && !vis && t.state.Computing? ==> u.token == Bump(t.token) && u.state == Idle) &&
      (!scaleChanged && !vis && !t.state.Computing? ==> u == t) &&
      (!scaleChanged && vis && t.state.Idle? ==> u == t.(state := Computing(t.token))) &&
      (!scaleChanged && vis && !t.state.Idle? ==> u == t)
  {
  }

  /** After an update no invisible tile is computing and no visible tile is idle. */
  lemma UpdateSettlesVisibility(ts: seq<Tile>, scaleChanged: bool, visible: Rect -> bool)
    ensures forall k :: 0 <= k < |ts| ==>
      var u := UpdatedTiles(ts, scaleChanged, visible)[k];
      (!visible(ts[k].texRect) ==> !u.state.Computing?) &&
      (visible(ts[k].texRect) ==> !u.state.Idle?)
  {
  }

  /** A second update with no scale change and no completion in between
      changes nothing, so it dispatches and cancels nothing. */
  lemma UpdateIdempotent(ts: seq<Tile>, scaleChanged: bool, visible: Rect -> bool)
    ensures UpdatedTiles(UpdatedTiles(ts, scaleChanged, visible), false, visible)
         == UpdatedTiles(ts, scaleChanged, visible)
  {
    var once := UpdatedTiles(ts, scaleChanged, visible);
    var twice := UpdatedTiles(once, false, visible);
    forall k | 0 <= k < |ts|
      ensures twice[k] == once[k]
    {
      UpdateTransitions(ts, scaleChanged, visible, k);
    }
  }

  lemma UpdateKeepsGrid(texSize: u32, ts: seq<Tile>, scaleChanged: bool, visible: Rect -> bool)
    requires GridTiles(texSize, ts)
    ensures GridTiles(texSize, UpdatedTiles(ts, scaleChanged, visible))
  {
    var us := UpdatedTiles(ts, scaleChanged, visible);
    forall k | 0 <= k < |ts|
      ensures us[k].index == k && us[k].texRect == GridRect(texSize, k) && Coherent(us[k])
    {
      UpdateTransitions(ts, scaleChanged, visible, k);
    }
  }

  // ---------------------------------------------------------------------------
  // Properties of the render pass
  // ---------------------------------------------------------------------------

  lemma {:induction false} PendingWritesAt(ts: seq<Tile>, i: nat)
    requires i < |ts|
    ensures PendingWrites(ts[..i + 1]) == PendingWrites(ts[..i]) + WriteOf(ts[i])
  {
    assert ts[..i + 1][..i] == ts[..i];
  }

  lemma {:induction false} PendingWritesCount(ts: seq<Tile>)
    ensures |PendingWrites(ts)| == |WaitingIndices(ts)|
  {
    if ts != [] {
      var n := |ts| - 1;
      PendingWritesCount(ts[..n]);
      WaitingIndicesSnoc(ts);
      var extra := if ts[n].state.WaitForUpload? then {n} else {};
      assert WaitingIndices(ts[..n]) !! extra;
      assert |WaitingIndices(ts)| == |WaitingIndices(ts[..n])| + |extra|;
    }
  }

  lemma {:induction false} PendingWritesComplete(ts: seq<Tile>)
    ensures forall k :: k in WaitingIndices(ts) ==> WriteOf(ts[k])[0] in PendingWrites(ts)
  {
    if ts != [] {
      var n := |ts| - 1;
      var init := ts[..n];
      PendingWritesComplete(init);
      forall k | k in WaitingIndices(ts)
        ensures WriteOf(ts[k])[0] in PendingWrites(ts)
      {
        if k < n {
          assert ts[k] == init[k] && k in WaitingIndices(init);
        }
      }
    }
  }

  lemma {:induction false} PendingWritesSound(ts: seq<Tile>)
    ensures forall w :: w in PendingWrites(ts) ==>
              exists k :: k in WaitingIndices(ts) && w == WriteOf(ts[k])[0]
  {
    if ts != [] {
      var n := |ts| - 1;
      var init := ts[..n];
      PendingWritesSound(init);
      forall w | w in PendingWrites(ts)
        ensures exists k :: k in WaitingIndices(ts) && w == WriteOf(ts[k])[0]
      {
        if w in PendingWrites(init) {
          var k :| k in WaitingIndices(init) && w == WriteOf(init[k])[0];
          assert ts[k] == init[k] && k in WaitingIndices(ts);
        } else {
          assert n in WaitingIndices(ts) && w == WriteOf(ts[n])[0];
        }
      }
    }
  }

  /** One write per parked buffer: the pass makes exactly as many writes as
      there are `WaitForUpload` tiles, each such tile's buffer goes to its own
      rectangle, and every write comes from such a tile. */
  lemma PendingWritesExactlyOnce(ts: seq<Tile>)
    ensures |PendingWrites(ts)| == |WaitingIndices(ts)|
    ensures forall k :: k in WaitingIndices(ts) ==> WriteOf(ts[k])[0] in PendingWrites(ts)
    ensures forall w :: w in PendingWrites(ts) ==>
              exists k :: k in WaitingIndices(ts) && w == WriteOf(ts[k])[0]
  {
    PendingWritesCount(ts);
    PendingWritesComplete(ts);
    PendingWritesSound(ts);
  }

  /** Growing `ts` by one tile adds that tile's position when it is waiting. */
  lemma WaitingIndicesSnoc(ts: seq<Tile>)
    requires ts != []
    ensures var n := |ts| - 1;
      WaitingIndices(ts) == WaitingIndices(ts[..n]) + (if ts[n].state.WaitForUpload? then {n} else {})
  {
    var n := |ts| - 1;
    forall k | k in WaitingIndices(ts) && k < n
      ensures k in WaitingIndices(ts[..n])
    {
    }
  }

  /** Render moves each parked buffer to `Ready` and touches nothing else; a
      second render with no completion in between writes nothing. */
  lemma RenderDrains(ts: seq<Tile>)
    ensures forall k :: 0 <= k < |ts| ==>
      (ts[k].state.WaitForUpload? ==> RenderedTiles(ts)[k] == ts[k].(state := Ready)) &&
      (!ts[k].state.WaitForUpload? ==> RenderedTiles(ts)[k] == ts[k])
    ensures WaitingIndices(RenderedTiles(ts)) == {}
    ensures PendingWrites(RenderedTiles(ts)) == []
  {
    PendingWritesCount(RenderedTiles(ts));
  }

  lemma RenderKeepsGrid(texSize: u32, ts: seq<Tile>)
    requires GridTiles(texSize, ts)
    ensures GridTiles(texSize, RenderedTiles(ts))
  {
  }

  /** Completing tile `i` with a full-size buffer, or with a cancellation, keeps the grid. */
  lemma CompleteKeepsGrid(texSize: u32, ts: seq<Tile>, i: nat, r: KernelResult)
    requires GridTiles(texSize, ts) && i < |ts|
    requires r.Ok? ==> |r.buffer| == TILE_SIZE * TILE_SIZE
    ensures GridTiles(texSize, ts[i := CompleteTile(ts[i], r)])
  {
  }

  /** A stale buffer is parked: a kernel that started on an older token `s`
      and saw no bump before its last poll passes every checkpoint, so its
      buffer completes the tile although the tile's token has moved on; the
      next `render` uploads it at the tile's rectangle. */
  lemma StaleResultParked(texSize: u32, ts: seq<Tile>, i: nat, s: u32, escape: (int, int) -> nat)
    requires GridTiles(texSize, ts) && i < |ts| && ts[i].token != s
    ensures CheckpointsPass(ts[i].texRect.size, s, (y: nat, x: nat) => s)
    ensures var buf := Pixels(ts[i].texRect, escape);
            var t := CompleteTile(ts[i], Ok(buf));
            t.state == WaitForUpload(buf) && t.token == ts[i].token &&
            GridTiles(texSize, ts[i := t]) &&
            TextureWrite(ts[i].texRect.pos, ts[i].texRect.size, buf) in PendingWrites(ts[i := t])
  {
    var buf := Pixels(ts[i].texRect, escape);
    var ts' := ts[i := CompleteTile(ts[i], Ok(buf))];
    CompleteKeepsGrid(texSize, ts, i, Ok(buf));
    PendingWritesComplete(ts');
    assert i in WaitingIndices(ts');
  }

  /** A late cancellation drops newer work: when a kernel started on an older
      token `s` sees the tile's current token at its first poll, it is
      cancelled, and its completion turns the tile's newer `Computing` into
      `Idle` although that task still runs; the next `update` that finds the
      tile visible dispatches a second task for the same generation. */
  lemma LateCancelRedispatches(texSize: u32, ts: seq<Tile>, i: nat, s: u32,
                               liveToken: (nat, nat) -> u32)
    requires GridTiles(texSize, ts) && i < |ts| && ts[i].state.Computing? && ts[i].token != s
    requires liveToken(0, 0) == ts[i].token
    ensures !CheckpointsPass(ts[i].texRect.size, s, liveToken)
    ensures ts[i].state.captured != s
    ensures var t := CompleteTile(ts[i], Cancelled);
            t.state == Idle && t.token == ts[i].state.captured &&
            UpdateTile(t, false, true).state == Computing(ts[i].state.captured)
  {
    assert liveToken(0, 0) != s;
  }

  // ---------------------------------------------------------------------------
  // The texture
  // ---------------------------------------------------------------------------

  class MandelTexture {
    const texSize: u32
    var tiles: seq<Tile>
    /** `queue.write_texture` calls made so far. */
    var uploads: seq<TextureWrite>
    /** Tile indices handed to the tile-ready callback so far. */
    var notifications: seq<nat>

    ghost predicate Valid()
      reads this
    {
      GridTiles(texSize, tiles)
    }

    constructor ()
      ensures Valid()
      ensures texSize == TEX_SIZE
      ensures forall k :: 0 <= k < |tiles| ==> tiles[k].state == Idle && tiles[k].token == 0
      ensures uploads == [] && notifications == []
    {
      assert TEX_SIZE >= MIN_TEX_SIZE;
      assert TEX_SIZE % TILE_SIZE == 0;
      var initial := NewTiles(TEX_SIZE);
      texSize := TEX_SIZE;
      tiles := initial;
      uploads := [];
      notifications := [];
    }

    /** One update pass: `scaleChanged` is the outcome of the scale comparison,
        `visible` tells whether a tile's fractal rectangle meets the frame. */
    method Update(scaleChanged: bool, visible: Rect -> bool)
      requires Valid()
      modifies this`tiles
      ensures Valid()
      ensures tiles == UpdatedTiles(old(tiles), scaleChanged, visible)
    {
      var i := 0;
      while i < |tiles|
        invariant 0 <= i <= |tiles| == |old(tiles)|
        invariant forall k :: 0 <= k < i ==>
                    tiles[k] == UpdateTile(old(tiles)[k], scaleChanged, visible(old(tiles)[k].texRect))
        invariant forall k :: i <= k < |tiles| ==> tiles[k] == old(tiles)[k]
      {
        var tile := tiles[i];
        if scaleChanged {
          tile := tile.(token := Bump(tile.token));
          tile := tile.(state := Idle);
        }
        if !visible(tile.texRect) {
          if tile.state.Computing? {
            tile := tile.(token := Bump(tile.token), state := Idle);
          }
        } else if tile.state.Idle? {
          tile := tile.(state := Computing(tile.token));
        }
        tiles := tiles[i := tile];
        i := i + 1;
      }
      UpdateKeepsGrid(texSize, old(tiles), scaleChanged, visible);
    }

    /** One spawned task for tile `i`: the kernel on the tile's rectangle, then
        the completion closure. `startToken` is the token the kernel loads when it
        starts and `liveToken(y, x)` what it reads at each poll. */
    method RunTask(i: nat, startToken: u32, liveToken: (nat, nat) -> u32, escape: (int, int) -> nat)
      requires Valid() && i < |tiles|
      modifies this`tiles, this`notifications
      ensures Valid()
      ensures CheckpointsPass(tiles[i].texRect.size, startToken, liveToken) ==>
                tiles == old(tiles)[i := old(tiles)[i].(state := WaitForUpload(Pixels(old(tiles)[i].texRect, escape)))] &&
                notifications == old(notifications) + [i]
      ensures !CheckpointsPass(tiles[i].texRect.size, startToken, liveToken) ==>
                tiles == old(tiles)[i := old(tiles)[i].(state := Idle)] &&
                notifications == old(notifications)
    {
      var r := Mandelbrot(tiles[i].texRect, startToken, liveToken, escape);
      CompleteKeepsGrid(texSize, tiles, i, r);
      tiles := tiles[i := CompleteTile(tiles[i], r)];
      if r.Ok? {
        notifications := notifications + [tiles[i].index];
      }
    }

    /** One render pass: every parked buffer becomes one texture write at its
        tile's rectangle and the tile becomes `Ready`. */
    method Render()
      requires Valid()
      modifies this`tiles, this`uploads
      ensures Valid()
      ensures tiles == RenderedTiles(old(tiles))
      ensures uploads == old(uploads) + PendingWrites(old(tiles))
    {
      var i := 0;
      while i < |tiles|
        invariant 0 <= i <= |tiles| == |old(tiles)|
        invariant forall k :: 0 <= k < i ==> tiles[k] == RenderTile(old(tiles)[k])
        invariant forall k :: i <= k < |tiles| ==> tiles[k] == old(tiles)[k]
        invariant uploads == old(uploads) + PendingWrites(old(tiles)[..i])
      {
        var tile := tiles[i];
        if tile.state.WaitForUpload? {
          var buff := tile.state.buffer;
          tiles := tiles[i := tile.(state := Ready)];
          uploads := uploads + [TextureWrite(tile.texRect.pos, tile.texRect.size, buff)];
        }
        PendingWritesAt(old(tiles), i);
        i := i + 1;
      }
      assert old(tiles)[..|tiles|] == old(tiles);
      assert tiles == RenderedTiles(old(tiles));
      RenderKeepsGrid(texSize, old(tiles));
    }
  }
}
