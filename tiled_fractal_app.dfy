/** The application around the tile cache (`src/tiled_fractal_app.rs`): it maps
    window and user events to an `EventResult`, tracks whether the user is
    dragging, and on a frame render uploads the tiles that became ready since
    the last frame. This file is written against a revision of the tile type in
    which `Ready` carries the buffer and tiles have `offset` and `size`, so it
    has its own tile state. Floating-point view arithmetic (`move_scale`) is
    kept only as the record of the calls made to it. */
module TiledFractalApp {
  import opened Math

  datatype ManipulateState = Idle | Drag

  datatype EventResult = Continue | Redraw | Exit

  datatype MouseButtons = Left | Right | Middle | Other

  datatype ElementState = Pressed | Released

  /** `Vec2i32`: a signed mouse movement in pixels. */
  datatype Delta = Delta(x: int, y: int)

  /** Events posted to the event loop by the application itself. */
  datatype UserEvent = RedrawRequest | TileReady(tileIndex: nat)

  /** The events the application is given; `delta` of a wheel is an `f32`,
      kept as a number the model never computes with. */
  datatype Event =
    | Init
    | WindowClose
    | Resized(size: Vec2)
    | MouseWheel(position: Vec2, scroll: real)
    | MouseMove(position: Vec2, delta: Delta)
    | MouseButton(button: MouseButtons, state: ElementState, position: Vec2)
    | Custom(userEvent: UserEvent)
    | RedrawFinished
    | Unknown

  /** One call of `move_scale(mouse_pos, mouse_delta, scroll_delta)`. */
  datatype ViewMove = ViewMove(position: Vec2, delta: Delta, scroll: real)

  /** The tile state of this revision: only `Idle` and `Ready { buffer }` are
      named by the application; `Computing` stands for every other state. */
  datatype TileState = Idle | Computing | Ready(buffer: seq<u8>)

  datatype Tile = Tile(offset: Vec2, size: Vec2, state: TileState)

  // ---------------------------------------------------------------------------
  // The event state machine (`update`, `update_user_event`)
  // ---------------------------------------------------------------------------

  /** What `update` returns for `e` while the manipulation state is `ms`. */
  function ResultOf(ms: ManipulateState, e: Event): EventResult {
    match e
    case WindowClose => Exit
    case Resized(_) => EventResult.Redraw
    case MouseWheel(_, _) => EventResult.Redraw
    case MouseMove(_, _) => if ms == Drag then EventResult.Redraw else Continue
    case MouseButton(_, _, _) => Continue
    case Custom(u) => EventResult.Redraw
    case Init => Continue
    case _ => Continue
  }

  /** The manipulation state after `e`: a button event decides it, nothing else touches it. */
  function ManipulateAfter(ms: ManipulateState, e: Event): ManipulateState {
    match e
    case MouseButton(btn, st, _) => if btn == Left && st == Pressed then Drag else ManipulateState.Idle
    case _ => ms
  }

  /** The pending-tiles flag after `e`. */
  function FlagAfter(flag: bool, e: Event): bool {
    (e.Custom? && e.userEvent.TileReady?) || flag
  }

  /** The calls `update` makes to `move_scale` for `e`. */
  function MovesOf(ms: ManipulateState, e: Event): seq<ViewMove> {
    match e
    case MouseWheel(pos, scroll) => [ViewMove(pos, Delta(0, 0), scroll)]
    case MouseMove(pos, delta) => if ms == Drag then [ViewMove(pos, delta, 0.0)] else []
    case _ => []
  }

  /** Only closing the window ends the program. */
  lemma ExitIffClose(ms: ManipulateState, e: Event)
    ensures ResultOf(ms, e) == Exit <==> e == WindowClose
  {
  }

  /** A redraw is asked for after a resize, a wheel turn, a drag movement and
      every user event; everything else continues without one. */
  lemma RedrawCases(ms: ManipulateState, e: Event)
    ensures ResultOf(ms, e) == EventResult.Redraw
        <==> e.Resized? || e.MouseWheel? || (e.MouseMove? && ms == Drag) || e.Custom?
    ensures e.Init? || e.RedrawFinished? || e.Unknown? ==> ResultOf(ms, e) == Continue
  {
  }

  /** Pressing the left button starts a drag; any other button event ends it;
      both continue without a redraw. */
  lemma ButtonsDecideDrag(ms: ManipulateState, btn: MouseButtons, st: ElementState, pos: Vec2)
    ensures ResultOf(ms, MouseButton(btn, st, pos)) == Continue
    ensures ManipulateAfter(ms, MouseButton(btn, st, pos)) == Drag <==> btn == Left && st == Pressed
  {
  }

  /** A mouse movement moves the view exactly while dragging, and never changes the drag state. */
  lemma MoveOnlyWhileDragging(ms: ManipulateState, pos: Vec2, delta: Delta)
    ensures ManipulateAfter(ms, MouseMove(pos, delta)) == ms
    ensures ms == ManipulateState.Idle ==> ResultOf(ms, MouseMove(pos, delta)) == Continue && MovesOf(ms, MouseMove(pos, delta)) == []
    ensures ms == Drag ==> ResultOf(ms, MouseMove(pos, delta)) == EventResult.Redraw &&
                           MovesOf(ms, MouseMove(pos, delta)) == [ViewMove(pos, delta, 0.0)]
  {
  }

  /** The flag is raised by a tile-ready notification and by nothing else; no event lowers it. */
  lemma FlagRaisedOnlyByTileReady(flag: bool, e: Event)
    ensures flag ==> FlagAfter(flag, e)
    ensures FlagAfter(flag, e) && !flag <==> e.Custom? && e.userEvent.TileReady? && !flag
    ensures e == Custom(RedrawRequest) ==> FlagAfter(flag, e) == flag
  {
  }

  // ---------------------------------------------------------------------------
  // Draining ready tiles (`update_tiles`)
  // ---------------------------------------------------------------------------

  /** One tile after `update_tiles`. */
  function DrainTile(t: Tile): Tile {
    if t.state.Ready? then t.(state := TileState.Idle) else t
  }

  function DrainedTiles(ts: seq<Tile>): (r: seq<Tile>)
    ensures |r| == |ts|
  {
    seq(|ts|, k requires 0 <= k < |ts| => DrainTile(ts[k]))
  }

  /** The texture write a tile contributes to `update_tiles`, if any. */
  function WriteOf(t: Tile): seq<TextureWrite> {
    if t.state.Ready? then [TextureWrite(t.offset, t.size, t.state.buffer)] else []
  }

  /** The writes of one `update_tiles` over `ts`, in tile order. */
  function ReadyWrites(ts: seq<Tile>): seq<TextureWrite> {
    if ts == [] then [] else ReadyWrites(ts[..|ts| - 1]) + WriteOf(ts[|ts| - 1])
  }

  function ReadyIndices(ts: seq<Tile>): set<nat> {
    set k: nat | k < |ts| && ts[k].state.Ready?
  }

  lemma {:induction false} ReadyWritesAt(ts: seq<Tile>, i: nat)
    requires i < |ts|
    ensures ReadyWrites(ts[..i + 1]) == ReadyWrites(ts[..i]) + WriteOf(ts[i])
  {
    assert ts[..i + 1][..i] == ts[..i];
  }

  /** Growing `ts` by one tile adds that tile's position when it is ready. */
  lemma ReadyIndicesSnoc(ts: seq<Tile>)
    requires ts != []
    ensures var n := |ts| - 1;
      ReadyIndices(ts) == ReadyIndices(ts[..n]) + (if ts[n].state.Ready? then {n} else {})
  {
    var n := |ts| - 1;
    forall k | k in ReadyIndices(ts) && k < n
      ensures k in ReadyIndices(ts[..n])
    {
    }
  }

  /** One upload per ready tile. */
  lemma {:induction false} ReadyWritesCount(ts: seq<Tile>)
    ensures |ReadyWrites(ts)| == |ReadyIndices(ts)|
  {
    if ts != [] {
      var n := |ts| - 1;
      ReadyWritesCount(ts[..n]);
      ReadyIndicesSnoc(ts);
      var extra := if ts[n].state.Ready? then {n} else {};
      assert ReadyIndices(ts[..n]) !! extra;
      assert |ReadyIndices(ts)| == |ReadyIndices(ts[..n])| + |extra|;
    }
  }

  /** Each ready tile's buffer is uploaded at its own offset and size. */
  lemma {:induction false} ReadyWritesComplete(ts: seq<Tile>)
    ensures forall k :: k in ReadyIndices(ts) ==> WriteOf(ts[k])[0] in ReadyWrites(ts)
  {
    if ts != [] {
      var n := |ts| - 1;
      var init := ts[..n];
      ReadyWritesComplete(init);
      forall k | k in ReadyIndices(ts)
        ensures WriteOf(ts[k])[0] in ReadyWrites(ts)
      {
        if k < n {
          assert ts[k] == init[k] && k in ReadyIndices(init);
        }
      }
    }
  }

  /** Every upload comes from a ready tile: its offset, size and buffer. */
  lemma {:induction false} ReadyWritesSound(ts: seq<Tile>)
    ensures forall w :: w in ReadyWrites(ts) ==>
              exists k :: k in ReadyIndices(ts) && w == WriteOf(ts[k])[0]
  {
    if ts != [] {
      var n := |ts| - 1;
      var init := ts[..n];
      ReadyWritesSound(init);
      forall w | w in ReadyWrites(ts)
        ensures exists k :: k in ReadyIndices(ts) && w == WriteOf(ts[k])[0]
      {
        if w in ReadyWrites(init) {
          var k :| k in ReadyIndices(init) && w == WriteOf(init[k])[0];
          assert ts[k] == init[k] && k in ReadyIndices(ts);
        } else {
          assert n in ReadyIndices(ts) && w == WriteOf(ts[n])[0];
        }
      }
    }
  }

  /** Draining makes every ready tile idle and touches no other; a second drain
      with nothing newly ready uploads nothing. */
  lemma DrainEmptiesReady(ts: seq<Tile>)
    ensures forall k :: 0 <= k < |ts| ==>
      (ts[k].state.Ready? ==> DrainedTiles(ts)[k] == ts[k].(state := TileState.Idle)) &&
      (!ts[k].state.Ready? ==> DrainedTiles(ts)[k] == ts[k])
    ensures ReadyIndices(DrainedTiles(ts)) == {}
    ensures ReadyWrites(DrainedTiles(ts)) == []
  {
    ReadyWritesCount(DrainedTiles(ts));
  }

  // ---------------------------------------------------------------------------
  // The application
  // ---------------------------------------------------------------------------

  class TiledFractalApp {
    var windowSize: Vec2
    var manipulateState: ManipulateState
    var hasUpdateTiles: bool
    /** The tiles of the texture this revision renders from. */
    var tiles: seq<Tile>
    /** `queue.write_texture` calls made so far. */
    var uploads: seq<TextureWrite>
    /** `move_scale` calls made so far. */
    var viewMoves: seq<ViewMove>
    /** `render_fractal` calls made so far. */
    var fractalRenders: nat
    /** Sizes passed to the renderer's `resize` so far. */
    var rendererResizes: seq<Vec2>
    /** Frames drawn by the renderer so far. */
    var framesDrawn: nat

    constructor (windowSize: Vec2, tiles: seq<Tile>)
      ensures this.windowSize == windowSize && this.tiles == tiles
      ensures manipulateState == ManipulateState.Idle && !hasUpdateTiles
      ensures uploads == [] && viewMoves == [] && fractalRenders == 0
      ensures rendererResizes == [] && framesDrawn == 0
    {
      this.windowSize := windowSize;
      this.tiles := tiles;
      manipulateState := ManipulateState.Idle;
      hasUpdateTiles := false;
      uploads := [];
      viewMoves := [];
      fractalRenders := 0;
      rendererResizes := [];
      framesDrawn := 0;
    }

    /** `update`: handles one event. */
    method Update(event: Event) returns (result: EventResult)
      modifies this`manipulateState, this`hasUpdateTiles, this`viewMoves, this`fractalRenders
      ensures result == ResultOf(old(manipulateState), event)
      ensures manipulateState == ManipulateAfter(old(manipulateState), event)
      ensures hasUpdateTiles == FlagAfter(old(hasUpdateTiles), event)
      ensures viewMoves == old(viewMoves) + MovesOf(old(manipulateState), event)
      ensures fractalRenders == old(fractalRenders) + (if event.Init? then 1 else 0)
    {
      match event {
        case WindowClose =>
          result := Exit;
        case Resized(_) =>
          result := EventResult.Redraw;
        case MouseWheel(position, delta) =>
          MoveScale(position, Delta(0, 0), delta);
          result := EventResult.Redraw;
        case MouseMove(position, delta) =>
          match manipulateState {
            case Idle =>
              result := Continue;
            case Drag =>
              MoveScale(position, delta, 0.0);
              result := EventResult.Redraw;
          }
        case MouseButton(btn, state, _) =>
          if btn == Left && state == Pressed {
            manipulateState := Drag;
            result := Continue;
          } else {
            manipulateState := ManipulateState.Idle;
            result := Continue;
          }
        case Custom(userEvent) =>
          result := UpdateUserEvent(userEvent);
        case Init =>
          fractalRenders := fractalRenders + 1;
          result := Continue;
        case _ =>
          result := Continue;
      }
    }

    /** `move_scale`: the float arithmetic on the view is not modelled; the call is recorded. */
    method MoveScale(position: Vec2, delta: Delta, scroll: real)
      modifies this`viewMoves
      ensures viewMoves == old(viewMoves) + [ViewMove(position, delta, scroll)]
    {
      viewMoves := viewMoves + [ViewMove(position, delta, scroll)];
    }

    /** `update_user_event`: a tile-ready notification raises the flag; both user events redraw. */
    method UpdateUserEvent(event: UserEvent) returns (result: EventResult)
      modifies this`hasUpdateTiles
      ensures result == EventResult.Redraw
      ensures hasUpdateTiles == (event.TileReady? || old(hasUpdateTiles))
    {
      match event {
        case RedrawRequest =>
          result := EventResult.Redraw;
        case TileReady(_) =>
          hasUpdateTiles := true;
          result := EventResult.Redraw;
      }
    }

    /** `render`: uploads the ready tiles exactly when the flag was raised, always
        leaves the flag lowered, and draws a frame. */
    method Render()
      modifies this`hasUpdateTiles, this`tiles, this`uploads, this`framesDrawn
      ensures !hasUpdateTiles
      ensures old(hasUpdateTiles) ==>
                tiles == DrainedTiles(old(tiles)) && uploads == old(uploads) + ReadyWrites(old(tiles))
      ensures !old(hasUpdateTiles) ==> tiles == old(tiles) && uploads == old(uploads)
      ensures framesDrawn == old(framesDrawn) + 1
    {
      if hasUpdateTiles {
        hasUpdateTiles := false;
        UpdateTiles();
      }
      framesDrawn := framesDrawn + 1;
    }

    /** `update_tiles`: every `Ready { buffer }` tile hands its buffer to one
        texture write at its offset and size and becomes `Idle`. */
    method UpdateTiles()
      modifies this`tiles, this`uploads
      ensures tiles == DrainedTiles(old(tiles))
      ensures uploads == old(uploads) + ReadyWrites(old(tiles))
    {
      var i := 0;
      while i < |tiles|
        invariant 0 <= i <= |tiles| == |old(tiles)|
        invariant forall k :: 0 <= k < i ==> tiles[k] == DrainTile(old(tiles)[k])
        invariant forall k :: i <= k < |tiles| ==> tiles[k] == old(tiles)[k]
        invariant uploads == old(uploads) + ReadyWrites(old(tiles)[..i])
      {
        var tile := tiles[i];
        if tile.state.Ready? {
          var buff := tile.state.buffer;
          tiles := tiles[i := tile.(state := TileState.Idle)];
          uploads := uploads + [TextureWrite(tile.offset, tile.size, buff)];
        }
        ReadyWritesAt(old(tiles), i);
        i := i + 1;
      }
      assert old(tiles)[..|tiles|] == old(tiles);
    }

    /** `resize`: nothing happens when the size is unchanged; otherwise the new
        size is stored and passed to the renderer. */
    method Resize(newSize: Vec2)
      modifies this`windowSize, this`rendererResizes
      ensures newSize == old(windowSize) ==> windowSize == old(windowSize) && rendererResizes == old(rendererResizes)
      ensures newSize != old(windowSize) ==> windowSize == newSize && rendererResizes == old(rendererResizes) + [newSize]
    {
      if windowSize == newSize {
        return;
      }
      windowSize := newSize;
      rendererResizes := rendererResizes + [newSize];
    }
  }
}
