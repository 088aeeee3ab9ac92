/** One day's freehand drawing surface. The raster is modelled by the list of
    paint operations issued on it; the asynchronous decode of a saved
    snapshot is an explicit pending list that later events settle. */
module Canvas {
  import opened Common

  datatype Point = Point(x: int, y: int)

  /** The canvas's on-screen bounding rectangle (only its origin matters). */
  datatype Rect = Rect(left: int, top: int)

  /** A pointer event: a mouse event with its client coordinates, or a touch
      event with the client coordinates of its touch points. */
  datatype PointerEvent = Mouse(client: Point) | Touch(touches: seq<Point>)

  /** Paint operations: fill with the blank background, start a path, extend
      the path with a stroked segment, draw a decoded snapshot scaled to fill. */
  datatype Paint = Clear | BeginAt(at: Point) | LineTo(to: Point) | Image(src: Snapshot)

  /** The effect's dependencies: the day's saved entry (absent, `null` or a
      snapshot) and its reset counter (absent or a number). */
  datatype Deps = Deps(savedData: Option<Option<Snapshot>>, resetKey: Option<nat>)

  /** `deps` are the dependencies the last initialisation ran with (`None`
      before the first one). */
  datatype Surface = Surface(
    drawing: bool,
    paint: seq<Paint>,
    pending: seq<Snapshot>,
    deps: Option<Deps>)
  {
    /** The context state is set by the first initialisation and never
        cleared, so it exists exactly when an initialisation has run. */
    predicate HasContext()
    {
      deps.Some?
    }
  }

  /** Before the first initialisation: no context, not drawing, nothing painted. */
  const Fresh: Surface := Surface(false, [], [], None)

  /** The client point a handler reads: the mouse position, or the first
      touch. A touch event without touches has none (reading it throws). */
  function ClientPoint(e: PointerEvent): Option<Point>
  {
    match e
    case Mouse(p) => Some(p)
    case Touch(ts) => if |ts| == 0 then None else Some(ts[0])
  }

  /** `getPos`: client coordinates relative to the canvas rectangle. */
  function GetPos(e: PointerEvent, rect: Rect): (p: Option<Point>)
    ensures p.Some? <==> ClientPoint(e).Some?
    ensures p.Some? ==> p.value.x + rect.left == ClientPoint(e).value.x
    ensures p.Some? ==> p.value.y + rect.top == ClientPoint(e).value.y
  {
    match ClientPoint(e)
    case None => None
    case Some(c) => Some(Point(c.x - rect.left, c.y - rect.top))
  }

  /** A mouse and a touch at the same client point land on the same canvas
      point, and a pointer at `rect`'s origin plus `q` lands on `q`. */
  lemma GetPosAgrees(q: Point, rest: seq<Point>, rect: Rect)
    ensures GetPos(Mouse(Point(q.x + rect.left, q.y + rect.top)), rect) == Some(q)
    ensures GetPos(Touch([Point(q.x + rect.left, q.y + rect.top)] + rest), rect) == Some(q)
  {
  }

  /** Whether an initialisation with this saved entry starts a decode. */
  predicate Loads(savedData: Option<Option<Snapshot>>)
  {
    savedData.Some? && TruthyOption(savedData.value)
  }

  /** The initialisation effect: resize and fill the canvas (which drops every
      earlier stroke), set the context, and start decoding a truthy snapshot.
      Decodes started by earlier runs are not cancelled; `drawing` is kept. */
  function Init(s: Surface, d: Deps): (r: Surface)
    ensures r.HasContext() && r.drawing == s.drawing
    ensures r.paint == [Clear]
    ensures r.deps == Some(d)
    ensures Loads(d.savedData) ==> r.pending == s.pending + [d.savedData.value.value]
    ensures !Loads(d.savedData) ==> r.pending == s.pending
  {
    var pending := if Loads(d.savedData) then s.pending + [d.savedData.value.value] else s.pending;
    Surface(s.drawing, [Clear], pending, Some(d))
  }

  /** A render with the given dependencies: the effect runs on the first
      render and whenever a dependency differs from the last run. */
  function Sync(s: Surface, d: Deps): (r: Surface)
    ensures s.deps == Some(d) ==> r == s
    ensures s.deps != Some(d) ==> r == Init(s, d)
    ensures r.deps == Some(d) && r.HasContext()
  {
    if s.deps == Some(d) then s else Init(s, d)
  }

  /** Rendering twice with the same dependencies is rendering once. */
  lemma SyncIdempotent(s: Surface, d: Deps)
    ensures Sync(Sync(s, d), d) == Sync(s, d)
  {
  }

  /** The `i`-th pending decode completes: its image is drawn over whatever
      the canvas holds now. */
  function ImageDecoded(s: Surface, i: nat): (r: Surface)
    requires i < |s.pending|
    ensures r.paint == s.paint + [Image(s.pending[i])]
    ensures r.pending == s.pending[..i] + s.pending[i + 1..]
    ensures r.HasContext() == s.HasContext() && r.drawing == s.drawing && r.deps == s.deps
  {
    s.(paint := s.paint + [Image(s.pending[i])], pending := s.pending[..i] + s.pending[i + 1..])
  }

  /** The `i`-th pending decode fails: nothing is drawn. */
  function ImageFailed(s: Surface, i: nat): (r: Surface)
    requires i < |s.pending|
    ensures r.paint == s.paint
    ensures r.pending == s.pending[..i] + s.pending[i + 1..]
    ensures r.HasContext() == s.HasContext() && r.drawing == s.drawing && r.deps == s.deps
  {
    s.(pending := s.pending[..i] + s.pending[i + 1..])
  }

  /** A reinitialisation does not cancel an earlier decode: when the saved
      snapshot is replaced by `null`, the old decode is still pending and,
      once it completes, draws the old snapshot over the cleared canvas. */
  lemma StaleDecodeDrawsOverClear(s: Surface, snap: Snapshot, rk: Option<nat>)
    requires s.pending == [] && snap != ""
    ensures var s1 := Init(Init(s, Deps(Some(Some(snap)), rk)), Deps(Some(None), rk));
      && s1.pending == [snap]
      && ImageDecoded(s1, 0).paint == [Clear, Image(snap)]
      && ImageDecoded(s1, 0).pending == []
  {
  }

  /** `startDrawing`: with a context, begin a path at the pointer and enter
      the drawing state; without one (or without a pointer), nothing. */
  function StartDrawing(s: Surface, e: PointerEvent, rect: Rect): (r: Surface)
    ensures !s.HasContext() || GetPos(e, rect).None? ==> r == s
    ensures s.HasContext() && GetPos(e, rect).Some? ==>
              r == s.(drawing := true, paint := s.paint + [BeginAt(GetPos(e, rect).value)])
  {
    if !s.HasContext() then s
    else match GetPos(e, rect)
      case None => s
      case Some(p) => s.(drawing := true, paint := s.paint + [BeginAt(p)])
  }

  /** `draw`: while drawing with a context, stroke a segment to the pointer. */
  function Draw(s: Surface, e: PointerEvent, rect: Rect): (r: Surface)
    ensures !s.drawing || !s.HasContext() || GetPos(e, rect).None? ==> r == s
    ensures s.drawing && s.HasContext() && GetPos(e, rect).Some? ==>
              r == s.(paint := s.paint + [LineTo(GetPos(e, rect).value)])
  {
    if !s.drawing || !s.HasContext() then s
    else match GetPos(e, rect)
      case None => s
      case Some(p) => s.(paint := s.paint + [LineTo(p)])
  }

  /** What `stopDrawing` leaves behind, and the picture handed to `onSave`
      (the raster `toDataURL` encodes), if it was called. */
  datatype StopResult = StopResult(surface: Surface, saved: Option<seq<Paint>>)

  /** `stopDrawing` (mouse-up, mouse-leave, touch-end): with a context, leave
      the drawing state and call `onSave` once when it is given, whether or
      not a stroke was in progress; without a context, nothing. */
  function StopDrawing(s: Surface, hasOnSave: bool): (r: StopResult)
    ensures !s.HasContext() ==> r.surface == s && r.saved == None
    ensures s.HasContext() ==> r.surface == s.(drawing := false)
    ensures r.saved.Some? <==> s.HasContext() && hasOnSave
    ensures r.saved.Some? ==> r.saved.value == s.paint
  {
    if !s.HasContext() then StopResult(s, None)
    else StopResult(s.(drawing := false), if hasOnSave then Some(s.paint) else None)
  }

  /** The segments a run of move events strokes, in order. */
  function Lines(es: seq<PointerEvent>, rect: Rect): seq<Paint>
    decreases |es|
  {
    if es == [] then []
    else
      (match GetPos(es[0], rect) case None => [] case Some(p) => [LineTo(p)])
      + Lines(es[1..], rect)
  }

  /** Feeding move events to `draw` one after another. */
  function DrawAll(s: Surface, es: seq<PointerEvent>, rect: Rect): Surface
    decreases |es|
  {
    if es == [] then s else DrawAll(Draw(s, es[0], rect), es[1..], rect)
  }

  /** While drawing, moves append their segments and change nothing else;
      while idle (or before a context exists) they change nothing at all. */
  lemma {:induction false} DrawAllAppends(s: Surface, es: seq<PointerEvent>, rect: Rect)
    ensures s.drawing && s.HasContext() ==> DrawAll(s, es, rect) == s.(paint := s.paint + Lines(es, rect))
    ensures !(s.drawing && s.HasContext()) ==> DrawAll(s, es, rect) == s
    decreases |es|
  {
    if es != [] {
      var s' := Draw(s, es[0], rect);
      DrawAllAppends(s', es[1..], rect);
      if s.drawing && s.HasContext() {
        assert s'.drawing && s'.HasContext();
        var head := match GetPos(es[0], rect) case None => [] case Some(p) => [LineTo(p)];
        assert s'.paint == s.paint + head;
        assert Lines(es, rect) == head + Lines(es[1..], rect);
        assert s.paint + head + Lines(es[1..], rect) == s.paint + Lines(es, rect);
      }
    }
  }

  /** A whole gesture on a surface with a context: press, moves, release.
      The surface ends idle and the saved picture is the earlier paint plus
      the new path: its start point followed by one segment per move. */
  lemma Gesture(s: Surface, down: PointerEvent, moves: seq<PointerEvent>, rect: Rect)
    requires s.HasContext() && GetPos(down, rect).Some?
    ensures var r := StopDrawing(DrawAll(StartDrawing(s, down, rect), moves, rect), true);
      && !r.surface.drawing
      && r.saved == Some(s.paint + [BeginAt(GetPos(down, rect).value)] + Lines(moves, rect))
  {
    DrawAllAppends(StartDrawing(s, down, rect), moves, rect);
  }

  /** Releasing (or leaving) an idle surface that has a context still saves,
      and the saved picture is the unchanged canvas. */
  lemma IdleStopSaves(s: Surface)
    requires s.HasContext() && !s.drawing
    ensures StopDrawing(s, true).saved == Some(s.paint)
    ensures StopDrawing(s, true).surface == s
  {
  }
}
