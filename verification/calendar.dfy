/** The calendar component: the grid built from today and the goal instant,
    the per-day drawing record and retry counters, and how each day's
    drawing surface is wired to them. */
module Calendar {
  import opened Common
  import opened Storage
  import DateRange
  import Weeks
  import Canvas

  /** The component's state, together with the shared store it persists to. */
  datatype CalendarState = CalendarState(
    drawings: Drawings,
    resetKeys: map<DayKey, nat>,
    store: Store)

  /** The persisted drawing record is the component's record. */
  predicate Persisted(c: CalendarState)
  {
    GetDrawings(c.store) == c.drawings
  }

  /** The key of the cell showing `date`. */
  function KeyOf(date: int): DayKey
  {
    DateRange.DayOf(date)
  }

  /** The rows of the grid: the day range from today through the goal, seven
      days to a row. */
  function Rows(today: int, end: int): (rows: seq<seq<int>>)
    ensures Weeks.Flatten(rows) == DateRange.DatesFrom(today, end)
    ensures Weeks.WellShaped(rows)
    ensures today > end ==> rows == []
    ensures today <= end ==> rows[0][0] == today
  {
    Weeks.ChunkShape(DateRange.DatesFrom(today, end));
    Weeks.Chunk(DateRange.DatesFrom(today, end))
  }

  /** Distinct cells of the grid carry distinct keys, so each day of the
      range owns its own drawing entry and retry counter. */
  lemma KeysDistinct(today: int, end: int, i: int, j: int)
    requires 0 <= i < j < |DateRange.DatesFrom(today, end)|
    ensures KeyOf(DateRange.DatesFrom(today, end)[i]) < KeyOf(DateRange.DatesFrom(today, end)[j])
  {
  }

  /** Mounting: the record is read from the store (empty when absent), no
      day has been retried, and the persisting effect writes the record back. */
  function Mount(st: Store): (c: CalendarState)
    ensures c.drawings == GetDrawings(st) && c.resetKeys == map[]
    ensures Persisted(c)
    ensures c.store - {DrawingsKey} == st - {DrawingsKey}
  {
    var d := GetDrawings(st);
    CalendarState(d, map[], PutDrawings(st, d))
  }

  /** `saveDrawing(k, d)`: record the snapshot for day `k` and persist. */
  function SaveDrawing(c: CalendarState, k: DayKey, d: Snapshot): (r: CalendarState)
    ensures k in r.drawings && r.drawings[k] == Some(d)
    ensures r.drawings.Keys == c.drawings.Keys + {k}
    ensures forall k' :: k' in c.drawings && k' != k ==> r.drawings[k'] == c.drawings[k']
    ensures r.resetKeys == c.resetKeys
    ensures Persisted(r)
    ensures r.store - {DrawingsKey} == c.store - {DrawingsKey}
  {
    var drawings := c.drawings[k := Some(d)];
    CalendarState(drawings, c.resetKeys, PutDrawings(c.store, drawings))
  }

  /** `retryDrawing(k)`: the entry for `k` becomes `null` (the key stays), the
      counter for `k` becomes 1 when it was absent or 0 and one more
      otherwise, and the persisting effect writes the record. */
  function RetryDrawing(c: CalendarState, k: DayKey): (r: CalendarState)
    ensures k in r.drawings && r.drawings[k] == None
    ensures r.drawings.Keys == c.drawings.Keys + {k}
    ensures forall k' :: k' in c.drawings && k' != k ==> r.drawings[k'] == c.drawings[k']
    ensures k in r.resetKeys
    ensures k !in c.resetKeys || c.resetKeys[k] == 0 ==> r.resetKeys[k] == 1
    ensures k in c.resetKeys && c.resetKeys[k] != 0 ==> r.resetKeys[k] == c.resetKeys[k] + 1
    ensures r.resetKeys.Keys == c.resetKeys.Keys + {k}
    ensures forall k' :: k' in c.resetKeys && k' != k ==> r.resetKeys[k'] == c.resetKeys[k']
    ensures Persisted(r)
    ensures r.store - {DrawingsKey} == c.store - {DrawingsKey}
  {
    var prev := Lookup(c.resetKeys, k);
    var next := if prev.Some? && prev.value != 0 then prev.value + 1 else 1;
    var drawings := c.drawings[k := None];
    CalendarState(drawings, c.resetKeys[k := next], PutDrawings(c.store, drawings))
  }

  /** The props handed to day `k`'s surface: `drawings[k]` and `resetKeys[k]`. */
  function CellDeps(c: CalendarState, k: DayKey): Canvas.Deps
  {
    Canvas.Deps(Lookup(c.drawings, k), Lookup(c.resetKeys, k))
  }

  /** Retry always changes the cell's reset counter, so the next render of a
      surface that was in step with the cell reinitialises it: a blank canvas
      and no new decode, since the entry is now `null`. */
  lemma RetryReinitialises(c: CalendarState, k: DayKey, s: Canvas.Surface)
    requires s.deps == Some(CellDeps(c, k))
    ensures var s' := Canvas.Sync(s, CellDeps(RetryDrawing(c, k), k));
      && s' == Canvas.Init(s, CellDeps(RetryDrawing(c, k), k))
      && s'.paint == [Canvas.Clear]
      && s'.pending == s.pending
  {
  }

  /** Releasing the pointer on day `k`'s surface: the surface saves its
      picture (encoded by `encode`, which stands for `toDataURL`) under `k`. */
  function CellStop(c: CalendarState, k: DayKey, s: Canvas.Surface, encode: seq<Canvas.Paint> -> Snapshot)
    : (r: (CalendarState, Canvas.Surface))
    ensures s.HasContext() ==> r.1 == s.(drawing := false)
    ensures s.HasContext() ==> r.0 == SaveDrawing(c, k, encode(s.paint))
    ensures !s.HasContext() ==> r.0 == c && r.1 == s
  {
    var res := Canvas.StopDrawing(s, true);
    match res.saved
    case None => (c, res.surface)
    case Some(picture) => (SaveDrawing(c, k, encode(picture)), res.surface)
  }
}
