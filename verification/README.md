# Goal calendar — a Dafny model

The goal calendar is a small browser application. The user picks a goal
date; the calendar then shows one drawing cell per day, stepping one day at a
time from the current instant while it does not pass the goal instant (the
goal date's midnight), seven cells to a row. Because the current instant
carries a time of day, the goal's own day usually gets no cell
(`DateRange.GoalDayMissing`). Each cell holds a freehand sketch pad whose
snapshot is kept in local storage under the day's key; a Retry button clears
a day's sketch. The goal can be reset, and the goal plus all sketches can be
exported to a JSON file and imported back.

This project models the three pieces of logic in that application as pure
functions over immutable values, and proves what they promise:

- `DateRange` and `Weeks` (`src/components/Calendar.jsx`): the enumeration of
  instants from now through the goal one day apart, the remaining-days count,
  the "is today" test, and the chunking of the day list into rows of seven.
  Instants are whole milliseconds and a day is the fixed step
  `1000 * 60 * 60 * 24`; a day's key is its day ordinal.
- `Calendar` (`src/components/Calendar.jsx`): the per-day drawing record
  (`drawings`) and retry counters (`resetKeys`), their persistence, and how a
  cell's surface is reinitialised by Retry and saves its picture on release.
- `Canvas` (`src/components/DrawingCanvas.jsx`): the drawing surface as a
  state machine. The raster is the list of paint operations issued on it
  (clear, begin path, stroke segment, draw image); the asynchronous decode of
  a saved snapshot is a pending list settled by explicit decode events.
- `App` (`src/App.jsx`): the goal date, the date being picked, confirm,
  reset, the export payload and the field-by-field import merge.
- `Storage` and `Common`: local storage as an in-memory map from key to value
  (the goal as text, the drawing record in decoded form), and the shared
  types. A value of the wrong kind under a key reads as absent.

The React effects are explicit transitions: `Calendar.Mount` includes the
effect that writes the record back to storage, `Canvas.Sync` runs the
initialisation effect when its dependencies (saved entry, reset counter)
differ from the previous run, and a reload after import is `App.Mount` of the
new store.

Two behaviours of the code are modelled as written. Releasing or leaving a
surface that has a context saves its picture even when no stroke was in
progress (`Canvas.IdleStopSaves`). A reinitialisation does not cancel a decode
started by an earlier one, so an old snapshot may still be drawn over a
cleared canvas (`Canvas.Init` keeps the pending list).

## Model

| member | source | states |
|---|---|---|
| DateRange.DatesFrom | src/components/Calendar.jsx:11-16 | A start after the end gives no dates; otherwise there are ⌊(end − start)/day⌋ + 1, the i-th is start + i days, and every one is at most the end |
| DateRange.EnumerateDates | src/components/Calendar.jsx:11-16 | The push-then-step loop yields exactly that list: empty when today is after the goal, else starting at today, all within [today, goal] |
| DateRange.DatesIncreasing | src/components/Calendar.jsx:12-16 | The list is strictly increasing and neighbours are exactly one day apart |
| DateRange.DatesMembership | src/components/Calendar.jsx:12-16 | An instant is enumerated if and only if it lies in [start, end] and is a whole number of days after the start |
| DateRange.OnlyFirstIsToday | src/components/Calendar.jsx:55 | The i-th date falls on today's day ordinal plus i, so `isToday` holds for the first date and for no later one |
| DateRange.RemainingDays | src/components/Calendar.jsx:8-9 | The count r is the ceiling of the difference in days: (r − 1) days < end − today ≤ r days |
| DateRange.CellsVersusRemaining | src/components/Calendar.jsx:8-16 | The cell count equals the remaining-days count, plus one when the goal is a whole number of days away; a past goal gives no cells and a count ≤ 0 |
| DateRange.TwoDaysAhead | src/components/Calendar.jsx:8-16 | An end instant exactly 2 × DayMs after now gives the three dates now, +1 day, +2 days and a count of 2 |
| DateRange.GoalDayMissing | src/components/Calendar.jsx:5-16 | When now is a positive time into day d and the goal instant is the midnight starting day d + k (k ≥ 1), there are k cells, for days d … d + k − 1, so the goal's own day has none, while the remaining-days count is k |
| Weeks.ChunkShape | src/components/Calendar.jsx:18-21 | Joining the rows gives back the day list, there are ⌈n/7⌉ rows, each row holds 1 to 7 days and all but the last hold 7 |
| Weeks.ChunkRow | src/components/Calendar.jsx:18-21 | Row i is the slice of the day list from 7i to min(7i + 7, n) |
| Weeks.ChunkWeeks | src/components/Calendar.jsx:18-21 | The loop stepping its index by seven and slicing up to seven days builds exactly the rows of the recursive chunking `Weeks.Chunk`, whose concatenation is the day list, ⌈n/7⌉ of them |
| Calendar.Rows | src/components/Calendar.jsx:11-21 | The grid's rows concatenate to the day range, are well shaped, are empty for a past goal and otherwise begin with today |
| Calendar.KeysDistinct | src/components/Calendar.jsx:72-75 | Different cells of the grid have different day keys, increasing along the grid |
| Calendar.Mount | src/components/Calendar.jsx:24-30 | The record starts as the stored record (empty when absent), no counters exist, the record is written back, and no other stored key changes |
| Calendar.SaveDrawing | src/components/Calendar.jsx:32-38 | Day k now maps to the snapshot, every other entry and every counter is unchanged, and the persisted record equals the new record |
| Calendar.RetryDrawing | src/components/Calendar.jsx:40-46 | Day k maps to null with its key kept, other entries are unchanged, k's counter becomes 1 if absent or 0 and one more otherwise, other counters are unchanged, and the new record is persisted |
| Calendar.RetryReinitialises | src/components/Calendar.jsx:90-92 | After Retry the cell's props always differ, so its surface reinitialises to a blank canvas with no new decode |
| Calendar.CellStop | src/components/Calendar.jsx:91 | Releasing a surface that has a context changes only its `drawing` flag, to idle, and stores the encoding of its picture under the day; without a context nothing changes |
| Canvas.GetPos | src/components/DrawingCanvas.jsx:33-38 | The position is the client point (the first touch for a touch event) minus the rectangle's left and top; a touch event without touches gives none |
| Canvas.GetPosAgrees | src/components/DrawingCanvas.jsx:33-38 | Mouse and touch at the same client point map to the same canvas point, and the mapping undoes the rectangle offset |
| Canvas.Init | src/components/DrawingCanvas.jsx:10-31 | Initialisation leaves only the blank background, makes the context available, keeps `drawing`, and starts a decode exactly when the saved entry is a non-empty snapshot |
| Canvas.Sync | src/components/DrawingCanvas.jsx:10-31 | The initialisation runs exactly when the dependencies differ from the previous run's |
| Canvas.SyncIdempotent | src/components/DrawingCanvas.jsx:31 | Rendering twice with unchanged dependencies is the same as rendering once |
| Canvas.ImageDecoded | src/components/DrawingCanvas.jsx:24-28 | The i-th decode completing draws its image on top of the current canvas; exactly that decode leaves the pending list, the others stay in order |
| Canvas.ImageFailed | src/components/DrawingCanvas.jsx:24-28 | The i-th decode failing draws nothing; exactly that decode leaves the pending list, the others stay in order |
| Canvas.StaleDecodeDrawsOverClear | src/components/DrawingCanvas.jsx:10-31 | A decode started by an earlier initialisation stays pending across a reinitialisation to `null` and, on completing, draws the old snapshot over the cleared canvas |
| Canvas.StartDrawing | src/components/DrawingCanvas.jsx:40-47 | Without a context nothing changes; with one the surface is drawing and a new path begins at the pointer |
| Canvas.Draw | src/components/DrawingCanvas.jsx:49-55 | A segment to the pointer is appended only while drawing with a context; otherwise nothing changes |
| Canvas.StopDrawing | src/components/DrawingCanvas.jsx:57-63 | Without a context nothing changes and nothing is saved; with one the surface is idle and `onSave` receives the current picture exactly when it is given |
| Canvas.DrawAllAppends | src/components/DrawingCanvas.jsx:49-55 | A run of moves while drawing appends one segment per located move and changes nothing else; while idle it changes nothing |
| Canvas.Gesture | src/components/DrawingCanvas.jsx:40-63 | Press, moves, release: the surface ends idle and the saved picture is the old paint, the path start, then one segment per move |
| Canvas.IdleStopSaves | src/components/DrawingCanvas.jsx:70-76 | Mouse-leave or release on an idle surface with a context still saves, and saves the unchanged canvas |
| App.Mount | src/App.jsx:8-11 | After mounting the goal is the stored goal when that is truthy and empty otherwise, and the picker is empty |
| App.ConfirmGoal | src/App.jsx:13-17 | An empty pick changes nothing; otherwise the goal state and the stored goal both become the pick; no other stored key changes |
| App.ConfirmThenReload | src/App.jsx:13-17 | A confirmed goal is restored by a reload, and confirming again changes nothing |
| App.ResetGoal | src/App.jsx:19-24 | Goal and pick are emptied, the stored goal and record are removed, and every other stored key is kept |
| App.ResetClearsEverything | src/App.jsx:19-31 | After a reset a reload shows no goal, the calendar mounts with an empty record, and the export is `{goalDate: null, drawings: {}}` |
| App.ExportPayload | src/App.jsx:27-31 | The payload's goal is the stored goal or null, and its record is the stored record or `{}` |
| App.Import | src/App.jsx:41-57 | No file: nothing; a parse failure or null document: an alert and no write; otherwise the goal is written only if truthy, the record whenever present (even `{}`), each untouched otherwise, and no other key changes |
| App.ImportAndReload | src/App.jsx:47-54 | A successful import remounts the application from the new store; any other outcome leaves the state as it was |
| App.ImportDocumentReloads | src/App.jsx:47-54 | For every parsed document, after the reload the picker is empty, the goal is the document's when truthy and otherwise the one the old store gives, and the calendar's record is the document's when present and otherwise the old stored record |
| App.ExportImportRoundTrip | src/App.jsx:27-54 | Importing the exported payload reads back the same goal and record and exports the same payload; the store changes at most by storing an absent record as `{}` |
| App.ImportGoalWithEmptyRecord | src/App.jsx:47-54 | Importing a goal with an empty record and reloading shows that goal and an empty drawing record |

## Left out

- React rendering, markup and styling, and hook scheduling: handlers are modelled as if each state update were visible to the next event (the code's `drawing` read through a stale closure between renders is not modelled).
- Local storage is an in-memory map holding decoded values; JSON text encoding and decoding, the `|| '{}'` fallback for an empty stored string, and values of the wrong kind are abstracted (a wrong-kind value reads as absent).
- File download (Blob, object URL, anchor click), FileReader and the alert text are I/O; export is modelled as the payload it serialises and import as the parsed outcome it receives.
- `window.location.reload` is modelled as remounting `App` from the store (`App.Mount`, and `Calendar.Mount` for the record); nothing else of a page load is.
- App.Import: a truthy non-string goal (which `setItem` would coerce to text) and a truthy non-object record are not representable in the payload type, which holds only text goals and drawing records.
- JavaScript `Date`: time zones, daylight saving, the UTC parse of the goal string and local `setDate` stepping are replaced by integer instants and a fixed day step; the conversion of the stored goal text to the calendar's end instant is not modelled, and the calendar takes the end instant directly.
- The "Today:" label (`toLocaleDateString`) and the day number shown in each cell are formatting and are not modelled.
- DateRange.RemainingDays: `Math.ceil` of a floating-point quotient is modelled as exact integer ceiling division; float rounding on huge differences and the display of `-0` are not modelled.
- Canvas pixels, canvas sizing, line width, colour and caps, and `toDataURL` are graphics; the raster is the list of paint operations and the data URL encoding is a parameter (`encode`) of `Calendar.CellStop`.
- Canvas coordinates are integers rather than floating-point numbers.
- `preventDefault` on pointer events affects only the browser's default handling and is not modelled.
- The picker's `onChange` setter for `tempDate` is a plain field update and is not modelled as its own member.
- Month grouping with padded weeks, lock/unlock and Edit are not present in the code modelled here.
