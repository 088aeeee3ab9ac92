/** The goal controller: the chosen goal date, the date being picked, and
    the reset, export and import actions over the shared store. */
module App {
  import opened Common
  import opened Storage
  import Calendar

  /** `goalDate` and `tempDate` are the component's state ("" when unset). */
  datatype AppState = AppState(goalDate: string, tempDate: string, store: Store)

  /** Mounting (and reloading): the goal is restored from the store when the
      stored value is truthy; the picker starts empty. */
  function Mount(st: Store): (a: AppState)
    ensures a.store == st && a.tempDate == ""
    ensures TruthyOption(GetGoal(st)) ==> a.goalDate == GetGoal(st).value
    ensures !TruthyOption(GetGoal(st)) ==> a.goalDate == ""
  {
    var saved := GetGoal(st);
    AppState(if TruthyOption(saved) then saved.value else "", "", st)
  }

  /** `confirmGoal`: an empty pick does nothing; otherwise the pick becomes
      the goal, in the state and in the store, and nothing else changes. */
  function ConfirmGoal(a: AppState): (r: AppState)
    ensures a.tempDate == "" ==> r == a
    ensures a.tempDate != "" ==> r.goalDate == a.tempDate && GetGoal(r.store) == Some(a.tempDate)
    ensures r.tempDate == a.tempDate
    ensures r.store - {GoalKey} == a.store - {GoalKey}
  {
    if !TruthyText(a.tempDate) then a
    else AppState(a.tempDate, a.tempDate, PutGoal(a.store, a.tempDate))
  }

  /** A confirmed goal survives a reload, and confirming twice is confirming once. */
  lemma ConfirmThenReload(a: AppState)
    requires a.tempDate != ""
    ensures Mount(ConfirmGoal(a).store).goalDate == a.tempDate
    ensures ConfirmGoal(ConfirmGoal(a)) == ConfirmGoal(a)
  {
  }

  /** `resetGoal`: both fields are emptied and both stored keys removed; any
      other stored key is untouched. */
  function ResetGoal(a: AppState): (r: AppState)
    ensures r.goalDate == "" && r.tempDate == ""
    ensures GoalKey !in r.store && DrawingsKey !in r.store
    ensures r.store - {GoalKey, DrawingsKey} == a.store - {GoalKey, DrawingsKey}
    ensures r.store.Keys == a.store.Keys - {GoalKey, DrawingsKey}
  {
    AppState("", "", a.store - {GoalKey, DrawingsKey})
  }

  /** The JSON document exchanged with files: `None` stands for a missing or
      `null` field. */
  datatype Payload = Payload(goalDate: Option<string>, drawings: Option<Drawings>)

  /** `exportData`'s payload: the stored goal (`null` when absent) and the
      stored record (`{}` when absent). */
  function ExportPayload(st: Store): (p: Payload)
    ensures p.goalDate.Some? <==> GoalKey in st && st[GoalKey].Text?
    ensures p.goalDate.Some? ==> st[GoalKey] == Text(p.goalDate.value)
    ensures p.drawings.Some?
    ensures DrawingsKey !in st ==> p.drawings.value == map[]
    ensures DrawingsKey in st && st[DrawingsKey].Object? ==> p.drawings.value == st[DrawingsKey].drawings
  {
    Payload(GetGoal(st), Some(GetDrawings(st)))
  }

  /** After a reset, a reload shows no goal and an export is `{goalDate: null,
      drawings: {}}`. */
  lemma ResetClearsEverything(a: AppState)
    ensures Mount(ResetGoal(a).store).goalDate == ""
    ensures ExportPayload(ResetGoal(a).store) == Payload(None, Some(map[]))
    ensures Calendar.Mount(ResetGoal(a).store).drawings == map[]
  {
  }

  /** The outcome of parsing the chosen file's text. A JSON value that is not
      an object reads every field as missing, so it is a `Document` with both
      fields `None`; `null` itself makes the first field access throw. */
  datatype Parsed = Malformed | NullDocument | Document(payload: Payload)

  /** No file chosen; an alert after a parse or access error; a reload. */
  datatype Outcome = Ignored | Alerted | Reloaded

  datatype ImportResult = ImportResult(store: Store, outcome: Outcome)

  /** `importData`: writes happen only after a successful parse, the goal
      only when truthy, the record whenever present (even when empty). */
  function Import(st: Store, file: Option<Parsed>): (r: ImportResult)
    ensures file.None? <==> r.outcome == Ignored
    ensures r.outcome == Alerted <==> file.Some? && !file.value.Document?
    ensures r.outcome != Reloaded ==> r.store == st
    ensures r.store - {GoalKey, DrawingsKey} == st - {GoalKey, DrawingsKey}
    ensures r.outcome == Reloaded ==>
              var p := file.value.payload;
              && (TruthyOption(p.goalDate) ==> GetGoal(r.store) == p.goalDate)
              && (!TruthyOption(p.goalDate) ==> Lookup(r.store, GoalKey) == Lookup(st, GoalKey))
              && (p.drawings.Some? ==> GetDrawings(r.store) == p.drawings.value)
              && (p.drawings.None? ==> Lookup(r.store, DrawingsKey) == Lookup(st, DrawingsKey))
  {
    match file
    case None => ImportResult(st, Ignored)
    case Some(Malformed) => ImportResult(st, Alerted)
    case Some(NullDocument) => ImportResult(st, Alerted)
    case Some(Document(p)) =>
      var st1 := if TruthyOption(p.goalDate) then PutGoal(st, p.goalDate.value) else st;
      var st2 := if p.drawings.Some? then PutDrawings(st1, p.drawings.value) else st1;
      ImportResult(st2, Reloaded)
  }

  /** The import as the user sees it: a reload remounts the application from
      the store; otherwise the state is as it was. */
  function ImportAndReload(a: AppState, file: Option<Parsed>): (r: AppState)
    ensures Import(a.store, file).outcome == Reloaded ==> r == Mount(Import(a.store, file).store)
    ensures Import(a.store, file).outcome != Reloaded ==> r == a
  {
    var res := Import(a.store, file);
    if res.outcome == Reloaded then Mount(res.store) else a
  }

  /** Importing any document and reloading: the picker is empty, the goal
      is the document's when that is truthy and otherwise the goal a reload
      of the old store shows, and the calendar mounts with the document's
      record when it has one and with the old record otherwise. */
  lemma ImportDocumentReloads(a: AppState, p: Payload)
    ensures var r := ImportAndReload(a, Some(Document(p)));
      && r.tempDate == ""
      && (TruthyOption(p.goalDate) ==> r.goalDate == p.goalDate.value)
      && (!TruthyOption(p.goalDate) ==> r.goalDate == Mount(a.store).goalDate)
      && (p.drawings.Some? ==> Calendar.Mount(r.store).drawings == p.drawings.value)
      && (p.drawings.None? ==> Calendar.Mount(r.store).drawings == GetDrawings(a.store))
  {
  }

  /** Importing a just-exported payload reads back the same goal and record;
      the only possible change to the store is that an absent record is now
      stored as `{}`. */
  lemma ExportImportRoundTrip(st: Store)
    ensures var r := Import(st, Some(Document(ExportPayload(st))));
      && r.outcome == Reloaded
      && GetGoal(r.store) == GetGoal(st)
      && GetDrawings(r.store) == GetDrawings(st)
      && ExportPayload(r.store) == ExportPayload(st)
      && r.store == st[DrawingsKey := Object(GetDrawings(st))]
  {
  }

  /** Importing `{"goalDate": g, "drawings": {}}` with a non-empty `g` and
      reloading shows goal `g` and an empty drawing record. */
  lemma ImportGoalWithEmptyRecord(a: AppState, g: string)
    requires g != ""
    ensures var r := ImportAndReload(a, Some(Document(Payload(Some(g), Some(map[])))));
      && r.goalDate == g
      && Calendar.Mount(r.store).drawings == map[]
  {
  }
}
