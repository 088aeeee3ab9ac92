/** The browser's local key-value store, held in memory. Every stored value
    is kept in decoded form: the goal date as text, the drawing record as the
    object its JSON text denotes. */
module Storage {
  import opened Common

  datatype Value = Text(text: string) | Object(drawings: Drawings)

  type Store = map<string, Value>

  const GoalKey: string := "goalDate"
  const DrawingsKey: string := "drawings"

  /** `getItem('goalDate')`; a value of the wrong kind reads as absent. */
  function GetGoal(st: Store): (g: Option<string>)
    ensures g.Some? <==> GoalKey in st && st[GoalKey].Text?
    ensures g.Some? ==> st[GoalKey] == Text(g.value)
  {
    if GoalKey in st && st[GoalKey].Text? then Some(st[GoalKey].text) else None
  }

  /** `JSON.parse(getItem('drawings') || '{}')`: the stored record, or the
      empty record when nothing (usable) is stored. */
  function GetDrawings(st: Store): (d: Drawings)
    ensures DrawingsKey in st && st[DrawingsKey].Object? ==> d == st[DrawingsKey].drawings
    ensures !(DrawingsKey in st && st[DrawingsKey].Object?) ==> d == map[]
  {
    if DrawingsKey in st && st[DrawingsKey].Object? then st[DrawingsKey].drawings else map[]
  }

  /** `setItem('drawings', JSON.stringify(d))`. */
  function PutDrawings(st: Store, d: Drawings): (r: Store)
    ensures GetDrawings(r) == d
    ensures GetGoal(r) == GetGoal(st)
    ensures r - {DrawingsKey} == st - {DrawingsKey}
  {
    st[DrawingsKey := Object(d)]
  }

  /** `setItem('goalDate', g)`. */
  function PutGoal(st: Store, g: string): (r: Store)
    ensures GetGoal(r) == Some(g)
    ensures GetDrawings(r) == GetDrawings(st)
    ensures r - {GoalKey} == st - {GoalKey}
  {
    st[GoalKey := Text(g)]
  }
}
