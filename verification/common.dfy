/** Values shared by every part of the goal calendar: optional values, the
    key that names a calendar day, and the opaque drawing snapshot. */
module Common {

  /** An optional value; `None` stands for JavaScript's `null`/`undefined`. */
  datatype Option<+T> = None | Some(value: T)

  /** A calendar day is identified by its day ordinal (whole days since the
      epoch), which plays the role of the `toDateString()` text. */
  type DayKey = int

  /** An encoded still image of a canvas (a data URL); never inspected. */
  type Snapshot = string

  /** The per-day drawing record: a present key maps to a snapshot or to
      `null` (a day that was retried and not redrawn). */
  type Drawings = map<DayKey, Option<Snapshot>>

  /** JavaScript truthiness of a string: only the empty string is falsy. */
  predicate TruthyText(s: string)
  {
    s != ""
  }

  /** Truthiness of a string that may be `null`/`undefined`. */
  predicate TruthyOption(o: Option<string>)
  {
    o.Some? && TruthyText(o.value)
  }

  /** Looks a key up the way `obj[key]` does: absent keys give `None`
      (`undefined`), present ones give `Some` of the stored value. */
  function Lookup<K, V>(m: map<K, V>, k: K): (r: Option<V>)
    ensures r.Some? <==> k in m
    ensures r.Some? ==> m[k] == r.value
  {
    if k in m then Some(m[k]) else None
  }
}
