/** The calendar's day range: every instant from "now" through the goal
    instant, one day apart, plus the "today" test and the remaining-days
    count. Instants are whole milliseconds; a day is a fixed step. */
module DateRange {

  /** Milliseconds in a day, `1000 * 60 * 60 * 24`. */
  const DayMs: int := 86_400_000

  /** The dates enumerated from `cur` while they do not pass `end`. */
  function DatesFrom(cur: int, end: int): (ds: seq<int>)
    ensures cur > end ==> ds == []
    ensures cur <= end ==> |ds| == (end - cur) / DayMs + 1
    ensures forall i :: 0 <= i < |ds| ==> ds[i] == cur + i * DayMs
    ensures forall i :: 0 <= i < |ds| ==> ds[i] <= end
    decreases if cur > end then 0 else end - cur + 1
  {
    if cur > end then [] else [cur] + DatesFrom(cur + DayMs, end)
  }

  /** The enumeration loop as written: copy `current`, then step one day. */
  method EnumerateDates(today: int, end: int) returns (dates: seq<int>)
    ensures dates == DatesFrom(today, end)
    ensures today > end ==> dates == []
    ensures today <= end ==> |dates| > 0 && dates[0] == today
    ensures forall i :: 0 <= i < |dates| ==> today <= dates[i] <= end
  {
    dates := [];
    var current := today;
    while current <= end
      invariant dates + DatesFrom(current, end) == DatesFrom(today, end)
      decreases end - current
    {
      DatesStep(dates, current, end);
      dates := dates + [current];
      current := current + DayMs;
    }
  }

  /** One turn of the loop moves the next date from the rest to the prefix. */
  lemma DatesStep(prefix: seq<int>, cur: int, end: int)
    requires cur <= end
    ensures prefix + DatesFrom(cur, end) == (prefix + [cur]) + DatesFrom(cur + DayMs, end)
  {
  }

  /** Consecutive enumerated dates are exactly one day apart, so the list is
      strictly increasing. */
  lemma DatesIncreasing(cur: int, end: int, i: int, j: int)
    requires 0 <= i < j < |DatesFrom(cur, end)|
    ensures DatesFrom(cur, end)[i] < DatesFrom(cur, end)[j]
    ensures j == i + 1 ==> DatesFrom(cur, end)[j] - DatesFrom(cur, end)[i] == DayMs
  {
  }

  /** An instant is enumerated exactly when it lies in [cur, end] and is a
      whole number of days after `cur`. */
  lemma {:induction false} DatesMembership(cur: int, end: int, t: int)
    ensures t in DatesFrom(cur, end) <==> cur <= t <= end && (t - cur) % DayMs == 0
  {
    var ds := DatesFrom(cur, end);
    if t in ds {
      var i :| 0 <= i < |ds| && ds[i] == t;
      assert t - cur == i * DayMs;
    }
    if cur <= t <= end && (t - cur) % DayMs == 0 {
      var i := (t - cur) / DayMs;
      assert t == cur + i * DayMs;
      assert ds[i] == t;
    }
  }

  /** The day ordinal of an instant: what `toDateString()` distinguishes. */
  function DayOf(t: int): int
  {
    t / DayMs
  }

  /** `isToday(date)`: same calendar day as `today`. */
  predicate IsToday(date: int, today: int)
  {
    DayOf(date) == DayOf(today)
  }

  /** The first enumerated date is today and no later one is. */
  lemma OnlyFirstIsToday(today: int, end: int, i: int)
    requires 0 <= i < |DatesFrom(today, end)|
    ensures IsToday(DatesFrom(today, end)[i], today) <==> i == 0
    ensures DayOf(DatesFrom(today, end)[i]) == DayOf(today) + i
  {
  }

  /** `Math.ceil(timeDiff / DayMs)` on whole milliseconds. */
  function RemainingDays(today: int, end: int): (r: int)
    ensures (r - 1) * DayMs < end - today <= r * DayMs
  {
    var diff := end - today;
    if diff % DayMs == 0 then diff / DayMs else diff / DayMs + 1
  }

  /** The number of cells equals the remaining-days count, plus one when the
      goal is a whole number of days away; a past goal gives no cells and a
      count that is not positive. */
  lemma CellsVersusRemaining(today: int, end: int)
    ensures today <= end && (end - today) % DayMs == 0 ==>
              |DatesFrom(today, end)| == RemainingDays(today, end) + 1
    ensures today <= end && (end - today) % DayMs != 0 ==>
              |DatesFrom(today, end)| == RemainingDays(today, end)
    ensures today > end ==> |DatesFrom(today, end)| == 0 && RemainingDays(today, end) <= 0
  {
  }

  /** The goal's own day usually gets no cell: when "now" is `t` ms into
      day `d` (t > 0) and the goal instant is the midnight starting day
      `d + k`, the cells are days `d` to `d + k - 1` only, while the
      remaining-days count is `k`. */
  lemma GoalDayMissing(d: int, t: int, k: int)
    requires 0 < t < DayMs && k >= 1
    ensures var ds := DatesFrom(d * DayMs + t, (d + k) * DayMs);
      && |ds| == k
      && (forall i :: 0 <= i < |ds| ==> DayOf(ds[i]) == d + i)
      && RemainingDays(d * DayMs + t, (d + k) * DayMs) == k
  {
  }

  /** An end instant exactly two days after now gives three cells and two
      remaining days. */
  lemma TwoDaysAhead(today: int)
    ensures DatesFrom(today, today + 2 * DayMs) == [today, today + DayMs, today + 2 * DayMs]
    ensures RemainingDays(today, today + 2 * DayMs) == 2
  {
  }
}
