/** Chunking the day list into calendar rows of seven. */
module Weeks {

  const WeekLen: int := 7

  function Min(a: int, b: int): int
  {
    if a <= b then a else b
  }

  /** All rows joined end to end, in order. */
  function Flatten<T>(rows: seq<seq<T>>): seq<T>
  {
    if rows == [] then [] else rows[0] + Flatten(rows[1..])
  }

  /** A row holds one to seven items, and only the last may be short. */
  ghost predicate WellShaped<T>(rows: seq<seq<T>>)
  {
    && (forall i :: 0 <= i < |rows| ==> 1 <= |rows[i]| <= WeekLen)
    && (forall i :: 0 <= i < |rows| - 1 ==> |rows[i]| == WeekLen)
  }

  /** `ds.slice(i, i + 7)` for `i = 0, 7, 14, ...` while `i < ds.length`. */
  function Chunk<T>(ds: seq<T>): seq<seq<T>>
    decreases |ds|
  {
    if |ds| == 0 then []
    else
      var n := Min(WeekLen, |ds|);
      [ds[..n]] + Chunk(ds[n..])
  }

  /** Joining the rows gives back the list, there are ⌈n/7⌉ rows, and every
      row but the last is full. */
  lemma {:induction false} ChunkShape<T>(ds: seq<T>)
    ensures Flatten(Chunk(ds)) == ds
    ensures |Chunk(ds)| == (|ds| + WeekLen - 1) / WeekLen
    ensures WellShaped(Chunk(ds))
    decreases |ds|
  {
    if |ds| > 0 {
      var n := Min(WeekLen, |ds|);
      ChunkShape(ds[n..]);
      assert ds[..n] + ds[n..] == ds;
    }
  }

  /** Every start index `7 * i` inside the list begins a row, and that row
      is the slice from `7 * i` of at most seven items. */
  lemma {:induction false} ChunkRow<T>(ds: seq<T>, i: int)
    requires 0 <= i && WeekLen * i < |ds|
    ensures i < |Chunk(ds)|
    ensures Chunk(ds)[i] == ds[WeekLen * i .. Min(WeekLen * i + WeekLen, |ds|)]
    decreases |ds|
  {
    var n := Min(WeekLen, |ds|);
    if i > 0 {
      ChunkRow(ds[n..], i - 1);
    }
  }

  /** Chunking from `i` splits off the row `[i, i + 7)`. */
  lemma ChunkStep<T>(ds: seq<T>, i: int)
    requires 0 <= i < |ds|
    ensures Chunk(ds[i..]) == [ds[i..Min(i + WeekLen, |ds|)]] + Chunk(ds[Min(i + WeekLen, |ds|)..])
  {
    var hi := Min(i + WeekLen, |ds|);
    var rest := ds[i..];
    assert rest[..hi - i] == ds[i..hi];
    assert rest[hi - i..] == ds[hi..];
  }

  /** The row loop as written, with an index that steps by seven. */
  method ChunkWeeks<T>(dates: seq<T>) returns (weeks: seq<seq<T>>)
    ensures weeks == Chunk(dates)
    ensures Flatten(weeks) == dates
    ensures |weeks| == (|dates| + WeekLen - 1) / WeekLen
  {
    weeks := [];
    var i := 0;
    while i < |dates|
      invariant 0 <= i
      invariant weeks + Chunk(dates[Min(i, |dates|)..]) == Chunk(dates)
      decreases |dates| - i
    {
      var hi := Min(i + WeekLen, |dates|);
      ChunkStep(dates, i);
      weeks := weeks + [dates[i..hi]];
      i := i + WeekLen;
      assert Min(i, |dates|) == hi;
    }
    assert dates[Min(i, |dates|)..] == [];
    ChunkShape(dates);
  }
}
