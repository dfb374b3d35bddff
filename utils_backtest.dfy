/** How a backtest feed is configured from a frame: the bar timeframe and
    compression derived from the spacing of the frame's index, and the date
    window that defaults to the whole frame. */
module UtilsBacktest {
  import opened Bars
  import opened Gap

  /** Backtrader's time frames. */
  datatype TimeFrame = Ticks | MicroSeconds | Seconds | Minutes | Days | Weeks | Months | Years | NoTimeFrame

  const SecondMs: int := 1000
  const MinuteMs: int := 60000
  const HourMs: int := 3600000
  const DayMs: int := 86400000

  /** `Timedelta.components`: whole days, rounded down (negative for a
      negative spacing), then the hours, minutes, seconds and milliseconds left. */
  datatype Components = Components(days: int, hours: int, minutes: int, seconds: int, millis: int)

  /** What is left of a spacing after its whole days. */
  function Rest(c: Components): int {
    c.hours * HourMs + c.minutes * MinuteMs + c.seconds * SecondMs + c.millis
  }

  function ComponentsOf(td: Millis): (c: Components)
    ensures c.days * DayMs + Rest(c) == td
    ensures 0 <= c.hours < 24 && 0 <= c.minutes < 60 && 0 <= c.seconds < 60 && 0 <= c.millis < 1000
  {
    var rest := td % DayMs;
    var r1 := rest % HourMs;
    var r2 := r1 % MinuteMs;
    assert td == (td / DayMs) * DayMs + rest;
    assert rest == (rest / HourMs) * HourMs + r1;
    assert r1 == (r1 / MinuteMs) * MinuteMs + r2;
    assert r2 == (r2 / SecondMs) * SecondMs + r2 % SecondMs;
    Components(td / DayMs, rest / HourMs, r1 / MinuteMs, r2 / SecondMs, r2 % SecondMs)
  }

  /** Euclidean division has one quotient and one remainder. */
  lemma DivModUnique(x: int, m: int, q: int, r: int)
    requires m > 0 && x == q * m + r && 0 <= r < m
    ensures x / m == q && x % m == r
  {
    var q0, r0 := x / m, x % m;
    assert (q - q0) * m == r0 - r;
    if q - q0 >= 1 {
      MulMonotone(1, q - q0, m);
    } else if q - q0 <= -1 {
      MulMonotone(q - q0, -1, m);
    }
  }

  /** The components read off the spacing's remainders: what is left after
      whole days, and the seconds and milliseconds after whole minutes. */
  lemma ComponentsRemainders(td: Millis)
    ensures var c := ComponentsOf(td);
      && td % DayMs == Rest(c)
      && td % MinuteMs == c.seconds * SecondMs + c.millis
  {
    var c := ComponentsOf(td);
    DivModUnique(td, DayMs, c.days, Rest(c));
    DivModUnique(td, MinuteMs, c.days * 1440 + c.hours * 60 + c.minutes, c.seconds * SecondMs + c.millis);
  }

  /** `Timedelta.resolution_string` ('L', 'S', 'T', 'H', 'D'): the finest unit
      with a non-zero component, days when there is none. */
  datatype Resolution = Milli | Second | Minute | Hour | Day

  function ResolutionOf(td: Millis): Resolution {
    var c := ComponentsOf(td);
    if c.millis != 0 then Milli
    else if c.seconds != 0 then Second
    else if c.minutes != 0 then Minute
    else if c.hours != 0 then Hour
    else Day
  }

  /** The resolution is read off the spacing's divisibility. */
  lemma {:induction false} ResolutionByDivisibility(td: Millis)
    ensures ResolutionOf(td) == Day <==> td % DayMs == 0
    ensures ResolutionOf(td) in {Minute, Hour} <==> td % MinuteMs == 0 && td % DayMs != 0
    ensures td % MinuteMs != 0 <==> ResolutionOf(td) in {Milli, Second}
  {
    ComponentsRemainders(td);
  }

  /** The feed's timeframe and compression; None stands for Python's None. */
  datatype Feed = Feed(timeframe: Option<TimeFrame>, compression: Option<int>)

  /** `backtrader_data`: the spacing is `index[2] - index[1]` (None: the
      IndexError of a frame with fewer than three rows). Given both values
      pass through; otherwise hours or minutes give `Minutes` with compression
      `minutes + hours * 60`, days give `Days` with compression `days`, and
      finer spacings leave the values as passed. */
  function FeedParams(index: seq<Millis>, compression: Option<int>, timeframe: Option<TimeFrame>): (f: Option<Feed>)
    ensures f.None? <==> |index| < 3
  {
    if |index| < 3 then None
    else
      var td := index[2] - index[1];
      if timeframe.Some? && compression.Some? then Some(Feed(timeframe, compression))
      else
        var c := ComponentsOf(td);
        match ResolutionOf(td)
        case Hour => Some(Feed(Some(Minutes), Some(c.minutes + c.hours * 60)))
        case Minute => Some(Feed(Some(Minutes), Some(c.minutes + c.hours * 60)))
        case Day => Some(Feed(Some(Days), Some(c.days)))
        case _ => Some(Feed(timeframe, compression))
  }

  /** The length of one bar of a derived feed. */
  function BarLength(f: Feed): int
    requires f.timeframe in {Some(Minutes), Some(Days)} && f.compression.Some?
  {
    if f.timeframe == Some(Minutes) then f.compression.value * MinuteMs else f.compression.value * DayMs
  }

  /** Both values given: they pass through unchanged. */
  lemma FeedPassThrough(index: seq<Millis>, compression: int, timeframe: TimeFrame)
    requires |index| >= 3
    ensures FeedParams(index, Some(compression), Some(timeframe)) == Some(Feed(Some(timeframe), Some(compression)))
  {
  }

  /** A spacing of whole minutes that is not whole days: minute bars whose
      length is the spacing less its whole days. Below a day that is the
      spacing itself; above, the days are lost. */
  lemma FeedMinutes(index: seq<Millis>, compression: Option<int>, timeframe: Option<TimeFrame>)
    requires |index| >= 3 && (compression.None? || timeframe.None?)
    requires var td := index[2] - index[1]; td % MinuteMs == 0 && td % DayMs != 0
    ensures var f, td := FeedParams(index, compression, timeframe).value, index[2] - index[1];
      && f.timeframe == Some(Minutes) && f.compression.Some?
      && BarLength(f) == td % DayMs
      && (0 < td < DayMs ==> BarLength(f) == td)
      && (td > DayMs ==> BarLength(f) < td)
  {
    var td := index[2] - index[1];
    ResolutionByDivisibility(td);
    ComponentsRemainders(td);
    if 0 < td < DayMs {
      DivModUnique(td, DayMs, 0, td);
    }
  }

  /** A spacing of whole days: day bars of exactly the spacing (zero for
      repeated timestamps, negative for a decreasing index). */
  lemma FeedDays(index: seq<Millis>, compression: Option<int>, timeframe: Option<TimeFrame>)
    requires |index| >= 3 && (compression.None? || timeframe.None?)
    requires (index[2] - index[1]) % DayMs == 0
    ensures var f := FeedParams(index, compression, timeframe).value;
      f.timeframe == Some(Days) && f.compression.Some? && BarLength(f) == index[2] - index[1]
  {
    ResolutionByDivisibility(index[2] - index[1]);
    ComponentsRemainders(index[2] - index[1]);
  }

  /** A spacing finer than a minute: the values stay as passed, possibly None. */
  lemma FeedFinerThanMinutes(index: seq<Millis>, compression: Option<int>, timeframe: Option<TimeFrame>)
    requires |index| >= 3 && (index[2] - index[1]) % MinuteMs != 0
    ensures FeedParams(index, compression, timeframe) == Some(Feed(timeframe, compression))
  {
    ResolutionByDivisibility(index[2] - index[1]);
  }

  // ---------------------------------------------------------- date window

  function MinOf(s: seq<Millis>): (m: Millis)
    requires |s| > 0
    ensures m in s && forall i :: 0 <= i < |s| ==> m <= s[i]
  {
    if |s| == 1 then s[0]
    else
      var m := MinOf(s[..|s| - 1]);
      if s[|s| - 1] < m then s[|s| - 1] else m
  }

  function MaxOf(s: seq<Millis>): (m: Millis)
    requires |s| > 0
    ensures m in s && forall i :: 0 <= i < |s| ==> s[i] <= m
  {
    if |s| == 1 then s[0]
    else
      var m := MaxOf(s[..|s| - 1]);
      if s[|s| - 1] > m then s[|s| - 1] else m
  }

  /** `backtest_strategy`'s date defaults: a missing bound becomes the first
      or last instant of the frame (NaT, here None, for an empty frame). */
  function DateBounds(index: seq<Millis>, from: Option<Millis>, to: Option<Millis>): (w: (Option<Millis>, Option<Millis>))
    ensures from.Some? ==> w.0 == from
    ensures to.Some? ==> w.1 == to
    ensures from.None? ==> (w.0.Some? <==> |index| > 0)
    ensures to.None? ==> (w.1.Some? <==> |index| > 0)
    ensures from.None? && |index| > 0 ==>
      w.0.value in index && forall i :: 0 <= i < |index| ==> w.0.value <= index[i]
    ensures to.None? && |index| > 0 ==>
      w.1.value in index && forall i :: 0 <= i < |index| ==> index[i] <= w.1.value
  {
    var lo := if from.Some? then from else if |index| > 0 then Some(MinOf(index)) else None;
    var hi := if to.Some? then to else if |index| > 0 then Some(MaxOf(index)) else None;
    (lo, hi)
  }

  function Timestamps(rows: seq<Row>): (ts: seq<Millis>)
    ensures |ts| == |rows| && forall i :: 0 <= i < |rows| ==> ts[i] == rows[i].timestamp
  {
    seq(|rows|, i requires 0 <= i < |rows| => rows[i].timestamp)
  }

  /** The default window holds every row of the frame, so slicing by it keeps the frame. */
  lemma DefaultWindowKeepsFrame(rows: seq<Row>)
    requires |rows| > 0
    ensures var (lo, hi) := DateBounds(Timestamps(rows), None, None);
      && lo.Some? && hi.Some?
      && (forall r :: r in rows ==> InWindow(r.timestamp, lo, hi))
      && Slice(rows, lo, hi) == rows
  {
    var ts := Timestamps(rows);
    var (lo, hi) := DateBounds(ts, None, None);
    forall r | r in rows
      ensures InWindow(r.timestamp, lo, hi)
    {
      var i :| 0 <= i < |rows| && rows[i] == r;
      assert ts[i] == r.timestamp;
    }
    FilterAllPass(rows, (r: Row) => InWindow(r.timestamp, lo, hi));
  }

  /** `backtest_strategy` hands `backtrader_data` no timeframe or compression:
      the feed always derives them from the spacing, and a spacing finer than
      a minute leaves both to backtrader's defaults. */
  lemma BacktestFeedDerived(index: seq<Millis>)
    requires |index| >= 3
    ensures var f, td := FeedParams(index, None, None).value, index[2] - index[1];
      && (td % MinuteMs == 0 <==> f.timeframe.Some?)
      && (f.timeframe.Some? ==> f.compression.Some?)
      && (td % MinuteMs != 0 ==> f == Feed(None, None))
  {
    var td := index[2] - index[1];
    ResolutionByDivisibility(td);
    if td % MinuteMs != 0 {
      FeedFinerThanMinutes(index, None, None);
    }
  }
}
