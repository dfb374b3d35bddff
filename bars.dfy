/** Rows of an OHLCV frame, the missing-value filters the fetcher applies to
    them, and the inclusive date slice it returns. */
module Bars {

  datatype Option<+T> = None | Some(value: T)

  /** An instant: integer milliseconds since the Unix epoch, UTC. */
  type Millis = int

  /** Prices and volumes are carried along and compared, never computed on. */
  type Price = int

  /** One cell of a frame; None stands for a missing value (NaN). */
  type Cell = Option<Price>

  /** A record as an exchange answers it, before `timestamp` becomes the index. */
  datatype Record = Record(timestamp: Option<Millis>, open: Cell, high: Cell, low: Cell,
                           close: Cell, volume: Cell, symbol: Option<string>, extra: seq<Cell>)

  /** A row of a frame indexed by `timestamp`; `extra` holds the columns the
      model does not name (vwap, trades, close_time, ...). */
  datatype Row = Row(timestamp: Millis, open: Cell, high: Cell, low: Cell,
                     close: Cell, volume: Cell, symbol: Option<string>, extra: seq<Cell>)

  /** open, high, low, close and volume are all present. */
  predicate HasPrices(r: Row) {
    r.open.Some? && r.high.Some? && r.low.Some? && r.close.Some? && r.volume.Some?
  }

  /** The subset `dropna` checks on every fetched page: the timestamp and the five prices. */
  predicate HasRequired(rec: Record) {
    rec.timestamp.Some? && rec.open.Some? && rec.high.Some? && rec.low.Some?
    && rec.close.Some? && rec.volume.Some?
  }

  /** No cell of the row is missing: what a bare `dropna()` keeps. */
  predicate Complete(r: Row) {
    HasPrices(r) && r.symbol.Some? && forall c :: c in r.extra ==> c.Some?
  }

  function ToRow(rec: Record): Row
    requires rec.timestamp.Some?
  {
    Row(rec.timestamp.value, rec.open, rec.high, rec.low, rec.close, rec.volume, rec.symbol, rec.extra)
  }

  /** The elements of `s` that satisfy `p`, in their order. */
  function Filter<T>(s: seq<T>, p: T -> bool): (r: seq<T>)
    ensures |r| <= |s|
    ensures forall x :: x in r ==> x in s && p(x)
    ensures forall x :: x in s && p(x) ==> x in r
  {
    if s == [] then []
    else Filter(s[..|s| - 1], p) + (if p(s[|s| - 1]) then [s[|s| - 1]] else [])
  }

  lemma {:induction false} FilterConcat<T>(a: seq<T>, b: seq<T>, p: T -> bool)
    ensures Filter(a + b, p) == Filter(a, p) + Filter(b, p)
    decreases |b|
  {
    if b == [] {
      assert a + b == a;
    } else {
      var b', last := b[..|b| - 1], b[|b| - 1];
      var tail := if p(last) then [last] else [];
      assert a + b == (a + b') + [last];
      assert Filter(a + b, p) == Filter(a + b', p) + tail;
      assert Filter(b, p) == Filter(b', p) + tail;
      FilterConcat(a, b', p);
    }
  }

  /** Filtering a sequence none of whose elements pass leaves nothing. */
  lemma {:induction false} FilterNonePass<T>(s: seq<T>, p: T -> bool)
    requires forall x :: x in s ==> !p(x)
    ensures Filter(s, p) == []
    decreases |s|
  {
    if s != [] {
      var front, last := s[..|s| - 1], s[|s| - 1];
      assert s == front + [last];
      assert !p(last);
      FilterNonePass(front, p);
    }
  }

  /** Filtering a sequence all of whose elements pass changes nothing. */
  lemma {:induction false} FilterAllPass<T>(s: seq<T>, p: T -> bool)
    requires forall x :: x in s ==> p(x)
    ensures Filter(s, p) == s
    decreases |s|
  {
    if s != [] {
      var front, last := s[..|s| - 1], s[|s| - 1];
      assert s == front + [last];
      assert p(last);
      FilterAllPass(front, p);
    }
  }

  /** `dropna(subset=[timestamp, close, high, low, open, volume])` then
      `set_index(timestamp)` on one page of records. */
  function Admit(page: seq<Record>): (rows: seq<Row>)
    ensures |rows| <= |page|
    ensures forall i :: 0 <= i < |rows| ==> HasPrices(rows[i])
  {
    if page == [] then []
    else
      var rec := page[|page| - 1];
      Admit(page[..|page| - 1]) + (if HasRequired(rec) then [ToRow(rec)] else [])
  }

  /** A row is admitted exactly when it comes from a record with every required field. */
  lemma {:induction false} AdmitExactly(page: seq<Record>, r: Row)
    ensures r in Admit(page) <==> exists rec :: rec in page && HasRequired(rec) && ToRow(rec) == r
    decreases |page|
  {
    if page != [] {
      var front := page[..|page| - 1];
      var rec := page[|page| - 1];
      AdmitExactly(front, r);
      assert page == front + [rec];
      if r in Admit(page) && r !in Admit(front) {
        assert rec in page && HasRequired(rec) && ToRow(rec) == r;
      }
      if exists rec' :: rec' in page && HasRequired(rec') && ToRow(rec') == r {
        var rec' :| rec' in page && HasRequired(rec') && ToRow(rec') == r;
        if rec' != rec {
          assert rec' in front;
        }
      }
    }
  }

  /** Admitting two pages one after the other is admitting their concatenation. */
  lemma {:induction false} AdmitConcat(a: seq<Record>, b: seq<Record>)
    ensures Admit(a + b) == Admit(a) + Admit(b)
    decreases |b|
  {
    if b == [] {
      assert a + b == a;
    } else {
      var b' := b[..|b| - 1];
      assert (a + b)[..|a + b| - 1] == a + b';
      AdmitConcat(a, b');
    }
  }

  /** A page whose every record carries the required fields loses no record,
      and keeps their order and timestamps. */
  lemma {:induction false} AdmitKeepsFullPage(page: seq<Record>)
    requires forall i :: 0 <= i < |page| ==> HasRequired(page[i])
    ensures |Admit(page)| == |page|
    ensures forall i :: 0 <= i < |page| ==> HasRequired(page[i]) && Admit(page)[i] == ToRow(page[i])
    decreases |page|
  {
    if page != [] {
      AdmitKeepsFullPage(page[..|page| - 1]);
    }
  }

  /** `dropna()` on a frame read back from a cache file: every row with any missing cell goes. */
  function DropIncomplete(rows: seq<Row>): seq<Row> {
    Filter(rows, (r: Row) => Complete(r))
  }

  /** `dropna(subset=[close, high, low, open, volume])`. */
  function DropMissingPrices(rows: seq<Row>): seq<Row> {
    Filter(rows, (r: Row) => HasPrices(r))
  }

  /** Selecting the columns close, high, low, open, volume and symbol. */
  function Project(rows: seq<Row>): (r: seq<Row>)
    ensures |r| == |rows|
    ensures forall i :: 0 <= i < |rows| ==> r[i].extra == [] && r[i] == rows[i].(extra := [])
  {
    seq(|rows|, i requires 0 <= i < |rows| => rows[i].(extra := []))
  }

  /** `t` lies in `[from, to]`, a missing bound being unbounded. */
  predicate InWindow(t: Millis, from: Option<Millis>, to: Option<Millis>) {
    (from.None? || from.value <= t) && (to.None? || t <= to.value)
  }

  /** The rows whose timestamp lies in the inclusive window, in their order:
      what `df[date_from:date_to]` gives on an ascending index (`PandasSliceAscending`). */
  function Slice(rows: seq<Row>, from: Option<Millis>, to: Option<Millis>): seq<Row> {
    Filter(rows, (r: Row) => InWindow(r.timestamp, from, to))
  }

  /** A row is in the slice exactly when it is in the frame and inside the window. */
  lemma SliceMembership(rows: seq<Row>, from: Option<Millis>, to: Option<Millis>, r: Row)
    ensures r in Slice(rows, from, to) <==> r in rows && InWindow(r.timestamp, from, to)
  {
  }

  /** With no bounds the slice is the whole frame. */
  lemma SliceUnbounded(rows: seq<Row>)
    ensures Slice(rows, None, None) == rows
  {
    FilterAllPass(rows, (r: Row) => InWindow(r.timestamp, None, None));
  }

  /** A window that ends before it starts selects nothing. */
  lemma SliceEmptyWindow(rows: seq<Row>, from: Millis, to: Millis)
    requires to < from
    ensures Slice(rows, Some(from), Some(to)) == []
  {
    FilterNonePass(rows, (r: Row) => InWindow(r.timestamp, Some(from), Some(to)));
  }

  /** Slicing twice is slicing once by the intersection of the windows. */
  lemma {:induction false} SliceOfSlice(rows: seq<Row>, a: Millis, b: Millis, c: Millis, d: Millis)
    ensures Slice(Slice(rows, Some(a), Some(b)), Some(c), Some(d))
         == Slice(rows, Some(if a < c then c else a), Some(if b < d then b else d))
    decreases |rows|
  {
    if rows != [] {
      var front := rows[..|rows| - 1];
      SliceOfSlice(front, a, b, c, d);
      var inner := Slice(rows, Some(a), Some(b));
      var last := rows[|rows| - 1];
      if InWindow(last.timestamp, Some(a), Some(b)) {
        FilterConcat(Slice(front, Some(a), Some(b)), [last], (r: Row) => InWindow(r.timestamp, Some(c), Some(d)));
      } else {
        assert inner == Slice(front, Some(a), Some(b));
      }
    }
  }

  // ------------------------------------------------ df[from:to] in pandas

  /** The index is in non-decreasing order (`is_monotonic_increasing`). */
  predicate Ascending(rows: seq<Row>) {
    forall i, j :: 0 <= i < j < |rows| ==> rows[i].timestamp <= rows[j].timestamp
  }

  /** The index is in non-increasing order (`is_monotonic_decreasing`). */
  predicate Descending(rows: seq<Row>) {
    forall i, j :: 0 <= i < j < |rows| ==> rows[j].timestamp <= rows[i].timestamp
  }

  /** The position of the first row satisfying `p`, or the length when none does. */
  function FirstWhere(rows: seq<Row>, p: Row -> bool): (n: nat)
    ensures n <= |rows|
    ensures forall i :: 0 <= i < n ==> !p(rows[i])
    ensures n < |rows| ==> p(rows[n])
    decreases |rows|
  {
    if rows == [] || p(rows[0]) then 0 else 1 + FirstWhere(rows[1..], p)
  }

  /** `rows[lo:hi]` in Python: empty when the bounds cross. */
  function Positional(rows: seq<Row>, lo: nat, hi: nat): seq<Row>
    requires lo <= |rows| && hi <= |rows|
  {
    if lo <= hi then rows[lo..hi] else []
  }

  /** Some row is labelled `t`. */
  predicate Labelled(rows: seq<Row>, t: Millis) {
    exists i :: 0 <= i < |rows| && rows[i].timestamp == t
  }

  /** Two rows labelled `t` have a row labelled otherwise between them. */
  predicate Scattered(rows: seq<Row>, t: Millis) {
    exists i, j, k :: 0 <= i < j < k < |rows|
      && rows[i].timestamp == t && rows[j].timestamp != t && rows[k].timestamp == t
  }

  /** `get_loc(t)`: the positions `[start, stop)` of the rows labelled `t`, when
      there are some and they are adjacent; None is the KeyError raised otherwise. */
  function LabelRun(rows: seq<Row>, t: Millis): (run: Option<(nat, nat)>)
    ensures run.Some? ==>
      && run.value.0 < run.value.1 <= |rows|
      && forall i :: 0 <= i < |rows| ==> (rows[i].timestamp == t <==> run.value.0 <= i < run.value.1)
    ensures run.None? <==> !Labelled(rows, t) || Scattered(rows, t)
  {
    var lo := FirstWhere(rows, (r: Row) => r.timestamp == t);
    if lo == |rows| then None
    else
      var hi := lo + FirstWhere(rows[lo..], (r: Row) => r.timestamp != t);
      if Labelled(rows[hi..], t) then None else Some((lo, hi))
  }

  /** A given bound that `get_loc` cannot place on an index in neither order. */
  predicate Unplaced(rows: seq<Row>, bound: Option<Millis>) {
    bound.Some? && (!Labelled(rows, bound.value) || Scattered(rows, bound.value))
  }

  /** `get_slice_bound` on an index in neither order: a missing bound is the
      first (left) or past the last (right) position; a given one is where the
      run of rows it labels starts (left) or stops (right). */
  function LabelBound(rows: seq<Row>, bound: Option<Millis>, left: bool): (b: Option<nat>)
    ensures b.Some? ==> b.value <= |rows|
  {
    if bound.None? then Some(if left then 0 else |rows|)
    else
      match LabelRun(rows, bound.value)
      case None => None
      case Some(run) => Some(if left then run.0 else run.1)
  }

  /** `searchsorted(from, side="left")` on an ascending index: the first row
      not before `from`; the first row when there is no bound. */
  function LeftOf(rows: seq<Row>, from: Option<Millis>): (lo: nat)
    ensures lo <= |rows|
  {
    if from.None? then 0 else FirstWhere(rows, (r: Row) => from.value <= r.timestamp)
  }

  /** `searchsorted(to, side="right")` on an ascending index: the first row
      after `to`; past the last row when there is no bound. */
  function RightOf(rows: seq<Row>, to: Option<Millis>): (hi: nat)
    ensures hi <= |rows|
  {
    if to.None? then |rows| else FirstWhere(rows, (r: Row) => to.value < r.timestamp)
  }

  /** The left search on a descending index, made on the reversed index: the
      first row not after `from`. */
  function LeftOfReversed(rows: seq<Row>, from: Option<Millis>): (lo: nat)
    ensures lo <= |rows|
  {
    if from.None? then 0 else FirstWhere(rows, (r: Row) => r.timestamp <= from.value)
  }

  /** The right search on a descending index: the first row before `to`. */
  function RightOfReversed(rows: seq<Row>, to: Option<Millis>): (hi: nat)
    ensures hi <= |rows|
  {
    if to.None? then |rows| else FirstWhere(rows, (r: Row) => r.timestamp < to.value)
  }

  /** `df[from:to]` on a frame indexed by datetimes, with datetime bounds
      (`slice_locs` of pandas 1.x). On an ascending index the bounds are found
      by binary search, on a descending one by the same search on the
      reversed index; on an index in neither order each given bound must label
      a run of adjacent rows. The bounds then cut the frame by position. None
      is the KeyError. */
  function PandasSlice(rows: seq<Row>, from: Option<Millis>, to: Option<Millis>): Option<seq<Row>> {
    if Ascending(rows) then Some(Positional(rows, LeftOf(rows, from), RightOf(rows, to)))
    else if Descending(rows) then Some(Positional(rows, LeftOfReversed(rows, from), RightOfReversed(rows, to)))
    else
      var lo := LabelBound(rows, from, true);
      var hi := LabelBound(rows, to, false);
      if lo.None? || hi.None? then None else Some(Positional(rows, lo.value, hi.value))
  }

  /** Filtering a stretch of rows none of which passes leaves nothing. */
  lemma FilterNoneInside<T>(rows: seq<T>, w: T -> bool, s: nat, e: nat)
    requires s <= e <= |rows|
    requires forall i :: s <= i < e ==> !w(rows[i])
    ensures Filter(rows[s..e], w) == []
  {
    forall x | x in rows[s..e]
      ensures !w(x)
    {
      var i :| 0 <= i < e - s && rows[s..e][i] == x;
      assert rows[s + i] == x;
    }
    FilterNonePass(rows[s..e], w);
  }

  /** A last row that fails `w` adds nothing to a positional filter. */
  lemma FilterDropsLast<T>(rows: seq<T>, w: T -> bool, lo: nat, hi: nat)
    requires lo <= hi < |rows|
    requires Filter(rows[..|rows| - 1], w) == rows[lo..hi]
    requires !w(rows[|rows| - 1])
    ensures Filter(rows, w) == rows[lo..hi]
  {
  }

  /** A last row that passes `w` extends a positional filter reaching the end. */
  lemma FilterKeepsLast<T>(rows: seq<T>, w: T -> bool, lo: nat)
    requires lo < |rows|
    requires Filter(rows[..|rows| - 1], w) == rows[lo..|rows| - 1]
    requires w(rows[|rows| - 1])
    ensures Filter(rows, w) == rows[lo..|rows|]
  {
    SliceUpToLast(rows, lo);
  }

  lemma SliceUpToLast<T>(s: seq<T>, lo: nat)
    requires lo < |s|
    ensures s[lo..|s|] == s[lo..|s| - 1] + [s[|s| - 1]]
  {
  }

  lemma SliceOfFront<T>(s: seq<T>, lo: nat, hi: nat)
    requires lo <= hi < |s|
    ensures s[..|s| - 1][lo..hi] == s[lo..hi]
  {
  }

  lemma EmptySlice<T>(s: seq<T>, k: nat)
    requires k <= |s|
    ensures s[k..k] == []
  {
  }

  lemma WholeSlice<T>(s: seq<T>)
    ensures s[0..|s|] == s
  {
  }

  lemma {:induction false} FilterIsPositional<T>(rows: seq<T>, w: T -> bool, lo: nat, hi: nat)
    requires lo <= hi <= |rows|
    requires forall i :: 0 <= i < lo ==> !w(rows[i])
    requires forall i :: lo <= i < hi ==> w(rows[i])
    requires forall i :: hi <= i < |rows| ==> !w(rows[i])
    ensures Filter(rows, w) == rows[lo..hi]
    decreases |rows|
  {
    var n := |rows|;
    if n == 0 {
      EmptySlice(rows, 0);
      assert Filter(rows, w) == rows[lo..hi];
    } else {
      var front := rows[..n - 1];
      if hi < n {
        FilterIsPositional(front, w, lo, hi);
        SliceOfFront(rows, lo, hi);
        FilterDropsLast(rows, w, lo, hi);
        assert Filter(rows, w) == rows[lo..hi];
      } else if lo < n {
        FilterIsPositional(front, w, lo, n - 1);
        SliceOfFront(rows, lo, n - 1);
        FilterKeepsLast(rows, w, lo);
        assert Filter(rows, w) == rows[lo..hi];
      } else {
        FilterNoneInside(rows, w, 0, n);
        WholeSlice(rows);
        EmptySlice(rows, n);
        assert Filter(rows, w) == rows[lo..hi];
      }
    }
  }

  /** The rows of an ascending frame inside the window are exactly those
      between the two searches. */
  lemma AscendingCut(rows: seq<Row>, from: Option<Millis>, to: Option<Millis>)
    requires Ascending(rows)
    ensures forall i :: 0 <= i < |rows| ==>
      (InWindow(rows[i].timestamp, from, to) <==> LeftOf(rows, from) <= i < RightOf(rows, to))
  {
    var lo, hi := LeftOf(rows, from), RightOf(rows, to);
    forall i | 0 <= i < |rows|
      ensures InWindow(rows[i].timestamp, from, to) <==> lo <= i < hi
    {
      if lo < |rows| && lo <= i {
        assert rows[lo].timestamp <= rows[i].timestamp;
      }
      if hi < |rows| && hi <= i {
        assert rows[hi].timestamp <= rows[i].timestamp;
      }
    }
  }

  /** The rows of a descending frame between `to` and `from` are exactly those
      between the two reversed searches. */
  lemma DescendingCut(rows: seq<Row>, from: Option<Millis>, to: Option<Millis>)
    requires Descending(rows)
    ensures forall i :: 0 <= i < |rows| ==>
      (InWindow(rows[i].timestamp, to, from) <==> LeftOfReversed(rows, from) <= i < RightOfReversed(rows, to))
  {
    var lo, hi := LeftOfReversed(rows, from), RightOfReversed(rows, to);
    forall i | 0 <= i < |rows|
      ensures InWindow(rows[i].timestamp, to, from) <==> lo <= i < hi
    {
      if lo < |rows| && lo <= i {
        assert rows[i].timestamp <= rows[lo].timestamp;
      }
      if hi < |rows| && hi <= i {
        assert rows[i].timestamp <= rows[hi].timestamp;
      }
    }
  }

  /** Filtering by a test that exactly the rows in `[lo, hi)` pass is the
      positional slice `rows[lo:hi]`. */
  lemma FilterCut(rows: seq<Row>, w: Row -> bool, lo: nat, hi: nat)
    requires lo <= |rows| && hi <= |rows|
    requires forall i :: 0 <= i < |rows| ==> (w(rows[i]) <==> lo <= i < hi)
    ensures Filter(rows, w) == Positional(rows, lo, hi)
  {
    if lo <= hi {
      FilterIsPositional(rows, w, lo, hi);
    } else {
      FilterNoneInside(rows, w, 0, |rows|);
      WholeSlice(rows);
    }
  }

  /** On an ascending index, `df[from:to]` is the rows inside the window. */
  lemma PandasSliceAscending(rows: seq<Row>, from: Option<Millis>, to: Option<Millis>)
    requires Ascending(rows)
    ensures PandasSlice(rows, from, to) == Some(Slice(rows, from, to))
  {
    AscendingCut(rows, from, to);
    FilterCut(rows, (r: Row) => InWindow(r.timestamp, from, to), LeftOf(rows, from), RightOf(rows, to));
  }

  /** On a descending index, `df[from:to]` is the rows between `to` and `from`:
      the window read with its bounds swapped. */
  lemma PandasSliceDescending(rows: seq<Row>, from: Option<Millis>, to: Option<Millis>)
    requires Descending(rows) && !Ascending(rows)
    ensures PandasSlice(rows, from, to) == Some(Slice(rows, to, from))
  {
    DescendingCut(rows, from, to);
    FilterCut(rows, (r: Row) => InWindow(r.timestamp, to, from), LeftOfReversed(rows, from), RightOfReversed(rows, to));
  }

  /** On an index in neither order, `df[from:to]` raises exactly when a given
      bound labels no row or rows that are not adjacent. */
  lemma PandasSliceUnordered(rows: seq<Row>, from: Option<Millis>, to: Option<Millis>)
    requires !Ascending(rows) && !Descending(rows)
    ensures PandasSlice(rows, from, to).None? <==> Unplaced(rows, from) || Unplaced(rows, to)
  {
  }

  /** On an index in neither order with both bounds placed (each labels a run
      of adjacent rows), `df[from:to]` runs by position from the first row
      labelled `from` through the last row labelled `to`. */
  lemma PandasSliceByLabel(rows: seq<Row>, from: Millis, to: Millis)
    requires !Ascending(rows) && !Descending(rows)
    requires LabelRun(rows, from).Some? && LabelRun(rows, to).Some?
    ensures var lo, hi := LabelRun(rows, from).value.0, LabelRun(rows, to).value.1;
      && rows[lo].timestamp == from && (lo == 0 || rows[lo - 1].timestamp != from)
      && rows[hi - 1].timestamp == to && (hi == |rows| || rows[hi].timestamp != to)
      && PandasSlice(rows, Some(from), Some(to)) == Some(Positional(rows, lo, hi))
  {
    var runFrom, runTo := LabelRun(rows, from), LabelRun(rows, to);
    assert runFrom.Some? && runTo.Some?;
    var lo, hi := runFrom.value.0, runTo.value.1;
    assert rows[lo].timestamp == from;
    assert lo == 0 || rows[lo - 1].timestamp != from;
    assert rows[hi - 1].timestamp == to;
    assert hi == |rows| || rows[hi].timestamp != to;
    assert LabelBound(rows, Some(from), true) == Some(lo);
    assert LabelBound(rows, Some(to), false) == Some(hi);
    UnorderedSlice(rows, Some(from), Some(to));
  }

  lemma UnorderedSlice(rows: seq<Row>, from: Option<Millis>, to: Option<Millis>)
    requires !Ascending(rows) && !Descending(rows)
    ensures var lo, hi := LabelBound(rows, from, true), LabelBound(rows, to, false);
      PandasSlice(rows, from, to) == if lo.None? || hi.None? then None else Some(Positional(rows, lo.value, hi.value))
  {
  }
}
