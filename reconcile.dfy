/** What one `download_data` call computes, as functions of the cache it
    loaded and of the remote's scripted answers: the Bitmex page loop with
    its rate-limit retries and periodic saves, the Binance bulk fetch, and
    the date slice. The `Fetcher` class is proved to behave as these say. */
module Reconcile {
  import opened Bars
  import opened Granularity
  import opened Gap
  import opened CacheStore

  /** One answer to a bucketed-trade page request: the page, the
      too-many-requests error, or any other error. */
  datatype Reply = Page(records: seq<Record>) | RateLimited | Fatal

  /** A Binance kline, fields in the order the exchange sends them. */
  datatype Kline = Kline(openTime: Cell, open: Cell, high: Cell, low: Cell, close: Cell, volume: Cell,
                         closeTime: Cell, quoteVolume: Cell, trades: Cell, takerBase: Cell,
                         takerQuote: Cell, ignore: Cell)

  /** The remote, scripted: the oldest-bar and newest-bar probes (None: the
      call raised), the answers to successive page requests in the order they
      are asked, and the answer to the Binance bulk request. */
  datatype Remote = Remote(oldest: Option<Millis>, newest: Option<Millis>, pages: seq<Reply>,
                           klines: Option<seq<Kline>>)

  /** A request for data the fetcher sends (probes are not recorded). */
  datatype Request = Bucketed(binSize: string, count: int, startTime: Millis)
                   | Klines(symbol: string, interval: string, start: Millis, end: Millis)

  /** How a download ends: a frame, an exception escaping to the caller, or
      still retrying when the scripted answers run out. */
  datatype Outcome = Returned(series: seq<Row>) | Raised | Stalled

  // ---------------------------------------------------------------- pages

  /** The pages among the replies, in order. */
  function Pages(rs: seq<Reply>): (ps: seq<seq<Record>>)
    ensures |ps| <= |rs|
  {
    if rs == [] then []
    else Pages(rs[..|rs| - 1]) + (if rs[|rs| - 1].Page? then [rs[|rs| - 1].records] else [])
  }

  lemma PagesStep(rs: seq<Reply>, i: nat)
    requires i < |rs|
    ensures Pages(rs[..i + 1]) == Pages(rs[..i]) + (if rs[i].Page? then [rs[i].records] else [])
  {
    assert rs[..i + 1][..i] == rs[..i];
  }

  lemma {:induction false} PagesConcat(a: seq<Reply>, b: seq<Reply>)
    ensures Pages(a + b) == Pages(a) + Pages(b)
    decreases |b|
  {
    if b == [] {
      assert a + b == a;
    } else {
      var b' := b[..|b| - 1];
      assert (a + b)[..|a + b| - 1] == a + b';
      PagesConcat(a, b');
    }
  }

  /** The pages answered before `i` come first among those answered before `j`. */
  lemma PagesPrefix(rs: seq<Reply>, i: nat, j: nat)
    requires i <= j <= |rs|
    ensures Pages(rs[..j]) == Pages(rs[..i]) + Pages(rs[i..j])
  {
    assert rs[..j] == rs[..i] + rs[i..j];
    PagesConcat(rs[..i], rs[i..j]);
  }

  // ------------------------------------------------------- the retry loop

  /** Where the page loop stops: after completing its rounds, on an exception
      (index just past the reply that raised), or with no answer left. */
  datatype Stop = Completed(used: nat) | Aborted(used: nat) | Exhausted

  /** A reply the loop does not survive: an error other than the rate limit,
      an empty page (dropping rows by columns a frame without columns lacks
      raises), or any page when saving it raises. */
  predicate Halts(r: Reply, pageRaises: bool) {
    r.Fatal? || (r.Page? && (r.records == [] || pageRaises))
  }

  /** The page loop from reply `i` on, with `left` rounds still to complete.
      A page completes a round, a rate limit retries the same round, and a
      reply that halts the loop escapes as an exception. */
  function Walk(rs: seq<Reply>, i: nat, left: nat, pageRaises: bool): (stop: Stop)
    requires i <= |rs|
    ensures stop.Completed? ==> i <= stop.used <= |rs|
    ensures stop.Aborted? ==> i < stop.used <= |rs|
    decreases |rs| - i
  {
    if left == 0 then Completed(i)
    else if i == |rs| then Exhausted
    else if Halts(rs[i], pageRaises) then Aborted(i + 1)
    else if rs[i].Page? then Walk(rs, i + 1, left - 1, pageRaises)
    else Walk(rs, i + 1, left, pageRaises)
  }

  /** One reply the loop survives: a page completes a round, a rate limit does not. */
  lemma WalkStep(rs: seq<Reply>, i: nat, left: nat, pageRaises: bool)
    requires i < |rs| && left > 0 && !Halts(rs[i], pageRaises)
    ensures Walk(rs, i, left, pageRaises) == Walk(rs, i + 1, if rs[i].Page? then left - 1 else left, pageRaises)
  {
  }

  /** A completed loop has received exactly `left` more pages, the last reply
      it used is a page, and no reply it used halts it. */
  lemma {:induction false} WalkCompleted(rs: seq<Reply>, i: nat, left: nat, pageRaises: bool)
    requires i <= |rs| && Walk(rs, i, left, pageRaises).Completed?
    ensures var u := Walk(rs, i, left, pageRaises).used;
      && |Pages(rs[..u])| == |Pages(rs[..i])| + left
      && (forall j :: i <= j < u ==> !Halts(rs[j], pageRaises))
      && (left > 0 ==> u > i && rs[u - 1].Page?)
    decreases |rs| - i
  {
    if left > 0 {
      PagesStep(rs, i);
      if rs[i].Page? {
        WalkCompleted(rs, i + 1, left - 1, pageRaises);
      } else {
        WalkCompleted(rs, i + 1, left, pageRaises);
      }
    }
  }

  /** An aborted loop stopped at the first reply that halts it, with rounds
      still to complete. */
  lemma {:induction false} WalkAborted(rs: seq<Reply>, i: nat, left: nat, pageRaises: bool)
    requires i <= |rs| && Walk(rs, i, left, pageRaises).Aborted?
    ensures var u := Walk(rs, i, left, pageRaises).used;
      && Halts(rs[u - 1], pageRaises)
      && (forall j :: i <= j < u - 1 ==> !Halts(rs[j], pageRaises))
      && |Pages(rs[..u - 1])| < |Pages(rs[..i])| + left
    decreases |rs| - i
  {
    PagesStep(rs, i);
    if !Halts(rs[i], pageRaises) {
      if rs[i].Page? {
        WalkAborted(rs, i + 1, left - 1, pageRaises);
      } else {
        WalkAborted(rs, i + 1, left, pageRaises);
      }
    }
  }

  /** A loop that runs out of answers met nothing that halts it and too few pages. */
  lemma {:induction false} WalkExhausted(rs: seq<Reply>, i: nat, left: nat, pageRaises: bool)
    requires i <= |rs| && Walk(rs, i, left, pageRaises).Exhausted?
    ensures forall j :: i <= j < |rs| ==> !Halts(rs[j], pageRaises)
    ensures |Pages(rs)| < |Pages(rs[..i])| + left
    decreases |rs| - i
  {
    assert rs[..|rs|] == rs;
    if i < |rs| {
      PagesStep(rs, i);
      if rs[i].Page? {
        WalkExhausted(rs, i + 1, left - 1, pageRaises);
      } else {
        WalkExhausted(rs, i + 1, left, pageRaises);
      }
    }
  }

  /** How many replies the loop consumes. */
  function Consumed(rs: seq<Reply>, rounds: nat, pageRaises: bool): (u: nat)
    ensures u <= |rs|
  {
    match Walk(rs, 0, rounds, pageRaises)
    case Completed(u) => WalkCompleted(rs, 0, rounds, pageRaises); u
    case Aborted(u) => WalkAborted(rs, 0, rounds, pageRaises); u
    case Exhausted => |rs|
  }

  /** How many replies the loop handles to the end: all it consumes except
      the one it halts on. */
  function Handled(rs: seq<Reply>, rounds: nat, pageRaises: bool): (h: nat)
    ensures h <= Consumed(rs, rounds, pageRaises)
  {
    match Walk(rs, 0, rounds, pageRaises)
    case Aborted(u) => u - 1
    case _ => Consumed(rs, rounds, pageRaises)
  }

  /** Walking replies that differ from `rs` only by one more rate-limit
      answer inserted at `i`, from a point at or after `i`. */
  lemma {:induction false} WalkShifted(rs: seq<Reply>, i: nat, k: nat, left: nat, pageRaises: bool)
    requires i <= k <= |rs|
    ensures var rs' := rs[..i] + [RateLimited] + rs[i..];
      Walk(rs', k + 1, left, pageRaises) == match Walk(rs, k, left, pageRaises)
        case Completed(u) => Completed(u + 1)
        case Aborted(u) => Aborted(u + 1)
        case Exhausted => Exhausted
    decreases |rs| - k
  {
    var rs' := rs[..i] + [RateLimited] + rs[i..];
    if left > 0 && k < |rs| {
      assert rs'[k + 1] == rs[k];
      WalkShifted(rs, i, k + 1, if rs[k].Page? then left - 1 else left, pageRaises);
    }
  }

  lemma {:induction false} WalkWithRetryInserted(rs: seq<Reply>, i: nat, k: nat, left: nat, pageRaises: bool)
    requires k <= i < |rs|
    requires Walk(rs, k, left, pageRaises).Completed? && i < Walk(rs, k, left, pageRaises).used
    ensures var rs' := rs[..i] + [RateLimited] + rs[i..];
      Walk(rs', k, left, pageRaises) == Completed(Walk(rs, k, left, pageRaises).used + 1)
    decreases i - k
  {
    var rs' := rs[..i] + [RateLimited] + rs[i..];
    if k == i {
      WalkShifted(rs, i, i, left, pageRaises);
    } else {
      assert rs'[k] == rs[k];
      WalkWithRetryInserted(rs, i, k + 1, if rs[k].Page? then left - 1 else left, pageRaises);
    }
  }

  /** One more rate-limit answer anywhere before the loop's last page changes
      neither the pages received nor how the loop ends: a retry never drops
      or duplicates a page. */
  lemma RetryNeverDropsData(rs: seq<Reply>, i: nat, rounds: nat, pageRaises: bool)
    requires i < |rs|
    requires Walk(rs, 0, rounds, pageRaises).Completed? && i < Walk(rs, 0, rounds, pageRaises).used
    ensures var rs' := rs[..i] + [RateLimited] + rs[i..];
      var u := Walk(rs, 0, rounds, pageRaises).used;
      && Walk(rs', 0, rounds, pageRaises) == Completed(u + 1)
      && Pages(rs'[..u + 1]) == Pages(rs[..u])
  {
    var u := Walk(rs, 0, rounds, pageRaises).used;
    WalkWithRetryInserted(rs, i, 0, rounds, pageRaises);
    PagesWithRetryInserted(rs, i, u);
  }

  /** A rate-limit answer inserted at `i` adds no page to the replies up to `u`. */
  lemma PagesWithRetryInserted(rs: seq<Reply>, i: nat, u: nat)
    requires i <= u <= |rs|
    ensures Pages((rs[..i] + [RateLimited] + rs[i..])[..u + 1]) == Pages(rs[..u])
  {
    var rs' := rs[..i] + [RateLimited] + rs[i..];
    assert rs'[..u + 1] == rs[..i] + [RateLimited] + rs[i..u];
    PagesConcat(rs[..i] + [RateLimited], rs[i..u]);
    PagesConcat(rs[..i], [RateLimited]);
    assert Pages([RateLimited]) == [] by {
      assert [RateLimited][..0] == [];
    }
    PagesPrefix(rs, i, u);
  }

  // ------------------------------------------------------------- requests

  /** The page requests the loop sends for the replies `rs`, one per reply. */
  function PageRequests(binSize: string, resume: Millis, step: nat, rs: seq<Reply>): (qs: seq<Request>)
    ensures |qs| == |rs|
  {
    if rs == [] then []
    else
      var front := rs[..|rs| - 1];
      PageRequests(binSize, resume, step, front)
        + [Bucketed(binSize, PageSize, PageStart(resume, |Pages(front)|, step))]
  }

  /** Each request asks for `BATCH_SIZE` bars of the requested bin size,
      starting where the round it belongs to starts: the round being the
      number of pages received before it. */
  lemma {:induction false} PageRequestsAt(binSize: string, resume: Millis, step: nat, rs: seq<Reply>)
    ensures forall j :: 0 <= j < |rs| ==>
      PageRequests(binSize, resume, step, rs)[j]
      == Bucketed(binSize, PageSize, PageStart(resume, |Pages(rs[..j])|, step))
    decreases |rs|
  {
    if rs != [] {
      var front := rs[..|rs| - 1];
      PageRequestsAt(binSize, resume, step, front);
      assert forall j :: 0 <= j < |front| ==> front[..j] == rs[..j];
    }
  }

  lemma PageRequestsStep(binSize: string, resume: Millis, step: nat, rs: seq<Reply>, i: nat)
    requires i < |rs|
    ensures PageRequests(binSize, resume, step, rs[..i + 1])
         == PageRequests(binSize, resume, step, rs[..i])
            + [Bucketed(binSize, PageSize, PageStart(resume, |Pages(rs[..i])|, step))]
  {
    assert rs[..i + 1][..i] == rs[..i];
  }

  /** A rate-limited request is followed by a request for the same page. */
  lemma RetryRepeatsRequest(binSize: string, resume: Millis, step: nat, rs: seq<Reply>, j: nat)
    requires j + 1 < |rs| && rs[j].RateLimited?
    ensures PageRequests(binSize, resume, step, rs)[j + 1] == PageRequests(binSize, resume, step, rs)[j]
  {
    PageRequestsAt(binSize, resume, step, rs);
    PagesStep(rs, j);
  }

  /** Once a page has been received, every later request starts strictly later. */
  lemma RequestsAdvancePastPages(binSize: string, resume: Millis, step: nat, rs: seq<Reply>, j: nat, j': nat)
    requires step > 0
    requires j < j' < |rs| && rs[j].Page?
    ensures var q, q' := PageRequests(binSize, resume, step, rs)[j], PageRequests(binSize, resume, step, rs)[j'];
      q.Bucketed? && q'.Bucketed? && q.startTime < q'.startTime
  {
    PageRequestsAt(binSize, resume, step, rs);
    PagesStep(rs, j);
    PagesPrefix(rs, j + 1, j');
    PageStartsIncrease(resume, |Pages(rs[..j])|, |Pages(rs[..j'])|, step);
  }

  // ---------------------------------------------------------------- merge

  /** The rows the received pages append, page after page, each page filtered
      on its own, with no de-duplication by timestamp. */
  function Fetched(ps: seq<seq<Record>>): seq<Row> {
    if ps == [] then [] else Fetched(ps[..|ps| - 1]) + Admit(ps[|ps| - 1])
  }

  lemma FetchedStep(ps: seq<seq<Record>>, p: seq<Record>)
    ensures Fetched(ps + [p]) == Fetched(ps) + Admit(p)
  {
    assert (ps + [p])[..|ps|] == ps;
  }

  /** All the records of a run of pages, in order. */
  function Flatten(ps: seq<seq<Record>>): seq<Record> {
    if ps == [] then [] else Flatten(ps[..|ps| - 1]) + ps[|ps| - 1]
  }

  /** Appending pages one by one, each filtered, is filtering their
      concatenation: nothing is lost or repeated at a page boundary. */
  lemma {:induction false} FetchedIsAdmitOfAll(ps: seq<seq<Record>>)
    ensures Fetched(ps) == Admit(Flatten(ps))
    decreases |ps|
  {
    if ps != [] {
      FetchedIsAdmitOfAll(ps[..|ps| - 1]);
      AdmitConcat(Flatten(ps[..|ps| - 1]), ps[|ps| - 1]);
    }
  }

  // ---------------------------------------------------------------- saves

  /** `save_df` persists round `i` only when `i % save_after == 0`; with
      `save_after == 0` that test raises instead. */
  predicate SaveDue(i: int, saveAfter: int) {
    saveAfter != 0 && i % saveAfter == 0
  }

  /** The rounds among the first `n` whose save fires, in order. */
  function SaveRounds(n: nat, saveAfter: int): seq<int> {
    if n == 0 then []
    else SaveRounds(n - 1, saveAfter) + (if SaveDue(n - 1, saveAfter) then [n - 1] else [])
  }

  /** A round's save fires exactly when it is a multiple of `save_after`, and
      the rounds come in increasing order. */
  lemma {:induction false} SaveRoundsExactly(n: nat, saveAfter: int)
    ensures forall r :: r in SaveRounds(n, saveAfter) <==> 0 <= r < n && SaveDue(r, saveAfter)
    ensures forall a, b :: 0 <= a < b < |SaveRounds(n, saveAfter)| ==>
      SaveRounds(n, saveAfter)[a] < SaveRounds(n, saveAfter)[b]
  {
    if n > 0 {
      SaveRoundsExactly(n - 1, saveAfter);
      var front := SaveRounds(n - 1, saveAfter);
      if SaveDue(n - 1, saveAfter) {
        forall a, b | 0 <= a < b < |front| + 1
          ensures SaveRounds(n, saveAfter)[a] < SaveRounds(n, saveAfter)[b]
        {
          if b == |front| {
            assert front[a] in front;
          }
        }
      }
    }
  }

  /** With a non-zero `save_after` the first round always saves, and the last
      round saved is the largest multiple of `save_after` below `n`: no save
      covers the rounds after it. */
  lemma {:induction false} LastSaveRound(n: nat, saveAfter: int)
    requires n > 0 && saveAfter != 0
    ensures 0 in SaveRounds(n, saveAfter)
    ensures var s := SaveRounds(n, saveAfter);
      s != [] && s[|s| - 1] == (n - 1) - (n - 1) % saveAfter
  {
    var s := SaveRounds(n, saveAfter);
    var m := (n - 1) - (n - 1) % saveAfter;
    assert 0 in s && m in s by {
      SaveRoundsExactly(n, saveAfter);
      RoundDownIsMultiple(n - 1, saveAfter);
    }
    var last := s[|s| - 1];
    assert 0 <= last < n && last % saveAfter == 0 by {
      SaveRoundsExactly(n, saveAfter);
      assert last in s;
    }
    assert m <= last by {
      var k :| 0 <= k < |s| && s[k] == m;
      if k < |s| - 1 {
        SaveRoundsExactly(n, saveAfter);
      }
    }
    SaveRoundsTail(n, saveAfter, last);
  }

  /** Rounding down to a multiple of `d` stays within `[0, x]`. */
  lemma RoundDownIsMultiple(x: nat, d: int)
    requires d != 0
    ensures 0 <= x - x % d <= x && (x - x % d) % d == 0
  {
    var q := x / d;
    assert x - x % d == d * q;
    MultipleModZero(d, q);
  }

  lemma MultipleModZero(d: int, k: int)
    requires d != 0
    ensures (d * k) % d == 0
  {
    var x := d * k;
    var q := x / d;
    assert (k - q) * d == x % d;
    if k - q != 0 {
      var a := if d > 0 then d else -d;
      var c := if k - q > 0 then k - q else q - k;
      MulMonotone(1, c, a);
      assert false;
    }
  }

  lemma SaveRoundsTail(n: nat, saveAfter: int, r: int)
    requires saveAfter != 0 && 0 <= r < n && r % saveAfter == 0
    ensures r <= (n - 1) - (n - 1) % saveAfter
  {
    var d := if saveAfter > 0 then saveAfter else -saveAfter;
    var q := (n - 1) / saveAfter;
    var x := r / saveAfter;
    assert r == saveAfter * x;
    assert n - 1 == saveAfter * q + (n - 1) % saveAfter;
    if saveAfter > 0 {
      MultipleBelow(d, x, q, (n - 1) % saveAfter);
    } else {
      assert saveAfter * x == d * (-x) && saveAfter * q == d * (-q);
      MultipleBelow(d, -x, -q, (n - 1) % saveAfter);
    }
  }

  /** A multiple of `d` not above `d * y + rem`, with `rem < d`, is not above `d * y`. */
  lemma MultipleBelow(d: int, x: int, y: int, rem: int)
    requires d > 0 && 0 <= rem < d && d * x <= d * y + rem
    ensures d * x <= d * y
  {
    assert d * (x - y) == d * x - d * y;
    BelowOneMultiple(d, x - y);
    MulMonotone(x, y, d);
  }

  lemma BelowOneMultiple(d: int, k: int)
    requires d > 0 && d * k < d
    ensures k < 1
  {
    if k >= 1 {
      MulMonotone(1, k, d);
    }
  }

  /** The frames the loop hands to `save_df` when a save fires: after round
      `r`, the cache followed by the rows of pages `0..r`. */
  function Snapshots(cached: seq<Row>, ps: seq<seq<Record>>, saveAfter: int): seq<seq<Row>> {
    if ps == [] then []
    else
      Snapshots(cached, ps[..|ps| - 1], saveAfter)
        + (if SaveDue(|ps| - 1, saveAfter) then [cached + Fetched(ps)] else [])
  }

  lemma SnapshotsStep(cached: seq<Row>, ps: seq<seq<Record>>, p: seq<Record>, saveAfter: int)
    ensures Snapshots(cached, ps + [p], saveAfter)
         == Snapshots(cached, ps, saveAfter)
            + (if SaveDue(|ps|, saveAfter) then [cached + Fetched(ps + [p])] else [])
  {
    assert (ps + [p])[..|ps|] == ps;
  }

  /** One frame per save round, holding the cache and every page up to that round. */
  lemma SnapshotsAtSaveRounds(cached: seq<Row>, ps: seq<seq<Record>>, saveAfter: int)
    ensures |Snapshots(cached, ps, saveAfter)| == |SaveRounds(|ps|, saveAfter)|
    ensures forall m :: 0 <= m < |SaveRounds(|ps|, saveAfter)| ==>
      0 <= SaveRounds(|ps|, saveAfter)[m] < |ps|
      && Snapshots(cached, ps, saveAfter)[m] == cached + Fetched(ps[..SaveRounds(|ps|, saveAfter)[m] + 1])
  {
    SnapshotsCount(cached, ps, saveAfter);
    forall m | 0 <= m < |SaveRounds(|ps|, saveAfter)|
      ensures 0 <= SaveRounds(|ps|, saveAfter)[m] < |ps|
      ensures Snapshots(cached, ps, saveAfter)[m] == cached + Fetched(ps[..SaveRounds(|ps|, saveAfter)[m] + 1])
    {
      SnapshotAt(cached, ps, saveAfter, m);
    }
  }

  lemma {:induction false} SnapshotsCount(cached: seq<Row>, ps: seq<seq<Record>>, saveAfter: int)
    ensures |Snapshots(cached, ps, saveAfter)| == |SaveRounds(|ps|, saveAfter)|
    decreases |ps|
  {
    if ps != [] {
      SnapshotsCount(cached, ps[..|ps| - 1], saveAfter);
    }
  }

  /** The frame of save number `m`. */
  lemma {:induction false} SnapshotAt(cached: seq<Row>, ps: seq<seq<Record>>, saveAfter: int, m: nat)
    requires m < |SaveRounds(|ps|, saveAfter)|
    ensures 0 <= SaveRounds(|ps|, saveAfter)[m] < |ps|
    ensures m < |Snapshots(cached, ps, saveAfter)|
    ensures Snapshots(cached, ps, saveAfter)[m] == cached + Fetched(ps[..SaveRounds(|ps|, saveAfter)[m] + 1])
    decreases |ps|
  {
    var k := |ps| - 1;
    var front := ps[..k];
    var rounds, snaps := SaveRounds(k, saveAfter), Snapshots(cached, front, saveAfter);
    SnapshotsCount(cached, front, saveAfter);
    if m < |rounds| {
      SnapshotAt(cached, front, saveAfter, m);
      assert SaveRounds(|ps|, saveAfter)[m] == rounds[m];
      assert Snapshots(cached, ps, saveAfter)[m] == snaps[m];
      assert front[..rounds[m] + 1] == ps[..rounds[m] + 1];
    } else {
      assert SaveRounds(|ps|, saveAfter)[m] == k;
      assert ps[..k + 1] == ps;
    }
  }

  // -------------------------------------------------------------- Bitmex

  /** `_minutes_of_new_data` for Bitmex: the last cached row's timestamp, or
      the probed oldest bar when the cache is empty. */
  function Resume(cached: seq<Row>, oldest: Option<Millis>): (r: Option<Millis>)
    ensures |cached| > 0 ==> r == Some(cached[|cached| - 1].timestamp)
    ensures |cached| == 0 ==> r == oldest
  {
    if |cached| > 0 then Some(cached[|cached| - 1].timestamp) else oldest
  }

  datatype Plan = ProbeFailed | UpToDate | Fetch(resume: Millis, rounds: nat)

  /** The gap computation: a probe that raised, nothing to fetch, or the
      number of rounds from the resume point. */
  function BitmexPlan(cached: seq<Row>, b: BinSize, remote: Remote): (p: Plan)
    ensures p.Fetch? ==> p.rounds > 0
  {
    var resume := Resume(cached, remote.oldest);
    if resume.None? || remote.newest.None? then ProbeFailed
    else
      var n := Rounds(remote.newest.value - resume.value, StepMinutes(b));
      if n <= 0 then UpToDate else Fetch(resume.value, n)
  }

  /** The frame `_bitmex_download` returns (before the slice). */
  function BitmexOutcome(cached: seq<Row>, b: BinSize, remote: Remote, saveAfter: int): Outcome {
    match BitmexPlan(cached, b, remote)
    case ProbeFailed => Raised
    case UpToDate => Returned(cached)
    case Fetch(_, n) => LoopOutcome(cached, remote.pages, n, saveAfter)
  }

  /** The requests sent and the saves fired by one call. */
  datatype Effects = Effects(requests: seq<Request>, savedRounds: seq<int>, snapshots: seq<seq<Row>>)

  function BitmexEffects(cached: seq<Row>, b: BinSize, remote: Remote, saveAfter: int): Effects {
    match BitmexPlan(cached, b, remote)
    case ProbeFailed => Effects([], [], [])
    case UpToDate => Effects([], [], [])
    case Fetch(resume, n) => LoopEffects(cached, b, resume, remote.pages, n, saveAfter)
  }

  /** How the page loop of `n` rounds over the replies `rs` ends. */
  function LoopOutcome(cached: seq<Row>, rs: seq<Reply>, n: nat, saveAfter: int): Outcome {
    match Walk(rs, 0, n, saveAfter == 0)
    case Completed(u) => Returned(cached + Fetched(Pages(rs[..u])))
    case Aborted(_) => Raised
    case Exhausted => Stalled
  }

  /** What the page loop of `n` rounds from `resume` requests and saves. */
  function LoopEffects(cached: seq<Row>, b: BinSize, resume: Millis, rs: seq<Reply>, n: nat, saveAfter: int): Effects {
    var pr := saveAfter == 0;
    var saved := Pages(rs[..Handled(rs, n, pr)]);
    Effects(PageRequests(Name(b), resume, StepMinutes(b), rs[..Consumed(rs, n, pr)]),
            SaveRounds(|saved|, saveAfter), Snapshots(cached, saved, saveAfter))
  }

  /** The loop halting on reply `next`, after `next` replies handled. */
  lemma LoopHaltsAt(cached: seq<Row>, b: BinSize, resume: Millis, rs: seq<Reply>, n: nat, saveAfter: int, next: nat)
    requires next < |rs| && |Pages(rs[..next])| < n && Halts(rs[next], saveAfter == 0)
    requires Walk(rs, next, n - |Pages(rs[..next])|, saveAfter == 0) == Walk(rs, 0, n, saveAfter == 0)
    ensures LoopOutcome(cached, rs, n, saveAfter) == Raised
    ensures LoopEffects(cached, b, resume, rs, n, saveAfter)
      == Effects(PageRequests(Name(b), resume, StepMinutes(b), rs[..next + 1]),
                 SaveRounds(|Pages(rs[..next])|, saveAfter), Snapshots(cached, Pages(rs[..next]), saveAfter))
  {
    var pr := saveAfter == 0;
    assert Walk(rs, 0, n, pr) == Aborted(next + 1);
    assert Consumed(rs, n, pr) == next + 1;
    assert Handled(rs, n, pr) == next;
  }

  /** The scripted answers running out after `|rs|` replies handled. */
  lemma LoopStallsAt(cached: seq<Row>, b: BinSize, resume: Millis, rs: seq<Reply>, n: nat, saveAfter: int)
    requires |Pages(rs)| < n
    requires Walk(rs, |rs|, n - |Pages(rs)|, saveAfter == 0) == Walk(rs, 0, n, saveAfter == 0)
    ensures LoopOutcome(cached, rs, n, saveAfter) == Stalled
    ensures LoopEffects(cached, b, resume, rs, n, saveAfter)
      == Effects(PageRequests(Name(b), resume, StepMinutes(b), rs),
                 SaveRounds(|Pages(rs)|, saveAfter), Snapshots(cached, Pages(rs), saveAfter))
  {
    var pr := saveAfter == 0;
    assert Walk(rs, 0, n, pr) == Exhausted;
    assert Consumed(rs, n, pr) == Handled(rs, n, pr) == |rs|;
    assert rs[..|rs|] == rs;
  }

  /** The loop completing all its rounds after `next` replies. */
  lemma LoopCompletesAt(cached: seq<Row>, b: BinSize, resume: Millis, rs: seq<Reply>, n: nat, saveAfter: int, next: nat)
    requires next <= |rs| && |Pages(rs[..next])| == n
    requires Walk(rs, next, 0, saveAfter == 0) == Walk(rs, 0, n, saveAfter == 0)
    ensures LoopOutcome(cached, rs, n, saveAfter) == Returned(cached + Fetched(Pages(rs[..next])))
    ensures LoopEffects(cached, b, resume, rs, n, saveAfter)
      == Effects(PageRequests(Name(b), resume, StepMinutes(b), rs[..next]),
                 SaveRounds(n, saveAfter), Snapshots(cached, Pages(rs[..next]), saveAfter))
  {
    var pr := saveAfter == 0;
    assert Walk(rs, 0, n, pr) == Completed(next);
    assert Consumed(rs, n, pr) == Handled(rs, n, pr) == next;
  }

  // ------------------------------------------- the loop, reply by reply

  /** The fixed inputs of one Bitmex page loop. */
  datatype Job = Job(cached: seq<Row>, b: BinSize, path: string, resume: Millis, saveAfter: int)

  /** The page loop's state: rounds completed, the frame built so far, and
      the fetcher's requests, save log, cache files and save in flight. */
  datatype Progress = Progress(done: nat, series: seq<Row>, requests: seq<Request>, saveLog: seq<int>,
                               files: Disk, slot: Option<Snapshot>)

  /** The request the loop sends next. */
  function NextRequest(job: Job, p: Progress): Request {
    Bucketed(Name(job.b), PageSize, PageStart(job.resume, p.done, StepMinutes(job.b)))
  }

  /** The loop handling one reply it survives: a page is appended and offered
      to `save_df`, a rate limit only costs the request. */
  function Advance(job: Job, p: Progress, reply: Reply): Progress {
    var requests := p.requests + [NextRequest(job, p)];
    match reply
    case Page(recs) =>
      var series := p.series + Admit(recs);
      if SaveDue(p.done, job.saveAfter) then
        Progress(p.done + 1, series, requests, p.saveLog + [p.done],
                 Landed(p.files, p.slot), Some(Snapshot(job.path, series)))
      else Progress(p.done + 1, series, requests, p.saveLog, p.files, p.slot)
    case _ => p.(requests := requests)
  }

  /** The loop's state after handling the replies `rs` one by one. */
  function Trace(job: Job, init: Progress, rs: seq<Reply>): Progress {
    if rs == [] then init else Advance(job, Trace(job, init, rs[..|rs| - 1]), rs[|rs| - 1])
  }

  lemma TraceStep(job: Job, init: Progress, rs: seq<Reply>, k: nat)
    requires k < |rs|
    ensures Trace(job, init, rs[..k + 1]) == Advance(job, Trace(job, init, rs[..k]), rs[k])
  {
    assert rs[..k + 1][..k] == rs[..k];
  }

  /** Handling the replies one by one completes a round per page and builds
      the cache followed by every page in order. */
  lemma {:induction false} TraceSeries(job: Job, init: Progress, rs: seq<Reply>)
    requires init.done == 0 && init.series == job.cached
    ensures Trace(job, init, rs).done == |Pages(rs)|
    ensures Trace(job, init, rs).series == job.cached + Fetched(Pages(rs))
    decreases |rs|
  {
    if rs != [] {
      var front, reply := rs[..|rs| - 1], rs[|rs| - 1];
      TraceSeries(job, init, front);
      var t := Trace(job, init, front);
      assert Trace(job, init, rs) == Advance(job, t, reply);
      if reply.Page? {
        assert Pages(rs) == Pages(front) + [reply.records];
        FetchedStep(Pages(front), reply.records);
        assert Advance(job, t, reply).series == t.series + Admit(reply.records);
      } else {
        assert Pages(rs) == Pages(front);
        assert Advance(job, t, reply).series == t.series;
      }
    }
  }

  /** ... sends one request per reply, at the start of the round it belongs to, */
  lemma {:induction false} TraceRequests(job: Job, init: Progress, rs: seq<Reply>)
    requires init.done == 0 && init.series == job.cached
    ensures Trace(job, init, rs).requests
         == init.requests + PageRequests(Name(job.b), job.resume, StepMinutes(job.b), rs)
    decreases |rs|
  {
    if rs != [] {
      var front := rs[..|rs| - 1];
      TraceRequests(job, init, front);
      TraceSeries(job, init, front);
    }
  }

  /** ... logs the rounds whose save fires, */
  lemma {:induction false} TraceSaveLog(job: Job, init: Progress, rs: seq<Reply>)
    requires init.done == 0 && init.series == job.cached
    ensures Trace(job, init, rs).saveLog == init.saveLog + SaveRounds(|Pages(rs)|, job.saveAfter)
    decreases |rs|
  {
    if rs != [] {
      var front := rs[..|rs| - 1];
      TraceSaveLog(job, init, front);
      TraceSeries(job, init, front);
    }
  }

  /** ... and leaves the files and the save in flight as the saves of those
      rounds, one after the other, leave them. */
  lemma {:induction false} TraceFiles(job: Job, init: Progress, rs: seq<Reply>)
    requires init.done == 0 && init.series == job.cached
    ensures var t := Trace(job, init, rs);
      (t.files, t.slot) == Replay(init.files, init.slot, job.path, Snapshots(job.cached, Pages(rs), job.saveAfter))
    decreases |rs|
  {
    if rs != [] {
      var front, reply := rs[..|rs| - 1], rs[|rs| - 1];
      TraceFiles(job, init, front);
      TraceSeries(job, init, front);
      AdvanceFiles(job, init, Trace(job, init, front), Pages(front), reply);
    }
  }

  /** One reply handled: the files follow the saves of the rounds completed so far. */
  lemma AdvanceFiles(job: Job, init: Progress, p: Progress, ps: seq<seq<Record>>, reply: Reply)
    requires p.done == |ps| && p.series == job.cached + Fetched(ps)
    requires (p.files, p.slot) == Replay(init.files, init.slot, job.path, Snapshots(job.cached, ps, job.saveAfter))
    ensures var q, ps' := Advance(job, p, reply), ps + (if reply.Page? then [reply.records] else []);
      (q.files, q.slot) == Replay(init.files, init.slot, job.path, Snapshots(job.cached, ps', job.saveAfter))
  {
    if reply.Page? {
      var ps' := ps + [reply.records];
      var snaps := Snapshots(job.cached, ps, job.saveAfter);
      var series := p.series + Admit(reply.records);
      assert series == job.cached + Fetched(ps') by {
        FetchedStep(ps, reply.records);
      }
      var q := Advance(job, p, reply);
      SnapshotsStep(job.cached, ps, reply.records, job.saveAfter);
      if SaveDue(p.done, job.saveAfter) {
        assert Snapshots(job.cached, ps', job.saveAfter) == snaps + [series];
        assert q.files == Landed(p.files, p.slot) && q.slot == Some(Snapshot(job.path, series));
        ReplayStep(init.files, init.slot, job.path, snaps, series);
      } else {
        assert Snapshots(job.cached, ps', job.saveAfter) == snaps;
        assert q.files == p.files && q.slot == p.slot;
      }
    } else {
      assert ps + [] == ps;
    }
  }

  lemma TraceClosedForm(job: Job, init: Progress, rs: seq<Reply>)
    requires init.done == 0 && init.series == job.cached
    ensures var ps, t := Pages(rs), Trace(job, init, rs);
      && t.done == |ps|
      && t.series == job.cached + Fetched(ps)
      && t.requests == init.requests + PageRequests(Name(job.b), job.resume, StepMinutes(job.b), rs)
      && t.saveLog == init.saveLog + SaveRounds(|ps|, job.saveAfter)
      && (t.files, t.slot) == Replay(init.files, init.slot, job.path, Snapshots(job.cached, ps, job.saveAfter))
  {
    TraceSeries(job, init, rs);
    TraceRequests(job, init, rs);
    TraceSaveLog(job, init, rs);
    TraceFiles(job, init, rs);
  }

  /** The loop halting on reply `next`: the effects are the state after the
      replies before it plus the request that got the halting reply. */
  lemma TraceHaltsAt(job: Job, init: Progress, rs: seq<Reply>, n: nat, next: nat)
    requires init.done == 0 && init.series == job.cached
    requires next < |rs| && Halts(rs[next], job.saveAfter == 0)
    requires Trace(job, init, rs[..next]).done < n
    requires Walk(rs, next, n - Trace(job, init, rs[..next]).done, job.saveAfter == 0)
          == Walk(rs, 0, n, job.saveAfter == 0)
    ensures LoopOutcome(job.cached, rs, n, job.saveAfter) == Raised
    ensures var t, e := Trace(job, init, rs[..next]), LoopEffects(job.cached, job.b, job.resume, rs, n, job.saveAfter);
      && init.requests + e.requests == t.requests + [NextRequest(job, t)]
      && init.saveLog + e.savedRounds == t.saveLog
      && Replay(init.files, init.slot, job.path, e.snapshots) == (t.files, t.slot)
  {
    TraceClosedForm(job, init, rs[..next]);
    LoopHaltsAt(job.cached, job.b, job.resume, rs, n, job.saveAfter, next);
    PageRequestsStep(Name(job.b), job.resume, StepMinutes(job.b), rs, next);
  }

  /** The scripted answers running out: the effects are the state after all of them. */
  lemma TraceStallsAt(job: Job, init: Progress, rs: seq<Reply>, n: nat)
    requires init.done == 0 && init.series == job.cached
    requires Trace(job, init, rs).done < n
    requires Walk(rs, |rs|, n - Trace(job, init, rs).done, job.saveAfter == 0) == Walk(rs, 0, n, job.saveAfter == 0)
    ensures LoopOutcome(job.cached, rs, n, job.saveAfter) == Stalled
    ensures var t, e := Trace(job, init, rs), LoopEffects(job.cached, job.b, job.resume, rs, n, job.saveAfter);
      && init.requests + e.requests == t.requests
      && init.saveLog + e.savedRounds == t.saveLog
      && Replay(init.files, init.slot, job.path, e.snapshots) == (t.files, t.slot)
  {
    TraceClosedForm(job, init, rs);
    LoopStallsAt(job.cached, job.b, job.resume, rs, n, job.saveAfter);
  }

  /** The loop completing its rounds after `next` replies: it returns the
      frame it built, and the effects are its state. */
  lemma TraceCompletesAt(job: Job, init: Progress, rs: seq<Reply>, n: nat, next: nat)
    requires init.done == 0 && init.series == job.cached
    requires next <= |rs| && Trace(job, init, rs[..next]).done == n
    requires Walk(rs, next, 0, job.saveAfter == 0) == Walk(rs, 0, n, job.saveAfter == 0)
    ensures var t := Trace(job, init, rs[..next]);
      LoopOutcome(job.cached, rs, n, job.saveAfter) == Returned(t.series)
    ensures var t, e := Trace(job, init, rs[..next]), LoopEffects(job.cached, job.b, job.resume, rs, n, job.saveAfter);
      && init.requests + e.requests == t.requests
      && init.saveLog + e.savedRounds == t.saveLog
      && Replay(init.files, init.slot, job.path, e.snapshots) == (t.files, t.slot)
  {
    TraceClosedForm(job, init, rs[..next]);
    LoopCompletesAt(job.cached, job.b, job.resume, rs, n, job.saveAfter, next);
  }

  /** When the newest remote bar is not after the resume point (the last
      cached bar, or the oldest remote bar for an empty cache), the cache comes
      back unchanged and no page is requested or saved. */
  lemma UpToDateCache(cached: seq<Row>, b: BinSize, remote: Remote, saveAfter: int)
    requires Resume(cached, remote.oldest).Some? && remote.newest.Some?
    requires remote.newest.value <= Resume(cached, remote.oldest).value
    ensures BitmexOutcome(cached, b, remote, saveAfter) == Returned(cached)
    ensures BitmexEffects(cached, b, remote, saveAfter) == Effects([], [], [])
  {
    RoundsNonPositiveIff(remote.newest.value - Resume(cached, remote.oldest).value, StepMinutes(b));
  }

  /** A completed Bitmex download returns the cache followed by every round's
      page exactly once, in round order; round `k` was requested starting
      `k * BATCH_SIZE * step` minutes after the resume point, and the rounds
      reach the newest bar. */
  lemma CompletedDownload(cached: seq<Row>, b: BinSize, remote: Remote, saveAfter: int)
    requires BitmexPlan(cached, b, remote).Fetch?
    requires BitmexOutcome(cached, b, remote, saveAfter).Returned?
    ensures var p := BitmexPlan(cached, b, remote);
      var used := remote.pages[..Consumed(remote.pages, p.rounds, saveAfter == 0)];
      && |Pages(used)| == p.rounds
      && BitmexOutcome(cached, b, remote, saveAfter).series == cached + Fetched(Pages(used))
      && PageStart(p.resume, p.rounds - 1, StepMinutes(b)) < remote.newest.value
      && remote.newest.value <= PageStart(p.resume, p.rounds, StepMinutes(b))
  {
    var p := BitmexPlan(cached, b, remote);
    var rs := remote.pages;
    var pr := saveAfter == 0;
    var stop := Walk(rs, 0, p.rounds, pr);
    assert stop.Completed?;
    WalkCompleted(rs, 0, p.rounds, pr);
    assert Consumed(rs, p.rounds, pr) == stop.used;
    assert rs[..0] == [];
    var newest := remote.newest.value;
    assert p.resume < newest by {
      RoundsNonPositiveIff(newest - p.resume, StepMinutes(b));
    }
    PagesCoverGap(p.resume, newest, StepMinutes(b));
  }

  // ------------------------------------------------------------- Binance

  /** `datetime(2017, 1, 1)`: where Binance history starts when nothing is cached. */
  const BinanceEpoch: Millis := 1483228800000

  /** The labels the fetcher gives the kline fields, by position. */
  const KlineLabels: seq<string> := ["close", "high", "low", "open", "volume", "timestamp",
    "close_time", "quote_av", "trades", "tb_base_av", "tb_quote_av", "ignore"]

  function KlineFields(k: Kline): seq<Cell> {
    [k.openTime, k.open, k.high, k.low, k.close, k.volume,
     k.closeTime, k.quoteVolume, k.trades, k.takerBase, k.takerQuote, k.ignore]
  }

  /** The column `col` of a record built from a kline. */
  function Column(rec: Record, col: string): Cell
    requires |rec.extra| == 6
  {
    if col == "close" then rec.close
    else if col == "high" then rec.high
    else if col == "low" then rec.low
    else if col == "open" then rec.open
    else if col == "volume" then rec.volume
    else if col == "timestamp" then rec.timestamp
    else if col == "close_time" then rec.extra[0]
    else if col == "quote_av" then rec.extra[1]
    else if col == "trades" then rec.extra[2]
    else if col == "tb_base_av" then rec.extra[3]
    else if col == "tb_quote_av" then rec.extra[4]
    else rec.extra[5]
  }

  /** A kline as a record, its fields named by the fetcher's column list. */
  function Relabel(k: Kline): (rec: Record)
    ensures |rec.extra| == 6
    ensures forall i :: 0 <= i < 12 ==> Column(rec, KlineLabels[i]) == KlineFields(k)[i]
  {
    Record(k.volume, k.low, k.open, k.high, k.openTime, k.close, None,
           [k.closeTime, k.quoteVolume, k.trades, k.takerBase, k.takerQuote, k.ignore])
  }

  /** The klines relabelled, in their order. */
  function Relabelled(ks: seq<Kline>): (recs: seq<Record>)
    ensures |recs| == |ks| && forall i :: 0 <= i < |ks| ==> recs[i] == Relabel(ks[i])
  {
    seq(|ks|, i requires 0 <= i < |ks| => Relabel(ks[i]))
  }

  /** `data['symbol'] = symbol`. */
  function WithSymbol(rows: seq<Row>, symbol: string): (r: seq<Row>)
    ensures |r| == |rows| && forall i :: 0 <= i < |rows| ==> r[i] == rows[i].(symbol := Some(symbol))
  {
    seq(|rows|, i requires 0 <= i < |rows| => rows[i].(symbol := Some(symbol)))
  }

  /** The fetched klines as rows: relabelled, rows missing a price or the
      timestamp dropped, the symbol column added. */
  function BinanceRows(ks: seq<Kline>, symbol: string): (rows: seq<Row>)
    ensures |rows| <= |ks|
    ensures forall i :: 0 <= i < |rows| ==> HasPrices(rows[i]) && rows[i].symbol == Some(symbol)
  {
    WithSymbol(Admit(Relabelled(ks)), symbol)
  }

  /** A kline survives the `dropna`: the fields that land in the timestamp and
      price columns are present. */
  predicate KlineKept(k: Kline) {
    HasRequired(Relabel(k))
  }

  /** The row a kept kline becomes: indexed by its volume, its low, open, high,
      open time and close under open, high, low, close and volume, with the
      symbol and the other six fields. */
  function KlineRow(k: Kline, symbol: string): (r: Row)
    requires KlineKept(k)
    ensures k.volume.Some? && r.timestamp == k.volume.value
    ensures r.open == k.low && r.high == k.open && r.low == k.high
    ensures r.close == k.openTime && r.volume == k.close && r.symbol == Some(symbol)
    ensures r.extra == [k.closeTime, k.quoteVolume, k.trades, k.takerBase, k.takerQuote, k.ignore]
  {
    ToRow(Relabel(k)).(symbol := Some(symbol))
  }

  /** One more kline adds its row at the end when it is kept, and nothing otherwise. */
  lemma BinanceRowsStep(ks: seq<Kline>, k: Kline, symbol: string)
    ensures BinanceRows(ks + [k], symbol)
         == BinanceRows(ks, symbol) + (if KlineKept(k) then [KlineRow(k, symbol)] else [])
  {
    var page := Relabelled(ks + [k]);
    assert page[..|page| - 1] == Relabelled(ks);
    assert page[|page| - 1] == Relabel(k);
    var front := Admit(Relabelled(ks));
    var tail := if KlineKept(k) then [ToRow(Relabel(k))] else [];
    assert Admit(page) == front + tail;
    assert WithSymbol(front + tail, symbol) == WithSymbol(front, symbol) + WithSymbol(tail, symbol);
  }

  /** A row comes out of the klines exactly when a kept kline becomes it. */
  lemma {:induction false} BinanceRowsExactly(ks: seq<Kline>, symbol: string, r: Row)
    ensures r in BinanceRows(ks, symbol) <==> exists k :: k in ks && KlineKept(k) && KlineRow(k, symbol) == r
    decreases |ks|
  {
    if ks != [] {
      var front, last := ks[..|ks| - 1], ks[|ks| - 1];
      assert ks == front + [last];
      BinanceRowsStep(front, last, symbol);
      BinanceRowsExactly(front, symbol, r);
      if exists k :: k in ks && KlineKept(k) && KlineRow(k, symbol) == r {
        var k :| k in ks && KlineKept(k) && KlineRow(k, symbol) == r;
        if k != last {
          assert k in front;
        }
      }
    }
  }

  /** When every kline is kept, row `i` is kline `i`'s row. */
  lemma {:induction false} BinanceRowsAllKept(ks: seq<Kline>, symbol: string)
    requires forall i :: 0 <= i < |ks| ==> KlineKept(ks[i])
    ensures |BinanceRows(ks, symbol)| == |ks|
    ensures forall i :: 0 <= i < |ks| ==> BinanceRows(ks, symbol)[i] == KlineRow(ks[i], symbol)
    decreases |ks|
  {
    if ks != [] {
      var front, last := ks[..|ks| - 1], ks[|ks| - 1];
      assert ks == front + [last];
      BinanceRowsStep(front, last, symbol);
      BinanceRowsAllKept(front, symbol);
    }
  }

  /** `_minutes_of_new_data` for Binance: the last cached row's timestamp, or 2017-01-01. */
  function BinanceOldest(cached: seq<Row>): Millis {
    if |cached| > 0 then cached[|cached| - 1].timestamp else BinanceEpoch
  }

  /** The frame `_binance_download` returns (before the slice). */
  function BinanceOutcome(cached: seq<Row>, symbol: string, remote: Remote, saveAfter: int): Outcome {
    if remote.newest.None? || remote.klines.None? || saveAfter == 0 then Raised
    else
      var newRows := BinanceRows(remote.klines.value, symbol);
      var merged := if |cached| > 0 then cached + newRows else newRows;
      Returned(Project(DropMissingPrices(merged)))
  }

  /** `strftime("%d %b %Y %H:%M:%S")`: an instant cut down to its whole second. */
  function ToSecond(t: Millis): (s: Millis)
    ensures s % 1000 == 0 && s <= t < s + 1000
  {
    t - t % 1000
  }

  function BinanceEffects(cached: seq<Row>, symbol: string, b: BinSize, remote: Remote, saveAfter: int): Effects {
    if remote.newest.None? then Effects([], [], [])
    else
      var asked := [Klines(symbol, Name(b), ToSecond(BinanceOldest(cached)), ToSecond(remote.newest.value))];
      if remote.klines.None? || saveAfter == 0 then Effects(asked, [], [])
      else Effects(asked, [0], [BinanceRows(remote.klines.value, symbol)])
  }

  /** The Binance path keeps the whole cache in what it returns, followed by
      the newRows rows (again without de-duplication), but the one save it makes
      holds the newRows rows only; it asks the remote even when nothing is new. */
  lemma BinanceKeepsCacheButSavesFreshOnly(cached: seq<Row>, symbol: string, b: BinSize,
                                            remote: Remote, saveAfter: int)
    requires forall i :: 0 <= i < |cached| ==> Complete(cached[i])
    requires remote.newest.Some? && remote.klines.Some? && saveAfter != 0
    ensures var newRows := BinanceRows(remote.klines.value, symbol);
      && BinanceOutcome(cached, symbol, remote, saveAfter) == Returned(Project(cached + newRows))
      && BinanceEffects(cached, symbol, b, remote, saveAfter).snapshots == [newRows]
      && |BinanceEffects(cached, symbol, b, remote, saveAfter).requests| == 1
  {
    var newRows := BinanceRows(remote.klines.value, symbol);
    var merged := cached + newRows;
    assert |cached| == 0 ==> merged == newRows;
    forall i | 0 <= i < |merged|
      ensures HasPrices(merged[i])
    {
      if i >= |cached| {
        assert merged[i] == newRows[i - |cached|];
      }
    }
    PricedRowsKept(merged);
  }

  lemma PricedRowsKept(rows: seq<Row>)
    requires forall i :: 0 <= i < |rows| ==> HasPrices(rows[i])
    ensures DropMissingPrices(rows) == rows
  {
    FilterAllPass(rows, (r: Row) => HasPrices(r));
  }

  // ------------------------------------------------------- download_data

  /** `df[date_from:date_to]` on the frame brought up to date; the KeyError the
      slice may raise escapes to the caller. */
  function SliceOutcome(o: Outcome, from: Option<Millis>, to: Option<Millis>): Outcome {
    if !o.Returned? then o
    else
      match PandasSlice(o.series, from, to)
      case None => Raised
      case Some(rows) => Returned(rows)
  }

  /** The frame `download_data` holds before the slice: the cache file read
      back, brought up to date from the exchange it names. */
  function Refreshed(disk: Disk, saveAfter: int, exchange: string, symbol: string, b: BinSize,
                     remote: Remote): Outcome
  {
    var cached := Load(disk, CachePath(exchange, symbol, b));
    if exchange == "bitmex" then BitmexOutcome(cached, b, remote, saveAfter)
    else if exchange == "binance" then BinanceOutcome(cached, symbol, remote, saveAfter)
    else Returned(cached)
  }

  /** What `download_data` returns, given the disk it reads the cache from. */
  function DownloadOutcome(disk: Disk, saveAfter: int, exchange: string, symbol: string, binSize: string,
                           from: Option<Millis>, to: Option<Millis>, remote: Remote): Outcome
  {
    match Parse(binSize)
    case None => Raised
    case Some(b) => SliceOutcome(Refreshed(disk, saveAfter, exchange, symbol, b, remote), from, to)
  }

  /** The requests and saves of `download_data`. */
  function DownloadEffects(disk: Disk, saveAfter: int, exchange: string, symbol: string, binSize: string,
                           remote: Remote): Effects
  {
    match Parse(binSize)
    case None => Effects([], [], [])
    case Some(b) =>
      var cached := Load(disk, CachePath(exchange, symbol, b));
      if exchange == "bitmex" then BitmexEffects(cached, b, remote, saveAfter)
      else if exchange == "binance" then BinanceEffects(cached, symbol, b, remote, saveAfter)
      else Effects([], [], [])
  }

  /** What the slice makes of the frame `download_data` brought up to date: on
      an ascending index the rows inside the window, on a descending one the
      rows between `to` and `from`; on an index in neither order it raises
      exactly when a given bound labels no row or rows that are not adjacent.
      An unknown bin size raises, and an exchange other than Bitmex or Binance
      is never asked anything: its frame is the cache file. */
  lemma DownloadSliced(disk: Disk, saveAfter: int, exchange: string, symbol: string, binSize: string,
                       from: Option<Millis>, to: Option<Millis>, remote: Remote)
    ensures Parse(binSize).None? ==>
      DownloadOutcome(disk, saveAfter, exchange, symbol, binSize, from, to, remote) == Raised
    ensures Parse(binSize).Some? ==>
      var u := Refreshed(disk, saveAfter, exchange, symbol, Parse(binSize).value, remote);
      var o := DownloadOutcome(disk, saveAfter, exchange, symbol, binSize, from, to, remote);
      && (!u.Returned? ==> o == u)
      && (u.Returned? && Ascending(u.series) ==> o == Returned(Slice(u.series, from, to)))
      && (u.Returned? && Descending(u.series) && !Ascending(u.series) ==> o == Returned(Slice(u.series, to, from)))
      && (u.Returned? && !Ascending(u.series) && !Descending(u.series) ==>
            (o == Raised <==> Unplaced(u.series, from) || Unplaced(u.series, to)))
    ensures exchange != "bitmex" && exchange != "binance" ==>
      && DownloadEffects(disk, saveAfter, exchange, symbol, binSize, remote) == Effects([], [], [])
      && (Parse(binSize).Some? ==>
            Refreshed(disk, saveAfter, exchange, symbol, Parse(binSize).value, remote)
            == Returned(Load(disk, CachePath(exchange, symbol, Parse(binSize).value))))
  {
    if Parse(binSize).Some? {
      var u := Refreshed(disk, saveAfter, exchange, symbol, Parse(binSize).value, remote);
      if u.Returned? {
        if Ascending(u.series) {
          PandasSliceAscending(u.series, from, to);
        } else if Descending(u.series) {
          PandasSliceDescending(u.series, from, to);
        } else {
          PandasSliceUnordered(u.series, from, to);
        }
      }
    }
  }

  /** A kline with every field present, whose volume is `v`. */
  function FullKline(v: Price): (k: Kline)
    ensures KlineKept(k) && KlineRow(k, "S").timestamp == v
  {
    Kline(Some(1), Some(1), Some(1), Some(1), Some(1), Some(v), Some(1), Some(1), Some(1), Some(1), Some(1), Some(1))
  }

  /** The frame a Binance download with an empty cache brings up to date from
      klines that are all kept: one row per kline, in their order, indexed by
      its volume and holding its relabelled prices and the symbol. */
  lemma FreshBinanceFrame(ks: seq<Kline>, symbol: string, b: BinSize, remote: Remote, saveAfter: int)
    requires forall i :: 0 <= i < |ks| ==> KlineKept(ks[i])
    requires remote.newest.Some? && remote.klines == Some(ks) && saveAfter != 0
    ensures var u := Refreshed(map[], saveAfter, "binance", symbol, b, remote);
      && u.Returned? && |u.series| == |ks|
      && forall i :: 0 <= i < |ks| ==> u.series[i] == KlineRow(ks[i], symbol).(extra := [])
  {
    var path := CachePath("binance", symbol, b);
    assert Load(map[], path) == [];
    BinanceRowsAllKept(ks, symbol);
    PricedRowsKept(BinanceRows(ks, symbol));
  }

  /** Rows labelled 5, 3 and 7: an index in neither order, on which 4 labels no row. */
  lemma FiveThreeSeven(s: seq<Row>)
    requires |s| == 3 && s[0].timestamp == 5 && s[1].timestamp == 3 && s[2].timestamp == 7
    ensures !Ascending(s) && !Descending(s) && Unplaced(s, Some(4))
  {
    assert s[0].timestamp > s[1].timestamp && s[1].timestamp < s[2].timestamp;
  }

  /** Rows labelled 5 then 3: a descending index, whose rows at or before 4 are the second. */
  lemma FiveThree(s: seq<Row>)
    requires |s| == 2 && s[0].timestamp == 5 && s[1].timestamp == 3
    ensures Descending(s) && !Ascending(s)
    ensures Slice(s, None, Some(4)) == [s[1]]
  {
    assert s[0].timestamp > s[1].timestamp;
    var front := s[..1];
    assert front[..0] == [];
    assert Filter(front, (r: Row) => InWindow(r.timestamp, None, Some(4))) == [];
  }

  /** Binance klines with volumes 5, 3 and 7 give an index in neither order,
      and a `date_from` of 4 labels none of its rows: `download_data` raises
      KeyError. */
  lemma UnorderedBinanceIndexRaises()
    ensures DownloadOutcome(map[], 25, "binance", "S", Name(H1), Some(4), None,
                            Remote(None, Some(10), [], Some([FullKline(5), FullKline(3), FullKline(7)]))) == Raised
  {
    var ks := [FullKline(5), FullKline(3), FullKline(7)];
    var remote := Remote(None, Some(10), [], Some(ks));
    ParseName(H1);
    FreshBinanceFrame(ks, "S", H1, remote, 25);
    FiveThreeSeven(Refreshed(map[], 25, "binance", "S", H1, remote).series);
    DownloadSliced(map[], 25, "binance", "S", Name(H1), Some(4), None, remote);
  }

  /** Binance klines with volumes 5 then 3 give a descending index, which pandas
      searches reversed: a `date_from` of 4 keeps the rows at or before 4, the
      row labelled 3. */
  lemma DescendingBinanceIndexSlices()
    ensures var o := DownloadOutcome(map[], 25, "binance", "S", Name(H1), Some(4), None,
                                     Remote(None, Some(10), [], Some([FullKline(5), FullKline(3)])));
      o.Returned? && |o.series| == 1 && o.series[0].timestamp == 3
  {
    var ks := [FullKline(5), FullKline(3)];
    var remote := Remote(None, Some(10), [], Some(ks));
    ParseName(H1);
    FreshBinanceFrame(ks, "S", H1, remote, 25);
    FiveThree(Refreshed(map[], 25, "binance", "S", H1, remote).series);
    DownloadSliced(map[], 25, "binance", "S", Name(H1), Some(4), None, remote);
  }
}
