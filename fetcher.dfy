/** The `DataFetcher` object: its cache files, the save in flight on the
    background thread, and the download operations that read and update them. */
module DataFetcher {
  import opened Bars
  import opened Granularity
  import opened Gap
  import opened CacheStore
  import opened Reconcile

  /** The default `save_after`: persist every 25th round. */
  const DefaultSaveAfter: int := 25

  class Fetcher {
    /** `save_after`: a round is saved when its number is a multiple of it. */
    const saveAfter: int
    /** The cache files as the last landed save left them. */
    var files: Disk
    /** The save running on the background thread, if any. */
    var slot: Option<Snapshot>
    /** The round numbers `save_df` logged as saving, in order. */
    var saveLog: seq<int>
    /** Every data request sent to an exchange, in order. */
    var requests: seq<Request>

    constructor (saveAfter: int, disk: Disk)
      ensures this.saveAfter == saveAfter && files == disk && slot == None
      ensures saveLog == [] && requests == []
    {
      this.saveAfter := saveAfter;
      files := disk;
      slot := None;
      saveLog := [];
      requests := [];
    }

    /** The background thread finishing: the save in flight lands in its file. */
    method Settle()
      modifies this
      ensures files == Landed(old(files), old(slot)) && slot == None
      ensures saveLog == old(saveLog) && requests == old(requests)
    {
      files := Landed(files, slot);
      slot := None;
    }

    /** `save_df(df, path, i)`: raises (false) when `save_after` is 0; saves only
        rounds that are multiples of `save_after`, first joining the save in
        flight, then handing the frame to a new background save. */
    method SaveDf(rows: seq<Row>, path: string, i: int) returns (ok: bool)
      modifies this
      ensures ok <==> saveAfter != 0
      ensures SaveDue(i, saveAfter) ==>
        files == Landed(old(files), old(slot)) && slot == Some(Snapshot(path, rows))
        && saveLog == old(saveLog) + [i]
      ensures !SaveDue(i, saveAfter) ==> files == old(files) && slot == old(slot) && saveLog == old(saveLog)
      ensures requests == old(requests)
    {
      if saveAfter == 0 {
        return false;
      }
      ok := true;
      if i % saveAfter != 0 {
        return;
      }
      saveLog := saveLog + [i];
      files := Landed(files, slot);
      slot := Some(Snapshot(path, rows));
    }

    /** The fetcher's own state as the page loop sees it, with the frame built so far. */
    ghost function Snap(done: nat, series: seq<Row>): Progress
      reads this
    {
      Progress(done, series, requests, saveLog, files, slot)
    }

    /** The page loop of `rounds` rounds over the replies `rs` has ended as
        `LoopOutcome` says, with the effects `LoopEffects` gives, counted from
        the state `init` it started in. */
    ghost predicate Finished(job: Job, rs: seq<Reply>, rounds: nat, init: Progress, out: Outcome)
      reads this
    {
      && out == LoopOutcome(job.cached, rs, rounds, saveAfter)
      && var e := LoopEffects(job.cached, job.b, job.resume, rs, rounds, saveAfter);
      && requests == init.requests + e.requests
      && saveLog == init.saveLog + e.savedRounds
      && (files, slot) == Replay(init.files, init.slot, job.path, e.snapshots)
    }

    /** One round of `_bitmex_download`: request the round's page until it
        arrives, retrying while the exchange answers "too many requests". An
        exception, or the scripted answers running out, ends the download (`halt`). */
    method FetchRound(job: Job, rs: seq<Reply>, rounds: nat, roundNum: nat, ghost init: Progress,
                      next: nat, series: seq<Row>)
      returns (halt: Option<Outcome>, next': nat, series': seq<Row>)
      requires job.saveAfter == saveAfter && init.done == 0 && init.series == job.cached
      requires roundNum < rounds && next <= |rs|
      requires Snap(roundNum, series) == Trace(job, init, rs[..next])
      requires Walk(rs, next, rounds - roundNum, saveAfter == 0)
            == Walk(rs, 0, rounds, saveAfter == 0)
      modifies this
      ensures halt.Some? ==> Finished(job, rs, rounds, init, halt.value)
      ensures halt.None? ==>
        && next' <= |rs|
        && Snap(roundNum + 1, series') == Trace(job, init, rs[..next'])
        && Walk(rs, next', rounds - roundNum - 1, saveAfter == 0)
           == Walk(rs, 0, rounds, saveAfter == 0)
    {
      var pr := saveAfter == 0;
      next', series' := next, series;
      var done := roundNum;
      while done == roundNum
        invariant next' <= |rs| && roundNum <= done <= roundNum + 1
        invariant Snap(done, series') == Trace(job, init, rs[..next'])
        invariant Walk(rs, next', rounds - done, pr) == Walk(rs, 0, rounds, pr)
        decreases |rs| - next'
      {
        halt, done, series' := HandleReply(job, rs, rounds, init, next', done, series');
        if halt.Some? {
          return;
        }
        next' := next' + 1;
      }
      halt := None;
    }

    /** One request of a round and its reply: a page is appended and offered
        to `save_df`; a rate limit leaves the round to be retried; an error,
        an empty page, a failing save or the answers running out ends the download. */
    method HandleReply(job: Job, rs: seq<Reply>, rounds: nat, ghost init: Progress,
                       next: nat, done: nat, series: seq<Row>)
      returns (halt: Option<Outcome>, done': nat, series': seq<Row>)
      requires job.saveAfter == saveAfter && init.done == 0 && init.series == job.cached
      requires done < rounds && next <= |rs|
      requires Snap(done, series) == Trace(job, init, rs[..next])
      requires Walk(rs, next, rounds - done, saveAfter == 0)
            == Walk(rs, 0, rounds, saveAfter == 0)
      modifies this
      ensures halt.Some? ==> Finished(job, rs, rounds, init, halt.value)
      ensures halt.None? ==>
        && next < |rs| && done <= done' <= done + 1
        && Snap(done', series') == Trace(job, init, rs[..next + 1])
        && Walk(rs, next + 1, rounds - done', saveAfter == 0)
           == Walk(rs, 0, rounds, saveAfter == 0)
    {
      var pr := saveAfter == 0;
      done', series' := done, series;
      if next == |rs| {
        assert rs[..next] == rs;
        TraceStallsAt(job, init, rs, rounds);
        return Some(Stalled), done', series';
      }
      ghost var before := Snap(done, series);
      requests := requests + [Bucketed(Name(job.b), PageSize, PageStart(job.resume, done, StepMinutes(job.b)))];
      TraceStep(job, init, rs, next);
      var reply := rs[next];
      if reply.Fatal? || (reply.Page? && reply.records == []) {
        TraceHaltsAt(job, init, rs, rounds, next);
        return Some(Raised), done', series';
      }
      if reply.Page? {
        series' := series' + Admit(reply.records);
        var ok := SaveDf(series', job.path, done);
        if !ok {
          TraceHaltsAt(job, init, rs, rounds, next);
          return Some(Raised), done', series';
        }
        done' := done + 1;
      }
      WalkStep(rs, next, rounds - done, pr);
      assert Snap(done', series') == Advance(job, before, reply);
      halt := None;
    }

    /** `_bitmex_download`: probe the gap, then fetch it round by round. */
    method BitmexDownload(cached: seq<Row>, b: BinSize, path: string, remote: Remote) returns (out: Outcome)
      modifies this
      ensures out == BitmexOutcome(cached, b, remote, saveAfter)
      ensures var e := BitmexEffects(cached, b, remote, saveAfter);
        && requests == old(requests) + e.requests
        && saveLog == old(saveLog) + e.savedRounds
        && (files, slot) == Replay(old(files), old(slot), path, e.snapshots)
    {
      var resume := Resume(cached, remote.oldest);
      if resume.None? || remote.newest.None? {
        return Raised;
      }
      var rounds := Rounds(remote.newest.value - resume.value, StepMinutes(b));
      if rounds <= 0 {
        return Returned(cached);
      }
      assert BitmexPlan(cached, b, remote) == Fetch(resume.value, rounds);
      var job := Job(cached, b, path, resume.value, saveAfter);
      out := FetchRounds(job, remote.pages, rounds);
    }

    /** The page loop of `_bitmex_download`: `rounds` rounds, each fetching one
        page, the frame growing by every page that arrives. */
    method FetchRounds(job: Job, rs: seq<Reply>, rounds: nat) returns (out: Outcome)
      requires job.saveAfter == saveAfter
      modifies this
      ensures Finished(job, rs, rounds, old(Snap(0, job.cached)), out)
    {
      ghost var init := Snap(0, job.cached);
      var series := job.cached;
      var next: nat := 0;
      assert rs[..0] == [];
      for roundNum := 0 to rounds
        invariant next <= |rs|
        invariant Snap(roundNum, series) == Trace(job, init, rs[..next])
        invariant Walk(rs, next, rounds - roundNum, saveAfter == 0) == Walk(rs, 0, rounds, saveAfter == 0)
      {
        var halt;
        halt, next, series := FetchRound(job, rs, rounds, roundNum, init, next, series);
        if halt.Some? {
          return halt.value;
        }
      }
      TraceCompletesAt(job, init, rs, rounds, next);
      out := Returned(series);
    }

    /** `_binance_download`: one bulk request from the last cached bar (or
        2017-01-01) to the newest, the fetched rows saved on their own as
        round 0, and the cache and the fetched rows returned together. */
    method BinanceDownload(cached: seq<Row>, symbol: string, b: BinSize, path: string, remote: Remote)
      returns (out: Outcome)
      modifies this
      ensures out == BinanceOutcome(cached, symbol, remote, saveAfter)
      ensures var e := BinanceEffects(cached, symbol, b, remote, saveAfter);
        && requests == old(requests) + e.requests
        && saveLog == old(saveLog) + e.savedRounds
        && (files, slot) == Replay(old(files), old(slot), path, e.snapshots)
    {
      ghost var files0, slot0 := files, slot;
      var oldest := BinanceOldest(cached);
      if remote.newest.None? {
        return Raised;
      }
      requests := requests + [Klines(symbol, Name(b), ToSecond(oldest), ToSecond(remote.newest.value))];
      if remote.klines.None? {
        return Raised;
      }
      var rows := BinanceRows(remote.klines.value, symbol);
      ReplayStep(files0, slot0, path, [], rows);
      assert [] + [rows] == [rows];
      var ok := SaveDf(rows, path, 0);
      if !ok {
        return Raised;
      }
      var merged := if |cached| > 0 then cached + rows else rows;
      out := Returned(Project(DropMissingPrices(merged)));
    }

    /** `download_data`: read the cache file of the requested granularity, bring
        it up to date from the exchange, and return the rows inside the window. */
    method DownloadData(exchange: string, symbol: string, binSize: string,
                        from: Option<Millis>, to: Option<Millis>, remote: Remote) returns (out: Outcome)
      modifies this
      ensures out == DownloadOutcome(old(files), saveAfter, exchange, symbol, binSize, from, to, remote)
      ensures var e := DownloadEffects(old(files), saveAfter, exchange, symbol, binSize, remote);
        && requests == old(requests) + e.requests
        && saveLog == old(saveLog) + e.savedRounds
      ensures Parse(binSize).None? ==> files == old(files) && slot == old(slot)
      ensures Parse(binSize).Some? ==>
        (files, slot) == Replay(old(files), old(slot), CachePath(exchange, symbol, Parse(binSize).value),
                                DownloadEffects(old(files), saveAfter, exchange, symbol, binSize, remote).snapshots)
    {
      var b := Parse(binSize);
      if b.None? {
        return Raised;
      }
      var path := CachePath(exchange, symbol, b.value);
      var cached := Load(files, path);
      var o;
      if exchange == "bitmex" {
        o := BitmexDownload(cached, b.value, path, remote);
      } else if exchange == "binance" {
        o := BinanceDownload(cached, symbol, b.value, path, remote);
      } else {
        o := Returned(cached);
      }
      out := SliceOutcome(o, from, to);
    }
  }
}
