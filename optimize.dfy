/** The rules of the Optuna optimiser around a strategy: which analyzer is
    optimised and how its value is taken from a backtest, the per-period
    objective, and the defaults for the number of trials, of parallel jobs and
    of the database engine options. The backtest engine, the trial and the
    study are oracles. */
module Optimize {
  import opened Bars
  import opened Reconcile
  import opened Granularity
  import opened CacheStore
  import opened DataFetcher

  datatype Result<+T> = Ok(value: T) | Err

  // ------------------------------------------------------------- analyzer

  /** `str.lower()` restricted to ASCII, then `' '` to `'_'`. */
  function FoldChar(c: char): (d: char)
    ensures !('A' <= d <= 'Z') && d != ' '
    ensures 'A' <= c <= 'Z' ==> d as int == c as int + 32
    ensures c == ' ' ==> d == '_'
    ensures !('A' <= c <= 'Z') && c != ' ' ==> d == c
  {
    if 'A' <= c <= 'Z' then (c as int + 32) as char
    else if c == ' ' then '_'
    else c
  }

  /** No upper-case ASCII letter and no space. */
  predicate Folded(s: string) {
    forall i :: 0 <= i < |s| ==> !('A' <= s[i] <= 'Z') && s[i] != ' '
  }

  /** `(analyzer or 'none').lower().replace(" ", "_")`. */
  function NormalizeAnalyzer(analyzer: Option<string>): (n: string)
    ensures Folded(n)
    ensures analyzer.None? || analyzer.value == [] ==> n == "none"
    ensures analyzer.Some? && analyzer.value != [] ==>
      |n| == |analyzer.value| && forall i :: 0 <= i < |n| ==> n[i] == FoldChar(analyzer.value[i])
  {
    var s := if analyzer.None? || analyzer.value == [] then "none" else analyzer.value;
    seq(|s|, i requires 0 <= i < |s| => FoldChar(s[i]))
  }

  /** A normalised name normalises to itself. */
  lemma NormalizeIdempotent(analyzer: Option<string>)
    ensures NormalizeAnalyzer(Some(NormalizeAnalyzer(analyzer))) == NormalizeAnalyzer(analyzer)
  {
    var n := NormalizeAnalyzer(analyzer);
    var m := NormalizeAnalyzer(Some(n));
    assert n != [];
    assert forall i :: 0 <= i < |n| ==> m[i] == FoldChar(n[i]) == n[i];
  }

  /** The names the constructor's assertion lets through. */
  predicate Accepted(name: string) {
    name in {"sharpe_ratio", "sqn", "vwr", "winrate", "none"}
  }

  /** "pnl" is never accepted, whatever its spelling, although the metric
      dispatch has a branch for it. */
  lemma PnlRejected(analyzer: Option<string>)
    requires analyzer.Some? && |analyzer.value| == 3
    requires FoldChar(analyzer.value[0]) == 'p' && FoldChar(analyzer.value[1]) == 'n'
    requires FoldChar(analyzer.value[2]) == 'l'
    ensures NormalizeAnalyzer(analyzer) == "pnl" && !Accepted(NormalizeAnalyzer(analyzer))
  {
  }

  // ------------------------------------------------------------ backtest

  /** What the engine reports after one backtest run, or that it raised. */
  datatype EngineRun = Failed
                     | Ran(portValue: real, sqn: Option<real>, vwr: Option<real>, sharpe: Option<real>,
                           won: int, lost: int)

  /** The `stats` dictionary. */
  datatype Stats = Stats(pnl: real, sqn: Option<real>, vwr: Option<real>, sharpeRatio: Option<real>, winrate: real)

  /** `backtest`'s answer: the optimised value and the stats, or the
      `(None, None, None, None)` every exception collapses to. */
  datatype Backtested = Backtested(result: Option<real>, stats: Stats) | Errored

  /** The metric names the dispatch knows. */
  predicate Dispatched(name: string) {
    name in {"sqn", "vwr", "sharpe_ratio", "winrate", "none", "pnl"}
  }

  function Backtest(analyzer: string, startCash: real, run: EngineRun): (b: Backtested)
    ensures b.Errored? <==> run.Failed? || run.lost == 0 || !Dispatched(analyzer)
    ensures b.Backtested? ==>
      && b.stats.pnl == run.portValue - startCash
      && b.stats.winrate * (run.lost as real) == (run.won as real) * 100.0
  {
    match run
    case Failed => Errored
    case Ran(portValue, sqn, vwr, sharpe, won, lost) =>
      if lost == 0 then Errored
      else
        var stats := Stats(portValue - startCash, sqn, vwr, sharpe, (won as real / lost as real) * 100.0);
        if analyzer == "sqn" then Backtested(sqn, stats)
        else if analyzer == "vwr" then Backtested(vwr, stats)
        else if analyzer == "sharpe_ratio" then Backtested(sharpe, stats)
        else if analyzer == "winrate" then Backtested(Some(stats.winrate), stats)
        else if analyzer == "none" || analyzer == "pnl" then Backtested(Some(stats.pnl), stats)
        else Errored
  }

  /** An accepted analyzer is always dispatched: only the engine or a run
      without a lost trade makes a backtest fail. The stats carry the engine's
      analyzer values, and the optimised value is the one the analyzer names:
      the engine's SQN, VWR or Sharpe ratio, the win rate, or for "none" the
      profit over the starting cash. */
  lemma BacktestSelectsMetric(analyzer: Option<string>, startCash: real, run: EngineRun)
    requires Accepted(NormalizeAnalyzer(analyzer))
    ensures var name := NormalizeAnalyzer(analyzer);
      var b := Backtest(name, startCash, run);
      && (b.Errored? <==> run.Failed? || run.lost == 0)
      && (b.Backtested? ==>
            && b.stats.sqn == run.sqn && b.stats.vwr == run.vwr && b.stats.sharpeRatio == run.sharpe
            && (name == "sqn" ==> b.result == run.sqn)
            && (name == "vwr" ==> b.result == run.vwr)
            && (name == "sharpe_ratio" ==> b.result == run.sharpe)
            && (name == "winrate" ==> b.result == Some(b.stats.winrate))
            && (name == "none" ==> b.result == Some(run.portValue - startCash)))
  {
  }

  // ----------------------------------------------------------- objective

  /** The optimiser's settings and the frames of its time periods. */
  datatype Optimizer = Optimizer(analyzer: string, startCash: real, storage: Option<string>, data: seq<seq<Row>>)

  /** The value one period contributes, None when it has none. */
  function PeriodResult(opt: Optimizer, run: EngineRun): Option<real> {
    var b := Backtest(opt.analyzer, opt.startCash, run);
    if b.Errored? then None else b.result
  }

  datatype Report = Report(value: real, step: nat)

  datatype TrialEnd = Scored(value: real) | Pruned

  /** `_objective`: backtest each period in order, reporting its value at
      steps 1, 2, ...; prune at the first period without a value or as soon
      as the trial asks to be pruned; otherwise return the last period's value.
      `runs[i]` is the engine's answer for period `i`, `prune[i]` the trial's
      `should_prune()` after its report. */
  method Objective(opt: Optimizer, runs: seq<EngineRun>, prune: seq<bool>)
    returns (end: TrialEnd, reports: seq<Report>)
    requires |runs| == |opt.data| && |prune| == |opt.data|
    ensures |reports| <= |runs|
    ensures forall j :: 0 <= j < |reports| ==>
      PeriodResult(opt, runs[j]).Some? && reports[j] == Report(PeriodResult(opt, runs[j]).value, j + 1)
    ensures forall j :: 0 <= j < |reports| - 1 ==> !prune[j]
    ensures end.Scored? <==>
      |runs| > 0 && forall j :: 0 <= j < |runs| ==> PeriodResult(opt, runs[j]).Some? && !prune[j]
    ensures end.Scored? ==>
      |reports| == |runs| && end.value == PeriodResult(opt, runs[|runs| - 1]).value
    ensures end.Pruned? && |reports| < |runs| ==>
      PeriodResult(opt, runs[|reports|]).None? || (|reports| > 0 && prune[|reports| - 1])
  {
    reports := [];
    var result: Option<real> := None;
    var step := 0;
    while step < |runs|
      invariant 0 <= step <= |runs| && |reports| == step
      invariant forall j :: 0 <= j < step ==>
        PeriodResult(opt, runs[j]).Some? && !prune[j] && reports[j] == Report(PeriodResult(opt, runs[j]).value, j + 1)
      invariant step > 0 ==> result == PeriodResult(opt, runs[step - 1])
      invariant step == 0 ==> result.None?
    {
      var b := Backtest(opt.analyzer, opt.startCash, runs[step]);
      result := if b.Errored? then None else b.result;
      if result.None? {
        return Pruned, reports;
      }
      step := step + 1;
      reports := reports + [Report(result.value, step)];
      if prune[step - 1] {
        return Pruned, reports;
      }
    }
    if result.None? {
      return Pruned, reports;
    }
    end := Scored(result.value);
  }

  // --------------------------------------------------------- constructor

  /** Why the constructor raised, when it did. */
  datatype Setup = Ready(opt: Optimizer) | AnalyzerRejected | DownloadRaised(period: nat)

  /** The cache files a fetcher leaves once its last save has landed. */
  function SettledFiles(disk: CacheStore.Disk, saveAfter: int, exchange: string, symbol: string, binSize: string,
                        remote: Remote): CacheStore.Disk
  {
    match Parse(binSize)
    case None => disk
    case Some(b) =>
      var (d, slot) := Replay(disk, None, CachePath(exchange, symbol, b),
                              DownloadEffects(disk, saveAfter, exchange, symbol, binSize, remote).snapshots);
      Landed(d, slot)
  }

  /** Once a fetcher's saves have landed, the cache file of the request holds
      the last frame it saved (unchanged when it saved none), and no other file
      changes. */
  lemma SettledFilesFrame(disk: CacheStore.Disk, saveAfter: int, exchange: string, symbol: string,
                          binSize: string, remote: Remote)
    ensures var d := SettledFiles(disk, saveAfter, exchange, symbol, binSize, remote);
      && disk.Keys <= d.Keys
      && (Parse(binSize).None? ==> d == disk)
      && (Parse(binSize).Some? ==>
            var path := CachePath(exchange, symbol, Parse(binSize).value);
            var snaps := DownloadEffects(disk, saveAfter, exchange, symbol, binSize, remote).snapshots;
            && d - {path} == disk - {path}
            && (snaps == [] ==> d == disk)
            && (snaps != [] ==> d == disk[path := Csv(snaps[|snaps| - 1])]))
  {
    if Parse(binSize).Some? {
      var path := CachePath(exchange, symbol, Parse(binSize).value);
      var snaps := DownloadEffects(disk, saveAfter, exchange, symbol, binSize, remote).snapshots;
      if snaps != [] {
        ReplayEffect(disk, None, path, snaps);
      }
    }
  }

  /** What the constructor's downloads give: a frame per period, or the first
      period whose download raised. */
  datatype Frames = Frames(data: seq<seq<Row>>) | RaisedAt(period: nat)

  /** `later`, behind the frames already downloaded. */
  function After(data: seq<seq<Row>>, later: Frames): Frames {
    match later
    case Frames(rest) => Frames(data + rest)
    case RaisedAt(k) => RaisedAt(|data| + k)
  }

  /** The periods downloaded in order, each by a fresh fetcher with the default
      `save_after` reading the cache files the previous one left. */
  function Downloads(disk: CacheStore.Disk, exchange: string, symbol: string, binSize: string,
                     periods: seq<(Option<Millis>, Option<Millis>)>, remotes: seq<Remote>): Frames
    requires |remotes| == |periods|
    decreases |periods|
  {
    if periods == [] then Frames([])
    else
      var out := DownloadOutcome(disk, DefaultSaveAfter, exchange, symbol, binSize, periods[0].0, periods[0].1, remotes[0]);
      if !out.Returned? then RaisedAt(0)
      else
        var files := SettledFiles(disk, DefaultSaveAfter, exchange, symbol, binSize, remotes[0]);
        After([out.series], Downloads(files, exchange, symbol, binSize, periods[1..], remotes[1..]))
  }

  /** A frame for every period, or a raise at one of them. */
  lemma {:induction false} DownloadsShape(disk: CacheStore.Disk, exchange: string, symbol: string, binSize: string,
                                          periods: seq<(Option<Millis>, Option<Millis>)>, remotes: seq<Remote>)
    requires |remotes| == |periods|
    ensures match Downloads(disk, exchange, symbol, binSize, periods, remotes)
      case Frames(data) => |data| == |periods|
      case RaisedAt(k) => k < |periods|
    decreases |periods|
  {
    if periods != [] {
      var out := DownloadOutcome(disk, DefaultSaveAfter, exchange, symbol, binSize, periods[0].0, periods[0].1, remotes[0]);
      var files := SettledFiles(disk, DefaultSaveAfter, exchange, symbol, binSize, remotes[0]);
      DownloadsShape(files, exchange, symbol, binSize, periods[1..], remotes[1..]);
    }
  }

  lemma AfterAfter(data: seq<seq<Row>>, more: seq<seq<Row>>, later: Frames)
    ensures After(data, After(more, later)) == After(data + more, later)
  {
    if later.Frames? {
      assert data + (more + later.data) == data + more + later.data;
    }
  }

  /** `OptunaOptimizeStrategy.__init__`: check the analyzer, then download each
      period with a fresh fetcher (default `save_after`), in order; a fetcher's
      save in flight lands before the next period is read. `remotes[i]` answers
      the requests of period `i`. */
  method Prepare(analyzer: Option<string>, exchange: string, symbol: string, binSize: string,
                 periods: seq<(Option<Millis>, Option<Millis>)>, startCash: real, storage: Option<string>,
                 disk: CacheStore.Disk, remotes: seq<Remote>)
    returns (setup: Setup)
    requires |remotes| == |periods|
    ensures setup == AnalyzerRejected <==> !Accepted(NormalizeAnalyzer(analyzer))
    ensures Accepted(NormalizeAnalyzer(analyzer)) ==>
      match Downloads(disk, exchange, symbol, binSize, periods, remotes)
      case Frames(data) => setup == Ready(Optimizer(NormalizeAnalyzer(analyzer), startCash, storage, data))
      case RaisedAt(k) => setup == DownloadRaised(k)
  {
    var name := NormalizeAnalyzer(analyzer);
    if !Accepted(name) {
      return AnalyzerRejected;
    }
    var data: seq<seq<Row>> := [];
    var files := disk;
    for i := 0 to |periods|
      invariant |data| == i
      invariant Downloads(disk, exchange, symbol, binSize, periods, remotes)
             == After(data, Downloads(files, exchange, symbol, binSize, periods[i..], remotes[i..]))
    {
      ghost var rest := Downloads(files, exchange, symbol, binSize, periods[i..], remotes[i..]);
      assert periods[i..][0] == periods[i] && periods[i..][1..] == periods[i + 1..];
      assert remotes[i..][0] == remotes[i] && remotes[i..][1..] == remotes[i + 1..];
      var out;
      out, files := FetchPeriod(files, exchange, symbol, binSize, periods[i].0, periods[i].1, remotes[i]);
      if !out.Returned? {
        return DownloadRaised(i);
      }
      AfterAfter(data, [out.series], Downloads(files, exchange, symbol, binSize, periods[i + 1..], remotes[i + 1..]));
      data := data + [out.series];
    }
    assert periods[|periods|..] == [];
    assert data + [] == data;
    setup := Ready(Optimizer(name, startCash, storage, data));
  }

  /** One period of the constructor: a fresh fetcher with the default
      `save_after` downloads it, and its last save lands before the next
      period is read. */
  method FetchPeriod(disk: CacheStore.Disk, exchange: string, symbol: string, binSize: string,
                     from: Option<Millis>, to: Option<Millis>, remote: Remote)
    returns (out: Outcome, disk': CacheStore.Disk)
    ensures out == DownloadOutcome(disk, DefaultSaveAfter, exchange, symbol, binSize, from, to, remote)
    ensures disk' == SettledFiles(disk, DefaultSaveAfter, exchange, symbol, binSize, remote)
  {
    var fetcher := new Fetcher(DefaultSaveAfter, disk);
    out := fetcher.DownloadData(exchange, symbol, binSize, from, to, remote);
    fetcher.Settle();
    disk' := fetcher.files;
  }

  // ------------------------------------------------------------ defaults

  /** `_calc_n_trials`: the trials still to run to reach `max_evals` completed ones. */
  function NTrials(maxEvals: int, completed: int): (n: int)
    ensures n >= 0
    ensures completed < maxEvals ==> completed + n == maxEvals
    ensures completed >= maxEvals ==> n == 0
  {
    if completed >= maxEvals then 0 else maxEvals - completed
  }

  /** `run` calls `optimize` exactly when trials remain; once they have all
      completed, a new run has nothing left to do. */
  lemma NTrialsResume(maxEvals: int, completed: int)
    ensures NTrials(maxEvals, completed) > 0 <==> completed < maxEvals
    ensures NTrials(maxEvals, completed + NTrials(maxEvals, completed)) == 0
  {
  }

  predicate StartsWith(s: Option<string>, prefix: string) {
    s.Some? && |prefix| <= |s.value| && s.value[..|prefix|] == prefix
  }

  /** `_default_n_jobs`: an explicit value as given; otherwise 1 for SQLite
      storage and `os.cpu_count()` (possibly None) for anything else. */
  function DefaultNJobs(nJobs: Option<int>, storage: Option<string>, cpus: Option<int>): (n: Option<int>)
    ensures nJobs.Some? ==> n == nJobs
    ensures nJobs.None? && StartsWith(storage, "sqlite") ==> n == Some(1)
    ensures nJobs.None? && !StartsWith(storage, "sqlite") ==> n == cpus
  {
    if nJobs.Some? then nJobs
    else if StartsWith(storage, "sqlite") then Some(1)
    else cpus
  }

  /** Defaulting twice is defaulting once. */
  lemma DefaultNJobsIdempotent(nJobs: Option<int>, storage: Option<string>, cpus: Option<int>)
    ensures DefaultNJobs(DefaultNJobs(nJobs, storage, cpus), storage, cpus) == DefaultNJobs(nJobs, storage, cpus)
  {
  }

  /** The SQLAlchemy options: `pool_size`, `max_overflow`, `connect_args.connect_timeout`. */
  datatype EngineKwargs = EngineKwargs(poolSize: int, maxOverflow: int, connectTimeout: int)

  /** `_default_engine_kwargs`: explicit options as given; for PostgreSQL
      storage 20 pooled connections per job (per CPU when the job count is not
      positive, which raises when the CPU count is unknown), no overflow and a
      100 s connect timeout; no options otherwise. */
  function DefaultEngineKwargs(kwargs: Option<EngineKwargs>, nJobs: Option<int>, storage: Option<string>,
                               cpus: Option<int>): (r: Result<Option<EngineKwargs>>)
    ensures kwargs.Some? ==> r == Ok(kwargs)
    ensures kwargs.None? && !StartsWith(storage, "postgresql") ==> r == Ok(None)
    ensures kwargs.None? && StartsWith(storage, "postgresql") ==>
      var n := DefaultNJobs(nJobs, storage, cpus);
      && (r.Err? <==> !(n.Some? && n.value > 0) && cpus.None?)
      && (r.Ok? ==> r.value.Some? && r.value.value.maxOverflow == 0 && r.value.value.connectTimeout == 100
                    && r.value.value.poolSize % 20 == 0)
      && (n.Some? && n.value > 0 ==> r == Ok(Some(EngineKwargs(20 * n.value, 0, 100))))
      && (!(n.Some? && n.value > 0) && cpus.Some? ==> r == Ok(Some(EngineKwargs(20 * cpus.value, 0, 100))))
  {
    if kwargs.Some? then Ok(kwargs)
    else
      var n := DefaultNJobs(nJobs, storage, cpus);
      if StartsWith(storage, "postgresql") then
        if n.Some? && n.value > 0 then Ok(Some(EngineKwargs(n.value * 20, 0, 100)))
        else if cpus.Some? then Ok(Some(EngineKwargs(cpus.value * 20, 0, 100)))
        else Err
      else Ok(None)
  }

  /** `run` defaults the job count before handing it to the engine defaults,
      which default it again: the options are the same as without the first step. */
  lemma RunEngineKwargs(kwargs: Option<EngineKwargs>, nJobs: Option<int>, storage: Option<string>, cpus: Option<int>)
    ensures DefaultEngineKwargs(kwargs, DefaultNJobs(nJobs, storage, cpus), storage, cpus)
         == DefaultEngineKwargs(kwargs, nJobs, storage, cpus)
  {
    DefaultNJobsIdempotent(nJobs, storage, cpus);
  }

  /** SQLite and PostgreSQL storage are told apart: a SQLite storage gets no
      engine options and runs one job at a time. */
  lemma SqliteStorage(nJobs: Option<int>, storage: Option<string>, cpus: Option<int>)
    requires StartsWith(storage, "sqlite") && nJobs.None?
    ensures DefaultNJobs(nJobs, storage, cpus) == Some(1)
    ensures DefaultEngineKwargs(None, nJobs, storage, cpus) == Ok(None)
  {
    assert storage.value[..6] == "sqlite";
    assert storage.value[0] == 's';
  }
}
