/** The fetcher's bin-size tables: which granularity a requested bin size is
    stored under, how many minutes one of its steps spans, and the cache file
    a request reads and writes. */
module Granularity {
  import opened Bars

  /** The bin sizes the tables know. */
  datatype BinSize = M1 | M5 | M15 | M30 | H1 | H3 | H4 | D1

  function Name(b: BinSize): string {
    match b
    case M1 => "1m"
    case M5 => "5m"
    case M15 => "15m"
    case M30 => "30m"
    case H1 => "1h"
    case H3 => "3h"
    case H4 => "4h"
    case D1 => "1d"
  }

  /** Looking a requested bin size up in the tables; None is the KeyError an
      unknown bin size raises. */
  function Parse(s: string): (b: Option<BinSize>)
    ensures b.Some? ==> Name(b.value) == s
  {
    if s == "1m" then Some(M1)
    else if s == "5m" then Some(M5)
    else if s == "15m" then Some(M15)
    else if s == "30m" then Some(M30)
    else if s == "1h" then Some(H1)
    else if s == "3h" then Some(H3)
    else if s == "4h" then Some(H4)
    else if s == "1d" then Some(D1)
    else None
  }

  /** Every bin size the tables know is found under its own name. */
  lemma ParseName(b: BinSize)
    ensures Parse(Name(b)) == Some(b)
  {
  }

  /** The granularities actually stored in cache files. */
  predicate Stored(b: BinSize) {
    b == M1 || b == M5 || b == H1 || b == D1
  }

  /** The table `avaiable_bin_size`: the stored granularity a request is served from. */
  function Canonical(b: BinSize): (c: BinSize)
    ensures Stored(c)
    ensures Stored(b) ==> c == b
  {
    match b
    case M1 => M1
    case M5 | M15 | M30 => M5
    case H1 | H3 | H4 => H1
    case D1 => D1
  }

  /** Mapping a canonical granularity again changes nothing. */
  lemma CanonicalIdempotent(b: BinSize)
    ensures Canonical(Canonical(b)) == Canonical(b)
  {
  }

  /** The table `binsize_str_int`: minutes between two bars of a request. */
  function StepMinutes(b: BinSize): (m: nat)
    ensures m > 0
  {
    match b
    case M1 => 1
    case M5 | M15 | M30 => 5
    case H1 | H4 => 60
    case H3 => 180
    case D1 => 60 * 24
  }

  /** The step of a request equals the step of the granularity it is stored
      under, except for "3h", stored as "1h" but stepping 180 minutes. */
  lemma StepFollowsCanonical(b: BinSize)
    ensures StepMinutes(b) == StepMinutes(Canonical(b)) <==> b != H3
  {
  }

  /** The table `real_bin_size`: the nominal length of a bin size in minutes
      (declared by the fetcher and read by none of its operations). */
  function NominalMinutes(b: BinSize): (m: nat)
    ensures Stored(b) ==> m == StepMinutes(b)
  {
    match b
    case M1 => 1
    case M5 => 5
    case M15 => 15
    case M30 => 30
    case H1 => 60
    case H3 => 60 * 3
    case H4 => 60 * 4
    case D1 => 60 * 24
  }

  const DataDir: string := "data"

  /** `os.path.join(DATA_DIR, f'{exchange}_{symbol}_{canonical}.csv')`. */
  function CachePath(exchange: string, symbol: string, b: BinSize): string {
    DataDir + "/" + exchange + "_" + symbol + "_" + Name(Canonical(b)) + ".csv"
  }

  lemma StoredNamesHaveTwoLetters(b: BinSize)
    requires Stored(b)
    ensures |Name(b)| == 2
  {
  }

  /** For one exchange and symbol, two bin sizes share a cache file exactly
      when they share a canonical granularity. */
  lemma {:induction false} SameCacheFileIff(exchange: string, symbol: string, b1: BinSize, b2: BinSize)
    ensures CachePath(exchange, symbol, b1) == CachePath(exchange, symbol, b2)
        <==> Canonical(b1) == Canonical(b2)
  {
    var prefix := DataDir + "/" + exchange + "_" + symbol + "_";
    var n1, n2 := Name(Canonical(b1)), Name(Canonical(b2));
    StoredNamesHaveTwoLetters(Canonical(b1));
    StoredNamesHaveTwoLetters(Canonical(b2));
    if CachePath(exchange, symbol, b1) == CachePath(exchange, symbol, b2) {
      var p1, p2 := prefix + n1 + ".csv", prefix + n2 + ".csv";
      assert p1[|prefix|..|prefix| + 2] == n1;
      assert p2[|prefix|..|prefix| + 2] == n2;
      assert Parse(n1) == Some(Canonical(b1)) by { ParseName(Canonical(b1)); }
      assert Parse(n2) == Some(Canonical(b2)) by { ParseName(Canonical(b2)); }
    }
  }
}
