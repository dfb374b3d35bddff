/** The gap arithmetic of the Bitmex download: how many pages of 750 bars
    close the gap between the resume point and the newest remote bar, and
    where each page starts. */
module Gap {
  import opened Bars

  /** `BATCH_SIZE`: bars asked for per page. */
  const PageSize: nat := 750

  const MinuteMillis: nat := 60 * 1000

  /** `n // d` for a natural `n` and a positive `d`, by repeated subtraction. */
  function FloorDiv(n: nat, d: nat): nat
    requires d > 0
    decreases n
  {
    if n < d then 0 else 1 + FloorDiv(n - d, d)
  }

  /** `FloorDiv(n, d)` is the quotient: `d` times it is at most `n`, by less than `d`. */
  lemma {:induction false} FloorDivBounds(n: nat, d: nat)
    requires d > 0
    ensures FloorDiv(n, d) * d <= n < FloorDiv(n, d) * d + d
    decreases n
  {
    if n >= d {
      FloorDivBounds(n - d, d);
      assert FloorDiv(n, d) * d == FloorDiv(n - d, d) * d + d;
    }
  }

  /** `math.ceil(a / b)` for a positive divisor. */
  function CeilDiv(a: int, b: int): int
    requires b > 0
  {
    if a <= 0 then -(FloorDiv(-a, b) as int) else FloorDiv(a + b - 1, b)
  }

  /** `CeilDiv(a, b)` lies within one divisor above `a`. */
  lemma CeilDivBounds(a: int, b: int)
    requires b > 0
    ensures (CeilDiv(a, b) - 1) * b < a <= CeilDiv(a, b) * b
  {
    if a <= 0 {
      var f := FloorDiv(-a, b);
      FloorDivBounds(-a, b);
      assert CeilDiv(a, b) * b == -(f * b);
      assert (CeilDiv(a, b) - 1) * b == -(f * b) - b;
    } else {
      var f := FloorDiv(a + b - 1, b);
      FloorDivBounds(a + b - 1, b);
      assert (CeilDiv(a, b) - 1) * b == f * b - b;
    }
  }

  /** `CeilDiv(a, b)` is the least `q` with `a <= q * b`. */
  lemma CeilDivLeast(a: int, b: int, q: int)
    requires b > 0
    requires a <= q * b
    ensures CeilDiv(a, b) <= q
  {
    var c := CeilDiv(a, b);
    CeilDivBounds(a, b);
    if q < c {
      MulMonotone(q, c - 1, b);
    }
  }

  lemma MulMonotone(x: int, y: int, m: int)
    requires x <= y && m >= 0
    ensures x * m <= y * m
  {
    assert y * m - x * m == (y - x) * m;
  }

  /** The number of pages: `ceil(ceil(delta_min / step) / BATCH_SIZE)`, the gap
      being exact in milliseconds. */
  function Rounds(gap: int, step: nat): int
    requires step > 0
  {
    CeilDiv(CeilDiv(gap, step * MinuteMillis), PageSize)
  }

  /** `rounds <= 0` exactly when the newest remote bar is not after the resume point. */
  lemma RoundsNonPositiveIff(gap: int, step: nat)
    requires step > 0
    ensures Rounds(gap, step) <= 0 <==> gap <= 0
  {
    var bars := CeilDiv(gap, step * MinuteMillis);
    if gap <= 0 {
      CeilDivLeast(gap, step * MinuteMillis, 0);
      CeilDivLeast(bars, PageSize, 0);
    }
  }

  /** Where the page of round `k` starts: `resume + k * BATCH_SIZE * step` minutes. */
  function PageStart(resume: Millis, k: int, step: nat): Millis {
    resume + k * (PageSize * step * MinuteMillis)
  }

  /** Page starts strictly increase with the round. */
  lemma PageStartsIncrease(resume: Millis, k: int, k': int, step: nat)
    requires step > 0 && k < k'
    ensures PageStart(resume, k, step) < PageStart(resume, k', step)
  {
    var w := PageSize * step * MinuteMillis;
    assert w > 0;
    assert k' * w - k * w == (k' - k) * w;
  }

  /** The pages cover the whole gap: the round after the last starts at or
      after the newest bar, and the last round is needed, as it starts before it. */
  lemma {:induction false} PagesCoverGap(resume: Millis, newest: Millis, step: nat)
    requires step > 0 && resume < newest
    ensures var n := Rounds(newest - resume, step);
      n > 0 && PageStart(resume, n - 1, step) < newest <= PageStart(resume, n, step)
  {
    var gap := newest - resume;
    var m := step * MinuteMillis;
    var w := PageSize * step * MinuteMillis;
    assert w == PageSize * m;
    var bars := CeilDiv(gap, m);
    var n := CeilDiv(bars, PageSize);
    CeilDivBounds(gap, m);
    CeilDivBounds(bars, PageSize);
    RoundsNonPositiveIff(gap, step);
    MulMonotone(bars, n * PageSize, m);
    assert (n * PageSize) * m == n * w;
    MulMonotone((n - 1) * PageSize, bars - 1, m);
    assert ((n - 1) * PageSize) * m == (n - 1) * w;
  }

  /** A gap of a whole number of bars takes `ceil(bars / BATCH_SIZE)` pages. */
  lemma WholeBars(bars: nat, step: nat)
    requires step > 0
    ensures Rounds(bars * (step * MinuteMillis), step) == CeilDiv(bars, PageSize)
  {
    var m := step * MinuteMillis;
    var c := CeilDiv(bars * m, m);
    CeilDivBounds(bars * m, m);
    CeilDivLeast(bars * m, m, bars);
    if c < bars {
      MulMonotone(c, bars - 1, m);
    }
  }
}
