/** Moving averages, MACD and Wilder's directional movement. Series arrive newest first. */
module Indicators {
  import opened Prelude

  function Reversed<T>(s: seq<T>): (r: seq<T>)
    ensures |r| == |s| && forall i :: 0 <= i < |s| ==> r[i] == s[|s| - 1 - i]
  {
    seq(|s|, i requires 0 <= i < |s| => s[|s| - 1 - i])
  }

  /** Dropping the newest value drops the last one of the reversed series. */
  lemma ReversedTail<T>(s: seq<T>)
    requires s != []
    ensures Reversed(s[1..]) == Reversed(s)[..|s| - 1]
  {
  }

  /** Sum of the first `k` values. */
  function Total(xs: seq<real>, k: nat): real
    requires k <= |xs|
  {
    if k == 0 then 0.0 else Total(xs, k - 1) + xs[k - 1]
  }

  lemma {:induction false} TotalOfPrefix(xs: seq<real>, m: nat, k: nat)
    requires k <= m <= |xs|
    ensures Total(xs[..m], k) == Total(xs, k)
  {
    if k > 0 {
      TotalOfPrefix(xs, m, k - 1);
    }
  }

  method SumFirst(xs: seq<real>, k: nat) returns (sum: real)
    requires k <= |xs|
    ensures sum == Total(xs, k)
  {
    sum := 0.0;
    for i := 0 to k
      invariant sum == Total(xs, i)
    {
      sum := sum + xs[i];
    }
  }

  // ---------------------------------------------------------------------------
  // Exponential moving average and MACD
  // ---------------------------------------------------------------------------

  /** The average after the first `k` values of `xs`, oldest first. */
  function Ema(xs: seq<real>, period: nat, k: nat): real
    requires 0 < period <= k <= |xs|
  {
    if k == period then Total(xs, period) / period as real
    else
      var before := Ema(xs, period, k - 1);
      (xs[k - 1] - before) * (2.0 / (period + 1) as real) + before
  }

  lemma {:induction false} EmaOfPrefix(xs: seq<real>, period: nat, m: nat, k: nat)
    requires 0 < period <= k <= m <= |xs|
    ensures Ema(xs[..m], period, k) == Ema(xs, period, k)
  {
    if k == period {
      TotalOfPrefix(xs, m, k);
    } else {
      EmaOfPrefix(xs, period, m, k - 1);
    }
  }

  lemma {:induction false} TotalIsBetween(xs: seq<real>, low: real, high: real, k: nat)
    requires k <= |xs| && forall i :: 0 <= i < |xs| ==> low <= xs[i] <= high
    ensures low * k as real <= Total(xs, k) <= high * k as real
  {
    if k > 0 {
      TotalIsBetween(xs, low, high, k - 1);
    }
  }

  /** An average never leaves the range of the values it is taken of, so a constant series is its own average. */
  lemma {:induction false} EmaStaysBetween(xs: seq<real>, period: nat, low: real, high: real, k: nat)
    requires 0 < period <= k <= |xs| && forall i :: 0 <= i < |xs| ==> low <= xs[i] <= high
    ensures low <= Ema(xs, period, k) <= high
  {
    if k == period {
      TotalIsBetween(xs, low, high, k);
      QuotientBetween(Total(xs, k), low, high, k as real);
    } else {
      EmaStaysBetween(xs, period, low, high, k - 1);
      var weight := 2.0 / (period + 1) as real;
      Fraction(2.0, (period + 1) as real);
      MixBetween(xs[k - 1], Ema(xs, period, k - 1), low, high, weight);
    }
  }

  lemma QuotientBetween(x: real, low: real, high: real, n: real)
    requires n > 0.0 && low * n <= x <= high * n
    ensures low <= x / n <= high
  {
    var q := x / n;
    assert q * n == x;
    NoSignNoProduct(q - low, n);
    NoSignNoProduct(high - q, n);
  }

  lemma NoSignNoProduct(d: real, n: real)
    requires n > 0.0 && d * n >= 0.0
    ensures d >= 0.0
  {
  }

  lemma ProductSign(a: real, b: real)
    requires a >= 0.0 && b >= 0.0
    ensures a * b >= 0.0
  {
  }

  lemma MixBetween(x: real, y: real, low: real, high: real, weight: real)
    requires low <= x <= high && low <= y <= high && 0.0 <= weight <= 1.0
    ensures low <= (x - y) * weight + y <= high
  {
    var mix := (x - y) * weight + y;
    ProductSign(high - x, weight);
    ProductSign(high - y, 1.0 - weight);
    ProductSign(x - low, weight);
    ProductSign(y - low, 1.0 - weight);
    assert high - mix == (high - x) * weight + (high - y) * (1.0 - weight);
    assert mix - low == (x - low) * weight + (y - low) * (1.0 - weight);
  }

  predicate IsTrend(xs: seq<real>, start: real, step: real) {
    forall i :: 0 <= i < |xs| ==> xs[i] == start + step * i as real
  }

  lemma {:induction false} TotalOfTrend(xs: seq<real>, start: real, step: real, k: nat)
    requires k <= |xs| && IsTrend(xs, start, step)
    ensures 2.0 * Total(xs, k) == (2.0 * start + step * (k as real - 1.0)) * k as real
  {
    if k > 0 {
      TotalOfTrend(xs, start, step, k - 1);
      var n := k as real;
      assert (k - 1) as real == n - 1.0;
      assert xs[k - 1] == start + step * (n - 1.0);
    }
  }

  lemma MeanOfTrend(total: real, start: real, step: real, p: real)
    requires p > 0.0 && 2.0 * total == (2.0 * start + step * (p - 1.0)) * p
    ensures total / p == start + step * (p - 1.0) / 2.0
  {
    var q := total / p;
    assert q * p == total;
    assert (2.0 * q - (2.0 * start + step * (p - 1.0))) * p == 0.0;
  }

  lemma TrendStep(x: real, before: real, step: real, p: real)
    requires p > 0.0 && before == x - step - step * (p - 1.0) / 2.0
    ensures (x - before) * (2.0 / (p + 1.0)) + before == x - step * (p - 1.0) / 2.0
  {
    var q := p + 1.0;
    assert x - before == step * q / 2.0;
    HalfGap(step, q);
  }

  lemma HalfGap(step: real, q: real)
    requires q > 0.0
    ensures step * q / 2.0 * (2.0 / q) == step
  {
    var w := 2.0 / q;
    assert w * q == 2.0;
    assert step * q / 2.0 * w == step * (w * q) / 2.0;
  }

  lemma EmaStep(xs: seq<real>, period: nat, k: nat)
    requires 0 < period < k <= |xs|
    ensures Ema(xs, period, k)
         == (xs[k - 1] - Ema(xs, period, k - 1)) * (2.0 / (period as real + 1.0)) + Ema(xs, period, k - 1)
  {
    assert (period + 1) as real == period as real + 1.0;
  }

  lemma EmaStart(xs: seq<real>, period: nat)
    requires 0 < period <= |xs|
    ensures Ema(xs, period, period) == Total(xs, period) / period as real
  {
  }

  /** On a steady trend an average trails the newest value by exactly half of `period - 1` steps, from its first value on. */
  lemma {:induction false} EmaTrailsATrend(xs: seq<real>, start: real, step: real, period: nat, k: nat)
    requires 0 < period <= k <= |xs| && IsTrend(xs, start, step)
    ensures Ema(xs, period, k) == xs[k - 1] - step * (period as real - 1.0) / 2.0
  {
    hide Ema, Total, IsTrend;
    var p := period as real;
    LastOfTrend(xs, start, step, k);
    if k == period {
      TotalOfTrend(xs, start, step, k);
      MeanOfTrend(Total(xs, k), start, step, p);
      EmaStart(xs, period);
    } else {
      EmaTrailsATrend(xs, start, step, period, k - 1);
      EmaStep(xs, period, k);
      TrendStep(xs[k - 1], Ema(xs, period, k - 1), step, p);
    }
  }

  lemma LastOfTrend(xs: seq<real>, start: real, step: real, k: nat)
    requires 0 < k <= |xs| && IsTrend(xs, start, step)
    ensures xs[k - 1] == start + step * (k as real - 1.0)
    ensures k > 1 ==> xs[k - 1] == xs[k - 2] + step
  {
    assert (k - 1) as real == k as real - 1.0;
    if k > 1 {
      assert (k - 2) as real == k as real - 2.0;
    }
  }

  /** The averages after every value from the `period`-th on, newest first. */
  function EmaSeries(prices: seq<real>, period: nat): (r: seq<real>)
    requires period > 0
    ensures |r| == if |prices| < period then 0 else |prices| - period + 1
    ensures forall j :: 0 <= j < |r| ==> r[j] == Ema(Reversed(prices), period, |prices| - j)
  {
    if |prices| < period then []
    else seq(|prices| - period + 1, j requires 0 <= j <= |prices| - period => Ema(Reversed(prices), period, |prices| - j))
  }

  /** Without the newest price, the series is the same series without its newest value. */
  lemma EmaSeriesTail(prices: seq<real>, period: nat)
    requires 0 < period < |prices|
    ensures EmaSeries(prices[1..], period) == EmaSeries(prices, period)[1..]
  {
    hide Ema;
    var n := |prices|;
    ReversedTail(prices);
    forall j | 0 <= j < n - period
      ensures EmaSeries(prices[1..], period)[j] == EmaSeries(prices, period)[j + 1]
    {
      EmaOfPrefix(Reversed(prices), period, n - 1, n - 1 - j);
    }
  }

  method CalculateEMA(prices: seq<real>, period: nat) returns (ema: seq<real>)
    requires period > 0
    ensures ema == EmaSeries(prices, period)
  {
    if |prices| < period { return []; }
    var reversed := Reversed(prices);
    var multiplier := 2.0 / (period + 1) as real;
    var sum := SumFirst(reversed, period);
    var values := [sum / period as real];
    for i := period to |reversed|
      invariant |values| == i - period + 1
      invariant forall j :: 0 <= j < |values| ==> values[j] == Ema(reversed, period, period + j)
    {
      var last := values[|values| - 1];
      values := values + [(reversed[i] - last) * multiplier + last];
    }
    ema := Reversed(values);
  }

  datatype Macd = Macd(line: real, signal: real, histogram: real, prevHistogram: real)

  /** Pointwise difference over the shorter length. */
  function Difference(a: seq<real>, b: seq<real>): (r: seq<real>)
    ensures |r| == Min(|a|, |b|)
  {
    seq(Min(|a|, |b|), i requires 0 <= i < Min(|a|, |b|) => a[i] - b[i])
  }

  function MacdLine(closes: seq<real>): seq<real> {
    Difference(EmaSeries(closes, 12), EmaSeries(closes, 26))
  }

  function First(xs: seq<real>): real {
    if xs == [] then 0.0 else xs[0]
  }

  /** The newest gap between the MACD line and its signal line. */
  function Histogram(closes: seq<real>): real {
    First(MacdLine(closes)) - First(EmaSeries(MacdLine(closes), 9))
  }

  method CalculateMACD(closes: seq<real>) returns (macd: Macd)
    ensures macd.line == First(MacdLine(closes)) && macd.signal == First(EmaSeries(MacdLine(closes), 9))
    ensures macd.histogram == Histogram(closes)
    ensures |closes| >= 35 ==> macd.prevHistogram == Histogram(closes[1..])
    ensures |closes| < 35 ==> macd.prevHistogram == 0.0
    ensures |closes| < 34 ==> macd.signal == 0.0
    ensures |closes| < 26 ==> macd == Macd(0.0, 0.0, 0.0, 0.0)
  {
    hide EmaSeries;
    var ema12 := CalculateEMA(closes, 12);
    var ema26 := CalculateEMA(closes, 26);
    if |ema12| == 0 || |ema26| == 0 {
      return Macd(0.0, 0.0, 0.0, 0.0);
    }
    var minLen := Min(|ema12|, |ema26|);
    var macdLine: seq<real> := [];
    for i := 0 to minLen
      invariant |macdLine| == i
      invariant forall j :: 0 <= j < i ==> macdLine[j] == ema12[j] - ema26[j]
    {
      macdLine := macdLine + [ema12[i] - ema26[i]];
    }
    assert macdLine == MacdLine(closes);
    var signalLine := CalculateEMA(macdLine, 9);
    if |signalLine| < 2 {
      return Macd(First(macdLine), First(signalLine), First(macdLine) - First(signalLine), 0.0);
    }
    PreviousHistogram(closes);
    macd := Macd(macdLine[0], signalLine[0], macdLine[0] - signalLine[0], macdLine[1] - signalLine[1]);
  }

  /** The second value of line and signal is what both were before the newest close. */
  lemma PreviousHistogram(closes: seq<real>)
    requires |closes| >= 35
    ensures |MacdLine(closes)| >= 10 && |EmaSeries(MacdLine(closes), 9)| >= 2
    ensures Histogram(closes[1..]) == MacdLine(closes)[1] - EmaSeries(MacdLine(closes), 9)[1]
  {
    hide EmaSeries;
    EmaSeriesTail(closes, 12);
    EmaSeriesTail(closes, 26);
    var line := MacdLine(closes);
    assert MacdLine(closes[1..]) == line[1..];
    EmaSeriesTail(line, 9);
  }

  /** On a steady trend the short average is seven steps ahead of the long one, and so is the signal line: no gap is left. */
  lemma MacdOfATrend(closes: seq<real>, start: real, step: real)
    requires |closes| >= 34 && IsTrend(Reversed(closes), start, step)
    ensures First(MacdLine(closes)) == 7.0 * step && First(EmaSeries(MacdLine(closes), 9)) == 7.0 * step
    ensures Histogram(closes) == 0.0
  {
    hide Ema;
    var line := MacdLine(closes);
    forall j | 0 <= j < |line|
      ensures line[j] == 7.0 * step
    {
      EmaTrailsATrend(Reversed(closes), start, step, 12, |closes| - j);
      EmaTrailsATrend(Reversed(closes), start, step, 26, |closes| - j);
    }
    EmaStaysBetween(Reversed(line), 9, 7.0 * step, 7.0 * step, |line|);
  }

  // ---------------------------------------------------------------------------
  // Directional movement
  // ---------------------------------------------------------------------------

  datatype Bar = Bar(high: real, low: real, close: real)

  predicate IsBar(bar: Bar) {
    bar.low <= bar.close <= bar.high
  }

  /** What one bar adds to the three Wilder sums. */
  datatype Movement = Movement(range: real, plus: real, minus: real)

  function MovementOf(before: Bar, bar: Bar): Movement {
    var up, down := bar.high - before.high, before.low - bar.low;
    Movement(
      MaxReal(bar.high - bar.low, MaxReal(AbsReal(bar.high - before.close), AbsReal(bar.low - before.close))),
      if up > down && up > 0.0 then up else 0.0,
      if down > up && down > 0.0 then down else 0.0)
  }

  function Add(a: Movement, b: Movement): Movement {
    Movement(a.range + b.range, a.plus + b.plus, a.minus + b.minus)
  }

  function Decay(a: Movement, period: nat): Movement
    requires period > 0
  {
    var p := period as real;
    Movement(a.range - a.range / p, a.plus - a.plus / p, a.minus - a.minus / p)
  }

  /** Plain sums of the first `k` movements of a series of bars, oldest first. */
  function Sums(bars: seq<Bar>, k: nat): Movement
    requires k < |bars|
  {
    if k == 0 then Movement(0.0, 0.0, 0.0) else Add(Sums(bars, k - 1), MovementOf(bars[k - 1], bars[k]))
  }

  /** Wilder's smoothed sums after `k` movements. */
  function Smoothed(bars: seq<Bar>, period: nat, k: nat): Movement
    requires 0 < period <= k < |bars|
  {
    if k == period then Sums(bars, k)
    else Add(Decay(Smoothed(bars, period, k - 1), period), MovementOf(bars[k - 1], bars[k]))
  }

  function PlusDi(sums: Movement): real {
    if sums.range > 0.0 then sums.plus / sums.range * 100.0 else 0.0
  }

  function MinusDi(sums: Movement): real {
    if sums.range > 0.0 then sums.minus / sums.range * 100.0 else 0.0
  }

  function DxOf(sums: Movement): real {
    var plus, minus := PlusDi(sums), MinusDi(sums);
    if plus + minus > 0.0 then AbsReal(plus - minus) / (plus + minus) * 100.0 else 0.0
  }

  /** The directional index after `k` movements. */
  function Dx(bars: seq<Bar>, period: nat, k: nat): real
    requires 0 < period <= k < |bars|
  {
    DxOf(Smoothed(bars, period, k))
  }

  function DxTotal(bars: seq<Bar>, period: nat, m: nat): real
    requires period > 0 && (m > 0 ==> period + m - 1 < |bars|)
  {
    if m == 0 then 0.0 else DxTotal(bars, period, m - 1) + Dx(bars, period, period + m - 1)
  }

  function Blend(average: real, value: real, period: nat): real
    requires period > 0
  {
    (average * (period - 1) as real + value) / period as real
  }

  /** Wilder's average of the first `m` directional indices. */
  function Adx(bars: seq<Bar>, period: nat, m: nat): real
    requires 0 < period <= m && period + m - 1 < |bars|
  {
    if m == period then DxTotal(bars, period, m) / period as real
    else Blend(Adx(bars, period, m - 1), Dx(bars, period, period + m - 1), period)
  }

  /** The bars' movements and nothing later decide every value. */
  lemma {:induction false} SumsOfPrefix(bars: seq<Bar>, n: nat, k: nat)
    requires k < n <= |bars|
    ensures Sums(bars[..n], k) == Sums(bars, k)
  {
    if k > 0 {
      SumsOfPrefix(bars, n, k - 1);
    }
  }

  lemma {:induction false} SmoothedOfPrefix(bars: seq<Bar>, period: nat, n: nat, k: nat)
    requires 0 < period <= k < n <= |bars|
    ensures Smoothed(bars[..n], period, k) == Smoothed(bars, period, k)
  {
    if k == period {
      SumsOfPrefix(bars, n, k);
    } else {
      SmoothedOfPrefix(bars, period, n, k - 1);
    }
  }

  lemma {:induction false} DxTotalOfPrefix(bars: seq<Bar>, period: nat, n: nat, m: nat)
    requires 0 < period && n <= |bars| && (m > 0 ==> period + m - 1 < n)
    ensures DxTotal(bars[..n], period, m) == DxTotal(bars, period, m)
  {
    if m > 0 {
      DxTotalOfPrefix(bars, period, n, m - 1);
      SmoothedOfPrefix(bars, period, n, period + m - 1);
    }
  }

  lemma {:induction false} AdxOfPrefix(bars: seq<Bar>, period: nat, n: nat, m: nat)
    requires 0 < period <= m && period + m - 1 < n <= |bars|
    ensures Adx(bars[..n], period, m) == Adx(bars, period, m)
  {
    hide Smoothed, DxOf, Blend;
    if m == period {
      DxTotalOfPrefix(bars, period, n, m);
    } else {
      AdxOfPrefix(bars, period, n, m - 1);
      SmoothedOfPrefix(bars, period, n, period + m - 1);
    }
  }

  // ---------------------------------------------------------------------------
  // Bounds
  // ---------------------------------------------------------------------------

  /** Sums of movements of well-formed bars: both directions fit into the range. */
  predicate Bounded(sums: Movement) {
    0.0 <= sums.plus && 0.0 <= sums.minus && sums.plus + sums.minus <= sums.range
  }

  lemma MovementIsBounded(before: Bar, bar: Bar)
    requires IsBar(before) && IsBar(bar)
    ensures Bounded(MovementOf(before, bar))
  {
  }

  lemma DecayIsBounded(sums: Movement, period: nat)
    requires Bounded(sums) && period > 0
    ensures Bounded(Decay(sums, period))
  {
    var p := period as real;
    ShareBound(sums.plus, p);
    ShareBound(sums.minus, p);
    ShareBound(sums.range - sums.plus - sums.minus, p);
    assert (sums.range - sums.plus - sums.minus) / p == sums.range / p - sums.plus / p - sums.minus / p;
  }

  lemma ShareBound(x: real, p: real)
    requires x >= 0.0 && p >= 1.0
    ensures 0.0 <= x / p <= x
  {
    Fraction(1.0, p);
    assert x / p == x * (1.0 / p);
  }

  lemma {:induction false} SumsAreBounded(bars: seq<Bar>, k: nat)
    requires k < |bars| && forall i :: 0 <= i < |bars| ==> IsBar(bars[i])
    ensures Bounded(Sums(bars, k))
  {
    if k > 0 {
      SumsAreBounded(bars, k - 1);
      MovementIsBounded(bars[k - 1], bars[k]);
    }
  }

  lemma {:induction false} SmoothedIsBounded(bars: seq<Bar>, period: nat, k: nat)
    requires 0 < period <= k < |bars| && forall i :: 0 <= i < |bars| ==> IsBar(bars[i])
    ensures Bounded(Smoothed(bars, period, k))
  {
    if k == period {
      SumsAreBounded(bars, k);
    } else {
      hide Decay, MovementOf;
      SmoothedIsBounded(bars, period, k - 1);
      DecayIsBounded(Smoothed(bars, period, k - 1), period);
      MovementIsBounded(bars[k - 1], bars[k]);
    }
  }

  lemma IndexIsBounded(sums: Movement)
    requires Bounded(sums)
    ensures 0.0 <= PlusDi(sums) && 0.0 <= MinusDi(sums) && PlusDi(sums) + MinusDi(sums) <= 100.0
    ensures 0.0 <= DxOf(sums) <= 100.0
  {
    if sums.range > 0.0 {
      Fraction(sums.plus, sums.range);
      Fraction(sums.minus, sums.range);
      Fraction(sums.plus + sums.minus, sums.range);
      assert (sums.plus + sums.minus) / sums.range == sums.plus / sums.range + sums.minus / sums.range;
    }
    var plus, minus := PlusDi(sums), MinusDi(sums);
    if plus + minus > 0.0 {
      Fraction(AbsReal(plus - minus), plus + minus);
    }
  }

  /** A bar moves one way at most, by what it reaches beyond the bar before; its range counts the previous close in. */
  lemma MovementExactly(before: Bar, bar: Bar)
    requires bar.low <= bar.high
    ensures var up, down, m := bar.high - before.high, before.low - bar.low, MovementOf(before, bar);
            && (up == down ==> m.plus == 0.0 && m.minus == 0.0)
            && (up > down ==> m.minus == 0.0 && m.plus == MaxReal(up, 0.0))
            && (down > up ==> m.plus == 0.0 && m.minus == MaxReal(down, 0.0))
            && m.range == (if before.close > bar.high then before.close else bar.high)
                        - (if before.close < bar.low then before.close else bar.low)
  {
  }

  /** The sums divided by the period are Wilder's averages: the newest movement counts one part in `period`. */
  lemma SmoothingIsWildersAverage(bars: seq<Bar>, period: nat, k: nat)
    requires 0 < period < k < |bars|
    ensures var p, before, now, m := period as real, Smoothed(bars, period, k - 1), Smoothed(bars, period, k), MovementOf(bars[k - 1], bars[k]);
            && p * (now.range / p) == (p - 1.0) * (before.range / p) + m.range
            && p * (now.plus / p) == (p - 1.0) * (before.plus / p) + m.plus
            && p * (now.minus / p) == (p - 1.0) * (before.minus / p) + m.minus
  {
    hide MovementOf;
    var p, before, m := period as real, Smoothed(bars, period, k - 1), MovementOf(bars[k - 1], bars[k]);
    WildersStep(before.range, m.range, p);
    WildersStep(before.plus, m.plus, p);
    WildersStep(before.minus, m.minus, p);
  }

  lemma WildersStep(sum: real, x: real, p: real)
    requires p > 0.0
    ensures p * ((sum - sum / p + x) / p) == (p - 1.0) * (sum / p) + x
  {
    var q := sum / p;
    assert q * p == sum;
    var r := (sum - q + x) / p;
    assert r * p == sum - q + x;
  }

  /** In the directional index the range cancels: it compares the two directions alone. */
  lemma DirectionsExactly(sums: Movement)
    requires Bounded(sums)
    ensures PlusDi(sums) * sums.range == 100.0 * sums.plus && MinusDi(sums) * sums.range == 100.0 * sums.minus
    ensures DxOf(sums) * (sums.plus + sums.minus) == 100.0 * AbsReal(sums.plus - sums.minus)
    ensures sums.plus + sums.minus == 0.0 ==> PlusDi(sums) == 0.0 && MinusDi(sums) == 0.0 && DxOf(sums) == 0.0
  {
    var r, plus, minus := sums.range, PlusDi(sums), MinusDi(sums);
    if r > 0.0 {
      assert sums.plus / r * r == sums.plus && sums.minus / r * r == sums.minus;
      assert plus * r == 100.0 * sums.plus && minus * r == 100.0 * sums.minus;
      assert (plus + minus) * r == 100.0 * (sums.plus + sums.minus);
      if sums.plus + sums.minus > 0.0 {
        IndexIsBounded(sums);
        assert plus + minus > 0.0;
        IndexOfScaled(plus, minus, r, sums.plus, sums.minus);
      }
    }
  }

  lemma IndexOfScaled(plus: real, minus: real, r: real, a: real, b: real)
    requires r > 0.0 && plus + minus > 0.0 && plus * r == 100.0 * a && minus * r == 100.0 * b
    ensures AbsReal(plus - minus) / (plus + minus) * 100.0 * (a + b) == 100.0 * AbsReal(a - b)
  {
    var q := AbsReal(plus - minus) / (plus + minus);
    assert q * (plus + minus) == AbsReal(plus - minus);
    assert (plus - minus) * r == 100.0 * (a - b) && (plus + minus) * r == 100.0 * (a + b);
    AbsOfProduct(plus - minus, r);
    assert q * (plus + minus) * r == q * ((plus + minus) * r);
    assert q * (100.0 * (a + b)) == AbsReal(100.0 * (a - b));
  }

  lemma AbsOfProduct(x: real, r: real)
    requires r > 0.0
    ensures AbsReal(x * r) == AbsReal(x) * r
  {
  }

  predicate IsSteady(bars: seq<Bar>, m: Movement) {
    forall i :: 0 < i < |bars| ==> MovementOf(bars[i - 1], bars[i]) == m
  }

  function Multiple(x: real, n: nat): real {
    x * n as real
  }

  function Times(m: Movement, n: nat): Movement {
    Movement(Multiple(m.range, n), Multiple(m.plus, n), Multiple(m.minus, n))
  }

  lemma OneMore(x: real, n: nat)
    ensures Multiple(x, 0) == 0.0 && Multiple(x, n) + x == Multiple(x, n + 1)
  {
    assert (n + 1) as real == n as real + 1.0;
  }

  lemma OneShare(x: real, n: nat)
    requires n > 0
    ensures Multiple(x, n) / n as real == x
  {
  }

  lemma {:induction false} SteadySums(bars: seq<Bar>, m: Movement, k: nat)
    requires k < |bars| && IsSteady(bars, m)
    ensures Sums(bars, k) == Times(m, k)
  {
    hide MovementOf, Multiple;
    var before := if k == 0 then 0 else k - 1;
    OneMore(m.range, before);
    OneMore(m.plus, before);
    OneMore(m.minus, before);
    if k > 0 {
      SteadySums(bars, m, k - 1);
    }
  }

  lemma {:induction false} SteadySmoothed(bars: seq<Bar>, m: Movement, period: nat, k: nat)
    requires 0 < period <= k < |bars| && IsSteady(bars, m)
    ensures Smoothed(bars, period, k) == Times(m, period)
  {
    hide MovementOf, Multiple;
    if k == period {
      SteadySums(bars, m, k);
    } else {
      SteadySmoothed(bars, m, period, k - 1);
      OneShare(m.range, period);
      OneShare(m.plus, period);
      OneShare(m.minus, period);
    }
  }

  lemma DxOfTimes(m: Movement, n: nat)
    requires n > 0
    ensures DxOf(Times(m, n)) == DxOf(m)
  {
    assert PlusDi(Times(m, n)) == PlusDi(m) && MinusDi(Times(m, n)) == MinusDi(m) by {
      SameShare(m.plus, m.range, n);
      SameShare(m.minus, m.range, n);
    }
  }

  lemma SameShare(x: real, y: real, n: nat)
    requires n > 0
    ensures Multiple(y, n) > 0.0 <==> y > 0.0
    ensures y > 0.0 ==> Multiple(x, n) / Multiple(y, n) == x / y
  {
    var c := n as real;
    if y > 0.0 {
      ProductSign(y, c);
      var q := x / y;
      assert q * y == x && q * (y * c) == x * c;
    } else {
      ProductSign(0.0 - y, c);
    }
  }

  lemma {:induction false} SteadyDxTotal(bars: seq<Bar>, move: Movement, period: nat, m: nat)
    requires period > 0 && (m > 0 ==> period + m - 1 < |bars|) && IsSteady(bars, move)
    ensures DxTotal(bars, period, m) == Multiple(DxOf(move), m)
  {
    hide MovementOf, DxOf, Smoothed, IsSteady, Multiple, Times;
    OneMore(DxOf(move), if m == 0 then 0 else m - 1);
    if m > 0 {
      SteadyDxTotal(bars, move, period, m - 1);
      SteadySmoothed(bars, move, period, period + m - 1);
      DxOfTimes(move, period);
    }
  }

  /** A market that moves alike every day has the directional index of one day, however long it is watched. */
  lemma {:induction false} SteadyMarketKeepsItsIndex(bars: seq<Bar>, move: Movement, period: nat, m: nat)
    requires 0 < period <= m && period + m - 1 < |bars| && IsSteady(bars, move)
    ensures Smoothed(bars, period, period + m - 1).range / period as real == move.range
    ensures Adx(bars, period, m) == DxOf(move)
  {
    hide MovementOf, DxOf, Smoothed, IsSteady, Multiple, DxTotal, Blend;
    SteadySmoothed(bars, move, period, period + m - 1);
    OneShare(move.range, period);
    if m == period {
      SteadyDxTotal(bars, move, period, m);
      OneShare(DxOf(move), period);
    } else {
      SteadyMarketKeepsItsIndex(bars, move, period, m - 1);
      DxOfTimes(move, period);
      BlendOfEqual(DxOf(move), period);
    }
  }

  lemma BlendOfEqual(x: real, period: nat)
    requires period > 0
    ensures Blend(x, x, period) == x
  {
    OneMore(x, period - 1);
    OneShare(x, period);
  }

  /** And any newer index counts one part in `period`. */
  lemma AdxIsWildersAverage(bars: seq<Bar>, period: nat, m: nat)
    requires 0 < period < m && period + m - 1 < |bars|
    ensures period as real * Adx(bars, period, m)
         == (period as real - 1.0) * Adx(bars, period, m - 1) + DxOf(Smoothed(bars, period, period + m - 1))
  {
    hide DxOf, Smoothed, DxTotal;
    var p, before, dx := period as real, Adx(bars, period, m - 1), DxOf(Smoothed(bars, period, period + m - 1));
    assert (period - 1) as real == p - 1.0;
    assert (before * (p - 1.0) + dx) / p * p == before * (p - 1.0) + dx;
  }

  lemma {:induction false} RisingSums(bars: seq<Bar>, k: nat)
    requires 0 < k < |bars| && forall i :: 0 <= i < |bars| - 1 ==> bars[i].high < bars[i + 1].high && bars[i].low <= bars[i + 1].low
    ensures Sums(bars, k).minus == 0.0 && Sums(bars, k).plus > 0.0
  {
    if k > 1 {
      RisingSums(bars, k - 1);
    } else {
      assert Sums(bars, 0) == Movement(0.0, 0.0, 0.0);
    }
  }

  lemma {:induction false} RisingSmoothed(bars: seq<Bar>, period: nat, k: nat)
    requires forall i :: 0 <= i < |bars| - 1 ==> bars[i].high < bars[i + 1].high && bars[i].low <= bars[i + 1].low
    requires 0 < period <= k < |bars|
    ensures Smoothed(bars, period, k).minus == 0.0 && Smoothed(bars, period, k).plus > 0.0
  {
    if k == period {
      RisingSums(bars, k);
    } else {
      RisingSmoothed(bars, period, k - 1);
      ShareBound(Smoothed(bars, period, k - 1).plus, period as real);
    }
  }

  /** Bars that climb steadily point up and not down, for whatever smoothing. */
  lemma RisingBarsPointUp(bars: seq<Bar>, period: nat, k: nat)
    requires forall i :: 0 <= i < |bars| ==> IsBar(bars[i])
    requires forall i :: 0 <= i < |bars| - 1 ==> bars[i].high < bars[i + 1].high && bars[i].low <= bars[i + 1].low
    requires 0 < period <= k < |bars|
    ensures MinusDi(Smoothed(bars, period, k)) == 0.0 && PlusDi(Smoothed(bars, period, k)) > 0.0
  {
    hide Smoothed;
    var sums := Smoothed(bars, period, k);
    RisingSmoothed(bars, period, k);
    SmoothedIsBounded(bars, period, k);
    assert sums.plus / sums.range * sums.range == sums.plus;
    TimesPositive(sums.plus / sums.range, sums.range);
  }

  lemma Fraction(x: real, y: real)
    requires 0.0 <= x <= y && y > 0.0
    ensures 0.0 <= x / y <= 1.0
  {
    TimesPositive(x / y, y);
    assert x / y * y == x;
  }

  lemma {:induction false} DxTotalIsBounded(bars: seq<Bar>, period: nat, m: nat)
    requires period > 0 && (m > 0 ==> period + m - 1 < |bars|) && forall i :: 0 <= i < |bars| ==> IsBar(bars[i])
    ensures 0.0 <= DxTotal(bars, period, m) <= 100.0 * m as real
  {
    if m > 0 {
      hide Smoothed, DxOf;
      DxTotalIsBounded(bars, period, m - 1);
      SmoothedIsBounded(bars, period, period + m - 1);
      IndexIsBounded(Smoothed(bars, period, period + m - 1));
    }
  }

  /** For bars whose close lies between low and high, the average directional index is a percentage. */
  lemma {:induction false} AdxIsBounded(bars: seq<Bar>, period: nat, m: nat)
    requires 0 < period <= m && period + m - 1 < |bars| && forall i :: 0 <= i < |bars| ==> IsBar(bars[i])
    ensures 0.0 <= Adx(bars, period, m) <= 100.0
  {
    hide Smoothed, DxOf, DxTotal, Blend;
    var p := period as real;
    if m == period {
      DxTotalIsBounded(bars, period, m);
      Scaled(DxTotal(bars, period, m), p);
    } else {
      AdxIsBounded(bars, period, m - 1);
      SmoothedIsBounded(bars, period, period + m - 1);
      IndexIsBounded(Smoothed(bars, period, period + m - 1));
      BlendIsBounded(Adx(bars, period, m - 1), Dx(bars, period, period + m - 1), period);
    }
  }

  lemma BlendIsBounded(average: real, value: real, period: nat)
    requires period > 0 && 0.0 <= average <= 100.0 && 0.0 <= value <= 100.0
    ensures 0.0 <= Blend(average, value, period) <= 100.0
  {
    WeightedBound(average, (period - 1) as real, value);
    assert (period - 1) as real + 1.0 == period as real;
    Scaled(average * (period - 1) as real + value, period as real);
  }

  lemma WeightedBound(x: real, w: real, y: real)
    requires 0.0 <= x <= 100.0 && 0.0 <= y <= 100.0 && w >= 0.0
    ensures 0.0 <= x * w + y <= 100.0 * (w + 1.0)
  {
    assert 0.0 <= x * w <= 100.0 * w;
  }

  lemma Scaled(x: real, p: real)
    requires p > 0.0 && 0.0 <= x <= 100.0 * p
    ensures 0.0 <= x / p <= 100.0
  {
    Fraction(x, 100.0 * p);
    assert x / p == x / (100.0 * p) * 100.0;
  }

  // ---------------------------------------------------------------------------
  // The two calculations
  // ---------------------------------------------------------------------------

  /** True ranges and directional movements, oldest first. */
  method Movements(bars: seq<Bar>) returns (moves: seq<Movement>)
    requires bars != []
    ensures |moves| == |bars| - 1
    ensures forall i :: 0 <= i < |moves| ==> moves[i] == MovementOf(bars[i], bars[i + 1])
  {
    moves := [];
    for i := 1 to |bars|
      invariant |moves| == i - 1
      invariant forall j :: 0 <= j < |moves| ==> moves[j] == MovementOf(bars[j], bars[j + 1])
    {
      moves := moves + [MovementOf(bars[i - 1], bars[i])];
    }
  }

  /** Wilder's smoothing: the last sums and the directional index after every movement from the `period`-th on. */
  method SmoothMovements(bars: seq<Bar>, period: nat) returns (sums: Movement, dxValues: seq<real>)
    requires 0 < period < |bars|
    ensures sums == Smoothed(bars, period, |bars| - 1)
    ensures |dxValues| == |bars| - period
    ensures forall j :: 0 <= j < |dxValues| ==> dxValues[j] == Dx(bars, period, period + j)
  {
    hide MovementOf, DxOf, Add, Decay;
    var moves := Movements(bars);
    sums := Movement(0.0, 0.0, 0.0);
    for i := 0 to period
      invariant sums == Sums(bars, i)
    {
      sums := Add(sums, moves[i]);
    }
    dxValues := [DxOf(sums)];
    for i := period to |moves|
      invariant sums == Smoothed(bars, period, i)
      invariant |dxValues| == i - period + 1
      invariant forall j :: 0 <= j < |dxValues| ==> dxValues[j] == Dx(bars, period, period + j)
    {
      sums := Add(Decay(sums, period), moves[i]);
      dxValues := dxValues + [DxOf(sums)];
    }
  }

  method AverageDx(ghost bars: seq<Bar>, dxValues: seq<real>, period: nat) returns (adx: real)
    requires 0 < period <= |dxValues| && |dxValues| == |bars| - period
    requires forall j :: 0 <= j < |dxValues| ==> dxValues[j] == Dx(bars, period, period + j)
    ensures adx == DxTotal(bars, period, period) / period as real
  {
    hide Dx;
    var sum := 0.0;
    for j := 0 to period
      invariant sum == DxTotal(bars, period, j)
    {
      sum := sum + dxValues[j];
    }
    adx := sum / period as real;
  }

  datatype AdxAtr = AdxAtr(adx: real, atr: real)

  method CalculateADXWithATR(bars: seq<Bar>, period: nat) returns (result: AdxAtr)
    requires period > 0
    ensures |bars| < period * 2 ==> result == AdxAtr(0.0, 0.0)
    ensures |bars| >= period * 2 ==>
              && result.adx == Adx(Reversed(bars), period, |bars| - period)
              && result.atr == Smoothed(Reversed(bars), period, |bars| - 1).range / period as real
  {
    if |bars| < period * 2 { return AdxAtr(0.0, 0.0); }
    hide Smoothed, DxOf, Blend, Dx, DxTotal, Reversed;
    var reversed := Reversed(bars);
    var sums, dxValues := SmoothMovements(reversed, period);
    var adx := AverageDx(reversed, dxValues, period);
    for i := period to |dxValues|
      invariant adx == Adx(reversed, period, i)
    {
      adx := Blend(adx, dxValues[i], period);
    }
    result := AdxAtr(adx, sums.range / period as real);
  }

  datatype AdxSignal = AdxSignal(adx: real, prevAdx: real, plusDi: real, minusDi: real)

  /** `None` until there is a previous value to compare with. */
  method CalculateADXSignalSnapshot(bars: seq<Bar>, period: nat) returns (result: Option<AdxSignal>)
    requires period > 0
    ensures result.Some? <==> |bars| >= period * 2 + 1
    ensures result.Some? ==>
              && result.value.adx == Adx(Reversed(bars), period, |bars| - period)
              && result.value.prevAdx == Adx(Reversed(bars[1..]), period, |bars[1..]| - period)
    ensures result.Some? ==>
              && result.value.plusDi == PlusDi(Smoothed(Reversed(bars), period, |bars| - 1))
              && result.value.minusDi == MinusDi(Smoothed(Reversed(bars), period, |bars| - 1))
    ensures result.Some? && (forall i :: 0 <= i < |bars| ==> IsBar(bars[i])) ==>
              && 0.0 <= result.value.plusDi && 0.0 <= result.value.minusDi
              && result.value.plusDi + result.value.minusDi <= 100.0
              && 0.0 <= result.value.adx <= 100.0 && 0.0 <= result.value.prevAdx <= 100.0
  {
    if |bars| < period * 2 + 1 { return None; }
    hide Smoothed, DxOf, PlusDi, MinusDi, Adx, Reversed, IsBar;
    var signal := SignalOf(bars, period);
    if forall i :: 0 <= i < |bars| ==> IsBar(bars[i]) {
      SnapshotIsBounded(bars, period);
      PreviousAdx(bars, period);
    }
    result := Some(signal);
  }

  method SignalOf(bars: seq<Bar>, period: nat) returns (signal: AdxSignal)
    requires period > 0 && |bars| >= period * 2 + 1
    ensures signal.adx == Adx(Reversed(bars), period, |bars| - period)
    ensures signal.prevAdx == Adx(Reversed(bars[1..]), period, |bars[1..]| - period)
    ensures signal.plusDi == PlusDi(Smoothed(Reversed(bars), period, |bars| - 1))
    ensures signal.minusDi == MinusDi(Smoothed(Reversed(bars), period, |bars| - 1))
  {
    hide Smoothed, DxOf, PlusDi, MinusDi, Dx, Adx, Reversed;
    var reversed := Reversed(bars);
    var sums, dxValues := SmoothMovements(reversed, period);
    var adxSeries := AdxSeries(reversed, dxValues, period);
    PreviousAdx(bars, period);
    signal := AdxSignal(adxSeries[|adxSeries| - 1], adxSeries[|adxSeries| - 2], PlusDi(sums), MinusDi(sums));
  }

  lemma PreviousAdx(bars: seq<Bar>, period: nat)
    requires period > 0 && |bars| >= period * 2 + 1
    ensures Adx(Reversed(bars[1..]), period, |bars[1..]| - period) == Adx(Reversed(bars), period, |bars| - period - 1)
  {
    hide Adx;
    ReversedTail(bars);
    AdxOfPrefix(Reversed(bars), period, |bars| - 1, |bars| - period - 1);
  }

  method AdxSeries(ghost bars: seq<Bar>, dxValues: seq<real>, period: nat) returns (adxSeries: seq<real>)
    requires 0 < period <= |dxValues| && |dxValues| == |bars| - period
    requires forall j :: 0 <= j < |dxValues| ==> dxValues[j] == Dx(bars, period, period + j)
    ensures |adxSeries| == |dxValues| - period + 1
    ensures forall j :: 0 <= j < |adxSeries| ==> adxSeries[j] == Adx(bars, period, period + j)
  {
    hide Dx, DxTotal, Blend;
    var adx := AverageDx(bars, dxValues, period);
    adxSeries := [adx];
    for i := period to |dxValues|
      invariant |adxSeries| == i - period + 1 && adx == adxSeries[|adxSeries| - 1]
      invariant forall j :: 0 <= j < |adxSeries| ==> adxSeries[j] == Adx(bars, period, period + j)
    {
      adx := Blend(adx, dxValues[i], period);
      adxSeries := adxSeries + [adx];
    }
  }

  lemma SnapshotIsBounded(bars: seq<Bar>, period: nat)
    requires 0 < period && |bars| >= period * 2 + 1 && forall i :: 0 <= i < |bars| ==> IsBar(bars[i])
    ensures var sums := Smoothed(Reversed(bars), period, |bars| - 1);
            0.0 <= PlusDi(sums) && 0.0 <= MinusDi(sums) && PlusDi(sums) + MinusDi(sums) <= 100.0
    ensures 0.0 <= Adx(Reversed(bars), period, |bars| - period) <= 100.0
    ensures 0.0 <= Adx(Reversed(bars), period, |bars| - period - 1) <= 100.0
  {
    hide Smoothed, DxOf, PlusDi, MinusDi, Adx, Bounded, IsBar;
    AdxIsBounded(Reversed(bars), period, |bars| - period);
    AdxIsBounded(Reversed(bars), period, |bars| - period - 1);
    SmoothedIsBounded(Reversed(bars), period, |bars| - 1);
    IndexIsBounded(Smoothed(Reversed(bars), period, |bars| - 1));
  }
}
