/** The day-trade backtest: one possible breakout entry per day, decided from confirmed bars only. */
module DayTradeBacktest {
  import opened Prelude
  import I = Indicators

  const MIN_AVG_TRADE_VALUE: real := 30_000_000_000.0
  const MIN_ATR_PCT: real := 1.2
  const REGIME_ADX_THRESHOLD: real := 25.0
  const MIN_TRADES: nat := 5
  const K_VALUE: real := 0.5
  const STOP_LOSS_RATE: real := 0.02
  const SLIPPAGE_RATE: real := 0.002
  const BUY_FEE_RATE: real := 0.00015
  const SELL_FEE_RATE: real := 0.00015
  const SELL_TAX_RATE: real := 0.0

  datatype DailyBar = DailyBar(date: string, open: real, high: real, low: real, close: real, volume: real)

  datatype Direction = Long | Inverse

  /** The direction of the fund with the bars of its underlying, oldest first. */
  datatype Proxy = Proxy(direction: Direction, bars: seq<DailyBar>)

  function ConfirmedOne(bar: DailyBar, date: string): seq<DailyBar> {
    if bar.date != date && bar.close > 0.0 then [bar] else []
  }

  /** Bars of other days than `date` with a positive close. */
  function Confirmed(bars: seq<DailyBar>, date: string): seq<DailyBar> {
    if bars == [] then []
    else ConfirmedOne(bars[0], date) + Confirmed(bars[1..], date)
  }

  /** Exactly the bars of other days with a positive close are kept. */
  lemma {:induction false} ConfirmedExactly(bars: seq<DailyBar>, date: string, bar: DailyBar)
    ensures bar in Confirmed(bars, date) <==> bar in bars && bar.date != date && bar.close > 0.0
  {
    if bars != [] {
      ConfirmedExactly(bars[1..], date, bar);
      assert bars == [bars[0]] + bars[1..];
    }
  }

  lemma {:induction false} ConfirmedClose(bars: seq<DailyBar>, date: string)
    ensures Confirmed(bars, date) != [] ==> Confirmed(bars, date)[0].close > 0.0
  {
    if bars != [] {
      ConfirmedClose(bars[1..], date);
    }
  }

  function CloseTotal(bars: seq<DailyBar>, k: nat): real
    requires k <= |bars|
  {
    if k == 0 then 0.0 else CloseTotal(bars, k - 1) + bars[k - 1].close
  }

  function ValueTotal(bars: seq<DailyBar>, k: nat): real
    requires k <= |bars|
  {
    if k == 0 then 0.0 else ValueTotal(bars, k - 1) + bars[k - 1].close * bars[k - 1].volume
  }

  function TrueRange(bar: DailyBar, prevClose: real): real {
    MaxReal(bar.high - bar.low, MaxReal(AbsReal(bar.high - prevClose), AbsReal(bar.low - prevClose)))
  }

  /** True ranges of the newest `k` bars; bars are newest first. */
  function RangeTotal(bars: seq<DailyBar>, k: nat): real
    requires k < |bars|
  {
    if k == 0 then 0.0 else RangeTotal(bars, k - 1) + TrueRange(bars[k - 1], bars[k].close)
  }

  function Column(bars: seq<DailyBar>, value: DailyBar -> real): (r: seq<real>)
    ensures |r| == |bars| && forall i :: 0 <= i < |bars| ==> r[i] == value(bars[i])
  {
    seq(|bars|, i requires 0 <= i < |bars| => value(bars[i]))
  }

  /** How far a bar reaches once the previous close is counted in. */
  function Span(bar: DailyBar, close: real): real {
    (if close > bar.high then close else bar.high) - (if close < bar.low then close else bar.low)
  }

  function Spans(bars: seq<DailyBar>): (r: seq<real>)
    ensures |r| == if bars == [] then 0 else |bars| - 1
    ensures forall i :: 0 <= i < |r| ==> r[i] == Span(bars[i], bars[i + 1].close)
  {
    seq(if bars == [] then 0 else |bars| - 1, i requires 0 <= i < |bars| - 1 => Span(bars[i], bars[i + 1].close))
  }

  /** What the running totals add up: closes, and closes times volumes. */
  lemma {:induction false} TotalsAddUp(bars: seq<DailyBar>, k: nat)
    requires k <= |bars|
    ensures CloseTotal(bars, k) == I.Total(Column(bars, (bar: DailyBar) => bar.close), k)
    ensures ValueTotal(bars, k) == I.Total(Column(bars, (bar: DailyBar) => bar.close * bar.volume), k)
  {
    if k > 0 {
      TotalsAddUp(bars, k - 1);
    }
  }

  lemma TrueRangeSpans(bar: DailyBar, close: real)
    requires bar.low <= bar.high
    ensures TrueRange(bar, close) == Span(bar, close)
  {
  }

  /** ... and true ranges, where no bar's low is above its high. */
  lemma {:induction false} RangesAddUp(bars: seq<DailyBar>, k: nat)
    requires k < |bars| && forall i :: 0 <= i < |bars| ==> bars[i].low <= bars[i].high
    ensures RangeTotal(bars, k) == I.Total(Spans(bars), k)
  {
    hide TrueRange, Span;
    if k > 0 {
      RangesAddUp(bars, k - 1);
      TrueRangeSpans(bars[k - 1], bars[k].close);
      assert Spans(bars)[k - 1] == Span(bars[k - 1], bars[k].close);
    }
  }

  datatype Snapshot = Snapshot(aboveMa20: bool, atrPct: real, avgTradeValue: real)

  /** Indicators of the newest confirmed bar; `None` below twenty bars. */
  function ComputeIndicators(prices: seq<DailyBar>, date: string): Option<Snapshot> {
    var bars := Confirmed(prices, date);
    ConfirmedClose(prices, date);
    if |bars| < 20 then None
    else
      Some(Snapshot(bars[0].close > CloseTotal(bars, 20) / 20.0,
                    RangeTotal(bars, 14) / 14.0 / bars[0].close * 100.0,
                    ValueTotal(bars, 20) / 20.0))
  }

  method ComputeDayTradeIndicators(prices: seq<DailyBar>, date: string) returns (snapshot: Option<Snapshot>)
    ensures snapshot == ComputeIndicators(prices, date)
  {
    hide Confirmed, CloseTotal, ValueTotal, TrueRange;
    var bars := Confirmed(prices, date);
    ConfirmedClose(prices, date);
    if |bars| < 20 { return None; }
    var trSum := 0.0;
    for i := 0 to 14
      invariant trSum == RangeTotal(bars, i)
    {
      trSum := trSum + TrueRange(bars[i], bars[i + 1].close);
    }
    snapshot := Some(Snapshot(bars[0].close > CloseTotal(bars, 20) / 20.0,
                              trSum / 14.0 / bars[0].close * 100.0,
                              ValueTotal(bars, 20) / 20.0));
  }

  // ---------------------------------------------------------------------------
  // The regime of the underlying
  // ---------------------------------------------------------------------------

  function ToBars(bars: seq<DailyBar>): (r: seq<I.Bar>)
    ensures |r| == |bars|
  {
    seq(|bars|, i requires 0 <= i < |bars| => I.Bar(bars[i].high, bars[i].low, bars[i].close))
  }

  /** Here the average leaves the initial directional index out: it starts one movement later. */
  function LateTotal(bars: seq<I.Bar>, period: nat, m: nat): real
    requires period > 0 && (m > 0 ==> period + m < |bars|)
  {
    if m == 0 then 0.0 else LateTotal(bars, period, m - 1) + I.Dx(bars, period, period + m)
  }

  function LateAdx(bars: seq<I.Bar>, period: nat, m: nat): real
    requires 0 < period <= m && period + m < |bars|
  {
    if m == period then LateTotal(bars, period, m) / period as real
    else I.Blend(LateAdx(bars, period, m - 1), I.Dx(bars, period, period + m), period)
  }

  /** `None` for too few bars; an average once there are enough indices, the newest index before. */
  function DayAdx(bars: seq<I.Bar>, period: nat): Option<real>
    requires period > 0
  {
    if |bars| < period * 2 || |bars| - 1 == period then None
    else if |bars| - 1 - period < period then Some(I.Dx(bars, period, |bars| - 1))
    else Some(LateAdx(bars, period, |bars| - 1 - period))
  }

  /** The index after every movement from the one behind the first `period` on. */
  method LateIndices(bars: seq<I.Bar>, period: nat) returns (dxValues: seq<real>)
    requires 0 < period < |bars|
    ensures |dxValues| == |bars| - 1 - period
    ensures forall j :: 0 <= j < |dxValues| ==> dxValues[j] == I.Dx(bars, period, period + 1 + j)
  {
    hide I.MovementOf, I.DxOf, I.Add, I.Decay;
    var moves := I.Movements(bars);
    var sums := I.Movement(0.0, 0.0, 0.0);
    for i := 0 to period
      invariant sums == I.Sums(bars, i)
    {
      sums := I.Add(sums, moves[i]);
    }
    dxValues := [];
    for i := period to |moves|
      invariant sums == I.Smoothed(bars, period, i)
      invariant |dxValues| == i - period
      invariant forall j :: 0 <= j < |dxValues| ==> dxValues[j] == I.Dx(bars, period, period + 1 + j)
    {
      sums := I.Add(I.Decay(sums, period), moves[i]);
      dxValues := dxValues + [I.DxOf(sums)];
    }
  }

  method CalculateAdx(bars: seq<I.Bar>, period: nat) returns (adx: Option<real>)
    requires period > 0
    ensures adx == DayAdx(bars, period)
  {
    hide I.Dx, I.Blend;
    if |bars| < period * 2 { return None; }
    var dxValues := LateIndices(bars, period);
    if |dxValues| == 0 { return None; }
    if |dxValues| < period { return Some(dxValues[|dxValues| - 1]); }
    var sum := 0.0;
    for j := 0 to period
      invariant sum == LateTotal(bars, period, j)
    {
      sum := sum + dxValues[j];
    }
    var average := sum / period as real;
    for i := period to |dxValues|
      invariant average == LateAdx(bars, period, i)
    {
      average := I.Blend(average, dxValues[i], period);
    }
    adx := Some(average);
  }

  lemma {:induction false} LateTotalIsBounded(bars: seq<I.Bar>, period: nat, m: nat)
    requires period > 0 && (m > 0 ==> period + m < |bars|) && forall i :: 0 <= i < |bars| ==> I.IsBar(bars[i])
    ensures 0.0 <= LateTotal(bars, period, m) <= 100.0 * m as real
  {
    if m > 0 {
      hide I.Smoothed, I.DxOf;
      LateTotalIsBounded(bars, period, m - 1);
      I.SmoothedIsBounded(bars, period, period + m);
      I.IndexIsBounded(I.Smoothed(bars, period, period + m));
    }
  }

  lemma {:induction false} LateAdxIsBounded(bars: seq<I.Bar>, period: nat, m: nat)
    requires 0 < period <= m && period + m < |bars| && forall i :: 0 <= i < |bars| ==> I.IsBar(bars[i])
    ensures 0.0 <= LateAdx(bars, period, m) <= 100.0
  {
    hide I.Smoothed, I.DxOf, LateTotal, I.Blend;
    if m == period {
      LateTotalIsBounded(bars, period, m);
      I.Scaled(LateTotal(bars, period, m), period as real);
    } else {
      LateAdxIsBounded(bars, period, m - 1);
      I.SmoothedIsBounded(bars, period, period + m);
      I.IndexIsBounded(I.Smoothed(bars, period, period + m));
      I.BlendIsBounded(LateAdx(bars, period, m - 1), I.Dx(bars, period, period + m), period);
    }
  }

  /** There is a value exactly from two periods of bars on, and it is a percentage. */
  lemma DayAdxIsBounded(bars: seq<I.Bar>, period: nat)
    requires period > 1 && forall i :: 0 <= i < |bars| ==> I.IsBar(bars[i])
    ensures DayAdx(bars, period).Some? <==> |bars| >= period * 2
    ensures DayAdx(bars, period).Some? ==> 0.0 <= DayAdx(bars, period).value <= 100.0
  {
    hide I.Smoothed, I.DxOf, LateAdx;
    if |bars| >= period * 2 {
      if |bars| - 1 - period < period {
        I.SmoothedIsBounded(bars, period, |bars| - 1);
        I.IndexIsBounded(I.Smoothed(bars, period, |bars| - 1));
      } else {
        LateAdxIsBounded(bars, period, |bars| - 1 - period);
      }
    }
  }

  datatype Regime = UnknownRegime | Sideways | TrendingUp | TrendingDown

  function AverageClose(bars: seq<DailyBar>, k: nat): real
    requires 0 < k <= |bars|
  {
    CloseTotal(bars, k) / k as real
  }

  /** `bars` are newest first. */
  function RegimeOf(bars: seq<DailyBar>): Regime {
    if |bars| < 60 then UnknownRegime
    else
      var ma20, ma60 := AverageClose(bars, 20), AverageClose(bars, 60);
      var average := DayAdx(I.Reversed(ToBars(bars)), 14);
      var adx := if average.Some? then average.value else 0.0;
      if adx >= REGIME_ADX_THRESHOLD && ma20 > ma60 && bars[0].close > ma20 then TrendingUp
      else if adx >= REGIME_ADX_THRESHOLD && ma20 < ma60 && bars[0].close < ma20 then TrendingDown
      else Sideways
  }

  method ComputeRegimeFromBars(bars: seq<DailyBar>) returns (regime: Regime)
    ensures regime == RegimeOf(bars)
  {
    hide AverageClose, DayAdx, I.Reversed, ToBars;
    if |bars| < 60 { return UnknownRegime; }
    var ma20, ma60 := AverageClose(bars, 20), AverageClose(bars, 60);
    var adx14 := CalculateAdx(I.Reversed(ToBars(bars)), 14);
    var adx := if adx14.Some? then adx14.value else 0.0;
    regime := Sideways;
    if adx >= REGIME_ADX_THRESHOLD && ma20 > ma60 && bars[0].close > ma20 {
      regime := TrendingUp;
    } else if adx >= REGIME_ADX_THRESHOLD && ma20 < ma60 && bars[0].close < ma20 {
      regime := TrendingDown;
    }
  }

  // ---------------------------------------------------------------------------
  // What a regime means
  // ---------------------------------------------------------------------------

  /** The market turned upside down: every price reflected at `c / 2`. */
  function Mirrored(bar: DailyBar, c: real): DailyBar {
    bar.(open := c - bar.open, high := c - bar.low, low := c - bar.high, close := c - bar.close)
  }

  function MirroredAll(bars: seq<DailyBar>, c: real): (r: seq<DailyBar>)
    ensures |r| == |bars| && forall i :: 0 <= i < |bars| ==> r[i] == Mirrored(bars[i], c)
  {
    seq(|bars|, i requires 0 <= i < |bars| => Mirrored(bars[i], c))
  }

  function MirroredRegime(regime: Regime): Regime {
    match regime
    case TrendingUp => TrendingDown
    case TrendingDown => TrendingUp
    case _ => regime
  }

  /** `b` moves down by what `a` moves up, and up by what it moves down. */
  predicate Swapped(a: I.Movement, b: I.Movement) {
    b == I.Movement(a.range, a.minus, a.plus)
  }

  predicate AreMirrored(a: seq<I.Bar>, b: seq<I.Bar>, c: real) {
    |a| == |b| && forall i :: 0 <= i < |a| ==> b[i] == I.Bar(c - a[i].low, c - a[i].high, c - a[i].close)
  }

  lemma {:induction false} SumsSwap(a: seq<I.Bar>, b: seq<I.Bar>, c: real, k: nat)
    requires AreMirrored(a, b, c) && k < |a|
    ensures Swapped(I.Sums(a, k), I.Sums(b, k))
  {
    if k > 0 {
      hide I.MovementOf;
      SumsSwap(a, b, c, k - 1);
      MovementSwaps(a[k - 1], a[k], b[k - 1], b[k], c);
    }
  }

  lemma {:induction false} SmoothedSwap(a: seq<I.Bar>, b: seq<I.Bar>, c: real, period: nat, k: nat)
    requires AreMirrored(a, b, c) && 0 < period <= k < |a|
    ensures Swapped(I.Smoothed(a, period, k), I.Smoothed(b, period, k))
    ensures I.Dx(a, period, k) == I.Dx(b, period, k)
  {
    if k == period {
      SumsSwap(a, b, c, k);
    } else {
      SmoothedSwap(a, b, c, period, k - 1);
      MovementSwaps(a[k - 1], a[k], b[k - 1], b[k], c);
      hide I.MovementOf;
    }
    DxIgnoresSwap(I.Smoothed(a, period, k), I.Smoothed(b, period, k));
  }

  lemma MovementSwaps(before: I.Bar, bar: I.Bar, before': I.Bar, bar': I.Bar, c: real)
    requires before' == I.Bar(c - before.low, c - before.high, c - before.close)
    requires bar' == I.Bar(c - bar.low, c - bar.high, c - bar.close)
    ensures Swapped(I.MovementOf(before, bar), I.MovementOf(before', bar'))
  {
  }

  lemma DxIgnoresSwap(a: I.Movement, b: I.Movement)
    requires Swapped(a, b)
    ensures I.DxOf(a) == I.DxOf(b)
  {
  }

  lemma {:induction false} LateTotalIgnoresMirror(a: seq<I.Bar>, b: seq<I.Bar>, c: real, period: nat, m: nat)
    requires AreMirrored(a, b, c) && period > 0 && (m > 0 ==> period + m < |a|)
    ensures LateTotal(a, period, m) == LateTotal(b, period, m)
  {
    if m > 0 {
      hide I.Dx;
      LateTotalIgnoresMirror(a, b, c, period, m - 1);
      SmoothedSwap(a, b, c, period, period + m);
    }
  }

  lemma {:induction false} LateAdxIgnoresMirror(a: seq<I.Bar>, b: seq<I.Bar>, c: real, period: nat, m: nat)
    requires AreMirrored(a, b, c) && 0 < period <= m && period + m < |a|
    ensures LateAdx(a, period, m) == LateAdx(b, period, m)
  {
    hide I.Dx, I.Blend, LateTotal;
    if m == period {
      LateTotalIgnoresMirror(a, b, c, period, m);
    } else {
      LateAdxIgnoresMirror(a, b, c, period, m - 1);
      SmoothedSwap(a, b, c, period, period + m);
    }
  }

  lemma DayAdxIgnoresMirror(a: seq<I.Bar>, b: seq<I.Bar>, c: real, period: nat)
    requires AreMirrored(a, b, c) && period > 0
    ensures DayAdx(a, period) == DayAdx(b, period)
  {
    hide I.Dx, LateAdx, AreMirrored;
    assert |a| == |b| by { SameLength(a, b, c); }
    if |a| >= period * 2 && |a| - 1 != period {
      if |a| - 1 - period < period {
        SmoothedSwap(a, b, c, period, |a| - 1);
      } else {
        LateAdxIgnoresMirror(a, b, c, period, |a| - 1 - period);
      }
    }
  }

  lemma SameLength(a: seq<I.Bar>, b: seq<I.Bar>, c: real)
    requires AreMirrored(a, b, c)
    ensures |a| == |b|
  {
  }

  lemma {:induction false} CloseTotalMirrored(bars: seq<DailyBar>, c: real, k: nat)
    requires k <= |bars|
    ensures CloseTotal(MirroredAll(bars, c), k) == c * k as real - CloseTotal(bars, k)
  {
    if k > 0 {
      CloseTotalMirrored(bars, c, k - 1);
    }
  }

  /**
   The filter treats both directions alike: turned upside down, a rising underlying is a falling one and
   the other way round, and an unknown or sideways one stays what it is. So an inverse fund is let in on
   a market exactly when a long fund is on its mirror image.
   */
  lemma MirroredMarketSwapsTheRegime(bars: seq<DailyBar>, c: real)
    ensures RegimeOf(MirroredAll(bars, c)) == MirroredRegime(RegimeOf(bars))
    ensures Aligned(Inverse, RegimeOf(bars)) <==> Aligned(Long, RegimeOf(MirroredAll(bars, c)))
  {
    hide CloseTotal, DayAdx;
    if |bars| >= 60 {
      CloseTotalMirrored(bars, c, 20);
      CloseTotalMirrored(bars, c, 60);
      DayAdxIgnoresMirror(I.Reversed(ToBars(bars)), I.Reversed(ToBars(MirroredAll(bars, c))), c, 14);
    }
  }

  /** No market lets in both directions, and one that lets any in has its last close beyond both averages. */
  lemma AlignedMarketsTrend(bars: seq<DailyBar>, direction: Direction)
    requires Aligned(direction, RegimeOf(bars))
    ensures !Aligned(if direction == Long then Inverse else Long, RegimeOf(bars))
    ensures |bars| >= 60
    ensures var ma20, ma60 := AverageClose(bars, 20), AverageClose(bars, 60);
            if direction == Long then bars[0].close > ma20 > ma60 else bars[0].close < ma20 < ma60
  {
    hide AverageClose, DayAdx, I.Reversed, ToBars;
  }

  /** In full: the market lets a direction in exactly then. */
  lemma AlignedExactlyWhen(bars: seq<DailyBar>, direction: Direction)
    ensures Aligned(direction, RegimeOf(bars))
       <==> && |bars| >= 60
            && DayAdx(I.Reversed(ToBars(bars)), 14).Some? && DayAdx(I.Reversed(ToBars(bars)), 14).value >= 25.0
            && if direction == Long
               then bars[0].close > CloseTotal(bars, 20) / 20.0 > CloseTotal(bars, 60) / 60.0
               else bars[0].close < CloseTotal(bars, 20) / 20.0 < CloseTotal(bars, 60) / 60.0
  {
    hide CloseTotal, DayAdx, I.Reversed, ToBars;
  }

  predicate Aligned(direction: Direction, regime: Regime) {
    regime == if direction == Inverse then TrendingDown else TrendingUp
  }

  /** Where a date is found in the index by date: a later bar of the same date overwrites an earlier one. */
  function LastIndexOf(bars: seq<DailyBar>, date: string): Option<nat> {
    if bars == [] then None
    else if bars[|bars| - 1].date == date then Some(|bars| - 1)
    else LastIndexOf(bars[..|bars| - 1], date)
  }

  lemma {:induction false} LastIndexInRange(bars: seq<DailyBar>, date: string)
    ensures LastIndexOf(bars, date).Some? ==> LastIndexOf(bars, date).value < |bars|
  {
    if bars != [] && bars[|bars| - 1].date != date {
      LastIndexInRange(bars[..|bars| - 1], date);
    }
  }

  predicate RegimeAllows(proxy: Option<Proxy>, prevDate: string) {
    proxy.None? ||
    var index := LastIndexOf(proxy.value.bars, prevDate);
    LastIndexInRange(proxy.value.bars, prevDate);
    prevDate != "" && index.Some? && Aligned(proxy.value.direction, RegimeOf(I.Reversed(proxy.value.bars[..index.value + 1])))
  }

  /** The day before is looked up under its date among the underlying's bars, the last of that date; later bars are not seen. */
  lemma RegimeAllowsExactlyWhen(proxy: Proxy, prevDate: string)
    ensures RegimeAllows(Some(proxy), prevDate)
       <==> prevDate != "" &&
            exists k :: 0 <= k < |proxy.bars| && proxy.bars[k].date == prevDate
                        && (forall j :: k < j < |proxy.bars| ==> proxy.bars[j].date != prevDate)
                        && Aligned(proxy.direction, RegimeOf(I.Reversed(proxy.bars[..k + 1])))
    ensures RegimeAllows(None, prevDate)
  {
    hide RegimeOf, I.Reversed;
    LastIndexIsLast(proxy.bars, prevDate);
    LastIndexInRange(proxy.bars, prevDate);
  }

  lemma {:induction false} LastIndexIsLast(bars: seq<DailyBar>, date: string)
    ensures LastIndexOf(bars, date).None? ==> forall j :: 0 <= j < |bars| ==> bars[j].date != date
    ensures var k := LastIndexOf(bars, date);
            k.Some? ==> k.value < |bars| && bars[k.value].date == date
                        && forall j :: k.value < j < |bars| ==> bars[j].date != date
  {
    if bars != [] && bars[|bars| - 1].date != date {
      LastIndexIsLast(bars[..|bars| - 1], date);
    }
  }

  // ---------------------------------------------------------------------------
  // One day
  // ---------------------------------------------------------------------------

  predicate Qualifies(snapshot: Option<Snapshot>) {
    && snapshot.Some?
    && snapshot.value.avgTradeValue >= MIN_AVG_TRADE_VALUE
    && snapshot.value.aboveMa20
    && snapshot.value.atrPct >= MIN_ATR_PCT
  }

  function EntryPrice(prev: DailyBar, today: DailyBar): real {
    (today.open + (prev.high - prev.low) * K_VALUE) * (1.0 + SLIPPAGE_RATE)
  }

  function ExitPrice(today: DailyBar, entry: real): real {
    var stop := entry * (1.0 - STOP_LOSS_RATE);
    (if today.low <= stop then stop else today.close) * (1.0 - SLIPPAGE_RATE)
  }

  /** `1 + tradeReturnPct / 100`: what a unit of money becomes. */
  function Factor(today: DailyBar, entry: real): real
    requires entry != 0.0
  {
    ExitPrice(today, entry) * (1.0 - SELL_FEE_RATE - SELL_TAX_RATE) / (entry * (1.0 + BUY_FEE_RATE))
  }

  /** The factor of the trade of day `i`, if there is one; bars are oldest first. A zero price is never entered. */
  function TradeOn(bars: seq<DailyBar>, proxy: Option<Proxy>, i: nat): Option<real>
    requires 1 <= i < |bars|
  {
    var history := I.Reversed(bars[..i]);
    if !Qualifies(ComputeIndicators(history, bars[i].date)) || !RegimeAllows(proxy, bars[i - 1].date) then None
    else
      var entry := EntryPrice(bars[i - 1], bars[i]);
      if bars[i].high < entry || entry == 0.0 then None else Some(Factor(bars[i], entry))
  }

  /** One iteration of the backtest: the filters in their order, then the entry and the exit. */
  method TryTrade(bars: seq<DailyBar>, proxy: Option<Proxy>, i: nat) returns (trade: Option<real>)
    requires 1 <= i < |bars|
    ensures trade == TradeOn(bars, proxy, i)
  {
    hide ComputeIndicators, RegimeOf, LastIndexOf, Factor, EntryPrice;
    var indicators := ComputeDayTradeIndicators(I.Reversed(bars[..i]), bars[i].date);
    if !Qualifies(indicators) { return None; }
    if proxy.Some? {
      var prevDate := bars[i - 1].date;
      var index := LastIndexOf(proxy.value.bars, prevDate);
      LastIndexInRange(proxy.value.bars, prevDate);
      if prevDate == "" || index.None? { return None; }
      var regime := ComputeRegimeFromBars(I.Reversed(proxy.value.bars[..index.value + 1]));
      if !Aligned(proxy.value.direction, regime) { return None; }
    }
    var entryPrice := EntryPrice(bars[i - 1], bars[i]);
    if bars[i].high < entryPrice || entryPrice == 0.0 { return None; }
    trade := Some(Factor(bars[i], entryPrice));
  }

  /** The factors of all trades before day `n`. */
  function Trades(bars: seq<DailyBar>, proxy: Option<Proxy>, n: nat): seq<real>
    requires n <= |bars|
  {
    if n <= 20 then []
    else
      var trade := TradeOn(bars, proxy, n - 1);
      Trades(bars, proxy, n - 1) + if trade.Some? then [trade.value] else []
  }

  function Equity(factors: seq<real>): real {
    if factors == [] then 1.0 else Equity(factors[..|factors| - 1]) * factors[|factors| - 1]
  }

  function Peak(factors: seq<real>): real {
    if factors == [] then 1.0 else MaxReal(Peak(factors[..|factors| - 1]), Equity(factors))
  }

  lemma {:induction false} PeakIsPositive(factors: seq<real>)
    ensures Peak(factors) >= 1.0 && Peak(factors) >= Equity(factors)
  {
    if factors != [] {
      PeakIsPositive(factors[..|factors| - 1]);
    }
  }

  function MaxDrawdown(factors: seq<real>): real {
    if factors == [] then 0.0
    else
      PeakIsPositive(factors);
      var before := MaxDrawdown(factors[..|factors| - 1]);
      var now := (Equity(factors) - Peak(factors)) / Peak(factors) * 100.0;
      if now < before then now else before
  }

  function MeanReturn(factors: seq<real>): real {
    if factors == [] then 0.0 else 100.0 * (FactorTotal(factors) / |factors| as real - 1.0)
  }

  function FactorTotal(factors: seq<real>): real {
    if factors == [] then 0.0 else FactorTotal(factors[..|factors| - 1]) + factors[|factors| - 1]
  }

  datatype Report = Report(factors: seq<real>, equity: real, maxDrawdownPct: real, passed: bool)

  function ReportOf(factors: seq<real>): Report {
    Report(factors, Equity(factors), MaxDrawdown(factors),
           |factors| >= MIN_TRADES && MeanReturn(factors) > 0.0 && (Equity(factors) - 1.0) * 100.0 > 0.0)
  }

  function Chronological(prices: seq<DailyBar>, today: string): seq<DailyBar> {
    I.Reversed(Confirmed(prices, today))
  }

  function BacktestTrades(prices: seq<DailyBar>, today: string, direction: Option<Direction>, proxyPrices: seq<DailyBar>): seq<real> {
    var bars := Chronological(prices, today);
    var proxy := if direction.None? then None else Some(Proxy(direction.value, Chronological(proxyPrices, today)));
    if |bars| < 40 then [] else Trades(bars, proxy, |bars|)
  }

  /** The days traded: from the twenty-first bar on, every day that has a trade, in order. */
  lemma {:induction false} TradesExactlyOn(bars: seq<DailyBar>, proxy: Option<Proxy>, n: nat) returns (days: seq<nat>)
    requires n <= |bars|
    ensures forall a, b :: 0 <= a < b < |days| ==> days[a] < days[b]
    ensures forall a :: 0 <= a < |days| ==> 20 <= days[a] < n && TradeOn(bars, proxy, days[a]).Some?
    ensures forall i :: 20 <= i < n && TradeOn(bars, proxy, i).Some? ==> i in days
    ensures |Trades(bars, proxy, n)| == |days|
    ensures forall a :: 0 <= a < |days| ==> Trades(bars, proxy, n)[a] == TradeOn(bars, proxy, days[a]).value
  {
    hide TradeOn;
    if n <= 20 {
      days := [];
    } else {
      var before := TradesExactlyOn(bars, proxy, n - 1);
      days := before + if TradeOn(bars, proxy, n - 1).Some? then [n - 1] else [];
    }
  }

  /** A backtest passes with five trades that gain on average and together; below forty bars it has none. */
  lemma PassesExactlyWhen(prices: seq<DailyBar>, today: string, direction: Option<Direction>, proxyPrices: seq<DailyBar>)
    ensures var factors := BacktestTrades(prices, today, direction, proxyPrices);
            && (ReportOf(factors).passed
                <==> |factors| >= 5 && FactorTotal(factors) > |factors| as real && Equity(factors) > 1.0)
            && (|Confirmed(prices, today)| < 40 ==> factors == [])
            && (|Confirmed(prices, today)| >= 40 ==>
                  var bars := I.Reversed(Confirmed(prices, today));
                  factors == Trades(bars, if direction.None? then None
                                          else Some(Proxy(direction.value, I.Reversed(Confirmed(proxyPrices, today)))), |bars|))
  {
    hide Confirmed, Trades, FactorTotal, Equity, MaxDrawdown, MeanReturn;
    MeanGainsExactlyWhen(BacktestTrades(prices, today, direction, proxyPrices));
  }

  lemma MeanGainsExactlyWhen(factors: seq<real>)
    ensures factors != [] ==> (MeanReturn(factors) > 0.0 <==> FactorTotal(factors) > |factors| as real)
  {
    hide FactorTotal;
    if factors != [] {
      var total, n := FactorTotal(factors), |factors| as real;
      var mean := total / n;
      assert mean * n == total;
      assert (mean - 1.0) * n == total - n;
      SignOfProduct(mean - 1.0, n);
    }
  }

  /** The worst fall from a running peak, in percent: no point lies deeper, and one lies as deep. */
  lemma {:induction false} MaxDrawdownIsTheDeepest(factors: seq<real>)
    ensures forall k :: 0 <= k <= |factors| ==> Fall(factors[..k]) >= MaxDrawdown(factors)
    ensures exists k :: 0 <= k <= |factors| && Fall(factors[..k]) == MaxDrawdown(factors)
  {
    if factors == [] {
      assert Fall(factors[..0]) == 0.0;
    } else {
      hide Equity, Peak;
      var n := |factors| - 1;
      var before := factors[..n];
      MaxDrawdownIsTheDeepest(before);
      assert forall k :: 0 <= k <= n ==> before[..k] == factors[..k];
      assert factors[..|factors|] == factors;
      var k :| 0 <= k <= n && Fall(before[..k]) == MaxDrawdown(before);
      assert Fall(factors[..k]) == MaxDrawdown(before);
    }
  }

  function Fall(factors: seq<real>): real {
    PeakIsPositive(factors);
    (Equity(factors) - Peak(factors)) / Peak(factors) * 100.0
  }

  /** ... and the peak is the highest equity so far, the start included. */
  lemma {:induction false} PeakIsTheHighest(factors: seq<real>)
    ensures forall k :: 0 <= k <= |factors| ==> Equity(factors[..k]) <= Peak(factors)
    ensures exists k :: 0 <= k <= |factors| && Equity(factors[..k]) == Peak(factors)
  {
    if factors == [] {
      assert Equity(factors[..0]) == 1.0;
    } else {
      var n := |factors| - 1;
      var before := factors[..n];
      PeakIsTheHighest(before);
      assert forall k :: 0 <= k <= n ==> before[..k] == factors[..k];
      assert factors[..|factors|] == factors;
      var k :| 0 <= k <= n && Equity(before[..k]) == Peak(before);
      assert Equity(factors[..k]) == Peak(before);
    }
  }

  lemma NoTrades()
    ensures Equity([]) == 1.0 && Peak([]) == 1.0 && MaxDrawdown([]) == 0.0 && FactorTotal([]) == 0.0
  {
  }

  lemma OneMoreTrade(factors: seq<real>, f: real)
    ensures var all := factors + [f];
            && Equity(all) == Equity(factors) * f
            && Peak(all) == MaxReal(Peak(factors), Equity(all)) && Peak(all) >= 1.0
            && FactorTotal(all) == FactorTotal(factors) + f
            && var now := (Equity(all) - Peak(all)) / Peak(all) * 100.0;
               MaxDrawdown(all) == if now < MaxDrawdown(factors) then now else MaxDrawdown(factors)
  {
    assert (factors + [f])[..|factors|] == factors;
    PeakIsPositive(factors + [f]);
  }

  /** `prices` and `proxyPrices` are newest first; the regime is checked when a direction is given. */
  method RunDayTradeBacktest(
    prices: seq<DailyBar>, today: string, direction: Option<Direction>, proxyPrices: seq<DailyBar>)
    returns (report: Report)
    ensures report == ReportOf(BacktestTrades(prices, today, direction, proxyPrices))
  {
    hide TradeOn, ComputeIndicators, RegimeAllows, Chronological, Equity, Peak, MaxDrawdown, FactorTotal;
    NoTrades();
    var bars := Chronological(prices, today);
    if |bars| < 40 { return Report([], 1.0, 0.0, false); }
    var proxy := if direction.None? then None else Some(Proxy(direction.value, Chronological(proxyPrices, today)));
    var factors: seq<real> := [];
    var equity, peak, maxDrawdownPct, total := 1.0, 1.0, 0.0, 0.0;
    for i := 20 to |bars|
      invariant factors == Trades(bars, proxy, i)
      invariant equity == Equity(factors) && peak == Peak(factors) && peak >= 1.0
      invariant maxDrawdownPct == MaxDrawdown(factors) && total == FactorTotal(factors)
    {
      var trade := TryTrade(bars, proxy, i);
      if trade.None? {
        assert factors + [] == factors;
        continue;
      }
      OneMoreTrade(factors, trade.value);
      factors := factors + [trade.value];
      equity := equity * trade.value;
      peak := MaxReal(peak, equity);
      var drawdown := (equity - peak) / peak * 100.0;
      maxDrawdownPct := if drawdown < maxDrawdownPct then drawdown else maxDrawdownPct;
      total := total + trade.value;
    }
    var average := if factors == [] then 0.0 else 100.0 * (total / |factors| as real - 1.0);
    report := Report(factors, equity, maxDrawdownPct,
                     |factors| >= MIN_TRADES && average > 0.0 && (equity - 1.0) * 100.0 > 0.0);
  }

  // ---------------------------------------------------------------------------
  // No look-ahead
  // ---------------------------------------------------------------------------

  function Later(proxy: Option<Proxy>, more: seq<DailyBar>): Option<Proxy> {
    if proxy.None? then None else Some(proxy.value.(bars := proxy.value.bars + more))
  }

  /** No later bar of the underlying carries a date on which the fund has a bar, other than its newest. */
  predicate FreshDates(bars: seq<DailyBar>, more: seq<DailyBar>) {
    forall i, j :: 0 <= i < |bars| - 1 && 0 <= j < |more| ==> bars[i].date != more[j].date
  }

  lemma {:induction false} LastIndexIgnoresLater(bars: seq<DailyBar>, more: seq<DailyBar>, date: string)
    requires forall j :: 0 <= j < |more| ==> more[j].date != date
    ensures LastIndexOf(bars + more, date) == LastIndexOf(bars, date)
  {
    if more == [] {
      assert bars + more == bars;
    } else {
      var n := |more| - 1;
      LastIndexIgnoresLater(bars, more[..n], date);
      assert (bars + more)[..|bars + more| - 1] == bars + more[..n];
    }
  }

  lemma TradeIgnoresLater(bars: seq<DailyBar>, more: seq<DailyBar>, proxy: Option<Proxy>, proxyMore: seq<DailyBar>, i: nat)
    requires 1 <= i < |bars| && FreshDates(bars, proxyMore)
    ensures TradeOn(bars + more, Later(proxy, proxyMore), i) == TradeOn(bars, proxy, i)
  {
    hide ComputeIndicators, RegimeOf, Factor, EntryPrice, Qualifies;
    var all := bars + more;
    assert all[..i] == bars[..i] && all[i] == bars[i] && all[i - 1] == bars[i - 1];
    if proxy.Some? {
      var known, date := proxy.value.bars, bars[i - 1].date;
      LastIndexIgnoresLater(known, proxyMore, date);
      LastIndexInRange(known, date);
      var index := LastIndexOf(known, date);
      if index.Some? {
        assert (known + proxyMore)[..index.value + 1] == known[..index.value + 1];
      }
    }
  }

  lemma {:induction false} TradesIgnoreLater(
    bars: seq<DailyBar>, more: seq<DailyBar>, proxy: Option<Proxy>, proxyMore: seq<DailyBar>, n: nat)
    requires n <= |bars| && FreshDates(bars, proxyMore)
    ensures Trades(bars + more, Later(proxy, proxyMore), n) == Trades(bars, proxy, n)
  {
    if n > 20 {
      hide TradeOn;
      TradesIgnoreLater(bars, more, proxy, proxyMore, n - 1);
      TradeIgnoresLater(bars, more, proxy, proxyMore, n - 1);
    }
  }

  lemma {:induction false} TradesOnlyGrow(bars: seq<DailyBar>, proxy: Option<Proxy>, n: nat, m: nat)
    requires n <= m <= |bars|
    ensures Trades(bars, proxy, n) <= Trades(bars, proxy, m)
  {
    if n < m {
      hide TradeOn;
      TradesOnlyGrow(bars, proxy, n, m - 1);
      var last := Trades(bars, proxy, m - 1);
      assert m > 20 ==> last <= Trades(bars, proxy, m);
    }
  }

  lemma {:induction false} ConfirmedConcat(a: seq<DailyBar>, b: seq<DailyBar>, date: string)
    ensures Confirmed(a + b, date) == Confirmed(a, date) + Confirmed(b, date)
  {
    if a == [] {
      assert a + b == b;
    } else {
      hide ConfirmedOne, Confirmed;
      ConfirmedConcat(a[1..], b, date);
      assert a == [a[0]] + a[1..] && a + b == [a[0]] + (a[1..] + b);
      ConfirmedFirst(a[0], a[1..], date);
      ConfirmedFirst(a[0], a[1..] + b, date);
    }
  }

  lemma ConfirmedFirst(bar: DailyBar, rest: seq<DailyBar>, date: string)
    ensures Confirmed([bar] + rest, date) == ConfirmedOne(bar, date) + Confirmed(rest, date)
  {
    hide ConfirmedOne;
    assert ([bar] + rest)[1..] == rest;
  }

  lemma ChronologicalConcat(newer: seq<DailyBar>, prices: seq<DailyBar>, today: string)
    ensures Chronological(newer + prices, today) == Chronological(prices, today) + Chronological(newer, today)
  {
    hide Confirmed;
    ConfirmedConcat(newer, prices, today);
  }

  /**
   No look-ahead: when newer bars arrive, of the fund and of its underlying, every trade the backtest
   had found stays as it was and new ones are only added after them.
   */
  lemma LaterBarsChangeNoTrade(
    prices: seq<DailyBar>, newer: seq<DailyBar>, today: string, direction: Option<Direction>,
    proxyPrices: seq<DailyBar>, newerProxy: seq<DailyBar>)
    requires FreshDates(Chronological(prices, today), Chronological(newerProxy, today))
    ensures BacktestTrades(prices, today, direction, proxyPrices)
         <= BacktestTrades(newer + prices, today, direction, newerProxy + proxyPrices)
  {
    hide Chronological, Trades, FreshDates;
    var bars, more := Chronological(prices, today), Chronological(newer, today);
    ChronologicalConcat(newer, prices, today);
    ChronologicalConcat(newerProxy, proxyPrices, today);
    if |bars| >= 40 {
      var proxyMore := Chronological(newerProxy, today);
      var proxy := if direction.None? then None else Some(Proxy(direction.value, Chronological(proxyPrices, today)));
      TradesIgnoreLater(bars, more, proxy, proxyMore, |bars|);
      TradesOnlyGrow(bars + more, Later(proxy, proxyMore), |bars|, |bars + more|);
    }
  }

  // ---------------------------------------------------------------------------
  // Bounded loss
  // ---------------------------------------------------------------------------

  /** A quote with positive prices and the close between low and high. */
  predicate IsQuote(bar: DailyBar) {
    0.0 < bar.open && 0.0 < bar.low <= bar.close <= bar.high
  }

  /** The worst factor of one trade: stopped out, with slippage and fees both ways. */
  const WORST_FACTOR: real := 0.98 * 0.998 * 0.99985 / 1.00015

  lemma FactorIsBounded(prev: DailyBar, today: DailyBar)
    requires IsQuote(prev) && IsQuote(today)
    ensures EntryPrice(prev, today) > 0.0
    ensures Factor(today, EntryPrice(prev, today)) >= WORST_FACTOR > 0.0
    ensures today.low <= EntryPrice(prev, today) * 0.98 ==> Factor(today, EntryPrice(prev, today)) == WORST_FACTOR
  {
    var entry := EntryPrice(prev, today);
    var exit := ExitPrice(today, entry);
    assert exit >= 0.98 * 0.998 * entry;
    var cost := entry * 1.00015;
    assert today.low <= entry * 0.98 ==> exit == 0.98 * 0.998 * entry;
    DivideOrder(0.98 * 0.998 * 0.99985 * entry, exit * 0.99985, cost);
    SameQuotient(0.98 * 0.998 * 0.99985, 1.00015, entry);
  }

  /**
   One trade in money. The entry is half of yesterday's range above today's open, with slippage. What is
   paid for a share is the entry with the fee; what comes back is 98 percent of the entry if the day's low
   reached that stop, and the close otherwise, less slippage and fee. High and low matter in no other way.
   */
  lemma TradeInMoney(prev: DailyBar, today: DailyBar)
    requires EntryPrice(prev, today) != 0.0
    ensures var entry := (today.open + (prev.high - prev.low) / 2.0) * 1.002;
            && EntryPrice(prev, today) == entry
            && Factor(today, entry) * (entry * 1.00015)
               == (if today.low > 0.98 * entry then today.close else 0.98 * entry) * 0.998 * 0.99985
  {
    var entry := EntryPrice(prev, today);
    var cost := entry * 1.00015;
    var back := ExitPrice(today, entry) * 0.99985;
    assert cost != 0.0;
    assert Factor(today, entry) == back / cost;
    assert back / cost * cost == back;
  }

  /** Of two days entered at the same price and not stopped out, the one that closes higher returns more. */
  lemma ReturnGrowsWithTheClose(prev: DailyBar, today: DailyBar, better: DailyBar)
    requires EntryPrice(prev, today) == EntryPrice(prev, better) > 0.0
    requires today.low > 0.98 * EntryPrice(prev, today) && better.low > 0.98 * EntryPrice(prev, today)
    ensures Factor(today, EntryPrice(prev, today)) < Factor(better, EntryPrice(prev, today)) <==> today.close < better.close
  {
    hide Factor, EntryPrice;
    TradeInMoney(prev, today);
    TradeInMoney(prev, better);
    var cost := EntryPrice(prev, today) * 1.00015;
    assert cost > 0.0;
    var gap := Factor(better, EntryPrice(prev, today)) - Factor(today, EntryPrice(prev, today));
    assert gap * cost == (better.close - today.close) * (0.998 * 0.99985);
    SignOfProduct(gap, cost);
  }

  lemma SignOfProduct(x: real, y: real)
    requires y > 0.0
    ensures x * y > 0.0 <==> x > 0.0
  {
  }

  /**
   When a day is traded: twenty confirmed bars, an average turnover of 30 billion, the last close above its
   twenty-day average, an average true range of 1.2 percent, a market that trends the fund's way, and a
   high that reaches the entry.
   */
  lemma EnteredExactlyWhen(bars: seq<DailyBar>, proxy: Option<Proxy>, i: nat)
    requires 1 <= i < |bars|
    ensures var known := Confirmed(I.Reversed(bars[..i]), bars[i].date);
            var entry := (bars[i].open + (bars[i - 1].high - bars[i - 1].low) / 2.0) * 1.002;
            && (|known| >= 20 ==> known[0].close > 0.0)
            && (TradeOn(bars, proxy, i).Some?
                <==> && |known| >= 20
                     && ValueTotal(known, 20) >= 20.0 * 30_000_000_000.0
                     && 20.0 * known[0].close > CloseTotal(known, 20)
                     && RangeTotal(known, 14) >= 14.0 * 0.012 * known[0].close
                     && RegimeAllows(proxy, bars[i - 1].date)
                     && bars[i].high >= entry && entry != 0.0)
            && (TradeOn(bars, proxy, i).Some? ==> TradeOn(bars, proxy, i) == Some(Factor(bars[i], entry)))
  {
    hide Confirmed, RegimeAllows, ValueTotal, CloseTotal, RangeTotal, Factor, I.Reversed;
    var known := Confirmed(I.Reversed(bars[..i]), bars[i].date);
    ConfirmedClose(I.Reversed(bars[..i]), bars[i].date);
    if |known| >= 20 {
      PercentOf(RangeTotal(known, 14) / 14.0, known[0].close);
    }
  }

  lemma PercentOf(x: real, base: real)
    requires base > 0.0
    ensures x / base * 100.0 >= 1.2 <==> x >= 0.012 * base
  {
    var q := x / base;
    assert q * base == x;
    SignOfProduct(0.012 - q, base);
    assert (0.012 - q) * base == 0.012 * base - x;
  }

  lemma DivideOrder(a: real, b: real, c: real)
    requires c > 0.0 && a <= b
    ensures a / c <= b / c
  {
    assert a / c * c == a && b / c * c == b;
    var q := b / c - a / c;
    assert q * c == b - a;
    TimesPositive(q, c);
  }

  lemma SameQuotient(a: real, b: real, x: real)
    requires b > 0.0 && x > 0.0
    ensures a * x / (b * x) == a / b
  {
    var q := a / b;
    assert q * b == a;
    assert q * (b * x) == a * x;
  }

  lemma {:induction false} TradesAreBounded(bars: seq<DailyBar>, proxy: Option<Proxy>, n: nat)
    requires n <= |bars| && forall i :: 0 <= i < |bars| ==> IsQuote(bars[i])
    ensures forall f :: f in Trades(bars, proxy, n) ==> f >= WORST_FACTOR
  {
    if n > 20 {
      hide ComputeIndicators, RegimeAllows, Factor, EntryPrice, Qualifies;
      TradesAreBounded(bars, proxy, n - 1);
      FactorIsBounded(bars[n - 2], bars[n - 1]);
    }
  }

  function Power(x: real, n: nat): real {
    if n == 0 then 1.0 else Power(x, n - 1) * x
  }

  lemma {:induction false} PowerIsPositive(x: real, n: nat)
    requires x > 0.0
    ensures Power(x, n) > 0.0
  {
    if n > 0 {
      PowerIsPositive(x, n - 1);
    }
  }

  lemma {:induction false} EquityIsBounded(factors: seq<real>)
    requires forall f :: f in factors ==> f >= WORST_FACTOR
    ensures Equity(factors) >= Power(WORST_FACTOR, |factors|) > 0.0
    ensures -100.0 < MaxDrawdown(factors) <= 0.0
  {
    if factors != [] {
      var before, last := factors[..|factors| - 1], factors[|factors| - 1];
      assert forall f :: f in before ==> f in factors;
      EquityIsBounded(before);
      assert last in factors;
      PowerIsPositive(WORST_FACTOR, |before|);
      ProductBound(Equity(before), Power(WORST_FACTOR, |before|), last, WORST_FACTOR);
      PeakIsPositive(factors);
      DrawdownBound(Equity(factors), Peak(factors));
    } else {
    }
  }

  lemma ProductBound(a: real, b: real, x: real, y: real)
    requires a >= b > 0.0 && x >= y > 0.0
    ensures a * x >= b * y > 0.0
  {
    assert a * x >= b * x;
    assert b * x >= b * y;
  }

  lemma DrawdownBound(equity: real, peak: real)
    requires 0.0 < equity <= peak
    ensures -100.0 < (equity - peak) / peak * 100.0 <= 0.0
  {
    var q := (equity - peak) / peak;
    assert q * peak == equity - peak;
    TimesPositive(-q, peak);
    TimesPositive(q + 1.0, peak);
    assert (q + 1.0) * peak == equity;
  }

  lemma {:induction false} ConfirmedKeepsQuotes(bars: seq<DailyBar>, date: string)
    requires forall i :: 0 <= i < |bars| ==> IsQuote(bars[i])
    ensures forall i :: 0 <= i < |Confirmed(bars, date)| ==> IsQuote(Confirmed(bars, date)[i])
  {
    if bars != [] {
      ConfirmedKeepsQuotes(bars[1..], date);
    }
  }

  /**
   The worst case is built in: on real quotes no trade loses more than about 2.23 percent, so after
   `n` trades equity is at least that factor to the power of `n`, and the drawdown never reaches 100 percent.
   */
  lemma LossIsBounded(prices: seq<DailyBar>, today: string, direction: Option<Direction>, proxyPrices: seq<DailyBar>)
    requires forall i :: 0 <= i < |prices| ==> IsQuote(prices[i])
    ensures var factors := BacktestTrades(prices, today, direction, proxyPrices);
            && (forall f :: f in factors ==> f >= WORST_FACTOR)
            && Equity(factors) >= Power(WORST_FACTOR, |factors|) > 0.0
            && -100.0 < MaxDrawdown(factors) <= 0.0
  {
    hide Confirmed, Trades, Equity, MaxDrawdown, Power;
    ConfirmedKeepsQuotes(prices, today);
    var bars := Chronological(prices, today);
    var proxy := if direction.None? then None else Some(Proxy(direction.value, Chronological(proxyPrices, today)));
    TradesAreBounded(bars, proxy, |bars|);
    EquityIsBounded(BacktestTrades(prices, today, direction, proxyPrices));
  }
}
