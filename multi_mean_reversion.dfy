/** Multi-timeframe mean reversion (`multi_mean_reversion.py`).

    A daily trend label and an hourly zone label are projected onto the
    15-minute bars "as of" each bar's timestamp; a 15-minute signal survives
    only when both agree with its direction. The filter then marks entry bars
    (where the surviving signal changes to a nonzero value), carries the Close
    of the latest entry bar forward as the entry price, and marks scale-in
    bars (+2 / -2) where the price has moved 1% against the open signal. */
module MultiMeanReversion {
  import opened Series
  import MovingAverages

  // ---------------------------------------------------------------------
  // Daily trend (trend_analyze)
  // ---------------------------------------------------------------------

  /** The `trend` column: +1 where Close is above its SMA, else -1 (a tie is -1). */
  function TrendAnalyze(close: seq<real>, smaWindow: nat): (trend: seq<int>)
    requires smaWindow >= 1
    ensures |trend| == |close|
    ensures forall i :: 0 <= i < |close| ==> trend[i] == 1 || trend[i] == -1
    ensures forall i :: 0 <= i < |close| ==>
      (trend[i] == 1 <==> close[i] > MovingAverages.Sma(close, smaWindow)[i])
  {
    var sma := MovingAverages.Sma(close, smaWindow);
    seq(|close|, i requires 0 <= i < |close| => if close[i] > sma[i] then 1 else -1)
  }

  /** The SMA is defined from the first bar on and equals Close there, so the
      first daily bar is always labelled down. */
  lemma FirstDayTrendDown(close: seq<real>, smaWindow: nat)
    requires smaWindow >= 1 && |close| > 0
    ensures TrendAnalyze(close, smaWindow)[0] == -1
  {
    MovingAverages.SmaFirstBar(close, smaWindow);
  }

  // ---------------------------------------------------------------------
  // Hourly zone (zone_analyze)
  // ---------------------------------------------------------------------

  datatype Zone = Oversold | Overbought | Neutral

  /** `(Close < BB_lower) & (RSI < rsi_oversold)`; a missing band or RSI
      makes it false. */
  predicate OversoldCond(close: real, lower: Option<real>, rsi: Option<real>, rsiOversold: real)
    ensures OversoldCond(close, lower, rsi, rsiOversold) <==>
      lower.Some? && rsi.Some? && close < lower.value && rsi.value < rsiOversold
  {
    Lt(Some(close), lower) && Lt(rsi, Some(rsiOversold))
  }

  /** `(Close > BB_upper) & (RSI > rsi_overbought)`; a missing band or RSI
      makes it false. */
  predicate OverboughtCond(close: real, upper: Option<real>, rsi: Option<real>, rsiOverbought: real)
    ensures OverboughtCond(close, upper, rsi, rsiOverbought) <==>
      upper.Some? && rsi.Some? && close > upper.value && rsi.value > rsiOverbought
  {
    Gt(Some(close), upper) && Gt(rsi, Some(rsiOverbought))
  }

  /** The zone of one hourly bar: the first condition that holds wins. */
  function ZoneOf(close: real, lower: Option<real>, upper: Option<real>, rsi: Option<real>,
                  rsiOversold: real, rsiOverbought: real): (z: Zone)
    ensures z == Oversold <==> OversoldCond(close, lower, rsi, rsiOversold)
    ensures z == Overbought <==>
      OverboughtCond(close, upper, rsi, rsiOverbought) && !OversoldCond(close, lower, rsi, rsiOversold)
    ensures rsi.None? || (lower.None? && upper.None?) ==> z == Neutral
  {
    if OversoldCond(close, lower, rsi, rsiOversold) then Oversold
    else if OverboughtCond(close, upper, rsi, rsiOverbought) then Overbought
    else Neutral
  }

  /** The `zone` column; bands and RSI are given columns that may be missing. */
  function ZoneAnalyze(close: seq<real>, lower: seq<Option<real>>, upper: seq<Option<real>>,
                       rsi: seq<Option<real>>, rsiOversold: real, rsiOverbought: real): (zone: seq<Zone>)
    requires |lower| == |close| && |upper| == |close| && |rsi| == |close|
    ensures |zone| == |close|
    ensures forall i :: 0 <= i < |close| ==>
      zone[i] == ZoneOf(close[i], lower[i], upper[i], rsi[i], rsiOversold, rsiOverbought)
  {
    seq(|close|, i requires 0 <= i < |close| =>
      ZoneOf(close[i], lower[i], upper[i], rsi[i], rsiOversold, rsiOverbought))
  }

  // ---------------------------------------------------------------------
  // As-of alignment (reindex with method="ffill")
  // ---------------------------------------------------------------------

  predicate StrictlyIncreasing(times: seq<int>) {
    forall i, j :: 0 <= i < j < |times| ==> times[i] < times[j]
  }

  /** The row whose value a reindexed, forward-filled column shows at time
      `t`: the last row stamped at or before `t`, if any. */
  function AsOfIndex(times: seq<int>, t: int): (r: Option<nat>)
    ensures r.Some? ==> r.value < |times| && times[r.value] <= t
    ensures r.Some? ==> forall k :: r.value < k < |times| ==> times[k] > t
    ensures r.None? ==> forall k :: 0 <= k < |times| ==> times[k] > t
    decreases |times|
  {
    if |times| == 0 then None
    else if times[|times| - 1] <= t then Some(|times| - 1)
    else AsOfIndex(times[..|times| - 1], t)
  }

  /** The value a reindexed, forward-filled column shows at time `t`. */
  function AsOf<T>(times: seq<int>, values: seq<T>, t: int): (r: Option<T>)
    requires |values| == |times|
    ensures r.None? <==> forall k :: 0 <= k < |times| ==> times[k] > t
    ensures r.Some? ==>
      exists j :: 0 <= j < |times| && times[j] <= t && r.value == values[j]
        && (forall k :: j < k < |times| ==> times[k] > t)
  {
    match AsOfIndex(times, t)
    case None => None
    case Some(j) => Some(values[j])
  }

  /** On a sorted index the as-of row is the one with the latest timestamp not
      after `t`; there is none exactly when `t` precedes the first row. */
  lemma AsOfIsLatestNotAfter(times: seq<int>, t: int)
    requires StrictlyIncreasing(times)
    ensures AsOfIndex(times, t).None? <==> (|times| == 0 || t < times[0])
    ensures AsOfIndex(times, t).Some? ==>
      forall k :: 0 <= k < |times| && times[k] <= t ==> times[k] <= times[AsOfIndex(times, t).value]
  {
  }

  /** Rows stamped after `t` do not change what is seen at `t`. */
  lemma {:induction false} AsOfIgnoresLaterRows<T>(times: seq<int>, values: seq<T>,
                                                   later: seq<int>, laterValues: seq<T>, t: int)
    requires |values| == |times| && |laterValues| == |later|
    requires forall k :: 0 <= k < |later| ==> later[k] > t
    ensures AsOf(times + later, values + laterValues, t) == AsOf(times, values, t)
    decreases |later|
  {
    if |later| == 0 {
      assert times + later == times && values + laterValues == values;
    } else {
      var n := |later| - 1;
      var ts, vs := times + later, values + laterValues;
      var ts', vs' := times + later[..n], values + laterValues[..n];
      assert ts[..|ts| - 1] == ts';
      AsOfIndexPrefix(ts, t);
      AsOfIgnoresLaterRows(times, values, later[..n], laterValues[..n], t);
      match AsOfIndex(ts, t)
      case None =>
      case Some(j) =>
        assert vs[j] == vs'[j];
    }
  }

  /** Dropping a last row stamped after `t` does not change the as-of row. */
  lemma AsOfIndexPrefix(times: seq<int>, t: int)
    requires |times| > 0 && times[|times| - 1] > t
    ensures AsOfIndex(times, t) == AsOfIndex(times[..|times| - 1], t)
  {
  }

  /** The context of the filter: the daily trend and hourly zone columns with
      their timestamps. */
  datatype Context = Context(dailyTimes: seq<int>, trend: seq<int>, hourlyTimes: seq<int>, zone: seq<Zone>)
  {
    predicate WellFormed() {
      |trend| == |dailyTimes| && |zone| == |hourlyTimes|
      && StrictlyIncreasing(dailyTimes) && StrictlyIncreasing(hourlyTimes)
    }

    function TrendAt(t: int): Option<int>
      requires WellFormed()
    {
      AsOf(dailyTimes, trend, t)
    }

    function ZoneAt(t: int): Option<Zone>
      requires WellFormed()
    {
      AsOf(hourlyTimes, zone, t)
    }
  }

  // ---------------------------------------------------------------------
  // Gating
  // ---------------------------------------------------------------------

  /** The context that validates a long: daily up-trend and hourly oversold. */
  predicate LongOk(trend: Option<int>, zone: Option<Zone>)
    ensures LongOk(trend, zone) ==> !ShortOk(trend, zone)
  {
    trend == Some(1) && zone == Some(Oversold)
  }

  /** The context that validates a short: daily down-trend and hourly
      overbought. */
  predicate ShortOk(trend: Option<int>, zone: Option<Zone>)
    ensures ShortOk(trend, zone) ==> trend.Some? && zone.Some?
  {
    trend == Some(-1) && zone == Some(Overbought)
  }

  /** A signal the context validates: a long in a long context or a short in
      a short context. Such a signal points the way of the daily trend. */
  predicate ValidSignal(sig: int, trend: Option<int>, zone: Option<Zone>)
    ensures ValidSignal(sig, trend, zone) ==> (sig == 1 || sig == -1) && trend == Some(sig)
    ensures ValidSignal(sig, trend, zone) ==> zone == Some(if sig == 1 then Oversold else Overbought)
  {
    (sig == 1 && LongOk(trend, zone)) || (sig == -1 && ShortOk(trend, zone))
  }

  /** One bar's signal after the filter: kept when valid, else 0. */
  function Gate(sig: int, trend: Option<int>, zone: Option<Zone>): (r: int)
    ensures r == sig || r == 0
    ensures r != 0 <==> ValidSignal(sig, trend, zone)
    ensures r == 1 || r == 0 || r == -1
    ensures r != 0 ==>
      (r == 1 && trend == Some(1) && zone == Some(Oversold))
      || (r == -1 && trend == Some(-1) && zone == Some(Overbought))
    ensures trend.None? || zone.None? ==> r == 0
  {
    if ValidSignal(sig, trend, zone) then sig else 0
  }

  function GatedSignals(times: seq<int>, signal: seq<int>, ctx: Context): (r: seq<int>)
    requires ctx.WellFormed() && |signal| == |times|
    ensures |r| == |signal|
    ensures forall i :: 0 <= i < |signal| ==> r[i] == Gate(signal[i], ctx.TrendAt(times[i]), ctx.ZoneAt(times[i]))
  {
    seq(|signal|, i requires 0 <= i < |signal| => Gate(signal[i], ctx.TrendAt(times[i]), ctx.ZoneAt(times[i])))
  }

  /** Re-running the gate on its own output with the same context changes nothing. */
  lemma GateIdempotent(times: seq<int>, signal: seq<int>, ctx: Context)
    requires ctx.WellFormed() && |signal| == |times|
    ensures GatedSignals(times, GatedSignals(times, signal, ctx), ctx) == GatedSignals(times, signal, ctx)
  {
  }

  /** A 15-minute bar stamped before the first daily or the first hourly bar
      has no context, and its signal is dropped. */
  lemma NoContextNoSignal(times: seq<int>, signal: seq<int>, ctx: Context, i: nat)
    requires ctx.WellFormed() && |signal| == |times| && i < |times|
    requires (|ctx.dailyTimes| == 0 || times[i] < ctx.dailyTimes[0])
          || (|ctx.hourlyTimes| == 0 || times[i] < ctx.hourlyTimes[0])
    ensures GatedSignals(times, signal, ctx)[i] == 0
  {
    AsOfIsLatestNotAfter(ctx.dailyTimes, times[i]);
    AsOfIsLatestNotAfter(ctx.hourlyTimes, times[i]);
  }

  // ---------------------------------------------------------------------
  // Entries, entry price, scale-ins
  // ---------------------------------------------------------------------

  /** `entry_signal`: the signal on bars where it is nonzero and differs from
      the previous bar's (the first bar has no previous value), else 0. */
  function EntrySignals(signal: seq<int>): (entry: seq<int>)
    ensures |entry| == |signal|
    ensures forall i :: 0 <= i < |signal| ==> entry[i] == signal[i] || entry[i] == 0
    ensures forall i :: 0 <= i < |signal| ==>
      (entry[i] != 0 <==> signal[i] != 0 && (i == 0 || signal[i] != signal[i - 1]))
  {
    seq(|signal|, i requires 0 <= i < |signal| =>
      if signal[i] != 0 && (i == 0 || signal[i] != signal[i - 1]) then signal[i] else 0)
  }

  /** The latest entry bar at or before bar `i`. */
  function LastEntry(entry: seq<int>, i: nat): (r: Option<nat>)
    requires i < |entry|
    ensures r.Some? ==> r.value <= i && entry[r.value] != 0
    ensures r.Some? ==> forall k :: r.value < k <= i ==> entry[k] == 0
    ensures r.None? ==> forall k :: 0 <= k <= i ==> entry[k] == 0
    decreases i
  {
    if entry[i] != 0 then Some(i)
    else if i == 0 then None
    else LastEntry(entry, i - 1)
  }

  /** The `entry_price` cell at bar `i`: the Close of the latest entry bar,
      missing before the first one. */
  function EntryPriceAt(close: seq<real>, entry: seq<int>, i: nat): (r: Option<real>)
    requires |entry| == |close| && i < |close|
    ensures r.None? <==> forall k :: 0 <= k <= i ==> entry[k] == 0
    ensures r.Some? ==>
      exists j :: 0 <= j <= i && entry[j] != 0 && r.value == close[j]
        && (forall k :: j < k <= i ==> entry[k] == 0)
  {
    match LastEntry(entry, i)
    case None => None
    case Some(j) => Some(close[j])
  }

  function EntryPrices(close: seq<real>, entry: seq<int>): (r: seq<Option<real>>)
    requires |entry| == |close|
    ensures |r| == |close|
    ensures forall i :: 0 <= i < |close| ==> r[i] == EntryPriceAt(close, entry, i)
  {
    seq(|close|, i requires 0 <= i < |close| => EntryPriceAt(close, entry, i))
  }

  /** The adverse move that triggers a scale-in. */
  const Threshold: real := 0.01

  /** The `double_down` cell of one bar: 0, overwritten with 2 for a long
      scale-in, then with -2 for a short scale-in. */
  function DoubleDownAt(sig: int, close: real, entry: int, price: Option<real>): (r: int)
    ensures r == 2 || r == 0 || r == -2
    ensures r == 2 <==> sig == 1 && entry == 0 && Lt(Some(close), Scale(price, 1.0 - Threshold))
    ensures r == -2 <==> sig == -1 && entry == 0 && Gt(Some(close), Scale(price, 1.0 + Threshold))
    ensures entry != 0 || price.None? ==> r == 0
  {
    if sig == -1 && Gt(Some(close), Scale(price, 1.0 + Threshold)) && entry == 0 then -2
    else if sig == 1 && Lt(Some(close), Scale(price, 1.0 - Threshold)) && entry == 0 then 2
    else 0
  }

  function DoubleDowns(signal: seq<int>, close: seq<real>, entry: seq<int>, price: seq<Option<real>>): (r: seq<int>)
    requires |close| == |signal| && |entry| == |signal| && |price| == |signal|
    ensures |r| == |signal|
    ensures forall i :: 0 <= i < |signal| ==> r[i] == DoubleDownAt(signal[i], close[i], entry[i], price[i])
  {
    seq(|signal|, i requires 0 <= i < |signal| => DoubleDownAt(signal[i], close[i], entry[i], price[i]))
  }

  /** `multi_tf_filter`: zeroes the signal and clears the reason of every bar
      whose signal the context does not validate (in place), then attaches
      `entry_signal`, `entry_price` and `double_down`. */
  method MultiTfFilter(times: seq<int>, close: seq<real>, signal: array<int>, reason: array<string>, ctx: Context)
    returns (entrySignal: seq<int>, entryPrice: seq<Option<real>>, doubleDown: seq<int>)
    requires ctx.WellFormed()
    requires |times| == |close| == signal.Length == reason.Length
    modifies signal, reason
    ensures signal[..] == GatedSignals(times, old(signal[..]), ctx)
    ensures forall i :: 0 <= i < reason.Length ==>
      reason[i] == if ValidSignal(old(signal[i]), ctx.TrendAt(times[i]), ctx.ZoneAt(times[i]))
                   then old(reason[i]) else ""
    ensures entrySignal == EntrySignals(signal[..])
    ensures entryPrice == EntryPrices(close, entrySignal)
    ensures doubleDown == DoubleDowns(signal[..], close, entrySignal, entryPrice)
  {
    var n := signal.Length;
    var raw := signal[..];
    var valid := seq(n, i requires 0 <= i < n => ValidSignal(raw[i], ctx.TrendAt(times[i]), ctx.ZoneAt(times[i])));
    forall i | 0 <= i < n && !valid[i] {
      signal[i] := 0;
    }
    forall i | 0 <= i < n && !valid[i] {
      reason[i] := "";
    }
    var sig := signal[..];
    entrySignal := EntrySignals(sig);
    entryPrice := FillEntryPrices(close, entrySignal);
    doubleDown := MarkDoubleDowns(sig, close, entrySignal, entryPrice);
  }

  /** `Close.where(entry_signal != 0).ffill()`: a left-to-right scan carrying
      the Close of the latest entry bar. */
  method FillEntryPrices(close: seq<real>, entry: seq<int>) returns (prices: seq<Option<real>>)
    requires |entry| == |close|
    ensures prices == EntryPrices(close, entry)
  {
    prices := [];
    var last: Option<real> := None;
    var i := 0;
    while i < |close|
      invariant 0 <= i <= |close|
      invariant |prices| == i
      invariant forall k :: 0 <= k < i ==> prices[k] == EntryPriceAt(close, entry, k)
      invariant last == if i == 0 then None else EntryPriceAt(close, entry, i - 1)
    {
      if entry[i] != 0 {
        last := Some(close[i]);
      }
      prices := prices + [last];
      i := i + 1;
    }
  }

  /** The `double_down` column: zeros, then 2 on the long scale-in bars, then
      -2 on the short scale-in bars. */
  method MarkDoubleDowns(signal: seq<int>, close: seq<real>, entry: seq<int>, price: seq<Option<real>>)
    returns (doubleDown: seq<int>)
    requires |close| == |signal| && |entry| == |signal| && |price| == |signal|
    ensures doubleDown == DoubleDowns(signal, close, entry, price)
  {
    var n := |signal|;
    var dd := new int[n](_ => 0);
    forall k | 0 <= k < n && signal[k] == 1 && Lt(Some(close[k]), Scale(price[k], 1.0 - Threshold)) && entry[k] == 0 {
      dd[k] := 2;
    }
    forall k | 0 <= k < n && signal[k] == -1 && Gt(Some(close[k]), Scale(price[k], 1.0 + Threshold)) && entry[k] == 0 {
      dd[k] := -2;
    }
    doubleDown := dd[..];
  }

  // ---------------------------------------------------------------------
  // Properties of the entry columns
  // ---------------------------------------------------------------------

  /** The first bar of the run of equal signals that bar `i` belongs to. */
  function RunStart(signal: seq<int>, i: nat): (j: nat)
    requires i < |signal|
    ensures j <= i
    ensures forall k :: j <= k <= i ==> signal[k] == signal[i]
    ensures j == 0 || signal[j - 1] != signal[i]
    decreases i
  {
    if i == 0 || signal[i - 1] != signal[i] then i else RunStart(signal, i - 1)
  }

  /** While the signal is nonzero, the latest entry bar is the start of the
      current run: entry bars are exactly the bars where a position opens or
      changes direction. */
  lemma {:induction false} LastEntryIsRunStart(signal: seq<int>, i: nat)
    requires i < |signal| && signal[i] != 0
    ensures LastEntry(EntrySignals(signal), i) == Some(RunStart(signal, i))
    decreases i
  {
    var entry := EntrySignals(signal);
    if entry[i] == 0 {
      LastEntryIsRunStart(signal, i - 1);
    }
  }

  /** The entry price of a bar with an open signal is the Close of the bar
      where that run of signal began; it is never an average. */
  lemma EntryPriceOfOpenSignal(close: seq<real>, signal: seq<int>, i: nat)
    requires |close| == |signal| && i < |signal| && signal[i] != 0
    ensures EntryPrices(close, EntrySignals(signal))[i] == Some(close[RunStart(signal, i)])
  {
    LastEntryIsRunStart(signal, i);
  }

  /** Off entry bars the entry price is carried unchanged, also across flat
      bars and scale-in bars. */
  lemma EntryPriceCarried(close: seq<real>, entry: seq<int>, i: nat)
    requires |entry| == |close| && 0 < i < |close| && entry[i] == 0
    ensures EntryPrices(close, entry)[i] == EntryPrices(close, entry)[i - 1]
  {
  }

  /** On an entry bar the entry price is that bar's Close. */
  lemma EntryPriceOnEntryBar(close: seq<real>, entry: seq<int>, i: nat)
    requires |entry| == |close| && i < |close| && entry[i] != 0
    ensures EntryPrices(close, entry)[i] == Some(close[i])
  {
  }

  /** A long scale-in marks a Close more than 1% below the Close at which the
      current long run opened, and never an entry bar; shorts mirror it. */
  lemma ScaleInIsAdverseMove(close: seq<real>, signal: seq<int>, i: nat)
    requires |close| == |signal| && i < |signal|
    ensures var entry := EntrySignals(signal);
      var dd := DoubleDowns(signal, close, entry, EntryPrices(close, entry));
      (dd[i] == 2 ==> signal[i] == 1 && entry[i] == 0 && close[i] < close[RunStart(signal, i)] * 0.99)
      && (dd[i] == -2 ==> signal[i] == -1 && entry[i] == 0 && close[i] > close[RunStart(signal, i)] * 1.01)
      && (dd[i] == 0 || dd[i] == 2 * signal[i])
  {
    if signal[i] != 0 {
      EntryPriceOfOpenSignal(close, signal, i);
    }
  }
}
