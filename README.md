# Multi-timeframe mean reversion: a Dafny model

This project models the signal pipeline of a small technical-analysis toolkit. The pipeline works on price series that have already been loaded:

- **Moving averages** of Close. `sma` is a trailing mean with `min_periods=1`. `ema` is the span recursion with `adjust=False`.
- **Single-timeframe strategies.** Mean reversion compares Close with its SMA and RSI with two thresholds. The moving-average crossover and the MACD trend strategies detect where one column crosses another.
- **Multi-timeframe context**:
  - a daily trend label: +1 above the SMA, otherwise -1;
  - an hourly zone label: oversold, overbought or neutral, where the first matching condition wins.
- **The cross-timeframe filter `multi_tf_filter`.** It projects the daily trend and the hourly zone onto the 15-minute bars "as of" each bar's timestamp. It zeroes every signal the context does not validate and clears that bar's reason. It then attaches three columns:
  - `entry_signal`, set where the surviving signal changes to a nonzero value;
  - `entry_price`, the Close of the latest entry bar, carried forward;
  - `double_down`, a ±2 scale-in marker set where Close has moved 1% against the open signal.
- **The back-tester `backtest_signals`.** A left-to-right loop picks each bar's position multiplier. Each bar's price return is weighted by the previous bar's multiplier, and the weighted returns are compounded into an equity curve.

Prices and indicators are `real`. A missing (NaN) cell is `Option.None`, and every comparison with a missing cell is false.

Pure column expressions are functions on sequences. The in-place parts are methods:
- the masked `.loc` writes are `forall` statements over arrays;
- the forward-fill of `entry_price` is a while loop;
- the position loop and the cumulative product are while loops.

Each method is proved equal to a specification function. The lemmas state what the source promises about those functions.

Some consequences of the code:
- The filter checks the daily trend as well as the hourly zone (`core/methods/multi_mean_reversion.py:131-132`).
- The entry price is the Close of the latest entry bar. It is never averaged.
- Because the SMA uses `min_periods=1`, the trend is defined from the first daily bar on. The first daily bar is always labelled down (`FirstDayTrendDown`).
- The docstring of `backtest_signals` (`core/backtest.py:9-11`) describes entering long on signal 1 and short on signal -1, with a position size of one unit. The position loop (`core/backtest.py:29-44`), however, moves only on the `entry_signal` and `double_down` columns:
  - A frame without those columns never trades (`NoEntryColumnsFlat`, `NoEntryColumnsKeepCapital`). This is the case for the output of `mean_reversion.analyze`.
  - After a scale-in the position is two units (`FilteredPositionFollowsSignal`).

  This is unverified: it is read from the code and has not been run.

A note on bar stamps: the alignment compares timestamps only. Suppose the daily and hourly frames come from `resample_df` (`core/dataloader.py:21-35`), the repository's only resampling helper. With pandas' defaults, `df.resample(timeframe)` stamps each bar with the start of its interval, while the bar's Close is the last price inside it. The daily bar stamped at midnight, whose trend uses that whole day's Close, would then be forward-filled onto every 15-minute bar of the same day. The alignment itself never reads a row stamped after the bar (`AsOfIgnoresLaterRows`), but in that case the context values would carry information from later in the interval. This is unverified. The model takes the timestamps as given.

Files: `series.dfy` (missing cells, shifted cells, column names), `moving_averages.dfy`, `mean_reversion.dfy`, `crossing.dfy` (the crossing rule shared by the two crossover strategies), `moving_average_crossover.dfy`, `macd_trend.dfy`, `multi_mean_reversion.dfy`, `backtest.dfy`.

## Model

| member | source | states |
|---|---|---|
| Series.Shifted | core/methods/moving_average_crossover.py:23-24 | the value one row above is missing exactly on the first row and is the previous cell elsewhere |
| Series.ColumnName | core/indicators/moving_averages.py:9 | an indicator column name is its prefix, then `_`, then decimal digits that read back as the window |
| Series.DecimalRoundTrip | core/indicators/moving_averages.py:9 | the decimal text written for a window reads back as that window |
| Series.ColumnNamesDistinct | core/indicators/moving_averages.py:9 | two different windows never give the same column name |
| MovingAverages.Window | core/indicators/moving_averages.py:10 | the rolling window at bar i covers min(i+1, window) bars ending at i |
| MovingAverages.Sma | core/indicators/moving_averages.py:10 | the SMA column has one value per bar, including the first window-1 bars |
| MovingAverages.SmaWithinWindow | core/indicators/moving_averages.py:10 | the SMA at bar i lies between the smallest and the largest Close of its window |
| MovingAverages.SmaFullWindow | core/indicators/moving_averages.py:10 | once the window is full, the SMA is the sum of the last `window` closes divided by `window` |
| MovingAverages.SmaFirstBar | core/indicators/moving_averages.py:10 | the SMA of the first bar is that bar's Close |
| MovingAverages.SmaOfConstant | core/indicators/moving_averages.py:10 | a constant Close series has an SMA equal to that constant on every bar |
| MovingAverages.Alpha | core/indicators/moving_averages.py:20 | the EMA weight 2/(span+1) lies in (0, 1] for every span of at least 1 |
| MovingAverages.Ema | core/indicators/moving_averages.py:20 | EMA[0] = Close[0] and EMA[i] = α·Close[i] + (1−α)·EMA[i−1] |
| MovingAverages.EmaAtBounds | core/indicators/moving_averages.py:20 | every common bound of Close[0..i] also bounds EMA[i] |
| MovingAverages.EmaWithinHistory | core/indicators/moving_averages.py:20 | EMA[i] lies between the smallest and the largest Close seen up to bar i |
| MovingAverages.EmaOfConstant | core/indicators/moving_averages.py:20 | a constant Close series has an EMA equal to that constant on every bar |
| MovingAverages.AddSma | core/indicators/moving_averages.py:3-11 | `sma` adds exactly the column `SMA_{window}`, holding the SMA of Close, and leaves every other column (Close included) unchanged |
| MovingAverages.AddEma | core/indicators/moving_averages.py:13-21 | `ema` adds exactly the column `EMA_{window}`, holding the EMA of Close, and leaves every other column unchanged |
| MeanReversion.BuyCond | core/methods/mean_reversion.py:33 | the buy condition holds iff the SMA and RSI are present, Close < SMA and RSI < oversold |
| MeanReversion.SellCond | core/methods/mean_reversion.py:34 | the sell condition holds iff the SMA and RSI are present, Close > SMA and RSI > overbought |
| MeanReversion.BuyReason | core/methods/mean_reversion.py:41 | the buy reason is a nonempty text |
| MeanReversion.SellReason | core/methods/mean_reversion.py:42 | the sell reason is nonempty and differs from the buy reason |
| MeanReversion.BarSignal | core/methods/mean_reversion.py:29-38 | the signal is in {-1,0,1}; it is 1 iff Close < SMA and RSI < oversold; it is -1 iff Close > SMA and RSI > overbought |
| MeanReversion.BarReason | core/methods/mean_reversion.py:30-42 | the reason is "" iff the signal is 0; buy bars get the buy text and sell bars the sell text |
| MeanReversion.Analyze | core/methods/mean_reversion.py:5-44 | the masked writes give every bar the per-bar signal and reason, computed against the SMA of Close |
| MeanReversion.BuySellExclusive | core/methods/mean_reversion.py:33-34 | the buy and sell conditions never hold on the same bar, so the order of the writes does not matter |
| MeanReversion.AtAverageNoSignal | core/methods/mean_reversion.py:33-38 | a bar whose Close equals its SMA gets signal 0 and reason "" |
| MeanReversion.MissingIndicatorNoSignal | core/methods/mean_reversion.py:33-38 | a missing SMA or RSI gives signal 0 and reason "" |
| Crossing.CrossUp | core/methods/moving_average_crossover.py:26 | a bar crosses up iff it is not the first bar, a > b on it and a <= b on the bar before |
| Crossing.CrossDown | core/methods/moving_average_crossover.py:27 | a bar crosses down iff it is not the first bar, a < b on it and a >= b on the bar before |
| Crossing.CrossSignal | core/methods/moving_average_crossover.py:23-31 | the signal is in {-1,0,1}; it is 1 iff a[i] > b[i] and a[i-1] <= b[i-1] with i > 0; it is -1 iff a[i] < b[i] and a[i-1] >= b[i-1] with i > 0 |
| Crossing.CrossReason | core/methods/moving_average_crossover.py:33-35 | the reason is "" iff the signal is 0; it is the up text on +1 bars and the down text on -1 bars |
| Crossing.Signals | core/methods/moving_average_crossover.py:29-35 | the masked writes give every bar its crossing signal and reason |
| Crossing.UpDownExclusive | core/methods/moving_average_crossover.py:26-27 | cross-up and cross-down never hold on the same bar |
| Crossing.FirstBarNoSignal | core/methods/moving_average_crossover.py:23-27 | the first bar never crosses, because its shifted values are missing |
| Crossing.EqualNoSignal | core/methods/moving_average_crossover.py:26-27 | a bar where the two columns are equal has signal 0 |
| Crossing.NoConsecutiveCrossUps | core/methods/moving_average_crossover.py:26-27 | two consecutive bars never both cross in the same direction |
| MaCrossover.UpText | core/methods/moving_average_crossover.py:34 | the cross-up reason is nonempty |
| MaCrossover.DownText | core/methods/moving_average_crossover.py:34-35 | the cross-down reason is nonempty and differs from the cross-up reason |
| MaCrossover.Analyze | core/methods/moving_average_crossover.py:6-37 | the outputs are the short and long SMAs of Close; signal[i] is their crossing signal; reason is "" iff the signal is 0, and otherwise names the direction of the cross |
| MaCrossover.EqualWindowsNeverSignal | core/methods/moving_average_crossover.py:17-27 | with equal windows the two averages coincide and no bar ever signals |
| MacdTrend.Analyze | core/methods/macd_trend.py:6-37 | signal[i] is 1 iff MACD crosses above its signal line at i, -1 iff it crosses below, and 0 otherwise; the reason is "MACD crossed above signal" / "MACD crossed below signal" exactly on those bars and "" elsewhere |
| MultiMeanReversion.TrendAnalyze | core/methods/multi_mean_reversion.py:42-44 | trend is always +1 or -1; it is +1 iff Close > SMA, so a tie gives -1 |
| MultiMeanReversion.FirstDayTrendDown | core/methods/multi_mean_reversion.py:42-44 | the first daily bar is always labelled -1 |
| MultiMeanReversion.OversoldCond | core/methods/multi_mean_reversion.py:80 | the oversold condition holds iff the lower band and RSI are present, Close < lower band and RSI < rsi_oversold |
| MultiMeanReversion.OverboughtCond | core/methods/multi_mean_reversion.py:81 | the overbought condition holds iff the upper band and RSI are present, Close > upper band and RSI > rsi_overbought |
| MultiMeanReversion.ZoneOf | core/methods/multi_mean_reversion.py:80-87 | oversold iff Close < lower band and RSI < rsi_oversold; overbought iff Close > upper band and RSI > rsi_overbought and not oversold; neutral when the RSI or both bands are missing |
| MultiMeanReversion.ZoneAnalyze | core/methods/multi_mean_reversion.py:71-87 | the zone column applies the per-bar first-match rule to every hourly bar |
| MultiMeanReversion.AsOfIndex | core/methods/multi_mean_reversion.py:127-128 | the forward-filled row at time t is the last row stamped at or before t; it is missing iff every row is stamped after t |
| MultiMeanReversion.AsOf | core/methods/multi_mean_reversion.py:127-128 | the aligned cell at time t is missing iff every context row is stamped after t; otherwise it is the value of a row stamped at or before t with no later row at or before t |
| MultiMeanReversion.AsOfIsLatestNotAfter | core/methods/multi_mean_reversion.py:127-128 | on a sorted index the as-of row has the latest timestamp not after t; there is none iff t precedes the first row |
| MultiMeanReversion.AsOfIgnoresLaterRows | core/methods/multi_mean_reversion.py:127-128 | context rows stamped after t do not change the aligned value at t (a statement about timestamps; see the note on bar stamps above) |
| MultiMeanReversion.AsOfIndexPrefix | core/methods/multi_mean_reversion.py:127-128 | dropping a last row stamped after t does not change the as-of row |
| MultiMeanReversion.LongOk | core/methods/multi_mean_reversion.py:131 | long_ok means daily trend 1 and hourly zone oversold; it never holds together with short_ok |
| MultiMeanReversion.ShortOk | core/methods/multi_mean_reversion.py:132 | short_ok means daily trend -1 and hourly zone overbought; it needs both context cells present |
| MultiMeanReversion.ValidSignal | core/methods/multi_mean_reversion.py:134-136 | a valid signal is +1 or -1, equals the daily trend, and meets the oversold zone when long and the overbought zone when short |
| MultiMeanReversion.Gate | core/methods/multi_mean_reversion.py:131-138 | a filtered signal is unchanged or 0, and nonzero exactly when valid, so a valid signal is kept; when nonzero it is 1 with trend 1 and zone oversold, or -1 with trend -1 and zone overbought; a missing context always gives 0 |
| MultiMeanReversion.GatedSignals | core/methods/multi_mean_reversion.py:127-138 | each filtered signal is the gate applied with that bar's as-of trend and zone |
| MultiMeanReversion.GateIdempotent | core/methods/multi_mean_reversion.py:131-138 | filtering the filtered signal again with the same context changes nothing |
| MultiMeanReversion.NoContextNoSignal | core/methods/multi_mean_reversion.py:127-136 | a bar stamped before the first daily bar or before the first hourly bar has its signal dropped |
| MultiMeanReversion.EntrySignals | core/methods/multi_mean_reversion.py:141-144 | entry_signal[i] is signal[i] or 0; it is nonzero iff signal[i] ≠ 0 and (i = 0 or signal[i] ≠ signal[i-1]) |
| MultiMeanReversion.LastEntry | core/methods/multi_mean_reversion.py:148 | the latest entry bar at or before i, with no entry between it and i; it is missing iff there is no entry up to i |
| MultiMeanReversion.EntryPriceAt | core/methods/multi_mean_reversion.py:148 | the entry_price cell at bar i is missing iff no entry bar is at or before i; otherwise it is the Close of an entry bar j ≤ i with no entry bar after j up to i |
| MultiMeanReversion.EntryPrices | core/methods/multi_mean_reversion.py:148 | entry_price has one cell per bar, cell i holding the Close of the latest entry bar at or before i, or missing before the first entry |
| MultiMeanReversion.FillEntryPrices | core/methods/multi_mean_reversion.py:148 | the forward-fill scan yields, at each bar, the Close of the latest entry bar, or a missing cell before the first one |
| MultiMeanReversion.DoubleDownAt | core/methods/multi_mean_reversion.py:151-170 | double_down is in {-2,0,2}; it is 2 iff signal = 1, no entry and Close < entry_price·0.99; it is -2 iff signal = -1, no entry and Close > entry_price·1.01; it is never nonzero on an entry bar or without an entry price |
| MultiMeanReversion.DoubleDowns | core/methods/multi_mean_reversion.py:167-170 | the double_down column applies the per-bar rule to every bar |
| MultiMeanReversion.MarkDoubleDowns | core/methods/multi_mean_reversion.py:167-170 | the zero-initialised column with its two masked writes equals the per-bar rule |
| MultiMeanReversion.MultiTfFilter | core/methods/multi_mean_reversion.py:108-172 | signal becomes the gated signal in place; reason is kept on valid bars and cleared elsewhere; entry_signal, entry_price and double_down are the three columns above, computed from the new signal |
| MultiMeanReversion.RunStart | core/methods/multi_mean_reversion.py:141-144 | the first bar of the run of equal signals containing i |
| MultiMeanReversion.LastEntryIsRunStart | core/methods/multi_mean_reversion.py:141-148 | while the signal is nonzero, the latest entry bar is where the current run began |
| MultiMeanReversion.EntryPriceOfOpenSignal | core/methods/multi_mean_reversion.py:148 | the entry price of a bar with an open signal is the Close where that run began, never an average |
| MultiMeanReversion.EntryPriceCarried | core/methods/multi_mean_reversion.py:148 | off entry bars the entry price is carried unchanged; it is not reset by flat bars or updated by scale-ins |
| MultiMeanReversion.EntryPriceOnEntryBar | core/methods/multi_mean_reversion.py:148 | on an entry bar the entry price is that bar's Close |
| MultiMeanReversion.ScaleInIsAdverseMove | core/methods/multi_mean_reversion.py:151-170 | a +2 marks a long bar, not an entry, with Close more than 1% below the Close where the long run opened; -2 mirrors it for shorts; double_down is 0 or twice the signal |
| Backtest.ColumnOrZeros | core/backtest.py:29-30 | a missing entry_signal or double_down column reads as all zeros; a present one is read as it is |
| Backtest.NextPosition | core/backtest.py:35-42 | 0 if flat; else the entry value if nonzero; else the double-down value if nonzero; else the previous position |
| Backtest.PositionAt | core/backtest.py:32-44 | the position after bar i is 0 on a flat signal, else the entry value if nonzero, else the double-down value if nonzero, else the position after bar i-1 (0 before the first bar) |
| Backtest.Positions | core/backtest.py:32-44 | the position series has one value per bar, cell i being the loop's position after bar i |
| Backtest.PositionLoop | core/backtest.py:32-44 | the loop carrying prev_pos (starting at 0) produces the specified position series |
| Backtest.StrategyReturnAt | core/backtest.py:26-48 | strat_ret[i] is 0 on the first bar, after a flat bar, on an unchanged Close and after a zero Close; otherwise strat_ret[i]·Close[i-1] = (Close[i] − Close[i-1])·position[i-1] |
| Backtest.StrategyReturns | core/backtest.py:26-48 | one strategy return per bar, cell i being the price change from bar i-1 to bar i weighted by the position after bar i-1 |
| Backtest.Growth | core/backtest.py:51 | the compounded growth factor up to bar i is 0 iff some bar up to i has a strategy return of exactly -100% |
| Backtest.EquityCurve | core/backtest.py:51 | one equity value per bar, cell i being the initial capital times the product of (1 + strat_ret[k]) over k ≤ i |
| Backtest.Compound | core/backtest.py:51 | the running product times the initial capital equals the equity curve |
| Backtest.BacktestSignals | core/backtest.py:5-53 | the equity has one value per bar and is the compounded curve of the position-weighted returns; it starts at the initial capital; without entry columns it stays at the initial capital |
| Backtest.PositionDrawnFromColumns | core/backtest.py:32-44 | every position is 0 or an entry or double-down value from a bar at or before it |
| Backtest.NoEntryColumnsFlat | core/backtest.py:29-44 | without entry_signal and double_down columns the position is always 0 |
| Backtest.PositionFollowsSignal | core/backtest.py:35-44 | with entry and scale-in columns consistent with the signal, the position is 0 on flat bars and is the signal or twice the signal elsewhere |
| Backtest.FilteredPositionFollowsSignal | core/backtest.py:35-44 | on the filter's output, long and short are never held at once: the position is 0, the signal, or twice the signal |
| Backtest.FilteredPositionRange | core/backtest.py:32-44 | on the filter's output, every position is in {-2,-1,0,1,2} |
| Backtest.EquityCompounds | core/backtest.py:51 | equity[0] is the initial capital and equity[i] = equity[i-1]·(1 + strat_ret[i]) |
| Backtest.NoLookAhead | core/backtest.py:48-51 | strat_ret[0] = 0; positions at bar i or later change neither the strategy returns nor the equity up to bar i, for every initial capital |
| Backtest.EquityPositive | core/backtest.py:51 | with positive initial capital and every strategy return above -1, equity stays strictly positive |
| Backtest.FlatEquityConstant | core/backtest.py:48-51 | an always-flat position keeps equity at the initial capital |
| Backtest.NoEntryColumnsKeepCapital | core/backtest.py:29-51 | without entry columns, equity is the initial capital on every bar |

## Left out

- Loading CSV files, resampling bars to a timeframe (`core/dataloader.py`), plotting (`core/visualizer.py`), the command line (`main.py`) and logging (`core/logger.py`) are not part of this model. They are I/O and library behaviour.
- The RSI, Bollinger band and MACD computations (`core/indicators/rsi.py`, `bbands.py`, `macd.py`) are not part of this model. Their columns are inputs: RSI and the bands may be missing cells, and the MACD and its signal line are plain numbers.
- IEEE-754 arithmetic is not modelled. Arithmetic is exact on `real`, and NaN appears only as a missing cell. Close is never missing.
- The `trigger` wrapper (`core/methods/multi_mean_reversion.py:96-100`) only calls `mean_reversion.analyze`, so `MeanReversion.Analyze` stands for it.
- Timestamps are integers. The DataFrame index is not otherwise carried.
- MeanReversion.BuyReason: Python's float formatting of the thresholds (`30.0`) is not modelled. The printed threshold text is a parameter.
- Backtest.BacktestSignals: a zero Close followed by a nonzero Close makes `pct_change` produce ±infinity, which reals cannot express, so the model requires a zero Close to be followed only by zero Closes. A zero Close followed by another zero Close gives 0/0 = NaN, which `fillna(0.0)` turns into a 0 return; the model gives that same 0 return.
- Backtest.BacktestSignals: the initial `sort_index()` is not modelled. Rows are taken in time order.
- MultiMeanReversion.MultiTfFilter: pandas also accepts a strictly decreasing context index for a forward-filled reindex. The model requires strictly increasing daily and hourly timestamps. A duplicated or unsorted index makes pandas raise.
- `rolling(window)` with a window below 1 and `ewm(span=...)` with a span below 1 make pandas raise a ValueError. The model requires `window >= 1` and `span >= 1` (`MovingAverages.Sma`, `MovingAverages.Ema`, `MovingAverages.Alpha` and their callers) rather than modelling that error.
