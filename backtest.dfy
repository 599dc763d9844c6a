/** The toy back-tester (`backtest_signals`).

    A left-to-right scan picks each bar's position multiplier; each bar's
    price return is weighted by the multiplier held at the end of the
    previous bar, and the weighted returns are compounded into an equity
    curve that starts at the initial capital. */
module Backtest {
  import opened Series
  import MultiMeanReversion

  /** A column read with `df.get(name, zeros)`: a missing column reads as 0. */
  function ColumnOrZeros(column: Option<seq<int>>, n: nat): (r: seq<int>)
    requires column.Some? ==> |column.value| == n
    ensures |r| == n
    ensures column.None? ==> forall i :: 0 <= i < n ==> r[i] == 0
    ensures column.Some? ==> r == column.value
  {
    match column
    case None => seq(n, _ => 0)
    case Some(c) => c
  }

  /** One step of the position loop. */
  function NextPosition(sig: int, ent: int, dd: int, prev: int): (pos: int)
    ensures sig == 0 ==> pos == 0
    ensures sig != 0 && ent != 0 ==> pos == ent
    ensures sig != 0 && ent == 0 && dd != 0 ==> pos == dd
    ensures sig != 0 && ent == 0 && dd == 0 ==> pos == prev
  {
    if sig == 0 then 0
    else if ent != 0 then ent
    else if dd != 0 then dd
    else prev
  }

  /** The position after bar `i`; the loop starts from 0. */
  function PositionAt(signal: seq<int>, entry: seq<int>, dd: seq<int>, i: nat): (p: int)
    requires |entry| == |signal| && |dd| == |signal| && i < |signal|
    ensures signal[i] == 0 ==> p == 0
    ensures signal[i] != 0 && entry[i] != 0 ==> p == entry[i]
    ensures signal[i] != 0 && entry[i] == 0 && dd[i] != 0 ==> p == dd[i]
    ensures signal[i] != 0 && entry[i] == 0 && dd[i] == 0 ==>
      p == if i == 0 then 0 else PositionAt(signal, entry, dd, i - 1)
    decreases i
  {
    NextPosition(signal[i], entry[i], dd[i], if i == 0 then 0 else PositionAt(signal, entry, dd, i - 1))
  }

  function Positions(signal: seq<int>, entry: seq<int>, dd: seq<int>): (r: seq<int>)
    requires |entry| == |signal| && |dd| == |signal|
    ensures |r| == |signal|
    ensures forall i :: 0 <= i < |signal| ==> r[i] == PositionAt(signal, entry, dd, i)
  {
    seq(|signal|, i requires 0 <= i < |signal| => PositionAt(signal, entry, dd, i))
  }

  /** `pct_change()` is finite on every bar: a zero Close is followed only by
      zero Closes. (A nonzero Close after a zero one is an infinite change;
      0/0 is NaN, which `fillna(0.0)` turns into a 0 return.) */
  predicate FiniteReturns(close: seq<real>) {
    forall i :: 0 < i < |close| && close[i - 1] == 0.0 ==> close[i] == 0.0
  }

  /** `pct_change().fillna(0) * position.shift(1).fillna(0)` at bar `i`. */
  function StrategyReturnAt(close: seq<real>, position: seq<int>, i: nat): (r: real)
    requires |position| == |close| && i < |close| && FiniteReturns(close)
    ensures i == 0 || position[i - 1] == 0 || close[i - 1] == close[i] ==> r == 0.0
    ensures i > 0 && close[i - 1] != 0.0 ==>
      r * close[i - 1] == (close[i] - close[i - 1]) * (position[i - 1] as real)
  {
    if i == 0 || close[i - 1] == 0.0 then 0.0
    else
      var q := close[i] / close[i - 1];
      assert q * close[i - 1] == close[i];
      (q - 1.0) * (position[i - 1] as real)
  }

  function StrategyReturns(close: seq<real>, position: seq<int>): (r: seq<real>)
    requires |position| == |close| && FiniteReturns(close)
    ensures |r| == |close|
    ensures forall i :: 0 <= i < |close| ==> r[i] == StrategyReturnAt(close, position, i)
  {
    seq(|close|, i requires 0 <= i < |close| => StrategyReturnAt(close, position, i))
  }

  /** `(1 + r).cumprod()` at bar `i`. */
  function Growth(rets: seq<real>, i: nat): (g: real)
    requires i < |rets|
    ensures g == 0.0 <==> exists k :: 0 <= k <= i && rets[k] == -1.0
    decreases i
  {
    var prev := if i == 0 then 1.0 else Growth(rets, i - 1);
    MulZero(prev, 1.0 + rets[i]);
    prev * (1.0 + rets[i])
  }

  lemma MulZero(a: real, b: real)
    ensures a * b == 0.0 <==> a == 0.0 || b == 0.0
  {
  }

  function EquityCurve(rets: seq<real>, initialCapital: real): (r: seq<real>)
    ensures |r| == |rets|
    ensures forall i :: 0 <= i < |rets| ==> r[i] == Growth(rets, i) * initialCapital
  {
    seq(|rets|, i requires 0 <= i < |rets| => Growth(rets, i) * initialCapital)
  }

  /** `backtest_signals`: the position loop, then the strategy returns, then
      the compounded equity curve. A missing `entry_signal` or `double_down`
      column reads as zeros. */
  method BacktestSignals(close: seq<real>, signal: seq<int>, entry: Option<seq<int>>, dd: Option<seq<int>>,
                         initialCapital: real)
    returns (equity: seq<real>)
    requires |signal| == |close| && FiniteReturns(close)
    requires entry.Some? ==> |entry.value| == |close|
    requires dd.Some? ==> |dd.value| == |close|
    ensures |equity| == |close|
    ensures equity == EquityCurve(
      StrategyReturns(close, Positions(signal, ColumnOrZeros(entry, |close|), ColumnOrZeros(dd, |close|))),
      initialCapital)
    ensures |close| > 0 ==> equity[0] == initialCapital
    ensures entry.None? && dd.None? ==> forall i :: 0 <= i < |close| ==> equity[i] == initialCapital
  {
    var position := PositionLoop(signal, ColumnOrZeros(entry, |close|), ColumnOrZeros(dd, |close|));
    var stratRet := StrategyReturns(close, position);
    equity := Compound(stratRet, initialCapital);
    if |close| > 0 {
      EquityCompounds(stratRet, initialCapital, 0);
    }
    if entry.None? && dd.None? {
      NoEntryColumnsKeepCapital(close, signal, initialCapital);
    }
  }

  /** The `for sig, ent, ddown in zip(...)` loop carrying `prev_pos`. */
  method PositionLoop(signal: seq<int>, entry: seq<int>, dd: seq<int>) returns (position: seq<int>)
    requires |entry| == |signal| && |dd| == |signal|
    ensures position == Positions(signal, entry, dd)
  {
    position := [];
    var prevPos := 0;
    var i := 0;
    while i < |signal|
      invariant 0 <= i <= |signal|
      invariant |position| == i
      invariant forall k :: 0 <= k < i ==> position[k] == PositionAt(signal, entry, dd, k)
      invariant prevPos == if i == 0 then 0 else PositionAt(signal, entry, dd, i - 1)
    {
      var pos;
      if signal[i] == 0 {
        pos := 0;
      } else if entry[i] != 0 {
        pos := entry[i];
      } else if dd[i] != 0 {
        pos := dd[i];
      } else {
        pos := prevPos;
      }
      position := position + [pos];
      prevPos := pos;
      i := i + 1;
    }
  }

  /** `(1 + strat_ret).cumprod() * initial_capital`, as a running product. */
  method Compound(rets: seq<real>, initialCapital: real) returns (equity: seq<real>)
    ensures equity == EquityCurve(rets, initialCapital)
  {
    ghost var curve := EquityCurve(rets, initialCapital);
    equity := [];
    var growth := 1.0;
    var i := 0;
    while i < |rets|
      invariant 0 <= i <= |rets|
      invariant equity == curve[..i]
      invariant growth == if i == 0 then 1.0 else Growth(rets, i - 1)
    {
      growth := growth * (1.0 + rets[i]);
      assert growth == Growth(rets, i);
      assert curve[i] == growth * initialCapital;
      assert curve[..i + 1] == curve[..i] + [curve[i]];
      equity := equity + [growth * initialCapital];
      i := i + 1;
    }
    assert curve[..|rets|] == curve;
  }

  // ---------------------------------------------------------------------
  // Properties of the position machine
  // ---------------------------------------------------------------------

  /** Every position is 0, an entry value or a scale-in value from a bar at
      or before it. */
  lemma {:induction false} PositionDrawnFromColumns(signal: seq<int>, entry: seq<int>, dd: seq<int>, i: nat)
    requires |entry| == |signal| && |dd| == |signal| && i < |signal|
    ensures var p := PositionAt(signal, entry, dd, i);
      p == 0 || exists k :: 0 <= k <= i && (p == entry[k] || p == dd[k])
    decreases i
  {
    if i > 0 && signal[i] != 0 && entry[i] == 0 && dd[i] == 0 {
      PositionDrawnFromColumns(signal, entry, dd, i - 1);
    }
  }

  /** Without `entry_signal` and `double_down` columns the position never
      leaves 0. */
  lemma {:induction false} NoEntryColumnsFlat(signal: seq<int>, i: nat)
    requires i < |signal|
    ensures PositionAt(signal, ColumnOrZeros(None, |signal|), ColumnOrZeros(None, |signal|), i) == 0
    decreases i
  {
    if i > 0 {
      NoEntryColumnsFlat(signal, i - 1);
    }
  }

  /** Entry and scale-in columns consistent with a signal column: an entry
      is the signal or 0, a nonzero signal without an entry continues the
      previous bar's signal, and a scale-in doubles the signal or is 0. */
  predicate ConsistentColumns(signal: seq<int>, entry: seq<int>, dd: seq<int>)
    requires |entry| == |signal| && |dd| == |signal|
  {
    forall k :: 0 <= k < |signal| ==>
      (entry[k] == 0 || entry[k] == signal[k])
      && (signal[k] != 0 && entry[k] == 0 ==> k > 0 && signal[k - 1] == signal[k])
      && (dd[k] == 0 || dd[k] == 2 * signal[k])
  }

  /** Under consistent columns the position has the direction of the signal:
      flat when the signal is 0, otherwise one unit or two units in the
      signal's direction. */
  lemma {:induction false} PositionFollowsSignal(signal: seq<int>, entry: seq<int>, dd: seq<int>, i: nat)
    requires |entry| == |signal| && |dd| == |signal| && i < |signal|
    requires ConsistentColumns(signal, entry, dd)
    ensures var p := PositionAt(signal, entry, dd, i);
      (signal[i] == 0 ==> p == 0) && (signal[i] != 0 ==> p == signal[i] || p == 2 * signal[i])
    decreases i
  {
    assert entry[i] == 0 || entry[i] == signal[i];
    assert signal[i] != 0 && entry[i] == 0 ==> i > 0 && signal[i - 1] == signal[i];
    assert dd[i] == 0 || dd[i] == 2 * signal[i];
    if i > 0 && signal[i] != 0 && entry[i] == 0 && dd[i] == 0 {
      PositionFollowsSignal(signal, entry, dd, i - 1);
    }
  }

  /** The filter's entry and scale-in columns are consistent with its signal,
      so on its output long and short are never held at once. */
  lemma FilteredPositionFollowsSignal(close: seq<real>, signal: seq<int>, i: nat)
    requires |close| == |signal| && i < |signal|
    ensures var entry := MultiMeanReversion.EntrySignals(signal);
      var dd := MultiMeanReversion.DoubleDowns(signal, close, entry, MultiMeanReversion.EntryPrices(close, entry));
      var p := PositionAt(signal, entry, dd, i);
      (signal[i] == 0 ==> p == 0) && (signal[i] != 0 ==> p == signal[i] || p == 2 * signal[i])
  {
    var entry := MultiMeanReversion.EntrySignals(signal);
    var dd := MultiMeanReversion.DoubleDowns(signal, close, entry, MultiMeanReversion.EntryPrices(close, entry));
    forall k | 0 <= k < |signal|
      ensures dd[k] == 0 || dd[k] == 2 * signal[k]
    {
      MultiMeanReversion.ScaleInIsAdverseMove(close, signal, k);
    }
    assert ConsistentColumns(signal, entry, dd);
    PositionFollowsSignal(signal, entry, dd, i);
  }

  /** With the filter's signals in {-1, 0, 1}, every position is in
      {-2, -1, 0, 1, 2}. */
  lemma FilteredPositionRange(close: seq<real>, signal: seq<int>, i: nat)
    requires |close| == |signal| && i < |signal|
    requires forall k :: 0 <= k < |signal| ==> -1 <= signal[k] <= 1
    ensures var entry := MultiMeanReversion.EntrySignals(signal);
      var dd := MultiMeanReversion.DoubleDowns(signal, close, entry, MultiMeanReversion.EntryPrices(close, entry));
      -2 <= PositionAt(signal, entry, dd, i) <= 2
  {
    FilteredPositionFollowsSignal(close, signal, i);
  }

  // ---------------------------------------------------------------------
  // Properties of the equity curve
  // ---------------------------------------------------------------------

  /** The curve starts at the initial capital and compounds one strategy
      return per bar. */
  lemma EquityCompounds(rets: seq<real>, initialCapital: real, i: nat)
    requires i < |rets| && rets[0] == 0.0
    ensures EquityCurve(rets, initialCapital)[0] == initialCapital
    ensures i > 0 ==> EquityCurve(rets, initialCapital)[i]
                      == EquityCurve(rets, initialCapital)[i - 1] * (1.0 + rets[i])
  {
    if i > 0 {
      var g := Growth(rets, i - 1);
      assert g * (1.0 + rets[i]) * initialCapital == g * initialCapital * (1.0 + rets[i]);
    }
  }

  /** The first strategy return is 0, and each later one uses only the
      previous bar's position. */
  lemma NoLookAhead(close: seq<real>, p1: seq<int>, p2: seq<int>, i: nat)
    requires |p1| == |close| && |p2| == |close| && FiniteReturns(close) && i < |close|
    requires forall k :: 0 <= k < i ==> p1[k] == p2[k]
    ensures StrategyReturns(close, p1)[0] == 0.0
    ensures forall k :: 0 <= k <= i ==> StrategyReturns(close, p1)[k] == StrategyReturns(close, p2)[k]
    ensures forall c: real, k :: 0 <= k <= i ==>
      EquityCurve(StrategyReturns(close, p1), c)[k] == EquityCurve(StrategyReturns(close, p2), c)[k]
  {
    var r1, r2 := StrategyReturns(close, p1), StrategyReturns(close, p2);
    GrowthAgrees(r1, r2, i);
  }

  lemma {:induction false} GrowthAgrees(r1: seq<real>, r2: seq<real>, i: nat)
    requires i < |r1| && i < |r2|
    requires forall k :: 0 <= k <= i ==> r1[k] == r2[k]
    ensures forall k :: 0 <= k <= i ==> Growth(r1, k) == Growth(r2, k)
    decreases i
  {
    if i > 0 {
      GrowthAgrees(r1, r2, i - 1);
    }
  }

  /** Equity stays strictly positive while no strategy return reaches -100%. */
  lemma {:induction false} EquityPositive(rets: seq<real>, initialCapital: real, i: nat)
    requires initialCapital > 0.0 && i < |rets|
    requires forall k :: 0 <= k < |rets| ==> rets[k] > -1.0
    ensures EquityCurve(rets, initialCapital)[i] > 0.0
  {
    GrowthPositive(rets, i);
    MulPositive(Growth(rets, i), initialCapital);
  }

  lemma {:induction false} GrowthPositive(rets: seq<real>, i: nat)
    requires i < |rets|
    requires forall k :: 0 <= k < |rets| ==> rets[k] > -1.0
    ensures Growth(rets, i) > 0.0
    decreases i
  {
    if i > 0 {
      GrowthPositive(rets, i - 1);
      MulPositive(Growth(rets, i - 1), 1.0 + rets[i]);
    }
  }

  /** All-flat positions (for example, no entry columns) keep equity at the
      initial capital on every bar. */
  lemma FlatEquityConstant(close: seq<real>, position: seq<int>, initialCapital: real)
    requires |position| == |close| && FiniteReturns(close)
    requires forall k :: 0 <= k < |position| ==> position[k] == 0
    ensures forall i :: 0 <= i < |close| ==>
      EquityCurve(StrategyReturns(close, position), initialCapital)[i] == initialCapital
  {
    var r := StrategyReturns(close, position);
    forall i | 0 <= i < |close|
      ensures Growth(r, i) == 1.0
    {
      GrowthOfZeroReturns(r, i);
    }
  }

  lemma {:induction false} GrowthOfZeroReturns(rets: seq<real>, i: nat)
    requires i < |rets|
    requires forall k :: 0 <= k <= i ==> rets[k] == 0.0
    ensures Growth(rets, i) == 1.0
    decreases i
  {
    if i > 0 {
      GrowthOfZeroReturns(rets, i - 1);
    }
  }

  /** Without entry columns the back-test never trades: equity is the
      initial capital on every bar. */
  lemma NoEntryColumnsKeepCapital(close: seq<real>, signal: seq<int>, initialCapital: real)
    requires |signal| == |close| && FiniteReturns(close)
    ensures var zeros := ColumnOrZeros(None, |close|);
      forall i :: 0 <= i < |close| ==>
        EquityCurve(StrategyReturns(close, Positions(signal, zeros, zeros)), initialCapital)[i] == initialCapital
  {
    var zeros := ColumnOrZeros(None, |close|);
    var pos := Positions(signal, zeros, zeros);
    forall k | 0 <= k < |pos|
      ensures pos[k] == 0
    {
      NoEntryColumnsFlat(signal, k);
    }
    FlatEquityConstant(close, pos, initialCapital);
  }

  lemma MulPositive(a: real, b: real)
    requires a > 0.0 && b > 0.0
    ensures a * b > 0.0
  {
  }
}
