/** Single-timeframe mean reversion (`mean_reversion.analyze`).

    Buy (+1) when Close is below its SMA and RSI is below the oversold
    threshold; sell (-1) when Close is above its SMA and RSI is above the
    overbought threshold; otherwise 0. The SMA is computed here from Close; the
    RSI column is an input. */
module MeanReversion {
  import opened Series
  import MovingAverages

  /** The strategy's parameters. Python prints each threshold into the reason
      text with its float formatting; that text is carried here as given. */
  datatype Params = Params(
    smaWindow: nat,
    rsiWindow: nat,
    oversold: real,
    overbought: real,
    oversoldText: string,
    overboughtText: string)

  /** `(Close < SMA) & (RSI < oversold)`; a missing SMA or RSI makes it false. */
  predicate BuyCond(close: real, sma: Option<real>, rsi: Option<real>, p: Params)
    ensures BuyCond(close, sma, rsi, p) <==>
      sma.Some? && rsi.Some? && close < sma.value && rsi.value < p.oversold
  {
    Lt(Some(close), sma) && Lt(rsi, Some(p.oversold))
  }

  /** `(Close > SMA) & (RSI > overbought)`; a missing SMA or RSI makes it false. */
  predicate SellCond(close: real, sma: Option<real>, rsi: Option<real>, p: Params)
    ensures SellCond(close, sma, rsi, p) <==>
      sma.Some? && rsi.Some? && close > sma.value && rsi.value > p.overbought
  {
    Gt(Some(close), sma) && Gt(rsi, Some(p.overbought))
  }

  function BuyReason(p: Params): (s: string)
    ensures |s| > 0
  {
    "Price below " + ColumnName("SMA", p.smaWindow) + " and " + ColumnName("RSI", p.rsiWindow)
      + " below " + p.oversoldText
  }

  function SellReason(p: Params): (s: string)
    ensures |s| > 0 && s != BuyReason(p)
  {
    var s := "Price above " + ColumnName("SMA", p.smaWindow) + " and " + ColumnName("RSI", p.rsiWindow)
      + " above " + p.overboughtText;
    assert s[6] != BuyReason(p)[6];
    s
  }

  /** The signal one bar receives: the column starts at 0, buy bars are
      written with 1, then sell bars with -1. */
  function BarSignal(close: real, sma: Option<real>, rsi: Option<real>, p: Params): (r: int)
    ensures r == 1 || r == 0 || r == -1
    ensures r == 1 <==> BuyCond(close, sma, rsi, p)
    ensures r == -1 <==> SellCond(close, sma, rsi, p)
  {
    if SellCond(close, sma, rsi, p) then -1
    else if BuyCond(close, sma, rsi, p) then 1
    else 0
  }

  /** The reason one bar receives, written in the same order as the signal. */
  function BarReason(close: real, sma: Option<real>, rsi: Option<real>, p: Params): (r: string)
    ensures r == "" <==> BarSignal(close, sma, rsi, p) == 0
    ensures BarSignal(close, sma, rsi, p) == 1 ==> r == BuyReason(p)
    ensures BarSignal(close, sma, rsi, p) == -1 ==> r == SellReason(p)
  {
    if SellCond(close, sma, rsi, p) then SellReason(p)
    else if BuyCond(close, sma, rsi, p) then BuyReason(p)
    else ""
  }

  /** `analyze`: attaches the SMA, then initialises `signal` and `reason` and
      overwrites them on the buy bars and then on the sell bars. */
  method Analyze(close: seq<real>, rsi: seq<Option<real>>, p: Params)
    returns (sma: seq<real>, signal: seq<int>, reason: seq<string>)
    requires |rsi| == |close| && p.smaWindow >= 1
    ensures sma == MovingAverages.Sma(close, p.smaWindow)
    ensures |signal| == |close| && |reason| == |close|
    ensures forall i :: 0 <= i < |close| ==>
      signal[i] == BarSignal(close[i], Some(sma[i]), rsi[i], p)
      && reason[i] == BarReason(close[i], Some(sma[i]), rsi[i], p)
  {
    sma := MovingAverages.Sma(close, p.smaWindow);
    var n := |close|;
    var sig := new int[n](_ => 0);
    var why := new string[n](_ => "");
    forall i | 0 <= i < n && BuyCond(close[i], Some(sma[i]), rsi[i], p) {
      sig[i] := 1;
    }
    forall i | 0 <= i < n && SellCond(close[i], Some(sma[i]), rsi[i], p) {
      sig[i] := -1;
    }
    forall i | 0 <= i < n && BuyCond(close[i], Some(sma[i]), rsi[i], p) {
      why[i] := BuyReason(p);
    }
    forall i | 0 <= i < n && SellCond(close[i], Some(sma[i]), rsi[i], p) {
      why[i] := SellReason(p);
    }
    signal, reason := sig[..], why[..];
  }

  // ---------------------------------------------------------------------
  // Properties
  // ---------------------------------------------------------------------

  /** Buy and sell never hold on the same bar, so the order of the two
      masked writes does not matter. */
  lemma BuySellExclusive(close: real, sma: Option<real>, rsi: Option<real>, p: Params)
    ensures !(BuyCond(close, sma, rsi, p) && SellCond(close, sma, rsi, p))
  {
  }

  /** A bar whose Close equals its SMA never trades. */
  lemma AtAverageNoSignal(close: real, rsi: Option<real>, p: Params)
    ensures BarSignal(close, Some(close), rsi, p) == 0
    ensures BarReason(close, Some(close), rsi, p) == ""
  {
  }

  /** A missing SMA or RSI value yields no signal and no reason. */
  lemma MissingIndicatorNoSignal(close: real, sma: Option<real>, rsi: Option<real>, p: Params)
    requires sma.None? || rsi.None?
    ensures BarSignal(close, sma, rsi, p) == 0
    ensures BarReason(close, sma, rsi, p) == ""
  {
  }
}
