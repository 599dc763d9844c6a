/** Moving-average crossover (`moving_average_crossover.analyze`): a short and
    a long SMA of Close, signalling +1 where the short one crosses above the
    long one and -1 where it crosses below. */
module MaCrossover {
  import opened Series
  import MovingAverages
  import Crossing

  function UpText(shortWindow: nat, longWindow: nat): (s: string)
    ensures |s| > 0
  {
    ColumnName("SMA", shortWindow) + " crossed above " + ColumnName("SMA", longWindow)
  }

  function DownText(shortWindow: nat, longWindow: nat): (s: string)
    ensures |s| > 0 && s != UpText(shortWindow, longWindow)
  {
    var s := ColumnName("SMA", shortWindow) + " crossed below " + ColumnName("SMA", longWindow);
    var k := |ColumnName("SMA", shortWindow)| + 9;
    assert s[k] == 'b' && UpText(shortWindow, longWindow)[k] == 'a';
    s
  }

  method Analyze(close: seq<real>, shortWindow: nat, longWindow: nat)
    returns (shortSma: seq<real>, longSma: seq<real>, signal: seq<int>, reason: seq<string>)
    requires shortWindow >= 1 && longWindow >= 1
    ensures shortSma == MovingAverages.Sma(close, shortWindow)
    ensures longSma == MovingAverages.Sma(close, longWindow)
    ensures |signal| == |close| && |reason| == |close|
    ensures forall i :: 0 <= i < |close| ==> signal[i] == Crossing.CrossSignal(shortSma, longSma, i)
    ensures forall i :: 0 <= i < |close| ==>
      (signal[i] == 0 <==> reason[i] == "")
      && (signal[i] == 1 ==> reason[i] == UpText(shortWindow, longWindow))
      && (signal[i] == -1 ==> reason[i] == DownText(shortWindow, longWindow))
  {
    shortSma := MovingAverages.Sma(close, shortWindow);
    longSma := MovingAverages.Sma(close, longWindow);
    signal, reason := Crossing.Signals(shortSma, longSma, UpText(shortWindow, longWindow), DownText(shortWindow, longWindow));
  }

  /** With equal windows both averages coincide, so the strategy never trades. */
  lemma EqualWindowsNeverSignal(close: seq<real>, window: nat, i: nat)
    requires window >= 1 && i < |close|
    ensures Crossing.CrossSignal(MovingAverages.Sma(close, window), MovingAverages.Sma(close, window), i) == 0
  {
  }
}
