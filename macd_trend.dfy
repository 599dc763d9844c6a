/** MACD trend following (`macd_trend.analyze`): +1 where the MACD line crosses
    above its signal line, -1 where it crosses below. The MACD and signal
    columns are inputs. */
module MacdTrend {
  import Crossing

  const UpText: string := "MACD crossed above signal"
  const DownText: string := "MACD crossed below signal"

  method Analyze(macd: seq<real>, macdSignal: seq<real>)
    returns (signal: seq<int>, reason: seq<string>)
    requires |macd| == |macdSignal|
    ensures |signal| == |macd| && |reason| == |macd|
    ensures forall i :: 0 <= i < |macd| ==>
      (signal[i] == 1 <==> i > 0 && macd[i] > macdSignal[i] && macd[i - 1] <= macdSignal[i - 1])
      && (signal[i] == -1 <==> i > 0 && macd[i] < macdSignal[i] && macd[i - 1] >= macdSignal[i - 1])
      && (signal[i] == 1 || signal[i] == 0 || signal[i] == -1)
    ensures forall i :: 0 <= i < |macd| ==>
      (reason[i] == UpText <==> signal[i] == 1)
      && (reason[i] == DownText <==> signal[i] == -1)
      && (reason[i] == "" <==> signal[i] == 0)
  {
    signal, reason := Crossing.Signals(macd, macdSignal, UpText, DownText);
  }
}
