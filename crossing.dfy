/** Crossings of two columns, the rule shared by the moving-average crossover
    and the MACD strategies.

    A bar crosses up when the first column is above the second now and was at
    or below it on the previous bar (`shift(1)`), and crosses down
    symmetrically. The previous value of the first bar is missing, and any
    comparison with it is false, so the first bar never crosses. */
module Crossing {
  import opened Series

  /** `(a > b) & (a.shift(1) <= b.shift(1))`. */
  predicate CrossUp(a: seq<real>, b: seq<real>, i: nat)
    requires |a| == |b| && i < |a|
    ensures CrossUp(a, b, i) <==> i > 0 && a[i] > b[i] && a[i - 1] <= b[i - 1]
  {
    a[i] > b[i] && Le(Shifted(a, i), Shifted(b, i))
  }

  /** `(a < b) & (a.shift(1) >= b.shift(1))`. */
  predicate CrossDown(a: seq<real>, b: seq<real>, i: nat)
    requires |a| == |b| && i < |a|
    ensures CrossDown(a, b, i) <==> i > 0 && a[i] < b[i] && a[i - 1] >= b[i - 1]
  {
    a[i] < b[i] && Ge(Shifted(a, i), Shifted(b, i))
  }

  /** The signal a bar receives: 0, overwritten by 1 on cross-up bars, then by
      -1 on cross-down bars. */
  function CrossSignal(a: seq<real>, b: seq<real>, i: nat): (r: int)
    requires |a| == |b| && i < |a|
    ensures r == 1 || r == 0 || r == -1
    ensures r == 1 <==> i > 0 && a[i] > b[i] && a[i - 1] <= b[i - 1]
    ensures r == -1 <==> i > 0 && a[i] < b[i] && a[i - 1] >= b[i - 1]
  {
    if CrossDown(a, b, i) then -1
    else if CrossUp(a, b, i) then 1
    else 0
  }

  /** The reason a bar receives, written in the same order as the signal. */
  function CrossReason(a: seq<real>, b: seq<real>, i: nat, upText: string, downText: string): (r: string)
    requires |a| == |b| && i < |a|
    requires upText != "" && downText != ""
    ensures r == "" <==> CrossSignal(a, b, i) == 0
    ensures CrossSignal(a, b, i) == 1 ==> r == upText
    ensures CrossSignal(a, b, i) == -1 ==> r == downText
  {
    if CrossDown(a, b, i) then downText
    else if CrossUp(a, b, i) then upText
    else ""
  }

  /** Initialises `signal` to 0 and `reason` to "", then overwrites them with
      masked writes on the cross-up bars and then on the cross-down bars. */
  method Signals(a: seq<real>, b: seq<real>, upText: string, downText: string)
    returns (signal: seq<int>, reason: seq<string>)
    requires |a| == |b|
    requires upText != "" && downText != ""
    ensures |signal| == |a| && |reason| == |a|
    ensures forall i :: 0 <= i < |a| ==>
      signal[i] == CrossSignal(a, b, i) && reason[i] == CrossReason(a, b, i, upText, downText)
  {
    var n := |a|;
    var sig := new int[n](_ => 0);
    forall i | 0 <= i < n && CrossUp(a, b, i) {
      sig[i] := 1;
    }
    forall i | 0 <= i < n && CrossDown(a, b, i) {
      sig[i] := -1;
    }
    var why := new string[n](_ => "");
    forall i | 0 <= i < n && CrossUp(a, b, i) {
      why[i] := upText;
    }
    forall i | 0 <= i < n && CrossDown(a, b, i) {
      why[i] := downText;
    }
    signal, reason := sig[..], why[..];
  }

  // ---------------------------------------------------------------------
  // Properties
  // ---------------------------------------------------------------------

  /** Cross-up and cross-down never hold on the same bar. */
  lemma UpDownExclusive(a: seq<real>, b: seq<real>, i: nat)
    requires |a| == |b| && i < |a|
    ensures !(CrossUp(a, b, i) && CrossDown(a, b, i))
  {
  }

  /** The first bar never crosses. */
  lemma FirstBarNoSignal(a: seq<real>, b: seq<real>)
    requires |a| == |b| && |a| > 0
    ensures CrossSignal(a, b, 0) == 0
  {
  }

  /** A bar on which the two columns are equal never crosses. */
  lemma EqualNoSignal(a: seq<real>, b: seq<real>, i: nat)
    requires |a| == |b| && i < |a| && a[i] == b[i]
    ensures CrossSignal(a, b, i) == 0
  {
  }

  /** A crossing is a change of side, so two consecutive bars never cross in
      the same direction. */
  lemma NoConsecutiveCrossUps(a: seq<real>, b: seq<real>, i: nat)
    requires |a| == |b| && 0 < i < |a|
    ensures !(CrossSignal(a, b, i - 1) == 1 && CrossSignal(a, b, i) == 1)
    ensures !(CrossSignal(a, b, i - 1) == -1 && CrossSignal(a, b, i) == -1)
  {
  }
}
