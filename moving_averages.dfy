/** Moving averages of the Close column.

    `Sma` is the trailing mean over at most `window` bars (`rolling(window,
    min_periods=1).mean()`), so it is defined from the first bar on; `Ema` is
    the span recursion of `ewm(span=window, adjust=False).mean()`. Both are
    attached to a table as one new column. */
module MovingAverages {
  import opened Series

  /** A price table: column name to column. */
  type Frame = map<string, seq<real>>

  function Sum(s: seq<real>): real
    decreases |s|
  {
    if |s| == 0 then 0.0 else Sum(s[..|s| - 1]) + s[|s| - 1]
  }

  function Mean(s: seq<real>): real
    requires |s| > 0
  {
    Sum(s) / (|s| as real)
  }

  function SeqMin(s: seq<real>): real
    requires |s| > 0
    decreases |s|
  {
    if |s| == 1 then s[0]
    else var m := SeqMin(s[..|s| - 1]); if s[|s| - 1] < m then s[|s| - 1] else m
  }

  function SeqMax(s: seq<real>): real
    requires |s| > 0
    decreases |s|
  {
    if |s| == 1 then s[0]
    else var m := SeqMax(s[..|s| - 1]); if s[|s| - 1] > m then s[|s| - 1] else m
  }

  /** The bars the rolling window ending at bar `i` covers: the last `window`
      bars up to `i`, fewer at the start of the series. */
  function Window(close: seq<real>, window: nat, i: nat): (w: seq<real>)
    requires window >= 1 && i < |close|
    ensures |w| == (if i + 1 >= window then window else i + 1)
    ensures forall k :: 0 <= k < |w| ==> w[k] == close[i + 1 - |w| + k]
  {
    close[(if i + 1 >= window then i + 1 - window else 0)..i + 1]
  }

  /** The `SMA_{window}` column. */
  function Sma(close: seq<real>, window: nat): (r: seq<real>)
    requires window >= 1
    ensures |r| == |close|
  {
    seq(|close|, i requires 0 <= i < |close| => Mean(Window(close, window, i)))
  }

  /** Weight of the newest bar in an EMA of the given span. */
  function Alpha(span: nat): (a: real)
    requires span >= 1
    ensures 0.0 < a <= 1.0
  {
    2.0 / ((span + 1) as real)
  }

  function EmaAt(close: seq<real>, alpha: real, i: nat): real
    requires i < |close|
    decreases i
  {
    if i == 0 then close[0] else alpha * close[i] + (1.0 - alpha) * EmaAt(close, alpha, i - 1)
  }

  /** The `EMA_{window}` column. */
  function Ema(close: seq<real>, window: nat): (r: seq<real>)
    requires window >= 1
    ensures |r| == |close|
    ensures |close| > 0 ==> r[0] == close[0]
    ensures forall i :: 0 < i < |close| ==>
      r[i] == Alpha(window) * close[i] + (1.0 - Alpha(window)) * r[i - 1]
  {
    seq(|close|, i requires 0 <= i < |close| => EmaAt(close, Alpha(window), i))
  }

  /** `sma(df, window)`: adds the column `SMA_{window}` and nothing else. */
  function AddSma(df: Frame, window: nat): (r: Frame)
    requires "Close" in df && window >= 1
    ensures r.Keys == df.Keys + {ColumnName("SMA", window)}
    ensures r[ColumnName("SMA", window)] == Sma(df["Close"], window)
    ensures forall c :: c in df && c != ColumnName("SMA", window) ==> r[c] == df[c]
    ensures r["Close"] == df["Close"]
  {
    var name := ColumnName("SMA", window);
    assert name[0] != "Close"[0];
    df[name := Sma(df["Close"], window)]
  }

  /** `ema(df, window)`: adds the column `EMA_{window}` and nothing else. */
  function AddEma(df: Frame, window: nat): (r: Frame)
    requires "Close" in df && window >= 1
    ensures r.Keys == df.Keys + {ColumnName("EMA", window)}
    ensures r[ColumnName("EMA", window)] == Ema(df["Close"], window)
    ensures forall c :: c in df && c != ColumnName("EMA", window) ==> r[c] == df[c]
    ensures r["Close"] == df["Close"]
  {
    var name := ColumnName("EMA", window);
    assert name[0] != "Close"[0];
    df[name := Ema(df["Close"], window)]
  }

  // ---------------------------------------------------------------------
  // Properties of the averages
  // ---------------------------------------------------------------------

  lemma {:induction false} SumBounds(s: seq<real>, lo: real, hi: real)
    requires forall k :: 0 <= k < |s| ==> lo <= s[k] <= hi
    ensures (|s| as real) * lo <= Sum(s) <= (|s| as real) * hi
    decreases |s|
  {
    if |s| > 0 {
      var init := s[..|s| - 1];
      SumBounds(init, lo, hi);
      var n := |init| as real;
      assert (|s| as real) * lo == n * lo + lo;
      assert (|s| as real) * hi == n * hi + hi;
    }
  }

  /** A mean lies within any bounds of the values it averages. */
  lemma MeanBounds(s: seq<real>, lo: real, hi: real)
    requires |s| > 0
    requires forall k :: 0 <= k < |s| ==> lo <= s[k] <= hi
    ensures lo <= Mean(s) <= hi
  {
    SumBounds(s, lo, hi);
    var n := |s| as real;
    var m := Mean(s);
    assert Sum(s) == m * n;
  }

  lemma {:induction false} SeqMinMaxBound(s: seq<real>)
    requires |s| > 0
    ensures forall k :: 0 <= k < |s| ==> SeqMin(s) <= s[k] <= SeqMax(s)
    decreases |s|
  {
    if |s| > 1 {
      SeqMinMaxBound(s[..|s| - 1]);
      assert forall k :: 0 <= k < |s| - 1 ==> s[k] == s[..|s| - 1][k];
    }
  }

  /** The SMA at bar `i` lies between the smallest and largest Close of its window. */
  lemma SmaWithinWindow(close: seq<real>, window: nat, i: nat)
    requires window >= 1 && i < |close|
    ensures SeqMin(Window(close, window, i)) <= Sma(close, window)[i] <= SeqMax(Window(close, window, i))
  {
    var w := Window(close, window, i);
    SeqMinMaxBound(w);
    MeanBounds(w, SeqMin(w), SeqMax(w));
  }

  /** Once the window is full, the SMA is the mean of exactly the last `window` closes. */
  lemma SmaFullWindow(close: seq<real>, window: nat, i: nat)
    requires window >= 1 && window <= i + 1 && i < |close|
    ensures Sma(close, window)[i] == Sum(close[i + 1 - window..i + 1]) / (window as real)
  {
  }

  /** `min_periods=1`: the first bar's SMA is its own Close. */
  lemma SmaFirstBar(close: seq<real>, window: nat)
    requires window >= 1 && |close| > 0
    ensures Sma(close, window)[0] == close[0]
  {
    var w := Window(close, window, 0);
    assert w == [close[0]];
    assert Sum(w) == Sum([]) + close[0];
  }

  /** A constant series has a constant SMA equal to it. */
  lemma SmaOfConstant(close: seq<real>, window: nat, c: real)
    requires window >= 1
    requires forall k :: 0 <= k < |close| ==> close[k] == c
    ensures forall i :: 0 <= i < |close| ==> Sma(close, window)[i] == c
  {
    forall i | 0 <= i < |close|
      ensures Sma(close, window)[i] == c
    {
      MeanBounds(Window(close, window, i), c, c);
    }
  }

  lemma {:induction false} EmaAtBounds(close: seq<real>, alpha: real, i: nat, lo: real, hi: real)
    requires 0.0 < alpha <= 1.0 && i < |close|
    requires forall k :: 0 <= k <= i ==> lo <= close[k] <= hi
    ensures lo <= EmaAt(close, alpha, i) <= hi
    decreases i
  {
    if i > 0 {
      EmaAtBounds(close, alpha, i - 1, lo, hi);
      ConvexStep(alpha, close[i], EmaAt(close, alpha, i - 1), lo, hi);
    }
  }

  /** One EMA step is a convex combination, so it stays within common bounds. */
  lemma ConvexStep(alpha: real, x: real, e: real, lo: real, hi: real)
    requires 0.0 < alpha <= 1.0
    requires lo <= x <= hi && lo <= e <= hi
    ensures lo <= alpha * x + (1.0 - alpha) * e <= hi
  {
    var beta := 1.0 - alpha;
    assert 0.0 <= beta;
    var r := alpha * x + beta * e;
    assert r - lo == alpha * (x - lo) + beta * (e - lo);
    assert hi - r == alpha * (hi - x) + beta * (hi - e);
    MulNonNegative(alpha, x - lo);
    MulNonNegative(beta, e - lo);
    MulNonNegative(alpha, hi - x);
    MulNonNegative(beta, hi - e);
  }

  lemma MulNonNegative(a: real, b: real)
    requires a >= 0.0 && b >= 0.0
    ensures a * b >= 0.0
  {
  }

  /** The EMA at bar `i` lies between the smallest and largest Close seen so far. */
  lemma EmaWithinHistory(close: seq<real>, window: nat, i: nat)
    requires window >= 1 && i < |close|
    ensures SeqMin(close[..i + 1]) <= Ema(close, window)[i] <= SeqMax(close[..i + 1])
  {
    var h := close[..i + 1];
    SeqMinMaxBound(h);
    assert forall k :: 0 <= k <= i ==> close[k] == h[k];
    EmaAtBounds(close, Alpha(window), i, SeqMin(h), SeqMax(h));
  }

  /** A constant series has a constant EMA equal to it. */
  lemma EmaOfConstant(close: seq<real>, window: nat, c: real)
    requires window >= 1
    requires forall k :: 0 <= k < |close| ==> close[k] == c
    ensures forall i :: 0 <= i < |close| ==> Ema(close, window)[i] == c
  {
    forall i | 0 <= i < |close|
      ensures Ema(close, window)[i] == c
    {
      EmaAtBounds(close, Alpha(window), i, c, c);
    }
  }
}
