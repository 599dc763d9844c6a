/** Values held in the columns of a price table.

    A column cell is either a number or missing (pandas NaN). Every ordering
    comparison with a missing cell is false, which is how the strategies below
    come to treat warm-up bars and absent context as "no signal". */
module Series {

  datatype Option<+T> = None | Some(value: T)

  /** `a < b` on cells that may be missing. */
  predicate Lt(a: Option<real>, b: Option<real>) {
    a.Some? && b.Some? && a.value < b.value
  }

  /** `a > b` on cells that may be missing. */
  predicate Gt(a: Option<real>, b: Option<real>) {
    a.Some? && b.Some? && a.value > b.value
  }

  /** `a <= b` on cells that may be missing. */
  predicate Le(a: Option<real>, b: Option<real>) {
    a.Some? && b.Some? && a.value <= b.value
  }

  /** `a >= b` on cells that may be missing. */
  predicate Ge(a: Option<real>, b: Option<real>) {
    a.Some? && b.Some? && a.value >= b.value
  }

  /** A cell scaled by a constant; a missing cell stays missing. */
  function Scale(a: Option<real>, k: real): (r: Option<real>)
    ensures r.Some? <==> a.Some?
    ensures r.Some? ==> r.value == a.value * k
  {
    match a
    case None => None
    case Some(x) => Some(x * k)
  }

  /** The cell one row above (pandas `shift(1)`): missing on the first row. */
  function Shifted(s: seq<real>, i: nat): (r: Option<real>)
    requires i < |s|
    ensures r.None? <==> i == 0
    ensures i > 0 ==> r == Some(s[i - 1])
  {
    if i == 0 then None else Some(s[i - 1])
  }

  function DigitChar(d: nat): (c: char)
    requires d < 10
    ensures '0' <= c <= '9'
    ensures (c as int) - ('0' as int) == d
  {
    ((('0' as int) + d) as char)
  }

  /** Decimal text of a natural number, as Python's `f"{n}"` writes it. */
  function Decimal(n: nat): (s: string)
    ensures 1 <= |s|
    ensures forall k :: 0 <= k < |s| ==> '0' <= s[k] <= '9'
    decreases n
  {
    if n < 10 then [DigitChar(n)] else Decimal(n / 10) + [DigitChar(n % 10)]
  }

  /** The number a string of decimal digits spells, read most significant
      digit first. */
  function DigitsValue(s: string): int
    decreases |s|
  {
    if |s| == 0 then 0 else DigitsValue(s[..|s| - 1]) * 10 + ((s[|s| - 1] as int) - ('0' as int))
  }

  /** Reading back the decimal text of `n` gives `n`. */
  lemma {:induction false} DecimalRoundTrip(n: nat)
    ensures DigitsValue(Decimal(n)) == n
    decreases n
  {
    if n >= 10 {
      DecimalRoundTrip(n / 10);
      var d := Decimal(n / 10) + [DigitChar(n % 10)];
      assert d[..|d| - 1] == Decimal(n / 10);
    }
  }

  /** The name of an indicator column, such as `SMA_20` or `RSI_14`: the
      prefix, an underscore, then the decimal digits of the window. */
  function ColumnName(prefix: string, window: nat): (s: string)
    ensures |s| > |prefix| + 1 && s[..|prefix|] == prefix && s[|prefix|] == '_'
    ensures forall k :: |prefix| < k < |s| ==> '0' <= s[k] <= '9'
    ensures DigitsValue(s[|prefix| + 1..]) == window
  {
    var s := prefix + "_" + Decimal(window);
    DecimalRoundTrip(window);
    assert s[|prefix| + 1..] == Decimal(window);
    s
  }

  /** Different windows give different column names. */
  lemma ColumnNamesDistinct(prefix: string, w1: nat, w2: nat)
    requires w1 != w2
    ensures ColumnName(prefix, w1) != ColumnName(prefix, w2)
  {
  }
}
