/** The Sharpe ratio of the metrics tab and its "high Sharpe" warning. The
    annualised return and the volatility are inputs here: both need a
    fractional power or a square root of the prices. */
module Metrics {
  import opened Outcomes

  const AlertLevel: real := 2.0

  /** `sharpe = annual_return / volatility` for one ticker: a finite ratio
      when the volatility is not 0, an infinity of the return's sign over a
      zero volatility, and NaN for a zero return over a zero volatility. */
  function Sharpe(annual: real, vol: real): (s: Num)
    ensures vol != 0.0 ==> s.Value? && s.v * vol == annual
    ensures vol == 0.0 ==> (s.Absent? <==> annual == 0.0)
    ensures vol == 0.0 && annual != 0.0 ==> s == Unbounded(annual > 0.0)
  {
    Div(Value(annual), Value(vol))
  }

  /** `sharpe[t] > 2`: false on NaN, true on +inf, false on -inf. */
  function HighSharpe(s: Num): (warn: bool)
    ensures s.Absent? ==> !warn
    ensures s == Unbounded(true) ==> warn
    ensures s == Unbounded(false) ==> !warn
    ensures s.Value? ==> (warn <==> s.v > AlertLevel)
  {
    match s
    case Value(v) => v > AlertLevel
    case Absent => false
    case Unbounded(positive) => positive
  }

  lemma ProductOrder(x: real, y: real, v: real)
    requires v > 0.0
    ensures x > y <==> x * v > y * v
  {
  }

  /** For a positive volatility the warning fires exactly when the return
      exceeds twice the volatility; over a zero volatility it fires exactly
      for a positive return. */
  lemma HighSharpeIff(annual: real, vol: real)
    requires vol >= 0.0
    ensures vol > 0.0 ==> (HighSharpe(Sharpe(annual, vol)) <==> annual > AlertLevel * vol)
    ensures vol == 0.0 ==> (HighSharpe(Sharpe(annual, vol)) <==> annual > 0.0)
  {
    if vol > 0.0 {
      var s := Sharpe(annual, vol);
      ProductOrder(s.v, AlertLevel, vol);
    }
  }
}
