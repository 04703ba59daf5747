/** Exponential moving averages and `compute_macd(series, fast=12, slow=26, signal=9)`. */
module Macd {
  import opened Stats

  const FastSpan: nat := 12
  const SlowSpan: nat := 26
  const SignalSpan: nat := 9

  /** `1 - alpha` with `alpha = 2 / (span + 1)`: how much an observation's
      weight shrinks with every later observation. */
  function Decay(span: nat): (b: real)
    requires span >= 1
    ensures 0.0 <= b < 1.0
  {
    1.0 - 2.0 / (span as real + 1.0)
  }

  /** Numerator of `ewm(adjust=True).mean()` at the end of `xs`: every
      observation weighted by the decay raised to its age, accumulated one
      observation at a time. */
  function Weighted(xs: seq<real>, b: real): (w: real)
    ensures forall c {:trigger Constant(xs, c)} :: Constant(xs, c) ==> w == c * TotalWeight(|xs|, b)
    decreases |xs|
  {
    if |xs| == 0 then 0.0
    else
      var init := xs[..|xs| - 1];
      var rest := Weighted(init, b);
      assert forall c {:trigger Constant(xs, c)} :: Constant(xs, c) ==> Constant(init, c);
      b * rest + xs[|xs| - 1]
  }

  /** Denominator of `ewm(adjust=True).mean()` after `n` observations: the
      total of the weights. */
  function TotalWeight(n: nat, b: real): (w: real)
    ensures b >= 0.0 && n >= 1 ==> w >= 1.0
  {
    if n == 0 then 0.0 else b * TotalWeight(n - 1, b) + 1.0
  }

  /** `series.ewm(span=span).mean()` with pandas' defaults (`adjust=True`,
      `min_periods=0`): defined from the first observation on. */
  function Ema(xs: seq<real>, span: nat): (e: seq<real>)
    requires span >= 1
    ensures |e| == |xs|
  {
    var b := Decay(span);
    seq(|xs|, t requires 0 <= t < |xs| => Weighted(xs[..t + 1], b) / TotalWeight(t + 1, b))
  }

  function Pow(b: real, k: nat): real
  {
    if k == 0 then 1.0 else b * Pow(b, k - 1)
  }

  /** The weighted sum written out: the observation `k` places from the end
      carries weight `b^k`. */
  function PowerWeighted(xs: seq<real>, b: real): real
    decreases |xs|
  {
    if |xs| == 0 then 0.0 else Pow(b, |xs| - 1) * xs[0] + PowerWeighted(xs[1..], b)
  }

  lemma {:induction false} PowerWeightedSnoc(xs: seq<real>, x: real, b: real)
    ensures PowerWeighted(xs + [x], b) == b * PowerWeighted(xs, b) + x
    decreases |xs|
  {
    if |xs| == 0 {
      assert PowerWeighted([x], b) == Pow(b, 0) * x + PowerWeighted([], b);
    } else {
      var ys := xs + [x];
      assert ys[1..] == xs[1..] + [x];
      PowerWeightedSnoc(xs[1..], x, b);
      var p := Pow(b, |xs| - 1);
      assert Pow(b, |xs|) == b * p;
      assert PowerWeighted(ys, b) == (b * p) * xs[0] + (b * PowerWeighted(xs[1..], b) + x);
      assert b * PowerWeighted(xs, b) == b * (p * xs[0] + PowerWeighted(xs[1..], b));
      assert (b * p) * xs[0] == b * (p * xs[0]);
    }
  }

  /** The step-by-step numerator is the explicit sum with weights `b^k`. */
  lemma {:induction false} WeightedIsPowerWeighted(xs: seq<real>, b: real)
    ensures Weighted(xs, b) == PowerWeighted(xs, b)
    decreases |xs|
  {
    if |xs| > 0 {
      var init, last := xs[..|xs| - 1], xs[|xs| - 1];
      WeightedIsPowerWeighted(init, b);
      assert Weighted(xs, b) == b * Weighted(init, b) + last;
      assert init + [last] == xs;
      PowerWeightedSnoc(init, last, b);
    }
  }

  /** The total weight is the geometric series `1 + b + ... + b^(n-1)`. */
  lemma {:induction false} TotalWeightIsGeometric(n: nat, b: real)
    ensures TotalWeight(n, b) * (1.0 - b) == 1.0 - Pow(b, n)
  {
    if n > 0 {
      TotalWeightIsGeometric(n - 1, b);
      var w := TotalWeight(n - 1, b);
      assert TotalWeight(n, b) * (1.0 - b) == b * (w * (1.0 - b)) + 1.0 - b;
    }
  }

  lemma WithinInit(xs: seq<real>, lo: real, hi: real)
    requires |xs| > 0 && Within(xs, lo, hi)
    ensures Within(xs[..|xs| - 1], lo, hi) && lo <= xs[|xs| - 1] <= hi
  {
    assert forall k :: 0 <= k < |xs| - 1 ==> xs[..|xs| - 1][k] == xs[k];
  }

  lemma StepLower(b: real, w: real, tw: real, x: real, lo: real)
    requires b >= 0.0 && lo * tw <= w && lo <= x
    ensures lo * (b * tw + 1.0) <= b * w + x
  {
    assert b * (lo * tw) <= b * w;
    assert lo * (b * tw + 1.0) == b * (lo * tw) + lo;
  }

  lemma StepUpper(b: real, w: real, tw: real, x: real, hi: real)
    requires b >= 0.0 && w <= hi * tw && x <= hi
    ensures b * w + x <= hi * (b * tw + 1.0)
  {
    assert b * w <= b * (hi * tw);
    assert hi * (b * tw + 1.0) == b * (hi * tw) + hi;
  }

  /** With non-negative decay, a weighted sum of observations no smaller than
      `lo` is at least `lo` times the total weight. */
  lemma {:induction false} WeightedLower(xs: seq<real>, b: real, lo: real, hi: real)
    requires b >= 0.0 && Within(xs, lo, hi)
    ensures lo * TotalWeight(|xs|, b) <= Weighted(xs, b)
    decreases |xs|
  {
    if |xs| > 0 {
      var init, last := xs[..|xs| - 1], xs[|xs| - 1];
      WithinInit(xs, lo, hi);
      WeightedLower(init, b, lo, hi);
      StepLower(b, Weighted(init, b), TotalWeight(|init|, b), last, lo);
    }
  }

  /** With non-negative decay, a weighted sum of observations no greater than
      `hi` is at most `hi` times the total weight. */
  lemma {:induction false} WeightedUpper(xs: seq<real>, b: real, lo: real, hi: real)
    requires b >= 0.0 && Within(xs, lo, hi)
    ensures Weighted(xs, b) <= hi * TotalWeight(|xs|, b)
    decreases |xs|
  {
    if |xs| > 0 {
      var init, last := xs[..|xs| - 1], xs[|xs| - 1];
      WithinInit(xs, lo, hi);
      WeightedUpper(init, b, lo, hi);
      StepUpper(b, Weighted(init, b), TotalWeight(|init|, b), last, hi);
    }
  }

  lemma QuotientLower(n: real, w: real, lo: real)
    requires w > 0.0 && lo * w <= n
    ensures lo <= n / w
  {
    var q := n / w;
    assert q * w == n;
    if q < lo {
      assert (lo - q) * w > 0.0;
    }
  }

  lemma QuotientUpper(n: real, w: real, hi: real)
    requires w > 0.0 && n <= hi * w
    ensures n / w <= hi
  {
    var q := n / w;
    assert q * w == n;
    if q > hi {
      assert (q - hi) * w > 0.0;
    }
  }

  /** The weighted sum over the total weight is a weighted average: it is no
      smaller than a lower bound of the observations ... */
  lemma NormalisedLower(xs: seq<real>, b: real, lo: real, hi: real)
    requires |xs| >= 1 && b >= 0.0 && Within(xs, lo, hi)
    ensures lo <= Weighted(xs, b) / TotalWeight(|xs|, b)
  {
    WeightedLower(xs, b, lo, hi);
    QuotientLower(Weighted(xs, b), TotalWeight(|xs|, b), lo);
  }

  /** ... and no greater than an upper bound. */
  lemma NormalisedUpper(xs: seq<real>, b: real, lo: real, hi: real)
    requires |xs| >= 1 && b >= 0.0 && Within(xs, lo, hi)
    ensures Weighted(xs, b) / TotalWeight(|xs|, b) <= hi
  {
    WeightedUpper(xs, b, lo, hi);
    QuotientUpper(Weighted(xs, b), TotalWeight(|xs|, b), hi);
  }

  /** An EMA value lies between any bounds of the observations seen so far. */
  lemma EmaWithin(xs: seq<real>, span: nat, t: nat, lo: real, hi: real)
    requires span >= 1 && t < |xs| && Within(xs[..t + 1], lo, hi)
    ensures lo <= Ema(xs, span)[t] <= hi
  {
    NormalisedLower(xs[..t + 1], Decay(span), lo, hi);
    NormalisedUpper(xs[..t + 1], Decay(span), lo, hi);
  }

  /** Each EMA value lies between the least and the greatest observation of
      the prefix it averages. */
  lemma EmaBetweenExtremes(xs: seq<real>, span: nat, t: nat)
    requires span >= 1 && t < |xs|
    ensures Min(xs[..t + 1]) <= Ema(xs, span)[t] <= Max(xs[..t + 1])
  {
    EmaWithin(xs, span, t, Min(xs[..t + 1]), Max(xs[..t + 1]));
  }

  /** The EMA of a constant series is that constant. */
  lemma EmaOfConstant(xs: seq<real>, span: nat, c: real)
    requires span >= 1 && Constant(xs, c)
    ensures Constant(Ema(xs, span), c)
  {
    forall t | 0 <= t < |xs| ensures Ema(xs, span)[t] == c {
      EmaWithin(xs, span, t, c, c);
    }
  }

  /** The EMA of a series within `[lo, hi]` stays within `[lo, hi]`. */
  lemma EmaOfBounded(xs: seq<real>, span: nat, lo: real, hi: real)
    requires span >= 1 && Within(xs, lo, hi)
    ensures Within(Ema(xs, span), lo, hi)
  {
    forall t | 0 <= t < |xs| ensures lo <= Ema(xs, span)[t] <= hi {
      EmaWithin(xs, span, t, lo, hi);
    }
  }

  /** `compute_macd`: the MACD line (fast EMA minus slow EMA) and its signal
      line (the EMA of the MACD line), both as long as the prices. */
  function Macd(p: seq<real>, fast: nat, slow: nat, signal: nat): (r: (seq<real>, seq<real>))
    requires fast >= 1 && slow >= 1 && signal >= 1
    ensures |r.0| == |p| && |r.1| == |p|
  {
    var emaFast := Ema(p, fast);
    var emaSlow := Ema(p, slow);
    var line := seq(|p|, t requires 0 <= t < |p| => emaFast[t] - emaSlow[t]);
    (line, Ema(line, signal))
  }

  /** On a constant series both the MACD line and its signal line are 0. */
  lemma MacdOfConstant(p: seq<real>, fast: nat, slow: nat, signal: nat, c: real)
    requires fast >= 1 && slow >= 1 && signal >= 1 && Constant(p, c)
    ensures Constant(Macd(p, fast, slow, signal).0, 0.0)
    ensures Constant(Macd(p, fast, slow, signal).1, 0.0)
  {
    EmaOfConstant(p, fast, c);
    EmaOfConstant(p, slow, c);
    var line := Macd(p, fast, slow, signal).0;
    assert Constant(line, 0.0);
    EmaOfConstant(line, signal, 0.0);
  }

  /** `compute_macd(td)` with its default spans 12, 26 and 9: the decays are
      11/13, 25/27 and 4/5, and a constant series gives a MACD line and a
      signal line that are 0 everywhere. */
  lemma DefaultMacd(p: seq<real>, c: real)
    requires Constant(p, c)
    ensures Decay(FastSpan) == 11.0 / 13.0 && Decay(SlowSpan) == 25.0 / 27.0 && Decay(SignalSpan) == 0.8
    ensures Constant(Macd(p, FastSpan, SlowSpan, SignalSpan).0, 0.0)
    ensures Constant(Macd(p, FastSpan, SlowSpan, SignalSpan).1, 0.0)
  {
    MacdOfConstant(p, FastSpan, SlowSpan, SignalSpan, c);
  }

  /** With every price in `[lo, hi]`, the MACD line and its signal line never
      move further from 0 than the width of that range. */
  lemma MacdBounded(p: seq<real>, fast: nat, slow: nat, signal: nat, lo: real, hi: real)
    requires fast >= 1 && slow >= 1 && signal >= 1 && Within(p, lo, hi)
    ensures Within(Macd(p, fast, slow, signal).0, lo - hi, hi - lo)
    ensures Within(Macd(p, fast, slow, signal).1, lo - hi, hi - lo)
  {
    EmaOfBounded(p, fast, lo, hi);
    EmaOfBounded(p, slow, lo, hi);
    var line := Macd(p, fast, slow, signal).0;
    assert Within(line, lo - hi, hi - lo);
    EmaOfBounded(line, signal, lo - hi, hi - lo);
  }
}
