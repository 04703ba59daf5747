/** Simple moving averages: `td.rolling(20).mean()` and `td.rolling(50).mean()`. */
module MovingAverage {
  import opened Outcomes
  import opened Stats

  const ShortWindow: nat := 20
  const LongWindow: nat := 50

  /** Sum of the `w` entries ending at index `t`, taken as the difference of
      two running totals (the way a rolling sum is maintained). */
  function WindowSum(p: seq<real>, w: nat, t: nat): (s: real)
    requires w >= 1 && w - 1 <= t < |p|
    ensures s == Sum(Window(p, w, t))
  {
    assert p[..t + 1] == p[..t + 1 - w] + Window(p, w, t);
    SumAppend(p[..t + 1 - w], Window(p, w, t));
    Sum(p[..t + 1]) - Sum(p[..t + 1 - w])
  }

  /** `rolling(w).mean()` over a series with no NaN: NaN until a full window
      of `w` observations is available, then the window's sum over `w`. */
  function RollingMean(p: seq<real>, w: nat): (m: seq<Num>)
    requires w >= 1
    ensures |m| == |p|
    ensures forall t :: 0 <= t < |p| ==> (m[t].Absent? <==> t < w - 1)
    ensures forall t :: 0 <= t < |p| ==> !m[t].Unbounded?
  {
    seq(|p|, t requires 0 <= t < |p| =>
      if t < w - 1 then Absent else Value(WindowSum(p, w, t) / (w as real)))
  }

  /** The `w` observations ending at index `t`. */
  function Window(p: seq<real>, w: nat, t: nat): (s: seq<real>)
    requires w >= 1 && w - 1 <= t < |p|
    ensures |s| == w
    ensures forall k :: 0 <= k < w ==> s[k] == p[t - w + 1 + k]
  {
    p[t + 1 - w..t + 1]
  }

  /** Every defined point of the moving average is the mean of its window. */
  lemma RollingMeanIsWindowMean(p: seq<real>, w: nat, t: nat)
    requires w >= 1 && w - 1 <= t < |p|
    ensures RollingMean(p, w)[t] == Value(Mean(Window(p, w, t)))
  {
  }

  /** A defined moving-average point lies between the least and the greatest
      price of its window. */
  lemma RollingMeanBetweenExtremes(p: seq<real>, w: nat, t: nat)
    requires w >= 1 && w - 1 <= t < |p|
    ensures RollingMean(p, w)[t].Value?
    ensures Min(Window(p, w, t)) <= RollingMean(p, w)[t].v <= Max(Window(p, w, t))
  {
    RollingMeanIsWindowMean(p, w, t);
    MeanBetweenExtremes(Window(p, w, t));
  }

  /** On a constant series every defined point of the moving average is that
      constant. */
  lemma RollingMeanOfConstant(p: seq<real>, w: nat, c: real)
    requires w >= 1 && Constant(p, c)
    ensures forall t :: w - 1 <= t < |p| ==> RollingMean(p, w)[t] == Value(c)
  {
    forall t | w - 1 <= t < |p| ensures RollingMean(p, w)[t] == Value(c) {
      RollingMeanIsWindowMean(p, w, t);
      MeanConstant(Window(p, w, t), c);
    }
  }

  /** `sma_20` and `sma_50`: same length as the prices, and undefined exactly on
      the first 19 and 49 dates respectively. */
  lemma SmaShapes(p: seq<real>)
    ensures |RollingMean(p, ShortWindow)| == |RollingMean(p, LongWindow)| == |p|
    ensures forall t :: 0 <= t < |p| ==> (RollingMean(p, ShortWindow)[t].Absent? <==> t < 19)
    ensures forall t :: 0 <= t < |p| ==> (RollingMean(p, LongWindow)[t].Absent? <==> t < 49)
  {
  }
}
