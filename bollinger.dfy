/** Bollinger bands: `sma_20 ± 2 * td.rolling(20).std()`. */
module Bollinger {
  import opened Outcomes
  import opened Stats
  import opened MovingAverage

  const BandWindow: nat := 20
  const BandWidth: real := 2.0

  /** Sum of the squared deviations of a window from a centre. */
  function SquaredDeviations(s: seq<real>, c: real): (d: real)
    ensures d >= 0.0
    decreases |s|
  {
    if |s| == 0 then 0.0
    else
      var x := s[|s| - 1] - c;
      SquaredDeviations(s[..|s| - 1], c) + x * x
  }

  /** Sample variance with pandas' default `ddof=1`: NaN for a window of fewer
      than two observations, never negative otherwise. */
  function SampleVariance(s: seq<real>): (v: Num)
    ensures v.Absent? <==> |s| < 2
    ensures !v.Unbounded?
    ensures v.Value? ==> v.v >= 0.0
  {
    if |s| < 2 then Absent
    else
      var d := SquaredDeviations(s, Mean(s));
      var n := (|s| - 1) as real;
      assert d / n >= 0.0 by { assert (d / n) * n == d; }
      Value(d / n)
  }

  /** A window whose observations all equal its centre has no deviation. */
  lemma {:induction false} SquaredDeviationsOfConstant(s: seq<real>, c: real)
    requires Constant(s, c)
    ensures SquaredDeviations(s, c) == 0.0
    decreases |s|
  {
    if |s| > 0 {
      SquaredDeviationsOfConstant(s[..|s| - 1], c);
    }
  }

  /** The rolling variance, NaN until a full window is available. */
  function RollingVariance(p: seq<real>, w: nat): (v: seq<Num>)
    requires w >= 1
    ensures |v| == |p|
    ensures forall t :: 0 <= t < |p| ==> (v[t].Absent? <==> t < w - 1 || w < 2)
    ensures forall t :: 0 <= t < |p| && v[t].Value? ==> v[t].v >= 0.0
    ensures forall t :: 0 <= t < |p| ==> !v[t].Unbounded?
  {
    seq(|p|, t requires 0 <= t < |p| => if t < w - 1 then Absent else SampleVariance(Window(p, w, t)))
  }

  /** `sd` is `rolling(w).std()` of `p`: NaN exactly where the variance is NaN,
      and otherwise the non-negative square root of the variance. */
  predicate IsRollingStd(sd: seq<Num>, p: seq<real>, w: nat)
    requires w >= 1
  {
    var v := RollingVariance(p, w);
    |sd| == |p| &&
    forall t :: 0 <= t < |p| ==>
      (v[t].Absent? ==> sd[t].Absent?) &&
      (v[t].Value? ==> sd[t].Value? && sd[t].v >= 0.0 && sd[t].v * sd[t].v == v[t].v)
  }

  /** `upper = sma + k * std` and `lower = sma - k * std` over a `w`-day window. */
  function Bands(p: seq<real>, w: nat, k: real, sd: seq<Num>): (r: (seq<Num>, seq<Num>))
    requires w >= 1 && |sd| == |p|
    ensures |r.0| == |p| && |r.1| == |p|
  {
    var center := RollingMean(p, w);
    (seq(|p|, t requires 0 <= t < |p| => Add(center[t], Times(k, sd[t]))),
     seq(|p|, t requires 0 <= t < |p| => Sub(center[t], Times(k, sd[t]))))
  }

  /** Both bands are NaN wherever the moving average is. */
  lemma BandsAbsentWithCenter(p: seq<real>, w: nat, k: real, sd: seq<Num>, t: nat)
    requires w >= 1 && |sd| == |p| && t < |p| && RollingMean(p, w)[t].Absent?
    ensures Bands(p, w, k, sd).0[t].Absent? && Bands(p, w, k, sd).1[t].Absent?
  {
  }

  /** From the first full window on (and with at least two observations per
      window), the bands are the moving average plus and minus `k` standard
      deviations, none of them NaN. */
  lemma BandsAt(p: seq<real>, w: nat, k: real, sd: seq<Num>, t: nat)
    requires w >= 2 && w - 1 <= t < |p| && IsRollingStd(sd, p, w)
    ensures RollingMean(p, w)[t].Value? && sd[t].Value? && sd[t].v >= 0.0
    ensures Bands(p, w, k, sd).0[t] == Value(RollingMean(p, w)[t].v + k * sd[t].v)
    ensures Bands(p, w, k, sd).1[t] == Value(RollingMean(p, w)[t].v - k * sd[t].v)
  {
    assert RollingVariance(p, w)[t].Value?;
  }

  /** The bands sit symmetrically about the moving average, and in order when
      `k` is not negative. */
  lemma BandsSymmetric(p: seq<real>, w: nat, k: real, sd: seq<Num>, t: nat)
    requires w >= 2 && w - 1 <= t < |p| && IsRollingStd(sd, p, w)
    ensures Bands(p, w, k, sd).0[t].Value? && Bands(p, w, k, sd).1[t].Value? && RollingMean(p, w)[t].Value?
    ensures Bands(p, w, k, sd).0[t].v - RollingMean(p, w)[t].v == RollingMean(p, w)[t].v - Bands(p, w, k, sd).1[t].v
    ensures k >= 0.0 ==> Bands(p, w, k, sd).1[t].v <= RollingMean(p, w)[t].v <= Bands(p, w, k, sd).0[t].v
  {
    BandsAt(p, w, k, sd, t);
    var s := sd[t].v;
    if k >= 0.0 {
      assert k * s >= 0.0;
    }
  }

  /** On a constant series the rolling variance is 0 once defined. */
  lemma RollingVarianceOfConstant(p: seq<real>, w: nat, c: real, t: nat)
    requires w >= 2 && w - 1 <= t < |p| && Constant(p, c)
    ensures RollingVariance(p, w)[t] == Value(0.0)
  {
    var win := Window(p, w, t);
    assert Constant(win, c);
    MeanConstant(win, c);
    SquaredDeviationsOfConstant(win, c);
  }

  lemma DivideBack(x: real, y: real)
    requires y != 0.0
    ensures (x * y) / y == x
  {
  }

  /** The only square root of 0 is 0. */
  lemma SquareZero(s: real)
    requires s * s == 0.0
    ensures s == 0.0
  {
    if s != 0.0 {
      DivideBack(s, s);
    }
  }

  /** On a constant series the standard deviation is 0, so both bands collapse
      onto the moving average, which is the constant. */
  lemma BandsOfConstant(p: seq<real>, w: nat, k: real, sd: seq<Num>, c: real, t: nat)
    requires w >= 2 && w - 1 <= t < |p| && IsRollingStd(sd, p, w) && Constant(p, c)
    ensures Bands(p, w, k, sd).0[t] == Value(c) && Bands(p, w, k, sd).1[t] == Value(c)
  {
    RollingVarianceOfConstant(p, w, c, t);
    SquareZero(sd[t].v);
    RollingMeanOfConstant(p, w, c);
    BandsAt(p, w, k, sd, t);
  }

  /** With the page's 20-day window and width 2, the bands are four standard
      deviations apart once the window is full. */
  lemma DefaultBandsApart(p: seq<real>, sd: seq<Num>, t: nat)
    requires BandWindow - 1 <= t < |p| && IsRollingStd(sd, p, BandWindow)
    ensures Bands(p, BandWindow, BandWidth, sd).0[t].Value? && Bands(p, BandWindow, BandWidth, sd).1[t].Value?
    ensures Bands(p, BandWindow, BandWidth, sd).0[t].v - Bands(p, BandWindow, BandWidth, sd).1[t].v == 4.0 * sd[t].v
  {
    BandsAt(p, BandWindow, BandWidth, sd, t);
  }
}
