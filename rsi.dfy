/** Relative strength index: `compute_rsi(series, period=14)`. */
module Rsi {
  import opened Outcomes
  import opened Stats
  import opened MovingAverage

  const DefaultPeriod: nat := 14

  /** `series.diff()`: NaN on the first date, then each price's change. */
  function Delta(p: seq<real>): (d: seq<Num>)
    ensures |d| == |p|
    ensures forall t :: 0 <= t < |p| ==> !d[t].Unbounded?
  {
    seq(|p|, t requires 0 <= t < |p| => if t == 0 then Absent else Value(p[t] - p[t - 1]))
  }

  /** `delta.where(delta > 0, 0)` at one date: a NaN comparison is false, so
      the NaN first change becomes 0 like every fall. */
  function Rise(d: Num): (r: real)
    requires !d.Unbounded?
    ensures r >= 0.0
    ensures d.Absent? ==> r == 0.0
    ensures d.Value? && d.v >= 0.0 ==> r == d.v
    ensures d.Value? && d.v <= 0.0 ==> r == 0.0
  {
    if d.Value? && d.v > 0.0 then d.v else 0.0
  }

  /** `-delta.where(delta < 0, 0)` at one date. */
  function Fall(d: Num): (r: real)
    requires !d.Unbounded?
    ensures r >= 0.0
    ensures d.Absent? ==> r == 0.0
    ensures d.Value? && d.v <= 0.0 ==> r == -d.v
    ensures d.Value? && d.v >= 0.0 ==> r == 0.0
  {
    -(if d.Value? && d.v < 0.0 then d.v else 0.0)
  }

  /** The `gain` series: never negative, 0 on the first date. */
  function Gains(p: seq<real>): (g: seq<real>)
    ensures |g| == |p|
    ensures forall t :: 0 <= t < |p| ==> g[t] >= 0.0
    ensures |p| > 0 ==> g[0] == 0.0
  {
    var d := Delta(p);
    seq(|p|, t requires 0 <= t < |p| => Rise(d[t]))
  }

  /** The `loss` series: never negative, 0 on the first date. */
  function Losses(p: seq<real>): (l: seq<real>)
    ensures |l| == |p|
    ensures forall t :: 0 <= t < |p| ==> l[t] >= 0.0
    ensures |p| > 0 ==> l[0] == 0.0
  {
    var d := Delta(p);
    seq(|p|, t requires 0 <= t < |p| => Fall(d[t]))
  }

  /** Gain and loss split each price change: their difference is the change,
      and at most one of them is non-zero. */
  lemma GainsLossesSplitChange(p: seq<real>, t: nat)
    requires 0 < t < |p|
    ensures Gains(p)[t] - Losses(p)[t] == p[t] - p[t - 1]
    ensures Gains(p)[t] == 0.0 || Losses(p)[t] == 0.0
  {
    assert Delta(p)[t] == Value(p[t] - p[t - 1]);
  }

  /** `100 - (100 / (1 + rs))` with `rs = avg_gain / avg_loss`, in floating point. */
  function RsiPoint(g: Num, l: Num): (r: Num)
    ensures g.Absent? || l.Absent? ==> r.Absent?
  {
    Sub(Value(100.0), Div(Value(100.0), Add(Value(1.0), Div(g, l))))
  }

  /** The share of a window's movement that was upward, in percent. */
  function UpShare(g: real, l: real): real
    requires g + l != 0.0
  {
    100.0 * g / (g + l)
  }

  lemma Cancel(x: real, y: real, s: real)
    requires s != 0.0 && x * s == y * s
    ensures x == y
  {
    assert x == (x * s) / s;
    assert y == (y * s) / s;
  }

  /** With a positive average loss, the textbook form `100 - 100/(1 + g/l)`
      equals the upward share of the movement. */
  lemma RsiAlgebra(g: real, l: real)
    requires g >= 0.0 && l > 0.0
    ensures 100.0 - 100.0 / (1.0 + g / l) == UpShare(g, l)
  {
    var s := g + l;
    var q := g / l;
    assert q * l == g;
    var u := 1.0 + q;
    assert u * l == s;
    var a := 100.0 / u;
    assert a * u == 100.0;
    assert a * s == 100.0 * l by {
      assert a * s == (a * u) * l;
    }
    var b := UpShare(g, l);
    assert b * s == 100.0 * g;
    var c := 100.0 - a;
    assert c * s == 100.0 * g by {
      assert c * s == 100.0 * s - a * s;
    }
    Cancel(c, b, s);
  }

  /** The RSI of two non-negative averages: NaN when both are 0 (0/0), and
      otherwise `100·g/(g+l)`, the share of the movement that was upward. A
      zero average loss with a positive average gain makes `rs` infinite and
      the RSI exactly 100. */
  lemma RsiPointOfAverages(g: real, l: real)
    requires g >= 0.0 && l >= 0.0
    ensures RsiPoint(Value(g), Value(l)).Absent? <==> g + l == 0.0
    ensures g + l > 0.0 ==> RsiPoint(Value(g), Value(l)) == Value(UpShare(g, l))
  {
    if l > 0.0 {
      assert Div(Value(g), Value(l)) == Value(g / l);
      assert 1.0 + g / l > 0.0;
      RsiAlgebra(g, l);
    } else if g > 0.0 {
      assert Div(Value(g), Value(l)) == Unbounded(true);
      assert UpShare(g, l) == 100.0;
    }
  }

  /** `compute_rsi(series, period)`. */
  function Rsi(p: seq<real>, period: nat): (r: seq<Num>)
    requires period >= 1
    ensures |r| == |p|
    ensures forall t :: 0 <= t < |p| && t < period - 1 ==> r[t].Absent?
  {
    var avgGain := RollingMean(Gains(p), period);
    var avgLoss := RollingMean(Losses(p), period);
    seq(|p|, t requires 0 <= t < |p| => RsiPoint(avgGain[t], avgLoss[t]))
  }

  /** `avg_gain` at a date with a full window. */
  function AvgGain(p: seq<real>, period: nat, t: nat): (g: real)
    requires period >= 1 && period - 1 <= t < |p|
    ensures g >= 0.0
  {
    MeanOfNonNegative(Window(Gains(p), period, t));
    Mean(Window(Gains(p), period, t))
  }

  /** `avg_loss` at a date with a full window. */
  function AvgLoss(p: seq<real>, period: nat, t: nat): (l: real)
    requires period >= 1 && period - 1 <= t < |p|
    ensures l >= 0.0
  {
    MeanOfNonNegative(Window(Losses(p), period, t));
    Mean(Window(Losses(p), period, t))
  }

  lemma MeanOfNonNegative(s: seq<real>)
    requires |s| > 0 && forall k :: 0 <= k < |s| ==> s[k] >= 0.0
    ensures Mean(s) >= 0.0
  {
    MeanBounds(s, 0.0, Max(s));
  }

  lemma RsiOfAverages(p: seq<real>, period: nat, t: nat)
    requires period >= 1 && period - 1 <= t < |p|
    ensures Rsi(p, period)[t] == RsiPoint(Value(AvgGain(p, period, t)), Value(AvgLoss(p, period, t)))
  {
    RollingMeanIsWindowMean(Gains(p), period, t);
    RollingMeanIsWindowMean(Losses(p), period, t);
  }

  /** From the first full window on, the RSI is NaN exactly when the window saw
      no movement at all, and otherwise `100·g/(g+l)` of the window's average
      gain and loss. The leading NaN of `diff()` does not spread, so the
      RSI is defined from index `period - 1`. */
  lemma RsiAt(p: seq<real>, period: nat, t: nat)
    requires period >= 1 && period - 1 <= t < |p|
    ensures Rsi(p, period)[t].Absent? <==> AvgGain(p, period, t) + AvgLoss(p, period, t) == 0.0
    ensures AvgGain(p, period, t) + AvgLoss(p, period, t) > 0.0 ==>
              Rsi(p, period)[t] == Value(UpShare(AvgGain(p, period, t), AvgLoss(p, period, t)))
  {
    RsiOfAverages(p, period, t);
    RsiPointOfAverages(AvgGain(p, period, t), AvgLoss(p, period, t));
  }

  lemma ProductSign(x: real, s: real)
    requires s > 0.0
    ensures x < 0.0 ==> x * s < 0.0
  {
  }

  lemma ShareBounds(g: real, l: real)
    requires g >= 0.0 && l >= 0.0 && g + l > 0.0
    ensures 0.0 <= UpShare(g, l) <= 100.0
  {
    var s := g + l;
    var u := UpShare(g, l);
    assert u * s == 100.0 * g;
    assert (100.0 - u) * s == 100.0 * l by {
      assert (100.0 - u) * s == 100.0 * s - u * s;
    }
    ProductSign(u, s);
    ProductSign(100.0 - u, s);
  }

  /** Every RSI value that is not NaN lies in [0, 100]; none is infinite. */
  lemma RsiBounds(p: seq<real>, period: nat, t: nat)
    requires period >= 1 && t < |p|
    ensures !Rsi(p, period)[t].Unbounded?
    ensures Rsi(p, period)[t].Value? ==> 0.0 <= Rsi(p, period)[t].v <= 100.0
  {
    if t >= period - 1 {
      RsiAt(p, period, t);
      var g, l := AvgGain(p, period, t), AvgLoss(p, period, t);
      if g + l > 0.0 {
        ShareBounds(g, l);
      }
    }
  }

  /** A window with losses averaging 0 and gains averaging above 0 gives the
      saturated RSI of 100. */
  lemma RsiSaturates(p: seq<real>, period: nat, t: nat)
    requires period >= 1 && period - 1 <= t < |p|
    requires AvgLoss(p, period, t) == 0.0 && AvgGain(p, period, t) > 0.0
    ensures Rsi(p, period)[t] == Value(100.0)
  {
    var g := AvgGain(p, period, t);
    RsiAt(p, period, t);
    UpShareWithoutLoss(g);
  }

  lemma UpShareWithoutLoss(g: real)
    requires g > 0.0
    ensures UpShare(g, 0.0) == 100.0
  {
  }

  /** On a flat price series the RSI is NaN everywhere. */
  lemma RsiOfFlatSeries(p: seq<real>, period: nat, c: real)
    requires period >= 1 && Constant(p, c)
    ensures forall t :: 0 <= t < |p| ==> Rsi(p, period)[t].Absent?
  {
    forall t | period - 1 <= t < |p| ensures Rsi(p, period)[t].Absent? {
      assert Constant(Gains(p), 0.0) && Constant(Losses(p), 0.0) by {
        forall s | 0 < s < |p| ensures Gains(p)[s] == 0.0 && Losses(p)[s] == 0.0 {
          GainsLossesSplitChange(p, s);
        }
      }
      MeanConstant(Window(Gains(p), period, t), 0.0);
      MeanConstant(Window(Losses(p), period, t), 0.0);
      RsiAt(p, period, t);
    }
  }

  /** `compute_rsi(td)` with its default 14-day period: NaN on the first 13
      dates; from then on NaN exactly when the window saw no movement, and
      otherwise a value in [0, 100]. */
  lemma DefaultRsi(p: seq<real>, t: nat)
    requires t < |p|
    ensures |Rsi(p, DefaultPeriod)| == |p|
    ensures t < 13 ==> Rsi(p, DefaultPeriod)[t].Absent?
    ensures t >= 13 ==>
              (Rsi(p, DefaultPeriod)[t].Absent? <==> AvgGain(p, DefaultPeriod, t) + AvgLoss(p, DefaultPeriod, t) == 0.0)
    ensures Rsi(p, DefaultPeriod)[t].Value? ==> 0.0 <= Rsi(p, DefaultPeriod)[t].v <= 100.0
  {
    if t >= 13 {
      RsiAt(p, DefaultPeriod, t);
    }
    RsiBounds(p, DefaultPeriod, t);
  }
}
