/** Maximum drawdown of one ticker: `((data / data.cummax()) - 1).min() * 100`. */
module Drawdown {
  import opened Outcomes
  import opened Stats
  import opened Returns

  /** `cummax()`: the running peak, each entry the larger of the previous peak
      and the current price. */
  function CumMax(p: seq<real>): (m: seq<real>)
    ensures |m| == |p|
    ensures forall t :: 0 <= t < |p| ==> m[t] == Max(p[..t + 1])
    decreases |p|
  {
    if |p| == 0 then []
    else
      var init := p[..|p| - 1];
      var peaks := CumMax(init);
      var last := p[|p| - 1];
      var peak := if |peaks| == 0 then last else if peaks[|peaks| - 1] >= last then peaks[|peaks| - 1] else last;
      assert forall n :: 1 <= n <= |init| ==> init[..n] == p[..n];
      assert p[..|p|] == p && init[..|init|] == init;
      peaks + [peak]
  }

  /** The running peak is at least every price seen so far and is one of them. */
  lemma CumMaxIsPeak(p: seq<real>, t: nat)
    requires t < |p|
    ensures forall s :: 0 <= s <= t ==> p[s] <= CumMax(p)[t]
    ensures exists s :: 0 <= s <= t && CumMax(p)[t] == p[s]
  {
    var w := p[..t + 1];
    assert forall s :: 0 <= s <= t ==> p[s] == w[s];
    var s :| 0 <= s < |w| && w[s] == Max(w);
  }

  /** The running peak never falls. */
  lemma CumMaxNonDecreasing(p: seq<real>, s: nat, t: nat)
    requires s <= t < |p|
    ensures CumMax(p)[s] <= CumMax(p)[t]
  {
    CumMaxIsPeak(p, s);
    CumMaxIsPeak(p, t);
  }

  /** `price / peak - 1` in floating point: the relative fall from a non-zero
      peak, NaN for a zero price at a zero peak, an infinity otherwise. */
  function DrawdownAt(price: real, peak: real): (r: Num)
    ensures peak != 0.0 ==> r == Value(SimpleReturn(peak, price))
    ensures peak == 0.0 ==> (r.Absent? <==> price == 0.0)
  {
    Sub(Div(Value(price), Value(peak)), Value(1.0))
  }

  /** `data / data.cummax() - 1`, one point per date. */
  function Drawdowns(p: seq<real>): (d: seq<Num>)
    ensures |d| == |p|
    ensures forall t :: 0 <= t < |p| ==> d[t] == DrawdownAt(p[t], CumMax(p)[t])
  {
    var peaks := CumMax(p);
    seq(|p|, t requires 0 <= t < |p| => DrawdownAt(p[t], peaks[t]))
  }

  predicate PositivePrices(p: seq<real>)
  {
    forall t :: 0 <= t < |p| ==> p[t] > 0.0
  }

  predicate NonDecreasing(p: seq<real>)
  {
    forall s, t :: 0 <= s <= t < |p| ==> p[s] <= p[t]
  }

  lemma DrawdownRatio(price: real, peak: real)
    requires 0.0 < price <= peak
    ensures -1.0 < SimpleReturn(peak, price) <= 0.0
    ensures SimpleReturn(peak, price) == 0.0 <==> price == peak
  {
    var q := price / peak;
    assert q * peak == price;
    assert 0.0 < q <= 1.0;
  }

  /** For positive prices each drawdown is the relative fall from the running
      peak. */
  lemma DrawdownIsFall(p: seq<real>, t: nat)
    requires PositivePrices(p) && t < |p|
    ensures CumMax(p)[t] >= p[t] > 0.0
    ensures Drawdowns(p)[t] == Value(SimpleReturn(CumMax(p)[t], p[t]))
  {
    CumMaxIsPeak(p, t);
  }

  /** For positive prices each drawdown is a finite value in (-1, 0], and it
      is 0 exactly at a new peak. */
  lemma DrawdownBounds(p: seq<real>, t: nat)
    requires PositivePrices(p) && t < |p|
    ensures Drawdowns(p)[t].Value?
    ensures -1.0 < Drawdowns(p)[t].v <= 0.0
    ensures Drawdowns(p)[t].v == 0.0 <==> p[t] == CumMax(p)[t]
  {
    DrawdownIsFall(p, t);
    DrawdownRatio(p[t], CumMax(p)[t]);
  }

  /** `.min() * 100`: the deepest drawdown in percent, NaN for an empty series. */
  function MaxDrawdown(p: seq<real>): (r: Num)
    ensures |p| == 0 ==> r.Absent?
  {
    Times(100.0, MinSkipAbsent(Drawdowns(p)))
  }

  /** On a non-decreasing positive series every price is its own peak. */
  lemma PeakOfNonDecreasing(p: seq<real>, t: nat)
    requires NonDecreasing(p) && t < |p|
    ensures CumMax(p)[t] == p[t]
  {
    var s :| 0 <= s <= t && CumMax(p)[t] == p[s] by { CumMaxIsPeak(p, t); }
  }

  /** The maximum drawdown of a non-empty positive series is a finite
      percentage in (-100, 0]. */
  lemma MaxDrawdownRange(p: seq<real>)
    requires PositivePrices(p) && |p| >= 1
    ensures MaxDrawdown(p).Value?
    ensures -100.0 < MaxDrawdown(p).v <= 0.0
  {
    var d := Drawdowns(p);
    var m := MinSkipAbsent(d);
    DrawdownBounds(p, 0);
    assert !d[0].Absent?;
    MinSkipAbsentAttained(d);
    var k :| 0 <= k < |d| && d[k] == m;
    DrawdownBounds(p, k);
  }

  /** A series that never falls has no drawdown. */
  lemma MaxDrawdownOfNonDecreasing(p: seq<real>)
    requires PositivePrices(p) && |p| >= 1 && NonDecreasing(p)
    ensures MaxDrawdown(p) == Value(0.0)
  {
    var d := Drawdowns(p);
    PeakOfNonDecreasing(p, 0);
    DrawdownAtPeak(p[0]);
    assert !d[0].Absent?;
    MinSkipAbsentAttained(d);
    var k :| 0 <= k < |d| && d[k] == MinSkipAbsent(d);
    PeakOfNonDecreasing(p, k);
    DrawdownAtPeak(p[k]);
  }

  /** A price at its peak has fallen by nothing. */
  lemma DrawdownAtPeak(price: real)
    requires price > 0.0
    ensures DrawdownAt(price, price) == Value(0.0)
  {
  }

  /** An entry no greater than 0 of a series whose minimum is 0 is itself 0. */
  lemma ZeroMinimum(xs: seq<Num>, t: nat)
    requires t < |xs| && xs[t].Value? && xs[t].v <= 0.0
    requires MinSkipAbsent(xs) == Value(0.0)
    ensures xs[t].v == 0.0
  {
    MinSkipAbsentBelow(xs, t);
  }

  /** A maximum drawdown of 0 leaves every price at its running peak. */
  lemma AtPeakWhenNoDrawdown(p: seq<real>, t: nat)
    requires PositivePrices(p) && t < |p| && MinSkipAbsent(Drawdowns(p)) == Value(0.0)
    ensures p[t] == CumMax(p)[t]
  {
    DrawdownBounds(p, t);
    ZeroMinimum(Drawdowns(p), t);
  }

  /** A series with no drawdown never falls. */
  lemma NonDecreasingOfNoDrawdown(p: seq<real>)
    requires PositivePrices(p) && MaxDrawdown(p) == Value(0.0)
    ensures NonDecreasing(p)
  {
    ScaledZero(100.0, MinSkipAbsent(Drawdowns(p)));
    forall s, t | 0 <= s <= t < |p| ensures p[s] <= p[t] {
      AtPeakWhenNoDrawdown(p, t);
      CumMaxIsPeak(p, t);
    }
  }

  /** The maximum drawdown of a non-empty positive series is 0 exactly when the
      series never falls. */
  lemma MaxDrawdownZeroIff(p: seq<real>)
    requires PositivePrices(p) && |p| >= 1
    ensures MaxDrawdown(p) == Value(0.0) <==> NonDecreasing(p)
  {
    if NonDecreasing(p) {
      MaxDrawdownOfNonDecreasing(p);
    }
    if MaxDrawdown(p) == Value(0.0) {
      NonDecreasingOfNoDrawdown(p);
    }
  }
}
