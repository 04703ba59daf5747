/** Sums, means and extrema of finite real series, shared by the indicators. */
module Stats {

  /** Sum of a series, accumulated from the front as pandas' rolling sums are. */
  function Sum(s: seq<real>): real
    decreases |s|
  {
    if |s| == 0 then 0.0 else Sum(s[..|s| - 1]) + s[|s| - 1]
  }

  /** Arithmetic mean of a non-empty window. */
  function Mean(s: seq<real>): (m: real)
    requires |s| > 0
    ensures m * (|s| as real) == Sum(s)
  {
    Sum(s) / (|s| as real)
  }

  function Max(s: seq<real>): (m: real)
    requires |s| > 0
    ensures m in s
    ensures forall i :: 0 <= i < |s| ==> s[i] <= m
    decreases |s|
  {
    if |s| == 1 then s[0]
    else
      var m := Max(s[..|s| - 1]);
      assert forall i :: 0 <= i < |s| - 1 ==> s[i] == s[..|s| - 1][i];
      if m >= s[|s| - 1] then m else s[|s| - 1]
  }

  function Min(s: seq<real>): (m: real)
    requires |s| > 0
    ensures m in s
    ensures forall i :: 0 <= i < |s| ==> m <= s[i]
    decreases |s|
  {
    if |s| == 1 then s[0]
    else
      var m := Min(s[..|s| - 1]);
      assert forall i :: 0 <= i < |s| - 1 ==> s[i] == s[..|s| - 1][i];
      if m <= s[|s| - 1] then m else s[|s| - 1]
  }

  predicate Within(s: seq<real>, lo: real, hi: real)
  {
    forall i :: 0 <= i < |s| ==> lo <= s[i] <= hi
  }

  predicate Constant(s: seq<real>, c: real)
  {
    forall i :: 0 <= i < |s| ==> s[i] == c
  }

  lemma {:induction false} SumBounds(s: seq<real>, lo: real, hi: real)
    requires Within(s, lo, hi)
    ensures lo * (|s| as real) <= Sum(s) <= hi * (|s| as real)
    decreases |s|
  {
    if |s| > 0 {
      var init := s[..|s| - 1];
      assert Within(init, lo, hi) by {
        forall i | 0 <= i < |init| ensures lo <= init[i] <= hi { assert init[i] == s[i]; }
      }
      SumBounds(init, lo, hi);
      assert lo * (|s| as real) == lo * (|init| as real) + lo;
      assert hi * (|s| as real) == hi * (|init| as real) + hi;
    }
  }

  /** Summing a concatenation sums the two parts. */
  lemma {:induction false} SumAppend(a: seq<real>, b: seq<real>)
    ensures Sum(a + b) == Sum(a) + Sum(b)
    decreases |b|
  {
    if |b| == 0 {
      assert a + b == a;
    } else {
      var init := b[..|b| - 1];
      assert (a + b)[..|a + b| - 1] == a + init;
      SumAppend(a, init);
    }
  }

  /** A mean lies between any bounds of its window. */
  lemma MeanBounds(s: seq<real>, lo: real, hi: real)
    requires |s| > 0 && Within(s, lo, hi)
    ensures lo <= Mean(s) <= hi
  {
    var n := |s| as real;
    SumBounds(s, lo, hi);
    assert Sum(s) / n >= lo by { assert lo * n <= Sum(s); }
    assert Sum(s) / n <= hi by { assert Sum(s) <= hi * n; }
  }

  /** The mean of a window lies between its least and greatest entries. */
  lemma MeanBetweenExtremes(s: seq<real>)
    requires |s| > 0
    ensures Min(s) <= Mean(s) <= Max(s)
  {
    MeanBounds(s, Min(s), Max(s));
  }

  /** The mean of a constant window is that constant. */
  lemma MeanConstant(s: seq<real>, c: real)
    requires |s| > 0 && Constant(s, c)
    ensures Mean(s) == c
  {
    MeanBounds(s, c, c);
  }
}
