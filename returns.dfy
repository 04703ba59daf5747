/** Periodic returns of the aligned close table: `data.pct_change().dropna()`. */
module Returns {
  import opened Outcomes
  import opened Alignment

  /** The simple return from price `prev` to price `cur`. */
  function SimpleReturn(prev: real, cur: real): real
    requires prev != 0.0
  {
    cur / prev - 1.0
  }

  /** One cell of `pct_change()`: `cur / prev - 1`, where `prev` is the shifted
      cell (NaN on the first row). A zero previous price gives NaN when the
      price stays at zero and an infinity of the price's sign otherwise. */
  function Change(prev: Num, cur: real): (r: Num)
    ensures prev.Absent? ==> r.Absent?
    ensures prev.Value? && prev.v != 0.0 ==> r == Value(SimpleReturn(prev.v, cur))
    ensures prev == Value(0.0) ==> (r.Absent? <==> cur == 0.0)
    ensures prev == Value(0.0) && cur != 0.0 ==> r == Unbounded(cur > 0.0)
  {
    Sub(Div(Value(cur), prev), Value(1.0))
  }

  /** `data.pct_change()`: the first row is all NaN, every later row holds each
      ticker's change from the previous row. */
  function PctChange(table: seq<Row<real>>, width: nat): (c: seq<Row<Num>>)
    requires Rectangular(table, width)
    ensures |c| == |table| && Rectangular(c, width)
    ensures forall i :: 0 <= i < |c| ==> c[i].date == table[i].date
    ensures forall j :: 0 <= j < width && |c| > 0 ==> c[0].cells[j].Absent?
    ensures forall i, j {:trigger c[i].cells[j]} :: 0 < i < |c| && 0 <= j < width ==>
              c[i].cells[j] == Change(Value(table[i - 1].cells[j]), table[i].cells[j])
  {
    seq(|table|, i requires 0 <= i < |table| =>
      Row(table[i].date,
          seq(width, j requires 0 <= j < width =>
            Change(if i == 0 then Absent else Value(table[i - 1].cells[j]), table[i].cells[j]))))
  }

  function IsNaN(x: Num): bool
  {
    x.Absent?
  }

  /** `returns = data.pct_change().dropna()`: no surviving return is NaN, and
      when there is a ticker the all-NaN first row never survives. */
  function ReturnsTable(table: seq<Row<real>>, width: nat): (r: seq<Row<Num>>)
    requires Rectangular(table, width)
    ensures width >= 1 && |table| >= 1 ==> |r| <= |table| - 1
    ensures Rectangular(r, width)
    ensures forall i, j {:trigger r[i].cells[j]} :: 0 <= i < |r| && 0 <= j < width ==> !r[i].cells[j].Absent?
  {
    var c := PctChange(table, width);
    DropNARectangular(c, IsNaN, width);
    assert width >= 1 && |table| >= 1 ==> !Complete(c[0], IsNaN) by {
      if width >= 1 && |table| >= 1 { assert IsNaN(c[0].cells[0]); }
    }
    DropNA(c, IsNaN)
  }

  predicate Positive(table: seq<Row<real>>, width: nat)
    requires Rectangular(table, width)
  {
    forall i, j :: 0 <= i < |table| && 0 <= j < width ==> table[i].cells[j] > 0.0
  }

  lemma PositiveChange(prev: real, cur: real)
    requires prev > 0.0
    ensures Change(Value(prev), cur) == Value(SimpleReturn(prev, cur))
  {}

  /** With positive prices and at least one ticker, `dropna` removes exactly
      the all-NaN first row of `pct_change()`. */
  lemma ReturnsDropFirstRow(table: seq<Row<real>>, width: nat)
    requires Rectangular(table, width) && Positive(table, width)
    requires width >= 1 && |table| >= 1
    ensures |ReturnsTable(table, width)| == |table| - 1
    ensures forall i :: 0 <= i < |table| - 1 ==> ReturnsTable(table, width)[i] == PctChange(table, width)[i + 1]
  {
    var c := PctChange(table, width);
    assert !Complete(c[0], IsNaN) by { assert IsNaN(c[0].cells[0]); }
    forall i | 1 <= i < |c| ensures Complete(c[i], IsNaN) {
      forall j | 0 <= j < width ensures !IsNaN(c[i].cells[j]) {
        PositiveChange(table[i - 1].cells[j], table[i].cells[j]);
      }
    }
    DropNAFirstOnly(c, IsNaN);
    assert forall i :: 0 <= i < |table| - 1 ==> c[1..][i] == c[i + 1];
  }

  /** One cell of the returns table of positive prices. */
  lemma ReturnCell(table: seq<Row<real>>, width: nat, i: nat, j: nat)
    requires Rectangular(table, width) && Positive(table, width)
    requires width >= 1 && i < |table| - 1 && j < width
    ensures i < |ReturnsTable(table, width)|
    ensures ReturnsTable(table, width)[i].cells[j] == Value(SimpleReturn(table[i].cells[j], table[i + 1].cells[j]))
  {
    ReturnsDropFirstRow(table, width);
    var prev, cur := table[i].cells[j], table[i + 1].cells[j];
    assert PctChange(table, width)[i + 1].cells[j] == Change(Value(prev), cur);
    PositiveChange(prev, cur);
  }

  /** With positive prices and at least one ticker there is one return row per
      date after the first, dated like that later row, and each return is the
      ratio of consecutive prices minus one. */
  lemma ReturnsOfPositivePrices(table: seq<Row<real>>, width: nat)
    requires Rectangular(table, width) && Positive(table, width)
    requires width >= 1 && |table| >= 1
    ensures |ReturnsTable(table, width)| == |table| - 1
    ensures forall i :: 0 <= i < |table| - 1 ==> ReturnsTable(table, width)[i].date == table[i + 1].date
    ensures forall i, j {:trigger ReturnsTable(table, width)[i].cells[j]} :: 0 <= i < |table| - 1 && 0 <= j < width ==>
              ReturnsTable(table, width)[i].cells[j] == Value(SimpleReturn(table[i].cells[j], table[i + 1].cells[j]))
  {
    ReturnsDropFirstRow(table, width);
    forall i: nat, j: nat {:trigger ReturnsTable(table, width)[i].cells[j]} | i < |table| - 1 && j < width
      ensures ReturnsTable(table, width)[i].cells[j] == Value(SimpleReturn(table[i].cells[j], table[i + 1].cells[j]))
    {
      ReturnCell(table, width, i, j);
    }
  }

  /** Growth factor `Π (1 + r)` of a run of returns, compounded in date order. */
  function Growth(rs: seq<real>): real
    decreases |rs|
  {
    if |rs| == 0 then 1.0 else Growth(rs[..|rs| - 1]) * (1.0 + rs[|rs| - 1])
  }

  /** The simple returns of one positive price series. */
  function Ratios(p: seq<real>): (r: seq<real>)
    requires |p| >= 1 && forall t :: 0 <= t < |p| ==> p[t] > 0.0
    ensures |r| == |p| - 1
  {
    seq(|p| - 1, i requires 0 <= i < |p| - 1 => SimpleReturn(p[i], p[i + 1]))
  }

  lemma RatioAt(p: seq<real>, i: nat)
    requires |p| >= 1 && forall t :: 0 <= t < |p| ==> p[t] > 0.0
    requires i < |p| - 1
    ensures Ratios(p)[i] == SimpleReturn(p[i], p[i + 1])
  {
  }

  /** A price grown by one period's return. */
  function Grow(price: real, r: real): real
  {
    price * (1.0 + r)
  }

  /** A price grown by one simple return reaches the next price. */
  lemma GrowOneStep(prev: real, cur: real)
    requires prev != 0.0
    ensures Grow(prev, SimpleReturn(prev, cur)) == cur
  {
  }

  /** A price compounded, one period at a time, by a run of returns. */
  function Compound(first: real, rs: seq<real>): real
    decreases |rs|
  {
    if |rs| == 0 then first else Grow(Compound(first, rs[..|rs| - 1]), rs[|rs| - 1])
  }

  /** Compounding a price is scaling it by the growth factor. */
  lemma {:induction false} CompoundIsScaledGrowth(first: real, rs: seq<real>)
    ensures Compound(first, rs) == first * Growth(rs)
    decreases |rs|
  {
    if |rs| > 0 {
      var init := rs[..|rs| - 1];
      CompoundIsScaledGrowth(first, init);
      var g, step := Growth(init), 1.0 + rs[|rs| - 1];
      assert Compound(first, rs) == (first * g) * step;
      assert (first * g) * step == first * (g * step);
    }
  }

  /** The returns of a series without its last price are the series' returns
      without the last one. */
  lemma RatiosPrefix(p: seq<real>)
    requires |p| > 1 && forall t :: 0 <= t < |p| ==> p[t] > 0.0
    ensures Ratios(p)[..|p| - 2] == Ratios(p[..|p| - 1])
  {
    var a, b := Ratios(p)[..|p| - 2], Ratios(p[..|p| - 1]);
    assert |a| == |b|;
    forall i | 0 <= i < |a| ensures a[i] == b[i] {
      assert p[..|p| - 1][i] == p[i] && p[..|p| - 1][i + 1] == p[i + 1];
    }
  }

  lemma CompoundRatiosStep(p: seq<real>)
    requires |p| > 1 && forall t :: 0 <= t < |p| ==> p[t] > 0.0
    requires Compound(p[0], Ratios(p[..|p| - 1])) == p[|p| - 2]
    ensures Compound(p[0], Ratios(p)) == p[|p| - 1]
  {
    var prev, cur, r := p[|p| - 2], p[|p| - 1], Ratios(p);
    RatiosPrefix(p);
    assert r[|r| - 1] == SimpleReturn(prev, cur);
    GrowOneStep(prev, cur);
  }

  /** Compounding the first price by every later return gives back the last
      price. */
  lemma {:induction false} CompoundRatios(p: seq<real>)
    requires |p| >= 1 && forall t :: 0 <= t < |p| ==> p[t] > 0.0
    ensures Compound(p[0], Ratios(p)) == p[|p| - 1]
    decreases |p|
  {
    if |p| > 1 {
      CompoundRatios(p[..|p| - 1]);
      CompoundRatiosStep(p);
    } else {
      assert Ratios(p) == [];
    }
  }

  /** The finite values of a series none of whose entries is NaN or infinite. */
  function Values(xs: seq<Num>): (vs: seq<real>)
    requires forall i :: 0 <= i < |xs| ==> xs[i].Value?
    ensures |vs| == |xs|
    ensures forall i :: 0 <= i < |xs| ==> xs[i] == Value(vs[i])
  {
    seq(|xs|, i requires 0 <= i < |xs| => xs[i].v)
  }

  /** With positive prices, each return of a ticker is the matching simple
      return of its column of prices. */
  lemma ReturnColumnCells(table: seq<Row<real>>, width: nat, j: nat)
    requires Rectangular(table, width) && Positive(table, width)
    requires j < width && |table| >= 1
    ensures |ReturnsTable(table, width)| == |Ratios(Column(table, j))|
    ensures forall i :: 0 <= i < |ReturnsTable(table, width)| ==>
              ReturnsTable(table, width)[i].cells[j] == Value(Ratios(Column(table, j))[i])
  {
    var r := ReturnsTable(table, width);
    var p := Column(table, j);
    var rp := Ratios(p);
    assert |r| == |table| - 1 by {
      ReturnsDropFirstRow(table, width);
    }
    forall i | 0 <= i < |r| ensures r[i].cells[j] == Value(rp[i]) {
      ReturnCell(table, width, i, j);
      RatioAt(p, i);
    }
  }

  /** With positive prices, a ticker's column of returns holds the simple
      returns of its column of prices. */
  lemma ReturnColumn(table: seq<Row<real>>, width: nat, j: nat)
    requires Rectangular(table, width) && Positive(table, width)
    requires j < width && |table| >= 1
    ensures forall i :: 0 <= i < |ReturnsTable(table, width)| ==> ReturnsTable(table, width)[i].cells[j].Value?
    ensures Values(Column(ReturnsTable(table, width), j)) == Ratios(Column(table, j))
  {
    var r := ReturnsTable(table, width);
    var rp := Ratios(Column(table, j));
    ReturnColumnCells(table, width, j);
    var vs := Values(Column(r, j));
    assert forall i :: 0 <= i < |vs| ==> vs[i] == rp[i];
  }

  /** The return-reconstruction round trip on the returns table: for every
      ticker, the first price compounded by that ticker's column of returns is
      its last price (by `CompoundIsScaledGrowth`, the first price times the
      growth factor of the returns). */
  lemma ReturnsRoundTrip(table: seq<Row<real>>, width: nat, j: nat)
    requires Rectangular(table, width) && Positive(table, width)
    requires j < width && |table| >= 1
    ensures forall i :: 0 <= i < |ReturnsTable(table, width)| ==> ReturnsTable(table, width)[i].cells[j].Value?
    ensures Compound(table[0].cells[j], Values(Column(ReturnsTable(table, width), j))) == table[|table| - 1].cells[j]
  {
    var p := Column(table, j);
    assert p[0] == table[0].cells[j] && p[|p| - 1] == table[|table| - 1].cells[j];
    ReturnColumn(table, width, j);
    CompoundRatios(p);
  }
}
