/** The date-indexed close table and `DataFrame.dropna()` over its rows. */
module Alignment {

  /** One row of a table: a date (as a day number) and one cell per ticker. */
  datatype Row<T> = Row(date: int, cells: seq<T>)

  datatype Option<T> = None | Some(value: T)

  /** Every row has one cell per ticker. */
  predicate Rectangular<T>(rows: seq<Row<T>>, width: nat)
  {
    forall i :: 0 <= i < |rows| ==> |rows[i].cells| == width
  }

  predicate Complete<T>(r: Row<T>, missing: T -> bool)
  {
    forall j :: 0 <= j < |r.cells| ==> !missing(r.cells[j])
  }

  /** `dropna()` with its default `how="any"`: keep, in order, exactly the rows
      in which no cell is missing. */
  function DropNA<T>(rows: seq<Row<T>>, missing: T -> bool): (kept: seq<Row<T>>)
    ensures |kept| <= |rows|
    ensures forall k :: 0 <= k < |kept| ==> Complete(kept[k], missing)
    decreases |rows|
  {
    if |rows| == 0 then []
    else
      var rest := DropNA(rows[1..], missing);
      if Complete(rows[0], missing) then [rows[0]] + rest else rest
  }

  /** The kept rows are exactly the input rows that are complete. */
  lemma {:induction false} DropNAKeepsExactly<T>(rows: seq<Row<T>>, missing: T -> bool)
    ensures forall k :: 0 <= k < |DropNA(rows, missing)| ==> DropNA(rows, missing)[k] in rows
    ensures forall i :: 0 <= i < |rows| && Complete(rows[i], missing) ==> rows[i] in DropNA(rows, missing)
    decreases |rows|
  {
    if |rows| > 0 {
      DropNAKeepsExactly(rows[1..], missing);
      assert forall i :: 1 <= i < |rows| ==> rows[i] == rows[1..][i - 1];
    }
  }

  /** Dropping rows keeps every remaining row as wide as before. */
  lemma {:induction false} DropNARectangular<T>(rows: seq<Row<T>>, missing: T -> bool, width: nat)
    requires Rectangular(rows, width)
    ensures Rectangular(DropNA(rows, missing), width)
    decreases |rows|
  {
    if |rows| > 0 {
      DropNARectangular(rows[1..], missing, width);
    }
  }

  /** Dropping rows commutes with concatenation: the kept rows of an earlier
      stretch of dates come before those of a later one. */
  lemma {:induction false} DropNAAppend<T>(a: seq<Row<T>>, b: seq<Row<T>>, missing: T -> bool)
    ensures DropNA(a + b, missing) == DropNA(a, missing) + DropNA(b, missing)
    decreases |a|
  {
    if |a| > 0 {
      assert (a + b)[1..] == a[1..] + b;
      DropNAAppend(a[1..], b, missing);
    } else {
      assert a + b == b;
    }
  }

  /** A table whose rows are all complete is left as it is. */
  lemma {:induction false} DropNAComplete<T>(rows: seq<Row<T>>, missing: T -> bool)
    requires forall i :: 0 <= i < |rows| ==> Complete(rows[i], missing)
    ensures DropNA(rows, missing) == rows
    decreases |rows|
  {
    if |rows| > 0 {
      DropNAComplete(rows[1..], missing);
    }
  }

  /** A table whose first row alone is incomplete loses exactly that row. */
  lemma DropNAFirstOnly<T>(rows: seq<Row<T>>, missing: T -> bool)
    requires |rows| > 0 && !Complete(rows[0], missing)
    requires forall i :: 1 <= i < |rows| ==> Complete(rows[i], missing)
    ensures DropNA(rows, missing) == rows[1..]
  {
    DropNAComplete(rows[1..], missing);
  }

  predicate DatesIncreasing<T>(rows: seq<Row<T>>)
  {
    forall i, j :: 0 <= i < j < |rows| ==> rows[i].date < rows[j].date
  }

  lemma {:induction false} DropNAKeepsLaterDates<T>(rows: seq<Row<T>>, missing: T -> bool, d: int)
    requires forall i :: 0 <= i < |rows| ==> d < rows[i].date
    ensures forall k :: 0 <= k < |DropNA(rows, missing)| ==> d < DropNA(rows, missing)[k].date
    decreases |rows|
  {
    if |rows| > 0 {
      DropNAKeepsLaterDates(rows[1..], missing, d);
    }
  }

  /** Dropping rows keeps the remaining dates in their increasing order. */
  lemma {:induction false} DropNAKeepsDateOrder<T>(rows: seq<Row<T>>, missing: T -> bool)
    requires DatesIncreasing(rows)
    ensures DatesIncreasing(DropNA(rows, missing))
    decreases |rows|
  {
    if |rows| > 0 {
      DropNAKeepsDateOrder(rows[1..], missing);
      DropNAKeepsLaterDates(rows[1..], missing, rows[0].date);
    }
  }

  function IsNone(o: Option<real>): bool
  {
    o.None?
  }

  function Present(r: Row<Option<real>>): (p: Row<real>)
    requires Complete(r, IsNone)
    ensures p.date == r.date && |p.cells| == |r.cells|
    ensures forall j :: 0 <= j < |r.cells| ==> r.cells[j] == Some(p.cells[j])
  {
    Row(r.date, seq(|r.cells|, j requires 0 <= j < |r.cells| => r.cells[j].value))
  }

  /** `yf.download(...)['Close'].dropna()`: the close table reduced to the dates on
      which every ticker has a price (an inner join of the tickers' dates). */
  function Align(raw: seq<Row<Option<real>>>): (aligned: seq<Row<real>>)
    ensures |aligned| == |DropNA(raw, IsNone)|
    ensures forall k :: 0 <= k < |aligned| ==> aligned[k] == Present(DropNA(raw, IsNone)[k])
  {
    var kept := DropNA(raw, IsNone);
    seq(|kept|, k requires 0 <= k < |kept| => Present(kept[k]))
  }

  /** A row is in the aligned table exactly when some input row with all its
      prices present carries the same date and prices. */
  lemma AlignMembership(raw: seq<Row<Option<real>>>, r: Row<real>)
    ensures r in Align(raw) <==> exists i :: 0 <= i < |raw| && Complete(raw[i], IsNone) && Present(raw[i]) == r
  {
    var kept := DropNA(raw, IsNone);
    var aligned := Align(raw);
    DropNAKeepsExactly(raw, IsNone);
    if r in aligned {
      var k :| 0 <= k < |aligned| && aligned[k] == r;
      assert kept[k] in kept;
      var i :| 0 <= i < |raw| && raw[i] == kept[k];
    }
    if exists i :: 0 <= i < |raw| && Complete(raw[i], IsNone) && Present(raw[i]) == r {
      var i :| 0 <= i < |raw| && Complete(raw[i], IsNone) && Present(raw[i]) == r;
      assert raw[i] in kept;
      var k :| 0 <= k < |kept| && kept[k] == raw[i];
      assert aligned[k] == r;
    }
  }

  /** Alignment keeps the dates of the kept rows increasing and every row as
      wide as the ticker list. */
  lemma AlignShape(raw: seq<Row<Option<real>>>, width: nat)
    requires Rectangular(raw, width) && DatesIncreasing(raw)
    ensures Rectangular(Align(raw), width) && DatesIncreasing(Align(raw))
  {
    DropNAKeepsDateOrder(raw, IsNone);
    DropNARectangular(raw, IsNone, width);
  }

  /** One ticker's column of a table, as `data[t]`. */
  function Column<T>(rows: seq<Row<T>>, j: nat): (col: seq<T>)
    requires forall i :: 0 <= i < |rows| ==> j < |rows[i].cells|
    ensures |col| == |rows|
    ensures forall i :: 0 <= i < |rows| ==> col[i] == rows[i].cells[j]
  {
    seq(|rows|, i requires 0 <= i < |rows| => rows[i].cells[j])
  }
}
