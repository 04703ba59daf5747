/** The ticker list: the comma-separated text input, normalised, with the
    benchmark appended when it is missing. */
module Tickers {

  const Benchmark: string := "SPY"
  const DefaultInput: string := "AAPL,MSFT,SPY"

  /** Number of commas in a text. */
  function Commas(s: string): nat
    decreases |s|
  {
    if |s| == 0 then 0 else (if s[0] == ',' then 1 else 0) + Commas(s[1..])
  }

  /** `s.split(",")`: the pieces between commas, an empty text giving one
      empty piece. */
  function Split(s: string): (parts: seq<string>)
    ensures |parts| == Commas(s) + 1
    ensures forall i :: 0 <= i < |parts| ==> ',' !in parts[i]
    decreases |s|
  {
    if |s| == 0 then [""]
    else
      var rest := Split(s[1..]);
      if s[0] == ',' then [""] + rest
      else [[s[0]] + rest[0]] + rest[1..]
  }

  /** `",".join(parts)` */
  function Join(parts: seq<string>): string
    decreases |parts|
  {
    if |parts| == 0 then ""
    else if |parts| == 1 then parts[0]
    else parts[0] + "," + Join(parts[1..])
  }

  /** Joining the pieces of a split with commas restores the text. */
  lemma {:induction false} JoinSplit(s: string)
    ensures Join(Split(s)) == s
    decreases |s|
  {
    if |s| > 0 {
      var rest := Split(s[1..]);
      JoinSplit(s[1..]);
      if s[0] == ',' {
        assert ([""] + rest)[1..] == rest;
        assert s == "" + "," + s[1..];
      } else {
        var parts := [[s[0]] + rest[0]] + rest[1..];
        assert parts[1..] == rest[1..];
        if |rest| == 1 {
          assert s == [s[0]] + rest[0];
        } else {
          assert Join(rest) == rest[0] + "," + Join(rest[1..]);
          assert s == [s[0]] + s[1..];
        }
      }
    }
  }

  lemma {:induction false} SplitCommaFreePrefix(a: string, r: string)
    requires ',' !in a
    ensures Split(a + r) == [a + Split(r)[0]] + Split(r)[1..]
    decreases |a|
  {
    if |a| > 0 {
      assert (a + r)[1..] == a[1..] + r;
      SplitCommaFreePrefix(a[1..], r);
      var rest := Split(a[1..] + r);
      assert rest[0] == a[1..] + Split(r)[0] && rest[1..] == Split(r)[1..];
      assert Split(a + r) == [[a[0]] + rest[0]] + rest[1..];
      assert [a[0]] + (a[1..] + Split(r)[0]) == a + Split(r)[0];
    } else {
      assert a + r == r;
      assert a + Split(r)[0] == Split(r)[0];
    }
  }

  /** Splitting comma-separated pieces that contain no comma gives the pieces
      back. */
  lemma {:induction false} SplitJoin(parts: seq<string>)
    requires |parts| >= 1 && forall i :: 0 <= i < |parts| ==> ',' !in parts[i]
    ensures Split(Join(parts)) == parts
    decreases |parts|
  {
    if |parts| == 1 {
      SplitCommaFreePrefix(parts[0], "");
      assert parts[0] + "" == parts[0];
    } else {
      var tail := Join(parts[1..]);
      SplitJoin(parts[1..]);
      assert parts[0] + "," + tail == parts[0] + ("," + tail);
      SplitCommaFreePrefix(parts[0], "," + tail);
      assert ("," + tail)[1..] == tail;
      assert Split("," + tail) == [""] + parts[1..];
      assert parts[0] + "" == parts[0];
    }
  }

  /** Python's `str.isspace()`: the ASCII whitespace and separator controls
      and the Unicode space separators. */
  predicate IsSpace(c: char)
  {
    var n := c as int;
    (9 <= n <= 13) || (0x1C <= n <= 0x20) || n == 0x85 || n == 0xA0 || n == 0x1680 ||
    (0x2000 <= n <= 0x200A) || n == 0x2028 || n == 0x2029 || n == 0x202F || n == 0x205F || n == 0x3000
  }

  /** The number of whitespace characters at the start of `s`. */
  function LeadingSpace(s: string): (n: nat)
    ensures n <= |s|
    ensures forall k :: 0 <= k < n ==> IsSpace(s[k])
    ensures n < |s| ==> !IsSpace(s[n])
    decreases |s|
  {
    if |s| > 0 && IsSpace(s[0]) then
      var n := LeadingSpace(s[1..]);
      assert forall k :: 1 <= k < n + 1 ==> s[k] == s[1..][k - 1];
      1 + n
    else 0
  }

  /** The number of whitespace characters at the end of `s`. */
  function TrailingSpace(s: string): (n: nat)
    ensures n <= |s|
    ensures forall k :: |s| - n <= k < |s| ==> IsSpace(s[k])
    ensures n < |s| ==> !IsSpace(s[|s| - n - 1])
    decreases |s|
  {
    if |s| > 0 && IsSpace(s[|s| - 1]) then
      var n := TrailingSpace(s[..|s| - 1]);
      assert forall k :: |s| - 1 - n <= k < |s| - 1 ==> s[k] == s[..|s| - 1][k];
      1 + n
    else 0
  }

  /** `s.lstrip()`: drop the leading whitespace. */
  function StripLeft(s: string): (r: string)
    ensures |r| <= |s| && r == s[|s| - |r|..]
    ensures forall k :: 0 <= k < |s| - |r| ==> IsSpace(s[k])
    ensures |r| > 0 ==> !IsSpace(r[0])
  {
    s[LeadingSpace(s)..]
  }

  /** `s.rstrip()`: drop the trailing whitespace. */
  function StripRight(s: string): (r: string)
    ensures |r| <= |s| && r == s[..|r|]
    ensures forall k :: |r| <= k < |s| ==> IsSpace(s[k])
    ensures |r| > 0 ==> !IsSpace(r[|r| - 1])
  {
    s[..|s| - TrailingSpace(s)]
  }

  /** Right-stripping keeps the first character of what is left. */
  lemma StripRightKeepsFirst(l: string)
    ensures |StripRight(l)| > 0 ==> StripRight(l)[0] == l[0]
  {
  }

  /** `s.strip()` */
  function Strip(s: string): (r: string)
    ensures |r| <= |s|
    ensures |r| > 0 ==> !IsSpace(r[0]) && !IsSpace(r[|r| - 1])
  {
    StripRightKeepsFirst(StripLeft(s));
    StripRight(StripLeft(s))
  }

  /** A prefix of a suffix is a slice. */
  lemma PrefixOfSuffix(s: string, l: string, r: string)
    requires |l| <= |s| && l == s[|s| - |l|..]
    requires |r| <= |l| && r == l[..|r|]
    ensures r == s[|s| - |l|..|s| - |l| + |r|]
  {
  }

  /** Indexing a suffix is indexing the text it was cut from. */
  lemma SuffixAt(s: string, l: string, k: nat)
    requires |l| <= |s| && l == s[|s| - |l|..]
    requires |s| - |l| <= k < |s|
    ensures l[k - (|s| - |l|)] == s[k]
  {
  }

  /** A stripped text is the piece of the original that starts after the
      leading whitespace. */
  lemma {:induction false} StripIsSlice(s: string)
    ensures |Strip(s)| <= |StripLeft(s)| <= |s|
    ensures Strip(s) == s[|s| - |StripLeft(s)|..|s| - |StripLeft(s)| + |Strip(s)|]
  {
    var l := StripLeft(s);
    assert Strip(s) == StripRight(l);
    PrefixOfSuffix(s, l, StripRight(l));
  }

  /** Everything stripping cuts away is whitespace. */
  lemma {:induction false} StripRemovesOnlySpace(s: string, k: nat)
    requires k < |s|
    requires k < |s| - |StripLeft(s)| || k >= |s| - |StripLeft(s)| + |Strip(s)|
    ensures IsSpace(s[k])
  {
    var l := StripLeft(s);
    if k >= |s| - |l| {
      SuffixAt(s, l, k);
      assert IsSpace(l[k - (|s| - |l|)]);
    }
  }

  /** A text with no whitespace at either end is its own strip. */
  lemma StripTrimmed(s: string)
    requires |s| > 0 ==> !IsSpace(s[0]) && !IsSpace(s[|s| - 1])
    ensures Strip(s) == s
  {
  }

  /** Stripping twice is stripping once. */
  lemma StripIdempotent(s: string)
    ensures Strip(Strip(s)) == Strip(s)
  {
    StripTrimmed(Strip(s));
  }

  predicate IsLowerAscii(c: char)
  {
    'a' <= c <= 'z'
  }

  function UpperChar(c: char): (u: char)
    ensures !IsLowerAscii(u)
    ensures IsLowerAscii(c) ==> 'A' <= u <= 'Z' && u as int - 'A' as int == c as int - 'a' as int
    ensures !IsLowerAscii(c) ==> u == c
    ensures IsSpace(u) <==> IsSpace(c)
    ensures u == ',' <==> c == ','
  {
    if IsLowerAscii(c) then (c as int - 32) as char else c
  }

  /** `s.upper()` on ASCII letters: each lower-case letter becomes its capital,
      every other character stays. */
  function Upper(s: string): (u: string)
    ensures |u| == |s|
    ensures forall k :: 0 <= k < |s| ==> u[k] == UpperChar(s[k])
    ensures forall k :: 0 <= k < |s| ==> !IsLowerAscii(u[k])
    ensures forall k :: 0 <= k < |s| && !IsLowerAscii(s[k]) ==> u[k] == s[k]
  {
    seq(|s|, k requires 0 <= k < |s| => UpperChar(s[k]))
  }

  /** Upper-casing twice is upper-casing once. */
  lemma UpperIdempotent(s: string)
    ensures Upper(Upper(s)) == Upper(s)
  {
  }

  /** `t.strip().upper()` for one comma-separated piece. */
  function Normalise(piece: string): (t: string)
    ensures |t| <= |piece|
    ensures forall k :: 0 <= k < |t| ==> !IsLowerAscii(t[k])
  {
    Upper(Strip(piece))
  }

  lemma StripCommaFree(s: string)
    requires ',' !in s
    ensures ',' !in Strip(s)
  {
    StripIsSlice(s);
  }

  lemma UpperCommaFree(s: string)
    requires ',' !in s
    ensures ',' !in Upper(s)
  {
  }

  lemma UpperEnds(s: string)
    requires |s| > 0 ==> !IsSpace(s[0]) && !IsSpace(s[|s| - 1])
    ensures |Upper(s)| > 0 ==> !IsSpace(Upper(s)[0]) && !IsSpace(Upper(s)[|Upper(s)| - 1])
  {
    if |s| > 0 {
      assert Upper(s)[0] == UpperChar(s[0]);
      assert Upper(s)[|s| - 1] == UpperChar(s[|s| - 1]);
    }
  }

  /** A piece without commas normalises to a clean ticker. */
  lemma NormaliseClean(piece: string)
    requires ',' !in piece
    ensures Clean(Normalise(piece))
  {
    var s := Strip(piece);
    StripCommaFree(piece);
    UpperCommaFree(s);
    UpperEnds(s);
  }

  /** A piece that is already trimmed and upper-case is left as it is. */
  lemma NormaliseFixed(piece: string)
    requires |piece| > 0 ==> !IsSpace(piece[0]) && !IsSpace(piece[|piece| - 1])
    requires forall k :: 0 <= k < |piece| ==> !IsLowerAscii(piece[k])
    ensures Normalise(piece) == piece
  {
    StripTrimmed(piece);
  }

  /** Stripping a piece padded with one space on each side. */
  lemma StripExample()
    ensures Strip(" aapl ") == "aapl"
  {
    assert LeadingSpace(" aapl ") == 1 by {
      assert " aapl "[1..] == "aapl ";
    }
    assert StripLeft(" aapl ") == "aapl ";
    assert TrailingSpace("aapl ") == 1 by {
      assert "aapl "[..4] == "aapl";
    }
  }

  /** Upper-casing replaces each lower-case letter by its own capital. */
  lemma UpperExample()
    ensures Upper("aapl") == "AAPL"
  {
    var u := Upper("aapl");
    assert u[0] == 'A' && u[1] == 'A' && u[2] == 'P' && u[3] == 'L';
  }

  /** A lower-case piece padded with spaces becomes its capitalised ticker. */
  lemma NormaliseExample()
    ensures Normalise(" aapl ") == "AAPL"
  {
    StripExample();
    UpperExample();
  }

  /** `[t.strip().upper() for t in text.split(",")]`: one ticker per comma
      separated piece, in order. */
  function ParseTickers(input: string): (ts: seq<string>)
    ensures |ts| == Commas(input) + 1
    ensures forall i :: 0 <= i < |ts| ==> ts[i] == Normalise(Split(input)[i])
  {
    var parts := Split(input);
    seq(|parts|, i requires 0 <= i < |parts| => Normalise(parts[i]))
  }

  /** Every parsed ticker is clean. */
  lemma ParsedTickersAreClean(input: string, i: nat)
    requires i < |ParseTickers(input)|
    ensures Clean(ParseTickers(input)[i])
  {
    assert ',' !in Split(input)[i];
    NormaliseClean(Split(input)[i]);
  }

  /** `if "SPY" not in tickers: tickers.append("SPY")` as a value: the
      benchmark is present afterwards, the earlier tickers keep their
      positions, and the list grows only when the benchmark was missing, by
      the benchmark alone at the end. */
  function WithBenchmark(ts: seq<string>): (r: seq<string>)
    ensures Benchmark in r
    ensures |ts| <= |r| <= |ts| + 1 && r[..|ts|] == ts
    ensures |r| == |ts| <==> Benchmark in ts
    ensures |r| == |ts| + 1 ==> r[|ts|] == Benchmark
  {
    if Benchmark in ts then ts else ts + [Benchmark]
  }

  /** Adding the benchmark a second time changes nothing. */
  lemma WithBenchmarkIdempotent(ts: seq<string>)
    ensures WithBenchmark(WithBenchmark(ts)) == WithBenchmark(ts)
  {
  }

  /** A ticker as parsing leaves it: no comma, no surrounding whitespace and
      no lower-case ASCII letter. */
  predicate Clean(t: string)
  {
    ',' !in t && (|t| > 0 ==> !IsSpace(t[0]) && !IsSpace(t[|t| - 1])) &&
    forall k :: 0 <= k < |t| ==> !IsLowerAscii(t[k])
  }

  /** Parsing the comma-join of a list of clean tickers gives the list back. */
  lemma ParseJoin(names: seq<string>)
    requires |names| >= 1 && forall i :: 0 <= i < |names| ==> Clean(names[i])
    ensures ParseTickers(Join(names)) == names
  {
    SplitJoin(names);
    var ts := ParseTickers(Join(names));
    forall i | 0 <= i < |names| ensures ts[i] == names[i] {
      NormaliseFixed(names[i]);
    }
  }

  /** The default input already names the benchmark, so it is kept as it is. */
  lemma DefaultTickers()
    ensures ParseTickers(DefaultInput) == ["AAPL", "MSFT", "SPY"]
    ensures WithBenchmark(ParseTickers(DefaultInput)) == ["AAPL", "MSFT", "SPY"]
  {
    var names := ["AAPL", "MSFT", "SPY"];
    assert Join(names[2..]) == "SPY";
    assert Join(names[1..]) == "MSFT,SPY";
    assert Join(names) == DefaultInput;
    assert Clean(names[0]) && Clean(names[1]) && Clean(names[2]);
    ParseJoin(names);
    assert names[2] == Benchmark;
  }

  /** The `tickers` list of the page, updated in place. */
  class TickerList {
    var items: seq<string>

    /** The list parsed from the text input. */
    constructor (input: string)
      ensures items == ParseTickers(input)
    {
      items := ParseTickers(input);
    }

    /** Appends the benchmark when it is missing. */
    method EnsureBenchmark()
      modifies this
      ensures items == WithBenchmark(old(items))
      ensures Benchmark in items
      ensures items[..|old(items)|] == old(items)
    {
      if Benchmark !in items {
        items := items + [Benchmark];
      }
    }
  }
}
