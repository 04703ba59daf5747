/** Tagged stand-ins for the floating-point values the analytics code produces.
    Arithmetic is exact over `real`; the two kinds of special IEEE value the
    source can reach are named instead of propagated silently:
    `Absent` is NaN (a point the computation leaves undefined) and
    `Unbounded(true)` / `Unbounded(false)` are +inf / -inf. */
module Outcomes {

  datatype Num = Value(v: real) | Absent | Unbounded(positive: bool)

  function Neg(x: Num): (r: Num)
    ensures r.Absent? <==> x.Absent?
  {
    match x
    case Value(a) => Value(-a)
    case Absent => Absent
    case Unbounded(p) => Unbounded(!p)
  }

  /** `x + y`: NaN absorbs, inf + finite is inf, inf + (-inf) is NaN. */
  function Add(x: Num, y: Num): (r: Num)
    ensures r.Absent? <==> x.Absent? || y.Absent? || (x.Unbounded? && y.Unbounded? && x.positive != y.positive)
  {
    match (x, y)
    case (Absent, _) => Absent
    case (_, Absent) => Absent
    case (Value(a), Value(b)) => Value(a + b)
    case (Unbounded(p), Value(_)) => Unbounded(p)
    case (Value(_), Unbounded(q)) => Unbounded(q)
    case (Unbounded(p), Unbounded(q)) => if p == q then Unbounded(p) else Absent
  }

  /** `x - y`: finite operands subtract exactly; NaN absorbs, and an
      infinity minus the same infinity is NaN. */
  function Sub(x: Num, y: Num): (r: Num)
    ensures x.Value? && y.Value? ==> r == Value(x.v - y.v)
    ensures r.Absent? <==> x.Absent? || y.Absent? || (x.Unbounded? && y.Unbounded? && x.positive == y.positive)
  {
    Add(x, Neg(y))
  }

  /** `k * x` for a finite constant `k`: 0 * inf is NaN. */
  function Times(k: real, x: Num): (r: Num)
    ensures r.Absent? <==> x.Absent? || (x.Unbounded? && k == 0.0)
  {
    match x
    case Value(a) => Value(k * a)
    case Absent => Absent
    case Unbounded(p) => if k == 0.0 then Absent else Unbounded(p == (k > 0.0))
  }

  /** Scaling by a non-zero constant gives 0 only from 0. */
  lemma ScaledZero(k: real, x: Num)
    requires k != 0.0 && Times(k, x) == Value(0.0)
    ensures x == Value(0.0)
  {
  }

  /** Quotient of two finite floats: a non-zero numerator over zero is an
      infinity of the numerator's sign, 0/0 is NaN. */
  function Quotient(a: real, b: real): (q: Num)
    ensures q.Value? <==> b != 0.0
    ensures q.Value? ==> q.v == a / b
    ensures q.Absent? <==> a == 0.0 && b == 0.0
    ensures q == Unbounded(true) <==> b == 0.0 && a > 0.0
    ensures q == Unbounded(false) <==> b == 0.0 && a < 0.0
  {
    if b != 0.0 then Value(a / b)
    else if a == 0.0 then Absent
    else Unbounded(a > 0.0)
  }

  /** `x / y`: NaN absorbs, finite / inf is 0, inf / inf is NaN. */
  function Div(x: Num, y: Num): (r: Num)
    ensures x.Value? && y.Value? ==> r == Quotient(x.v, y.v)
    ensures x.Absent? || y.Absent? ==> r.Absent?
  {
    match (x, y)
    case (Absent, _) => Absent
    case (_, Absent) => Absent
    case (Value(a), Value(b)) => Quotient(a, b)
    case (Value(_), Unbounded(_)) => Value(0.0)
    case (Unbounded(p), Value(b)) => Unbounded(if b < 0.0 then !p else p)
    case (Unbounded(_), Unbounded(_)) => Absent
  }

  /** The order of the extended reals, on values that are not NaN. */
  predicate Below(x: Num, y: Num)
    requires !x.Absent? && !y.Absent?
  {
    x == Unbounded(false) || y == Unbounded(true) || (x.Value? && y.Value? && x.v <= y.v)
  }

  /** `Series.min()` with its default `skipna=True`: the least entry that is
      not NaN, and NaN when there is none (an empty series included). */
  function MinSkipAbsent(xs: seq<Num>): (r: Num)
    ensures r.Absent? <==> forall i :: 0 <= i < |xs| ==> xs[i].Absent?
    ensures !r.Absent? ==> forall i :: 0 <= i < |xs| && !xs[i].Absent? ==> Below(r, xs[i])
    decreases |xs|
  {
    if |xs| == 0 then Absent
    else
      var m := MinSkipAbsent(xs[1..]);
      assert forall i :: 1 <= i < |xs| ==> xs[i] == xs[1..][i - 1];
      if xs[0].Absent? then m
      else if m.Absent? then xs[0]
      else if Below(xs[0], m) then xs[0]
      else m
  }

  /** The minimum is below every entry that is not NaN. */
  lemma MinSkipAbsentBelow(xs: seq<Num>, t: nat)
    requires t < |xs| && !xs[t].Absent?
    ensures !MinSkipAbsent(xs).Absent? && Below(MinSkipAbsent(xs), xs[t])
  {
  }

  /** A minimum that is not NaN is one of the entries. */
  lemma {:induction false} MinSkipAbsentAttained(xs: seq<Num>)
    ensures !MinSkipAbsent(xs).Absent? ==> exists k :: 0 <= k < |xs| && xs[k] == MinSkipAbsent(xs)
    decreases |xs|
  {
    if |xs| > 0 {
      MinSkipAbsentAttained(xs[1..]);
      if !MinSkipAbsent(xs[1..]).Absent? {
        var k :| 0 <= k < |xs[1..]| && xs[1..][k] == MinSkipAbsent(xs[1..]);
        assert xs[k + 1] == MinSkipAbsent(xs[1..]);
      }
    }
  }
}
