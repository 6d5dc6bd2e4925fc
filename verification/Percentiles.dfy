/** Percentiles of latency measurements (`calibration.py`). */
module Percentiles {
  import opened Options
  import opened StableSort

  datatype PercentileError = QuantileOutOfRange

  function ValueKey(v: real): Key {
    [v]
  }

  function InOrder(values: seq<real>): seq<real> {
    Sorted(values, ValueKey, false)
  }

  function Ceiling(x: real): int {
    -(-x).Floor
  }

  function Scaled(x: real, factor: real): real {
    x * factor
  }

  /** The value at a position between two ranks, by linear interpolation. */
  function At(ordered: seq<real>, position: real): real
    requires 0.0 <= position <= (|ordered| - 1) as real
  {
    var lower, upper := position.Floor, Ceiling(position);
    if lower == upper then ordered[lower]
    else ordered[lower] + Scaled(ordered[upper] - ordered[lower], position - lower as real)
  }

  function Position(n: nat, quantile: real): (r: real)
    requires n > 0 && 0.0 <= quantile <= 1.0
    ensures 0.0 <= r <= (n - 1) as real
  {
    ScaledWithin((n - 1) as real, quantile);
    Scaled((n - 1) as real, quantile)
  }

  lemma ScaledWithin(x: real, factor: real)
    requires x >= 0.0 && 0.0 <= factor <= 1.0
    ensures 0.0 <= Scaled(x, factor) <= x
  {
  }

  function Percentile(values: seq<real>, quantile: real): Result<Option<real>, PercentileError> {
    var ordered := InOrder(values);
    if ordered == [] then Ok(None)
    else if !(0.0 <= quantile <= 1.0) then Err(QuantileOutOfRange)
    else if |ordered| == 1 then Ok(Some(ordered[0]))
    else Ok(Some(At(ordered, Position(|ordered|, quantile))))
  }

  ghost predicate Ascending(xs: seq<real>) {
    forall i, j :: 0 <= i <= j < |xs| ==> xs[i] <= xs[j]
  }

  lemma InOrderAscends(values: seq<real>)
    ensures Ascending(InOrder(values)) && |InOrder(values)| == |values|
  {
    var tie := (a: real, b: real) => true;
    var ordered := InOrder(values);
    SortedIsOrdered(values, ValueKey, false, tie);
    SortedElements(values, ValueKey, false);
    forall i, j | 0 <= i < j < |ordered| ensures ordered[i] <= ordered[j] {
      assert MayPrecede(ordered[i], ordered[j], ValueKey, false, tie);
    }
  }

  lemma AtIsBetween(ordered: seq<real>, p: real)
    requires Ascending(ordered) && 0.0 <= p <= (|ordered| - 1) as real
    ensures ordered[p.Floor] <= At(ordered, p) <= ordered[Ceiling(p)]
  {
    var lower, upper := p.Floor, Ceiling(p);
    if lower != upper {
      ScaledWithin(ordered[upper] - ordered[lower], p - lower as real);
    }
  }

  lemma Scale(x: real, a: real, b: real)
    requires x >= 0.0 && a <= b
    ensures Scaled(x, a) <= Scaled(x, b)
  {
  }

  lemma AtIsMonotone(ordered: seq<real>, p: real, q: real)
    requires Ascending(ordered) && 0.0 <= p <= q <= (|ordered| - 1) as real
    ensures At(ordered, p) <= At(ordered, q)
  {
    AtIsBetween(ordered, p);
    AtIsBetween(ordered, q);
    if p.Floor == q.Floor && Ceiling(p) == Ceiling(q) {
      Scale(ordered[Ceiling(p)] - ordered[p.Floor], p - p.Floor as real, q - p.Floor as real);
    } else if p.Floor == q.Floor {
      assert p == p.Floor as real;
    } else {
      assert Ceiling(p) <= q.Floor;
    }
  }

  /** A higher quantile never reports a smaller value: p50 <= p95 <= p99. */
  lemma PercentileIsMonotone(values: seq<real>, q1: real, q2: real)
    requires values != [] && 0.0 <= q1 <= q2 <= 1.0
    ensures Percentile(values, q1).Ok? && Percentile(values, q2).Ok?
    ensures Percentile(values, q1).value.value <= Percentile(values, q2).value.value
  {
    var ordered := InOrder(values);
    InOrderAscends(values);
    if |ordered| > 1 {
      Scale((|ordered| - 1) as real, q1, q2);
      AtIsMonotone(ordered, Position(|ordered|, q1), Position(|ordered|, q2));
    }
  }

  /** The order in which the values were recorded does not matter. */
  lemma PercentileIgnoresOrder(xs: seq<real>, ys: seq<real>, quantile: real)
    requires multiset(xs) == multiset(ys)
    ensures Percentile(xs, quantile) == Percentile(ys, quantile)
  {
    InOrderAscends(xs);
    InOrderAscends(ys);
    SortedElements(xs, ValueKey, false);
    SortedElements(ys, ValueKey, false);
    AscendingIsUnique(InOrder(xs), InOrder(ys));
  }

  lemma SameLeast(xs: seq<real>, ys: seq<real>)
    requires multiset(xs) == multiset(ys) && Ascending(xs) && Ascending(ys) && xs != [] && ys != []
    ensures xs[0] == ys[0]
  {
    assert xs[0] in multiset(ys) && ys[0] in multiset(xs);
  }

  lemma TailIsAscending(xs: seq<real>)
    requires xs != [] && Ascending(xs)
    ensures Ascending(xs[1..]) && multiset(xs[1..]) == multiset(xs) - multiset{xs[0]}
  {
    assert xs == [xs[0]] + xs[1..];
  }

  lemma {:induction false} AscendingIsUnique(xs: seq<real>, ys: seq<real>)
    requires multiset(xs) == multiset(ys) && Ascending(xs) && Ascending(ys)
    ensures xs == ys
  {
    assert |multiset(xs)| == |multiset(ys)|;
    if xs != [] {
      SameLeast(xs, ys);
      TailIsAscending(xs);
      TailIsAscending(ys);
      AscendingIsUnique(xs[1..], ys[1..]);
      assert xs == [xs[0]] + xs[1..] && ys == [ys[0]] + ys[1..];
    }
  }

  function Count(values: seq<real>, p: real -> bool): nat {
    if values == [] then 0 else (if p(values[0]) then 1 else 0) + Count(values[1..], p)
  }

  lemma {:induction false} CountInsert(x: real, xs: seq<real>, p: real -> bool)
    ensures Count(Insert(x, xs, ValueKey, false), p) == Count([x] + xs, p)
  {
    assert ([x] + xs)[1..] == xs;
    if xs != [] && Before(ValueKey(xs[0]), ValueKey(x), false) {
      CountInsert(x, xs[1..], p);
      assert ([x] + xs[1..])[1..] == xs[1..];
    }
  }

  lemma {:induction false} CountInOrder(values: seq<real>, p: real -> bool)
    ensures Count(InOrder(values), p) == Count(values, p)
  {
    if values != [] {
      CountInOrder(values[1..], p);
      CountInsert(values[0], InOrder(values[1..]), p);
      assert ([values[0]] + InOrder(values[1..]))[1..] == InOrder(values[1..]);
    }
  }

  lemma {:induction false} CountRange(values: seq<real>, p: real -> bool, from: nat, to: nat)
    requires from <= to <= |values| && forall i :: from <= i < to ==> p(values[i])
    ensures Count(values, p) >= to - from
    decreases |values|
  {
    if to > 0 {
      CountRange(values[1..], p, if from == 0 then 0 else from - 1, to - 1);
    }
  }

  function AtMost(values: seq<real>, v: real): nat {
    Count(values, x => x <= v)
  }

  function AtLeast(values: seq<real>, v: real): nat {
    Count(values, x => x >= v)
  }

  lemma CountsInOrder(values: seq<real>, v: real)
    ensures AtMost(InOrder(values), v) == AtMost(values, v)
    ensures AtLeast(InOrder(values), v) == AtLeast(values, v)
  {
    CountInOrder(values, x => x <= v);
    CountInOrder(values, x => x >= v);
  }

  lemma AtSplits(ordered: seq<real>, position: real)
    requires Ascending(ordered) && 0.0 <= position <= (|ordered| - 1) as real
    ensures AtMost(ordered, At(ordered, position)) as real > position
    ensures AtLeast(ordered, At(ordered, position)) as real > (|ordered| - 1) as real - position
  {
    var v := At(ordered, position);
    AtIsBetween(ordered, position);
    CountRange(ordered, x => x <= v, 0, position.Floor + 1);
    CountRange(ordered, x => x >= v, Ceiling(position), |ordered|);
  }

  /** What a percentile means, whatever the order of the values: more than (n - 1) * q of
      the n values are at most the result and more than (n - 1) * (1 - q) at least. */
  lemma PercentileSplitsTheValues(values: seq<real>, quantile: real)
    requires values != [] && 0.0 <= quantile <= 1.0
    ensures var v := Percentile(values, quantile).value.value;
            && AtMost(values, v) as real > Scaled((|values| - 1) as real, quantile)
            && AtLeast(values, v) as real > (|values| - 1) as real - Scaled((|values| - 1) as real, quantile)
  {
    var v := Percentile(values, quantile).value.value;
    InOrderAscends(values);
    AtSplits(InOrder(values), Position(|values|, quantile));
    CountsInOrder(values, v);
  }
}
