/** What the figures of a calibration step are figures of: percentiles, time windows and
    throughput. */
module MeasurementOutcomes {
  import opened Options
  import opened StepSummary
  import Percentiles
  import StableSort

  // ---------- Percentiles ----------

  lemma FloorIs(x: real, i: int, w: real)
    requires x == i as real + w && 0.0 <= w < 1.0
    ensures x.Floor == i
    ensures Percentiles.Ceiling(x) == if w == 0.0 then i else i + 1
  {
  }

  lemma Weigh(a: real, b: real, w: real)
    ensures a + Percentiles.Scaled(b - a, w) == Percentiles.Scaled(a, 1.0 - w) + Percentiles.Scaled(b, w)
  {
  }

  /** Between two ranks the value is weighed from both, by the distance to the other. */
  lemma AtMeaning(ordered: seq<real>, i: nat, w: real)
    requires i < |ordered| && 0.0 <= w < 1.0 && (w > 0.0 ==> i + 1 < |ordered|)
    ensures Percentiles.At(ordered, i as real + w)
         == if w == 0.0 then ordered[i]
            else Percentiles.Scaled(ordered[i], 1.0 - w) + Percentiles.Scaled(ordered[i + 1], w)
  {
    FloorIs(i as real + w, i, w);
    if w > 0.0 {
      Weigh(ordered[i], ordered[i + 1], w);
    }
  }

  /** The position (n - 1) * q falls on rank `i`, or a share `w` of the way to the next. */
  predicate FallsAt(n: nat, quantile: real, i: nat, w: real) {
    0.0 <= w < 1.0 && Percentiles.Scaled((n - 1) as real, quantile) == i as real + w
  }

  /** The percentile of the values in ascending order: none of no values, an error for a
      quantile outside [0, 1], else the interpolation at its position. */
  lemma PercentileMeaning(values: seq<real>, ordered: seq<real>, quantile: real, i: nat, w: real)
    requires Percentiles.Ascending(ordered) && multiset(ordered) == multiset(values)
    ensures Percentiles.Percentile(values, quantile).Err? <==> values != [] && (quantile < 0.0 || quantile > 1.0)
    ensures Percentiles.Percentile(values, quantile) == Ok(None) <==> values == []
    ensures values != [] && 0.0 <= quantile <= 1.0 && FallsAt(|values|, quantile, i, w) ==>
              && i < |ordered| && (w > 0.0 ==> i + 1 < |ordered|)
              && Percentiles.Percentile(values, quantile)
                   == Ok(Some(if w == 0.0 then ordered[i]
                              else Percentiles.Scaled(ordered[i], 1.0 - w) + Percentiles.Scaled(ordered[i + 1], w)))
  {
    assert |ordered| == |multiset(ordered)| == |multiset(values)| == |values|;
    Percentiles.InOrderAscends(values);
    StepsSorted(values);
    Percentiles.AscendingIsUnique(ordered, Percentiles.InOrder(values));
    if values != [] && 0.0 <= quantile <= 1.0 && FallsAt(|values|, quantile, i, w) {
      Percentiles.ScaledWithin((|values| - 1) as real, quantile);
      AtMeaning(ordered, i, w);
    }
  }

  lemma StepsSorted(values: seq<real>)
    ensures multiset(Percentiles.InOrder(values)) == multiset(values)
  {
    StableSort.SortedElements(values, Percentiles.ValueKey, false);
  }

  // ---------- Windows ----------

  ghost predicate IsFirst(batch: seq<Record>, a: Record) {
    a in batch && forall b :: b in batch ==> a.started <= b.started
  }

  ghost predicate IsLast(batch: seq<Record>, a: Record) {
    a in batch && forall b :: b in batch ==> b.completed <= a.completed
  }

  lemma {:induction false} FirstIsThere(batch: seq<Record>) returns (a: Record)
    requires batch != []
    ensures IsFirst(batch, a) && a.started == Started(batch)
  {
    if |batch| == 1 {
      a := batch[0];
    } else {
      a := FirstIsThere(batch[1..]);
      if batch[0].started <= a.started {
        a := batch[0];
      }
    }
    assert batch == [batch[0]] + batch[1..];
  }

  lemma {:induction false} LastIsThere(batch: seq<Record>) returns (a: Record)
    requires batch != []
    ensures IsLast(batch, a) && a.completed == Completed(batch)
  {
    if |batch| == 1 {
      a := batch[0];
    } else {
      a := LastIsThere(batch[1..]);
      if batch[0].completed >= a.completed {
        a := batch[0];
      }
    }
    assert batch == [batch[0]] + batch[1..];
  }

  /** The window of a round runs from its first start to its last completion, in seconds. */
  lemma WindowMeaning(batch: seq<Record>, first: Record, last: Record)
    requires IsFirst(batch, first) && IsLast(batch, last)
    ensures Window(batch) == if first.started <= last.completed then (last.completed - first.started) / 1000.0 else 0.0
  {
    var a := FirstIsThere(batch);
    var b := LastIsThere(batch);
  }

  /** Some request of the round ended after some request of it began. */
  ghost predicate TimePassed(records: seq<Record>, round: int) {
    exists a, b :: a in records && b in records && a.round == round && b.round == round && a.started < b.completed
  }

  lemma WindowIsPositiveIff(records: seq<Record>, round: int)
    ensures Window(Batch(records, round)) >= 0.0
    ensures Window(Batch(records, round)) > 0.0 <==> TimePassed(records, round)
  {
    var batch := Batch(records, round);
    if batch != [] {
      var a := FirstIsThere(batch);
      var b := LastIsThere(batch);
      WindowMeaning(batch, a, b);
      if x, y :| x in records && y in records && x.round == round && y.round == round && x.started < y.completed {
        assert x in batch && y in batch;
      }
    } else {
      assert forall a :: a in records ==> a.round != round by {
        forall a | a in records ensures a.round != round {
          assert a !in batch;
        }
      }
    }
  }

  lemma WindowSumLast(records: seq<Record>, front: seq<int>, last: int)
    ensures WindowSum(records, front + [last]) == WindowSum(records, front) + Window(Batch(records, last))
  {
    assert (front + [last])[..|front|] == front;
  }

  /** Each round listed adds its own window. */
  lemma {:induction false} WindowsAdd(records: seq<Record>, a: seq<int>, round: int, b: seq<int>)
    ensures WindowSum(records, a + [round] + b) == WindowSum(records, a + b) + Window(Batch(records, round))
    decreases |b|
  {
    if b == [] {
      assert a + [round] + b == a + [round] && a + b == a;
      WindowSumLast(records, a, round);
    } else {
      var front, last := b[..|b| - 1], b[|b| - 1];
      WindowsAdd(records, a, round, front);
      WindowSumLast(records, a + [round] + front, last);
      WindowSumLast(records, a + front, last);
      assert a + [round] + b == (a + [round] + front) + [last] && a + b == (a + front) + [last];
    }
  }

  ghost predicate SomeTimePassed(records: seq<Record>, rounds: seq<int>) {
    exists r :: r in rounds && TimePassed(records, r)
  }

  lemma OneMoreRound(records: seq<Record>, front: seq<int>, last: int)
    ensures SomeTimePassed(records, front + [last]) <==> SomeTimePassed(records, front) || TimePassed(records, last)
  {
    assert last in front + [last];
  }

  lemma {:induction false} WindowSumIsPositiveIff(records: seq<Record>, rounds: seq<int>)
    ensures WindowSum(records, rounds) >= 0.0
    ensures WindowSum(records, rounds) > 0.0 <==> SomeTimePassed(records, rounds)
    decreases |rounds|
  {
    if rounds != [] {
      var front, last := rounds[..|rounds| - 1], rounds[|rounds| - 1];
      assert rounds == front + [last];
      OneMoreRound(records, front, last);
      WindowSumIsPositiveIff(records, front);
      WindowIsPositiveIff(records, last);
    }
  }

  // ---------- Tokens and throughput ----------

  function TokensOf(r: Record): nat {
    if r.tokens == None then 0 else r.tokens.value
  }

  /** A record counts its tokens, and as reporting if it has a number, wherever it stands. */
  lemma {:induction false} RecordCounts(a: seq<Record>, r: Record, b: seq<Record>)
    ensures Tokens(a + [r] + b) == Tokens(a + b) + TokensOf(r)
    ensures Reporting(a + [r] + b) == Reporting(a + b) + if r.tokens == None then 0 else 1
    decreases |a|
  {
    if a == [] {
      assert a + [r] + b == [r] + b && a + b == b && ([r] + b)[1..] == b;
    } else {
      RecordCounts(a[1..], r, b);
      assert (a + [r] + b)[1..] == a[1..] + [r] + b && (a + b)[1..] == a[1..] + b;
    }
  }

  lemma {:induction false} AllReportIff(records: seq<Record>)
    ensures Reporting(records) <= |records|
    ensures Reporting(records) == |records| <==> forall r :: r in records ==> r.tokens.Some?
  {
    if records != [] {
      AllReportIff(records[1..]);
      assert records == [records[0]] + records[1..];
    }
  }

  /** The throughput is known exactly if there are successful requests, all of them reported
      their tokens, and time passed in some round; it is the tokens over the windows. */
  lemma ThroughputMeaning(records: seq<Record>)
    ensures Throughput(records).Some? <==>
              && records != [] && (forall r :: r in records ==> r.tokens.Some?)
              && exists r :: TimePassed(records, r)
    ensures Throughput(records).Some? ==>
              && WindowSum(records, Rounds(records)) > 0.0
              && Percentiles.Scaled(Throughput(records).value, WindowSum(records, Rounds(records)))
                   == Tokens(records) as real
  {
    var windows := WindowSum(records, Rounds(records));
    AllReportIff(records);
    WindowSumIsPositiveIff(records, Rounds(records));
    RoundsClimb(records);
    forall r | TimePassed(records, r) ensures r in Rounds(records) {
      var a :| a in records && a.round == r;
      assert a in Batch(records, r);
    }
    if windows > 0.0 {
      Quotient(Tokens(records) as real, windows);
    }
  }

  lemma Quotient(x: real, y: real)
    requires y > 0.0
    ensures Percentiles.Scaled(x / y, y) == x
  {
  }
}
