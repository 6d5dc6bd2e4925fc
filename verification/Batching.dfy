/** Greedy micro-batching of a document's chunks (`_group_chunks_into_batches`). */
module Batching {
  import opened Options

  /** A selected row: chunk id and stored token count, if any. */
  datatype Row = Row(id: int, tokenCount: Option<nat>)

  datatype Limits = Limits(maxChunks: int, maxTokens: int)

  function Tokens(row: Row): nat {
    if row.tokenCount.Some? then row.tokenCount.value else 0
  }

  function TotalTokens(rows: seq<Row>): nat {
    if rows == [] then 0 else TotalTokens(rows[..|rows| - 1]) + Tokens(rows[|rows| - 1])
  }

  /** What a batch may be: one chunk alone always may, several only within both caps. */
  predicate Legal(batch: seq<Row>, limits: Limits) {
    |batch| == 1 || (|batch| > 1 && |batch| <= limits.maxChunks && TotalTokens(batch) <= limits.maxTokens)
  }

  function Flatten<T>(parts: seq<seq<T>>): seq<T> {
    if parts == [] then [] else Flatten(parts[..|parts| - 1]) + parts[|parts| - 1]
  }

  function Ids(rows: seq<Row>): seq<int> {
    seq(|rows|, i requires 0 <= i < |rows| => rows[i].id)
  }

  function AllIds(parts: seq<seq<Row>>): seq<seq<int>> {
    seq(|parts|, i requires 0 <= i < |parts| => Ids(parts[i]))
  }

  ghost predicate IsLegalPartition(parts: seq<seq<Row>>, rows: seq<Row>, limits: Limits) {
    Flatten(parts) == rows && forall i :: 0 <= i < |parts| ==> Legal(parts[i], limits)
  }

  /** No batch could have taken the first chunk of the batch after it. */
  ghost predicate Saturated(parts: seq<seq<Row>>, limits: Limits) {
    forall i :: 0 <= i < |parts| - 1 && parts[i + 1] != [] ==> !Legal(parts[i] + [parts[i + 1][0]], limits)
  }

  // ---------- The algorithm ----------

  /** Closed batches and the open one, after the rows `done`. */
  ghost predicate Grouping(parts: seq<seq<Row>>, current: seq<Row>, done: seq<Row>, limits: Limits) {
    && Flatten(parts) + current == done
    && (forall k :: 0 <= k < |parts| ==> Legal(parts[k], limits))
    && (if done == [] then parts == [] else Legal(current, limits))
    && Saturated(parts + [current], limits)
  }

  lemma OpenNewBatch(parts: seq<seq<Row>>, current: seq<Row>, done: seq<Row>, row: Row, limits: Limits)
    requires Grouping(parts, current, done, limits) && current != [] && !Legal(current + [row], limits)
    ensures Grouping(parts + [current], [row], done + [row], limits)
  {
    var wide := parts + [current] + [[row]];
    assert (parts + [current])[..|parts|] == parts;
    forall i | 0 <= i < |wide| - 1 && wide[i + 1] != [] ensures !Legal(wide[i] + [wide[i + 1][0]], limits) {
      if i < |parts| {
        assert wide[i] == (parts + [current])[i] && wide[i + 1] == (parts + [current])[i + 1];
      }
    }
  }

  lemma ExtendBatch(parts: seq<seq<Row>>, current: seq<Row>, done: seq<Row>, row: Row, limits: Limits)
    requires Grouping(parts, current, done, limits) && (current == [] ==> done == [])
    requires Legal(current + [row], limits)
    ensures Grouping(parts, current + [row], done + [row], limits)
  {
    var grown := parts + [current + [row]];
    forall i | 0 <= i < |grown| - 1 && grown[i + 1] != [] ensures !Legal(grown[i] + [grown[i + 1][0]], limits) {
      assert grown[i] == (parts + [current])[i];
      assert grown[i + 1][0] == (parts + [current])[i + 1][0];
    }
  }

  lemma CloseLastBatch(parts: seq<seq<Row>>, current: seq<Row>, rows: seq<Row>, limits: Limits)
    requires Grouping(parts, current, rows, limits)
    ensures var closed := if current == [] then parts else parts + [current];
            IsLegalPartition(closed, rows, limits) && Saturated(closed, limits)
  {
    if current == [] {
      assert rows == [];
    } else {
      assert (parts + [current])[..|parts|] == parts;
    }
  }

  lemma OneMoreIsLegal(current: seq<Row>, row: Row, limits: Limits)
    ensures TotalTokens(current + [row]) == TotalTokens(current) + Tokens(row)
    ensures Ids(current + [row]) == Ids(current) + [row.id]
    ensures Legal(current + [row], limits) <==>
              current == [] || (TotalTokens(current) + Tokens(row) <= limits.maxTokens && |current| < limits.maxChunks)
  {
    assert (current + [row])[..|current|] == current;
  }

  /** One turn of the loop. */
  lemma TakeRow(parts: seq<seq<Row>>, current: seq<Row>, done: seq<Row>, row: Row, limits: Limits)
    requires Grouping(parts, current, done, limits) && (current == [] ==> done == [])
    ensures if current != [] && (TotalTokens(current) + Tokens(row) > limits.maxTokens
                                 || |current| >= limits.maxChunks) then
              Grouping(parts + [current], [row], done + [row], limits)
            else
              Grouping(parts, current + [row], done + [row], limits)
  {
    OneMoreIsLegal(current, row, limits);
    if Legal(current + [row], limits) {
      ExtendBatch(parts, current, done, row, limits);
    } else {
      OpenNewBatch(parts, current, done, row, limits);
    }
  }

  /** What the loop's variables stand for after the rows in `done`. */
  ghost predicate InLoop(batches: seq<seq<int>>, currentBatch: seq<int>, currentTokens: int,
                         parts: seq<seq<Row>>, current: seq<Row>, done: seq<Row>, limits: Limits) {
    && batches == AllIds(parts) && currentBatch == Ids(current) && currentTokens == TotalTokens(current)
    && Grouping(parts, current, done, limits)
  }

  lemma LoopTurn(batches: seq<seq<int>>, currentBatch: seq<int>, currentTokens: int,
                 parts: seq<seq<Row>>, current: seq<Row>, done: seq<Row>, row: Row, limits: Limits)
    requires InLoop(batches, currentBatch, currentTokens, parts, current, done, limits)
    ensures if currentBatch != [] && (currentTokens + Tokens(row) > limits.maxTokens
                                      || |currentBatch| >= limits.maxChunks) then
              InLoop(batches + [currentBatch], [] + [row.id], 0 + Tokens(row), parts + [current], [] + [row],
                     done + [row], limits)
            else
              InLoop(batches, currentBatch + [row.id], currentTokens + Tokens(row), parts, current + [row],
                     done + [row], limits)
  {
    TakeRow(parts, current, done, row, limits);
    OneMoreIsLegal(current, row, limits);
    OneMoreIsLegal([], row, limits);
    assert [] + [row] == [row] && [] + [row.id] == [row.id];
    assert (parts + [current])[..|parts|] == parts;
  }

  lemma LoopEnd(batches: seq<seq<int>>, currentBatch: seq<int>, currentTokens: int,
                parts: seq<seq<Row>>, current: seq<Row>, rows: seq<Row>, limits: Limits)
    requires InLoop(batches, currentBatch, currentTokens, parts, current, rows, limits)
    ensures if currentBatch == []
            then batches == AllIds(parts) && IsLegalPartition(parts, rows, limits) && Saturated(parts, limits)
            else && batches + [currentBatch] == AllIds(parts + [current])
                 && IsLegalPartition(parts + [current], rows, limits) && Saturated(parts + [current], limits)
  {
    CloseLastBatch(parts, current, rows, limits);
  }

  /** Returns the ids grouped into batches.  The ghost result is the same grouping
      with the rows themselves. */
  method GreedyPass(rows: seq<Row>, limits: Limits)
    returns (batches: seq<seq<int>>, ghost parts: seq<seq<Row>>)
    ensures batches == AllIds(parts)
    ensures IsLegalPartition(parts, rows, limits) && Saturated(parts, limits)
  {
    batches, parts := [], [];
    var currentBatch: seq<int> := [];
    var currentTokens := 0;
    ghost var current: seq<Row> := [];
    for i := 0 to |rows|
      invariant InLoop(batches, currentBatch, currentTokens, parts, current, rows[..i], limits)
    {
      var row := rows[i];
      assert rows[..i + 1] == rows[..i] + [row];
      LoopTurn(batches, currentBatch, currentTokens, parts, current, rows[..i], row, limits);
      var estimatedTokens := Tokens(row);
      var wouldExceedTokens := currentBatch != [] && currentTokens + estimatedTokens > limits.maxTokens;
      var wouldExceedCount := |currentBatch| >= limits.maxChunks;
      if currentBatch != [] && (wouldExceedTokens || wouldExceedCount) {
        batches := batches + [currentBatch];
        parts := parts + [current];
        currentBatch, currentTokens, current := [], 0, [];
      }
      currentBatch := currentBatch + [row.id];
      currentTokens := currentTokens + estimatedTokens;
      current := current + [row];
    }
    assert rows[..|rows|] == rows;
    LoopEnd(batches, currentBatch, currentTokens, parts, current, rows, limits);
    if currentBatch != [] {
      batches := batches + [currentBatch];
      parts := parts + [current];
    }
  }

  /** What the grouping promises: the ids come back in order, every batch is
      non-empty and within the count cap (a single chunk always is), the batches are
      within the limits, and no order-preserving grouping that respects the limits
      has fewer batches. */
  ghost predicate IsGreedyGrouping(batches: seq<seq<int>>, rows: seq<Row>, limits: Limits) {
    && Flatten(batches) == Ids(rows)
    && (forall i :: 0 <= i < |batches| ==> batches[i] != [] && (|batches[i]| == 1 || |batches[i]| <= limits.maxChunks))
    && (exists parts :: batches == AllIds(parts) && IsLegalPartition(parts, rows, limits) && Saturated(parts, limits))
    && (forall other :: IsLegalPartition(other, rows, limits) ==> |batches| <= |other|)
  }

  method GroupChunksIntoBatches(rows: seq<Row>, limits: Limits) returns (batches: seq<seq<int>>)
    ensures IsGreedyGrouping(batches, rows, limits)
  {
    ghost var parts;
    batches, parts := GreedyPass(rows, limits);
    FinalBatches(parts, rows, limits);
  }

  lemma FinalBatches(parts: seq<seq<Row>>, rows: seq<Row>, limits: Limits)
    requires IsLegalPartition(parts, rows, limits) && Saturated(parts, limits)
    ensures Flatten(AllIds(parts)) == Ids(rows)
    ensures forall i :: 0 <= i < |parts| ==>
              AllIds(parts)[i] != [] && (|AllIds(parts)[i]| == 1 || |AllIds(parts)[i]| <= limits.maxChunks)
    ensures forall other :: IsLegalPartition(other, rows, limits) ==> |parts| <= |other|
  {
    FlattenIds(parts);
    forall other | IsLegalPartition(other, rows, limits) ensures |parts| <= |other| {
      GreedyIsOptimal(parts, other, rows, limits);
    }
  }

  lemma {:induction false} FlattenIds(parts: seq<seq<Row>>)
    ensures Flatten(AllIds(parts)) == Ids(Flatten(parts))
  {
    if parts != [] {
      var front := parts[..|parts| - 1];
      FlattenIds(front);
      assert AllIds(parts)[..|parts| - 1] == AllIds(front);
    }
  }

  // ---------- Optimality ----------

  lemma {:induction false} TokensSplit(a: seq<Row>, b: seq<Row>)
    ensures TotalTokens(a + b) == TotalTokens(a) + TotalTokens(b)
  {
    if b == [] {
      assert a + b == a;
    } else {
      TokensSplit(a, b[..|b| - 1]);
      assert (a + b)[..|a + b| - 1] == a + b[..|b| - 1];
    }
  }

  /** Any non-empty contiguous piece of a legal batch is legal. */
  lemma PieceIsLegal(batch: seq<Row>, limits: Limits, from: nat, to: nat)
    requires Legal(batch, limits) && from < to <= |batch|
    ensures Legal(batch[from..to], limits)
  {
    TokensSplit(batch[..from], batch[from..to]);
    assert batch[..to] == batch[..from] + batch[from..to];
    TokensSplit(batch[..to], batch[to..]);
    assert batch == batch[..to] + batch[to..];
  }

  lemma {:induction false} FlattenFront<T>(parts: seq<seq<T>>)
    requires parts != []
    ensures Flatten(parts) == parts[0] + Flatten(parts[1..])
  {
    if |parts| > 1 {
      var front := parts[..|parts| - 1];
      FlattenFront(front);
      assert front[1..] == parts[1..][..|parts| - 2];
    }
  }

  /** The greedy grouping of what remains after `skip` rows needs no more batches
      than any legal partition of everything: each greedy batch reaches at least
      as far as the batch of the other partition in which it starts. */
  lemma {:induction false} GreedyStaysAhead(parts: seq<seq<Row>>, other: seq<seq<Row>>, skip: nat, limits: Limits)
    requires Saturated(parts, limits)
    requires forall i :: 0 <= i < |parts| ==> Legal(parts[i], limits)
    requires forall i :: 0 <= i < |other| ==> Legal(other[i], limits)
    requires skip <= |Flatten(other)| && Flatten(parts) == Flatten(other)[skip..]
    ensures |parts| <= |other|
    decreases |other|, |parts|
  {
    if parts == [] || other == [] {
      if parts != [] {
        FlattenFront(parts);
        assert false;
      }
    } else {
      FlattenFront(parts);
      FlattenFront(other);
      var head, rest := other[0], other[1..];
      if skip >= |head| {
        assert Flatten(other)[skip..] == Flatten(rest)[skip - |head|..];
        GreedyStaysAhead(parts, rest, skip - |head|, limits);
      } else {
        var first := parts[0];
        var reach := |head| - skip;
        if |first| < reach {
          FirstBatchReaches(parts, other, skip, limits);
        }
        assert Flatten(parts)[|first|..] == Flatten(parts[1..]);
        assert Flatten(other)[skip..][|first|..] == Flatten(rest)[|first| - reach..];
        assert Saturated(parts[1..], limits) by {
          forall i | 0 <= i < |parts| - 2 && parts[1..][i + 1] != []
            ensures !Legal(parts[1..][i] + [parts[1..][i + 1][0]], limits)
          {
            assert parts[1..][i] == parts[i + 1] && parts[1..][i + 1] == parts[i + 2];
          }
        }
        GreedyStaysAhead(parts[1..], rest, |first| - reach, limits);
      }
    }
  }

  /** The first greedy batch cannot stop short of the end of the other's batch. */
  lemma FirstBatchReaches(parts: seq<seq<Row>>, other: seq<seq<Row>>, skip: nat, limits: Limits)
    requires parts != [] && other != [] && Saturated(parts, limits)
    requires Legal(other[0], limits) && (forall i :: 0 <= i < |parts| ==> Legal(parts[i], limits))
    requires skip < |other[0]| && skip <= |Flatten(other)| && Flatten(parts) == Flatten(other)[skip..]
    ensures |parts[0]| >= |other[0]| - skip
  {
    FlattenFront(parts);
    FlattenFront(other);
    var first, head := parts[0], other[0];
    var tail, rest := Flatten(parts[1..]), Flatten(other[1..]);
    assert first + tail == (head + rest)[skip..];
    if |first| < |head| - skip {
      SecondBatchFollows(parts, limits);
      HasRoom(first, tail, head, rest, skip, limits);
      FirstIsSaturated(parts, limits);
      assert false;
    }
  }

  lemma SecondBatchFollows(parts: seq<seq<Row>>, limits: Limits)
    requires parts != [] && Flatten(parts[1..]) != [] && forall i :: 0 <= i < |parts| ==> Legal(parts[i], limits)
    ensures |parts| > 1 && parts[1] != [] && Flatten(parts[1..])[0] == parts[1][0]
  {
    FlattenFront(parts[1..]);
    assert Legal(parts[1], limits);
  }

  /** A batch that ends inside another's legal batch could have taken the next row. */
  lemma HasRoom(first: seq<Row>, tail: seq<Row>, head: seq<Row>, rest: seq<Row>, skip: nat, limits: Limits)
    requires skip + |first| < |head| && tail != [] && first + tail == (head + rest)[skip..]
    requires Legal(head, limits)
    ensures Legal(first + [tail[0]], limits)
  {
    ShortPrefix(first, tail, head, rest, skip);
    PieceIsLegal(head, limits, skip, skip + |first| + 1);
  }

  lemma FirstIsSaturated(parts: seq<seq<Row>>, limits: Limits)
    requires |parts| > 1 && parts[1] != [] && Saturated(parts, limits)
    ensures !Legal(parts[0] + [parts[1][0]], limits)
  {
    assert parts[0 + 1] == parts[1];
  }

  lemma ShortPrefix<T>(first: seq<T>, tail: seq<T>, head: seq<T>, rest: seq<T>, skip: nat)
    requires skip + |first| < |head| && tail != [] && first + tail == (head + rest)[skip..]
    ensures first + [tail[0]] == head[skip..skip + |first| + 1]
  {
    forall k | 0 <= k <= |first| ensures (first + [tail[0]])[k] == head[skip + k] {
      assert (first + tail)[k] == (head + rest)[skip..][k];
    }
  }

  /** No order-preserving partition into legal batches has fewer batches. */
  lemma GreedyIsOptimal(parts: seq<seq<Row>>, other: seq<seq<Row>>, rows: seq<Row>, limits: Limits)
    requires IsLegalPartition(parts, rows, limits) && Saturated(parts, limits)
    requires IsLegalPartition(other, rows, limits)
    ensures |parts| <= |other|
  {
    GreedyStaysAhead(parts, other, 0, limits);
  }
}
