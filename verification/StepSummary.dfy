/** The token count, the time window and the throughput of a calibration step
    (`calibration.py`, `summarize_step`), summed over its rounds. */
module StepSummary {
  import opened Options

  /** A successful measured request: its round, its offsets in milliseconds, and the
      number of output tokens when the server reported one. */
  datatype Record = Record(round: int, started: real, completed: real, tokens: Option<nat>)

  function InsertRound(r: int, rounds: seq<int>): seq<int> {
    if rounds == [] || r < rounds[0] then [r] + rounds
    else if r == rounds[0] then rounds
    else [rounds[0]] + InsertRound(r, rounds[1..])
  }

  /** The rounds, each once, ascending. */
  function Rounds(records: seq<Record>): seq<int> {
    if records == [] then [] else InsertRound(records[0].round, Rounds(records[1..]))
  }

  ghost predicate Climbing(rounds: seq<int>) {
    forall i, j :: 0 <= i < j < |rounds| ==> rounds[i] < rounds[j]
  }

  lemma {:induction false} InsertRoundClimbs(r: int, rounds: seq<int>)
    requires Climbing(rounds)
    ensures Climbing(InsertRound(r, rounds))
    ensures forall x :: x in InsertRound(r, rounds) <==> x == r || x in rounds
  {
    if rounds != [] && r > rounds[0] {
      InsertRoundClimbs(r, rounds[1..]);
      assert rounds == [rounds[0]] + rounds[1..];
      var rest := InsertRound(r, rounds[1..]);
      forall j | 0 <= j < |rest| ensures rounds[0] < rest[j] {
        assert rest[j] in rest;
      }
    }
  }

  lemma {:induction false} RoundsClimb(records: seq<Record>)
    ensures Climbing(Rounds(records))
    ensures forall r :: r in Rounds(records) <==> Batch(records, r) != []
  {
    if records != [] {
      RoundsClimb(records[1..]);
      InsertRoundClimbs(records[0].round, Rounds(records[1..]));
    }
  }

  function Batch(records: seq<Record>, round: int): (batch: seq<Record>)
    ensures forall b :: b in batch <==> b in records && b.round == round
  {
    if records == [] then []
    else (if records[0].round == round then [records[0]] else []) + Batch(records[1..], round)
  }

  function Started(batch: seq<Record>): real
    requires batch != []
  {
    if |batch| == 1 || batch[0].started <= Started(batch[1..]) then batch[0].started else Started(batch[1..])
  }

  function Completed(batch: seq<Record>): real
    requires batch != []
  {
    if |batch| == 1 || batch[0].completed >= Completed(batch[1..]) then batch[0].completed else Completed(batch[1..])
  }

  /** The time from the first start to the last completion of a round, in seconds. */
  function Window(batch: seq<Record>): real {
    if batch == [] || Completed(batch) < Started(batch) then 0.0
    else (Completed(batch) - Started(batch)) / 1000.0
  }

  function Tokens(records: seq<Record>): nat {
    if records == [] then 0
    else (if records[0].tokens.Some? then records[0].tokens.value else 0) + Tokens(records[1..])
  }

  function Reporting(records: seq<Record>): nat {
    if records == [] then 0 else (if records[0].tokens.Some? then 1 else 0) + Reporting(records[1..])
  }

  function WindowSum(records: seq<Record>, rounds: seq<int>): real {
    if rounds == [] then 0.0
    else WindowSum(records, rounds[..|rounds| - 1]) + Window(Batch(records, rounds[|rounds| - 1]))
  }

  function TokenSum(records: seq<Record>, rounds: seq<int>): nat {
    if rounds == [] then 0
    else TokenSum(records, rounds[..|rounds| - 1]) + Tokens(Batch(records, rounds[|rounds| - 1]))
  }

  function ReportingSum(records: seq<Record>, rounds: seq<int>): nat {
    if rounds == [] then 0
    else ReportingSum(records, rounds[..|rounds| - 1]) + Reporting(Batch(records, rounds[|rounds| - 1]))
  }

  /** The throughput of a step: known only if every successful request reported its
      tokens and some time passed. */
  function Throughput(records: seq<Record>): Option<real> {
    var windows := WindowSum(records, Rounds(records));
    if records != [] && Reporting(records) == |records| && windows > 0.0 then Some(Tokens(records) as real / windows)
    else None
  }

  /** The loops of `summarize_step`; the round-by-round sums lose and repeat nothing. */
  method SummarizeRounds(records: seq<Record>)
    returns (windows: real, outputTokens: nat, tokenRecords: nat, throughput: Option<real>)
    ensures outputTokens == Tokens(records) && tokenRecords == Reporting(records)
    ensures windows == WindowSum(records, Rounds(records))
    ensures throughput == Throughput(records)
  {
    windows, outputTokens, tokenRecords := 0.0, 0, 0;
    var rounds := Rounds(records);
    for i := 0 to |rounds|
      invariant windows == WindowSum(records, rounds[..i])
      invariant outputTokens == TokenSum(records, rounds[..i])
      invariant tokenRecords == ReportingSum(records, rounds[..i])
    {
      var batch := Batch(records, rounds[i]);
      assert rounds[..i + 1][..i] == rounds[..i];
      windows := windows + Window(batch);
      var tokens, reporting := CountTokens(batch);
      outputTokens, tokenRecords := outputTokens + tokens, tokenRecords + reporting;
    }
    assert rounds[..|rounds|] == rounds;
    RoundsClimb(records);
    RoundsPartition(records, rounds);
    var complete := records != [] && tokenRecords == |records|;
    throughput := if complete && windows > 0.0 then Some(outputTokens as real / windows) else None;
  }

  method CountTokens(batch: seq<Record>) returns (tokens: nat, reporting: nat)
    ensures tokens == Tokens(batch) && reporting == Reporting(batch)
  {
    tokens, reporting := 0, 0;
    for i := 0 to |batch|
      invariant tokens + Tokens(batch[i..]) == Tokens(batch)
      invariant reporting + Reporting(batch[i..]) == Reporting(batch)
    {
      if batch[i].tokens.Some? {
        tokens, reporting := tokens + batch[i].tokens.value, reporting + 1;
      }
    }
  }

  lemma BatchWith(record: Record, rest: seq<Record>, round: int)
    ensures Tokens(Batch([record] + rest, round))
         == Tokens(Batch(rest, round)) + (if record.round == round then Tokens([record]) else 0)
    ensures Reporting(Batch([record] + rest, round))
         == Reporting(Batch(rest, round)) + (if record.round == round then Reporting([record]) else 0)
  {
    var batch := Batch(rest, round);
    assert ([record] + rest)[1..] == rest;
    assert ([record] + batch)[1..] == batch && [record][1..] == [];
    if record.round == round {
      assert Batch([record] + rest, round) == [record] + batch;
    } else {
      assert Batch([record] + rest, round) == batch;
    }
  }

  lemma LastIsNew(rounds: seq<int>, r: int)
    requires Climbing(rounds) && rounds != []
    ensures var front, last := rounds[..|rounds| - 1], rounds[|rounds| - 1];
            last !in front && (r in rounds <==> r in front || r == last)
  {
    var front, last := rounds[..|rounds| - 1], rounds[|rounds| - 1];
    assert rounds == front + [last];
  }

  /** Adding a record adds its tokens in its own round and nowhere else. */
  lemma {:induction false} AddRecord(record: Record, rest: seq<Record>, rounds: seq<int>)
    requires Climbing(rounds)
    ensures TokenSum([record] + rest, rounds)
         == TokenSum(rest, rounds) + (if record.round in rounds then Tokens([record]) else 0)
    ensures ReportingSum([record] + rest, rounds)
         == ReportingSum(rest, rounds) + (if record.round in rounds then Reporting([record]) else 0)
    decreases |rounds|
  {
    if rounds != [] {
      var front, last := rounds[..|rounds| - 1], rounds[|rounds| - 1];
      AddRecord(record, rest, front);
      BatchWith(record, rest, last);
      LastIsNew(rounds, record.round);
    }
  }

  /** Summed round by round, every record is counted exactly once. */
  lemma {:induction false} RoundsPartition(records: seq<Record>, rounds: seq<int>)
    requires Climbing(rounds) && forall i :: 0 <= i < |records| ==> records[i].round in rounds
    ensures TokenSum(records, rounds) == Tokens(records)
    ensures ReportingSum(records, rounds) == Reporting(records)
    decreases |records|
  {
    if records == [] {
      NothingToSum(rounds);
    } else {
      RoundsPartition(records[1..], rounds);
      AddRecord(records[0], records[1..], rounds);
      assert records == [records[0]] + records[1..];
      assert [records[0]][1..] == [];
    }
  }

  lemma {:induction false} NothingToSum(rounds: seq<int>)
    ensures TokenSum([], rounds) == 0 && ReportingSum([], rounds) == 0
    decreases |rounds|
  {
    if rounds != [] {
      NothingToSum(rounds[..|rounds| - 1]);
    }
  }

  // ---------- Windows and elapsed time ----------

  ghost predicate Spans(batch: seq<Record>, lo: real, hi: real) {
    forall b :: b in batch ==> lo <= b.started <= b.completed <= hi
  }

  lemma {:induction false} WindowWithin(batch: seq<Record>, lo: real, hi: real)
    requires Spans(batch, lo, hi) && batch != []
    ensures lo <= Started(batch) && Completed(batch) <= hi && Spans(batch, Started(batch), Completed(batch))
  {
    if |batch| > 1 {
      WindowWithin(batch[1..], lo, hi);
    }
  }

  /** One round is over before the next one starts. */
  ghost predicate RoundsFollow(records: seq<Record>) {
    forall a, b :: a in records && b in records && a.round < b.round ==> a.completed <= b.started
  }

  ghost predicate WithinRounds(records: seq<Record>, rounds: seq<int>, lo: real, hi: real) {
    forall r :: r in rounds ==> Batch(records, r) != [] && Spans(Batch(records, r), lo, hi)
  }

  /** Rounds that follow each other never claim more time than has passed. */
  lemma {:induction false} WindowsFitElapsed(records: seq<Record>, rounds: seq<int>, lo: real, hi: real)
    requires RoundsFollow(records) && Climbing(rounds) && lo <= hi && WithinRounds(records, rounds, lo, hi)
    ensures 0.0 <= WindowSum(records, rounds) <= (hi - lo) / 1000.0
    decreases |rounds|
  {
    if rounds != [] {
      var front, last := rounds[..|rounds| - 1], rounds[|rounds| - 1];
      var batch := Batch(records, last);
      WindowWithin(batch, lo, hi);
      var start := Started(batch);
      forall r | r in front ensures Batch(records, r) != [] && Spans(Batch(records, r), lo, start) {
        EarlierRound(records, r, last, lo, hi);
      }
      WindowsFitElapsed(records, front, lo, start);
      assert Window(batch) <= (hi - start) / 1000.0;
    }
  }

  lemma {:induction false} StartIsAttained(batch: seq<Record>)
    requires batch != []
    ensures exists b :: b in batch && b.started == Started(batch)
  {
    if |batch| > 1 && batch[0].started > Started(batch[1..]) {
      StartIsAttained(batch[1..]);
      var b :| b in batch[1..] && b.started == Started(batch[1..]);
      assert b in batch;
    } else {
      assert batch[0] in batch;
    }
  }

  lemma EarlierRound(records: seq<Record>, r: int, last: int, lo: real, hi: real)
    requires RoundsFollow(records) && r < last && Batch(records, last) != []
    requires Batch(records, r) != [] && Spans(Batch(records, r), lo, hi)
    ensures Spans(Batch(records, r), lo, Started(Batch(records, last)))
  {
    StartIsAttained(Batch(records, last));
    var b :| b in Batch(records, last) && b.started == Started(Batch(records, last));
    forall a | a in Batch(records, r) ensures a.completed <= b.started {
      assert a in records && b in records;
    }
  }

  /** If the rounds of a step follow each other within [lo, hi], the throughput is at
      least the tokens over the elapsed time: idle time between rounds is not charged. */
  lemma ThroughputIsAtLeastOverall(records: seq<Record>, lo: real, hi: real)
    requires RoundsFollow(records) && Spans(records, lo, hi) && lo < hi && Throughput(records).Some?
    ensures Throughput(records).value >= Tokens(records) as real / ((hi - lo) / 1000.0)
  {
    RoundsClimb(records);
    WithinAllRounds(records, lo, hi);
    WindowsFitElapsed(records, Rounds(records), lo, hi);
    SmallerDivisor(Tokens(records) as real, WindowSum(records, Rounds(records)), (hi - lo) / 1000.0);
  }

  lemma WithinAllRounds(records: seq<Record>, lo: real, hi: real)
    requires Spans(records, lo, hi)
    ensures WithinRounds(records, Rounds(records), lo, hi)
  {
    RoundsClimb(records);
  }

  lemma SmallerDivisor(x: real, a: real, b: real)
    requires x >= 0.0 && 0.0 < a <= b
    ensures x / a >= x / b
  {
    var q := x / b;
    assert q * b == x && q >= 0.0;
    assert q * a <= q * b;
    assert q <= x / a;
  }
}
