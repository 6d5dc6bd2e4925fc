/** Claiming chunks, publishing batches and executing them under at-least-once
    delivery (`enqueue_embedding_tasks_sync`, `embed_document_chunks_batch_sync`).

    One planning call or one batch execution is one step: the executor's single
    job slot serialises them.  A published batch stays deliverable for ever, so a
    run may execute it any number of times, or never. */
module Claims {
  import opened Options
  import opened Batching

  datatype ChunkStatus = Pending | Processing | Completed | Failed

  /** `ready` holds the documents whose parse result names the current embedding
      generation; `claims` and `saves` count, per chunk, how often it was claimed and
      how often an embedding was committed for it. */
  datatype State = State(
    status: map<int, ChunkStatus>,
    node: map<int, int>,
    enabled: set<int>,
    emptyText: set<int>,
    published: set<seq<int>>,
    ready: set<int>,
    claims: multiset<int>,
    saves: multiset<int>)

  /** What can go wrong once the claim is committed: an exception before the first dispatch;
      a dispatch that raises -- possibly after the broker has taken the message -- with the
      update that resets the chunks working or raising in its turn; or the process is killed
      at that point. */
  datatype PlanFault =
    | NoFault
    | BeforeDispatch
    | DispatchFails(at: nat, taken: bool)
    | ResetFails(at: nat, taken: bool)
    | Killed(at: nat, taken: bool)

  /** How an execution goes once the batch is classified; `Dies` is an exception or
      crash while the chunk at index `at` is looked at. */
  datatype Run = Dies(at: nat) | ModelSucceeds | ModelFails(retriesLeft: bool) | Stale

  datatype Event =
    | Plan(nodeId: int, selected: seq<int>, batches: seq<seq<int>>, fault: PlanFault)
    | Execute(batch: seq<int>, run: Run)
    | SetEnabled(nodes: set<int>)

  // ---------- Planning ----------

  function SetStatus(status: map<int, ChunkStatus>, ids: seq<int>, from: set<ChunkStatus>,
                     to: ChunkStatus): map<int, ChunkStatus>
  {
    map id | id in status :: if id in ids && status[id] in from then to else status[id]
  }

  /** The rows the query may return: pending chunks of an enabled node, each once.
      Rows locked elsewhere are skipped, so not all of them need to be there. */
  ghost predicate Selectable(s: State, nodeId: int, selected: seq<int>) {
    && nodeId in s.enabled
    && (forall i :: 0 <= i < |selected| ==>
          && selected[i] in s.status && s.status[selected[i]] == Pending
          && selected[i] in s.node && s.node[selected[i]] == nodeId)
    && Distinct(selected)
  }

  ghost predicate Distinct(ids: seq<int>) {
    forall i, j :: 0 <= i < j < |ids| ==> ids[i] != ids[j]
  }

  /** How many dispatches returned. */
  function Dispatched(batches: seq<seq<int>>, fault: PlanFault): (n: nat)
    ensures n <= |batches|
  {
    match fault
    case NoFault => |batches|
    case BeforeDispatch => 0
    case _ => if fault.at < |batches| then fault.at else |batches|
  }

  /** How many batches the broker has taken. */
  function Taken(batches: seq<seq<int>>, fault: PlanFault): (n: nat)
    ensures n <= |batches|
  {
    var n := Dispatched(batches, fault);
    if !fault.NoFault? && !fault.BeforeDispatch? && fault.taken && n < |batches| then n + 1 else n
  }

  /** The chunks whose dispatch did not return go back to pending, if there are any. */
  predicate Resets(fault: PlanFault) {
    fault.NoFault? || fault.DispatchFails?
  }

  function InBroker(batches: seq<seq<int>>): set<seq<int>> {
    set i | 0 <= i < |batches| :: batches[i]
  }

  function PlanStep(s: State, selected: seq<int>, batches: seq<seq<int>>, fault: PlanFault): State {
    var claimed := SetStatus(s.status, selected, {Pending, Processing, Completed, Failed}, Processing);
    var n := Dispatched(batches, fault);
    var status := if Resets(fault) then SetStatus(claimed, Flatten(batches[n..]), {Processing}, Pending) else claimed;
    s.(status := status,
       published := s.published + InBroker(batches[..Taken(batches, fault)]),
       claims := s.claims + multiset(selected))
  }

  // ---------- Execution ----------

  datatype Sorting = Sorting(status: map<int, ChunkStatus>, skipped: seq<int>, failed: seq<int>, valid: seq<int>)

  function SortOne(s: State, so: Sorting, id: int): Sorting {
    if id !in so.status then so.(failed := so.failed + [id])
    else if id !in s.node || s.node[id] !in s.enabled then
      so.(status := if so.status[id] == Processing then so.status[id := Pending] else so.status,
          skipped := so.skipped + [id])
    else if so.status[id] != Processing then so.(skipped := so.skipped + [id])
    else if id in s.emptyText then
      so.(status := so.status[id := Failed], failed := so.failed + [id])
    else so.(valid := so.valid + [id])
  }

  function Sort(s: State, batch: seq<int>): Sorting {
    if batch == [] then Sorting(s.status, [], [], [])
    else SortOne(s, Sort(s, batch[..|batch| - 1]), batch[|batch| - 1])
  }

  datatype Report = Report(succeeded: seq<int>, skipped: seq<int>, failed: seq<int>)

  /** Every chunk of the document is embedded, and it has at least one. */
  predicate DocumentReady(s: State, nodeId: int) {
    && (exists id :: id in s.status && id in s.node && s.node[id] == nodeId)
    && (forall id :: id in s.status && id in s.node && s.node[id] == nodeId ==> s.status[id] == Completed)
  }

  /** `_log_if_document_ready` for every document of the batch. */
  function MarkReady(s: State, ids: seq<int>): State {
    s.(ready := s.ready + set id | id in ids && id in s.node && DocumentReady(s, s.node[id]) :: s.node[id])
  }

  /** The new state and, when the call returns rather than raises, its report. */
  function ExecuteStep(s: State, batch: seq<int>, run: Run): (State, Option<Report>) {
    if run.Dies? && run.at < |batch| then
      (s.(status := Sort(s, batch[..run.at]).status), None)
    else
      var so := Sort(s, batch);
      var sorted := s.(status := so.status);
      if so.valid == [] then (sorted, Some(Report([], so.skipped, so.failed)))
      else match run
        case ModelSucceeds =>
          (MarkReady(sorted.(status := SetStatus(so.status, so.valid, {Pending, Processing, Completed, Failed},
                                                 Completed),
                             saves := s.saves + multiset(so.valid)), so.valid),
           Some(Report(so.valid, so.skipped, so.failed)))
        case ModelFails(retriesLeft) =>
          if retriesLeft then (sorted, None)
          else (sorted.(status := SetStatus(so.status, so.valid, {Pending, Processing, Completed, Failed}, Failed)),
                Some(Report([], so.skipped, so.failed + so.valid)))
        case _ => (sorted, None)
  }

  // ---------- Runs ----------

  ghost predicate Step(s: State, e: Event, t: State) {
    match e
    case Plan(nodeId, selected, batches, fault) =>
      Selectable(s, nodeId, selected) && Flatten(batches) == selected && t == PlanStep(s, selected, batches, fault)
    case Execute(batch, run) =>
      batch in s.published && t == ExecuteStep(s, batch, run).0
    case SetEnabled(nodes) =>
      t == s.(enabled := nodes)
  }

  /** A run from a state in which nothing has been claimed or published yet. */
  ghost predicate IsRun(trace: seq<State>, run: seq<Event>) {
    && |trace| == |run| + 1
    && trace[0].published == {} && trace[0].claims == multiset{} && trace[0].saves == multiset{}
    && (forall id :: id in trace[0].status ==> trace[0].status[id] != Processing)
    && forall n {:trigger trace[n], run[n]} :: 0 <= n < |run| ==> Step(trace[n], run[n], trace[n + 1])
  }

  function IsProcessing(status: map<int, ChunkStatus>, id: int): nat {
    if id in status && status[id] == Processing then 1 else 0
  }

  // ---------- Planning: claimed and published agree ----------

  lemma {:induction false} FlattenSplit<T>(a: seq<seq<T>>, b: seq<seq<T>>)
    ensures Flatten(a + b) == Flatten(a) + Flatten(b)
    decreases |b|
  {
    if b == [] {
      assert a + b == a;
    } else {
      var front, last := b[..|b| - 1], b[|b| - 1];
      FlattenSplit(a, front);
      assert (a + b)[..|a + b| - 1] == a + front && (a + b)[|a + b| - 1] == last;
      assert Flatten(a) + (Flatten(front) + last) == Flatten(a) + Flatten(front) + last;
    }
  }

  lemma {:induction false} InFlatten<T>(parts: seq<seq<T>>, i: nat, x: T)
    requires i < |parts| && x in parts[i]
    ensures x in Flatten(parts)
  {
    if i < |parts| - 1 {
      InFlatten(parts[..|parts| - 1], i, x);
    }
  }

  lemma {:induction false} FlattenFinds<T>(parts: seq<seq<T>>, x: T) returns (i: nat)
    requires x in Flatten(parts)
    ensures i < |parts| && x in parts[i]
  {
    if x in parts[|parts| - 1] {
      i := |parts| - 1;
    } else {
      i := FlattenFinds(parts[..|parts| - 1], x);
    }
  }

  /** The broker took the batch although its dispatch raised. */
  predicate InDoubt(batches: seq<seq<int>>, fault: PlanFault, id: int) {
    var n := Dispatched(batches, fault);
    n < Taken(batches, fault) && id in batches[n]
  }

  /** Nothing was published for the chunk, and nothing put it back. */
  predicate Stranded(batches: seq<seq<int>>, fault: PlanFault, id: int) {
    !Resets(fault) && id in Flatten(batches[Taken(batches, fault)..])
  }

  lemma FlattenAt(batches: seq<seq<int>>, n: nat)
    requires n <= |batches|
    ensures Flatten(batches[..n]) + Flatten(batches[n..]) == Flatten(batches)
  {
    assert batches[..n] + batches[n..] == batches;
    FlattenSplit(batches[..n], batches[n..]);
  }

  lemma InOneHalf(a: seq<int>, b: seq<int>, id: int)
    requires Distinct(a + b) && id in a + b
    ensures id in a <==> id !in b
  {
    if id in a {
      DistinctHalves(a, b, id);
    }
  }

  lemma SelectedOnce(selected: seq<int>, batches: seq<seq<int>>, n: nat, id: int)
    requires Distinct(selected) && Flatten(batches) == selected && id in selected && n <= |batches|
    ensures id in Flatten(batches[..n]) <==> id !in Flatten(batches[n..])
  {
    FlattenAt(batches, n);
    InOneHalf(Flatten(batches[..n]), Flatten(batches[n..]), id);
  }

  lemma PlannedStatus(s: State, nodeId: int, selected: seq<int>, batches: seq<seq<int>>, fault: PlanFault, id: int)
    requires Selectable(s, nodeId, selected) && Flatten(batches) == selected && id in selected
    ensures var t := PlanStep(s, selected, batches, fault);
            && id in t.status
            && t.status[id] == if Resets(fault) && id !in Flatten(batches[..Dispatched(batches, fault)]) then Pending
                               else Processing
  {
    SelectedOnce(selected, batches, Dispatched(batches, fault), id);
  }

  /** After planning, "processing" means "dispatched" for exactly the chunks whose dispatch
      returned and those that were put back. */
  lemma ClaimedIffDispatched(s: State, nodeId: int, selected: seq<int>, batches: seq<seq<int>>, fault: PlanFault,
                             id: int)
    requires Selectable(s, nodeId, selected) && Flatten(batches) == selected && id in selected
    ensures var t := PlanStep(s, selected, batches, fault);
            var returned := id in Flatten(batches[..Dispatched(batches, fault)]);
            (t.status[id] == Processing <==> returned) <==> Resets(fault) || returned
  {
    PlannedStatus(s, nodeId, selected, batches, fault, id);
  }

  lemma TakenChunk(batches: seq<seq<int>>, fault: PlanFault, id: int)
    ensures id in Flatten(batches[..Taken(batches, fault)])
       <==> id in Flatten(batches[..Dispatched(batches, fault)]) || InDoubt(batches, fault, id)
  {
    var n, m := Dispatched(batches, fault), Taken(batches, fault);
    if n < m {
      assert batches[..m][..n] == batches[..n] && batches[..m][n] == batches[n];
    }
  }

  /** And it means "published" for all claimed chunks but those the broker took from a failed
      dispatch whose reset worked, and those that were stranded. */
  lemma ClaimedIffPublished(s: State, nodeId: int, selected: seq<int>, batches: seq<seq<int>>, fault: PlanFault,
                            id: int)
    requires Selectable(s, nodeId, selected) && Flatten(batches) == selected && id in selected
    ensures var t := PlanStep(s, selected, batches, fault);
            (t.status[id] == Processing <==> id in Flatten(batches[..Taken(batches, fault)]))
              <==> !(Resets(fault) && InDoubt(batches, fault, id)) && !Stranded(batches, fault, id)
  {
    var n, m := Dispatched(batches, fault), Taken(batches, fault);
    PlannedStatus(s, nodeId, selected, batches, fault, id);
    TakenChunk(batches, fault, id);
    SelectedOnce(selected, batches, m, id);
    if n < m && id in Flatten(batches[..n]) {
      SelectedOnce(selected, batches, n, id);
      FoundInPart(batches[n..], 0, batches[n], id);
    }
  }

  lemma FoundInPart(parts: seq<seq<int>>, i: nat, part: seq<int>, id: int)
    requires i < |parts| && parts[i] == part
    ensures id in part ==> id in Flatten(parts)
  {
    if id in part {
      InFlatten(parts, i, id);
    }
  }

  /** A planning call leaves every claimed chunk processing exactly when published, if and only
      if a failed dispatch was reset without the broker having taken its batch, or, without a
      reset, the broker took every batch. */
  lemma PlanIsCleanIff(s: State, nodeId: int, selected: seq<int>, batches: seq<seq<int>>, fault: PlanFault)
    requires Selectable(s, nodeId, selected) && Flatten(batches) == selected
    requires forall i :: 0 <= i < |batches| ==> batches[i] != []
    ensures var t := PlanStep(s, selected, batches, fault);
            (forall id :: id in selected ==>
               (id in t.status && t.status[id] == Processing <==> id in Flatten(batches[..Taken(batches, fault)])))
              <==> (if Resets(fault) then Taken(batches, fault) == Dispatched(batches, fault)
                    else Taken(batches, fault) == |batches|)
  {
    var t, n, m := PlanStep(s, selected, batches, fault), Dispatched(batches, fault), Taken(batches, fault);
    forall id | id in selected
      ensures id in t.status
      ensures (t.status[id] == Processing <==> id in Flatten(batches[..m]))
         <==> !(Resets(fault) && InDoubt(batches, fault, id)) && !Stranded(batches, fault, id)
    {
      PlannedStatus(s, nodeId, selected, batches, fault, id);
      ClaimedIffPublished(s, nodeId, selected, batches, fault, id);
    }
    if Resets(fault) && n < m {
      InFlatten(batches, n, batches[n][0]);
      assert InDoubt(batches, fault, batches[n][0]);
    } else if !Resets(fault) && m < |batches| {
      var id := batches[m][0];
      InFlatten(batches, m, id);
      FoundInPart(batches[m..], 0, batches[m], id);
      assert Stranded(batches, fault, id);
    } else if !Resets(fault) {
      assert batches[m..] == [];
    }
  }

  lemma DistinctHalves(a: seq<int>, b: seq<int>, id: int)
    requires Distinct(a + b) && id in a
    ensures id !in b
  {
    var i: nat :| i < |a| && a[i] == id;
    forall j | 0 <= j < |b| ensures b[j] != id {
      assert (a + b)[i] == id && (a + b)[|a| + j] == b[j];
    }
  }

  /** Planning touches nothing but the chunks it selected. */
  lemma PlanTouchesOnlySelected(s: State, selected: seq<int>, batches: seq<seq<int>>, fault: PlanFault, id: int)
    requires Flatten(batches) == selected && id !in selected
    ensures var t := PlanStep(s, selected, batches, fault);
            (id in t.status <==> id in s.status) && (id in s.status ==> t.status[id] == s.status[id])
  {
    var n := Dispatched(batches, fault);
    FlattenAt(batches, n);
    assert id !in Flatten(batches[n..]);
  }

  // ---------- Execution: the report ----------

  ghost predicate IsReport(so: Sorting, batch: seq<int>) {
    multiset(so.skipped) + multiset(so.failed) + multiset(so.valid) == multiset(batch)
  }

  lemma SortOnePartitions(s: State, so: Sorting, batch: seq<int>, id: int)
    requires IsReport(so, batch)
    ensures IsReport(SortOne(s, so, id), batch + [id])
  {
  }

  lemma {:induction false} SortPartitions(s: State, batch: seq<int>)
    ensures IsReport(Sort(s, batch), batch)
  {
    if batch != [] {
      var front, last := batch[..|batch| - 1], batch[|batch| - 1];
      SortPartitions(s, front);
      SortOnePartitions(s, Sort(s, front), front, last);
      assert batch == front + [last];
    }
  }

  /** A call that returns accounts for every chunk of its batch exactly once. */
  lemma ReportPartitionsBatch(s: State, batch: seq<int>, run: Run)
    requires ExecuteStep(s, batch, run).1.Some?
    ensures var report := ExecuteStep(s, batch, run).1.value;
            multiset(report.succeeded) + multiset(report.skipped) + multiset(report.failed) == multiset(batch)
  {
    SortPartitions(s, batch);
  }

  // ---------- Execution: what happens to each chunk ----------

  predicate Active(s: State, id: int) {
    id in s.node && s.node[id] in s.enabled
  }

  /** The chunks a batch embeds. */
  predicate Eligible(s: State, id: int) {
    id in s.status && s.status[id] == Processing && Active(s, id) && id !in s.emptyText
  }

  /** The status of a chunk of the batch after sorting. */
  function Verdict(s: State, id: int): ChunkStatus
    requires id in s.status
  {
    if s.status[id] != Processing then s.status[id]
    else if !Active(s, id) then Pending
    else if id in s.emptyText then Failed
    else Processing
  }

  ghost predicate SortedTo(s: State, batch: seq<int>, so: Sorting) {
    && so.status.Keys == s.status.Keys
    && (forall id :: id in s.status ==> so.status[id] == if id in batch then Verdict(s, id) else s.status[id])
    && (forall id :: id in so.valid <==> id in batch && Eligible(s, id))
  }

  lemma SortOneEffect(s: State, so: Sorting, batch: seq<int>, last: int)
    requires SortedTo(s, batch, so)
    ensures SortedTo(s, batch + [last], SortOne(s, so, last))
  {
  }

  lemma {:induction false} SortEffect(s: State, batch: seq<int>)
    ensures SortedTo(s, batch, Sort(s, batch))
  {
    if batch != [] {
      var front, last := batch[..|batch| - 1], batch[|batch| - 1];
      SortEffect(s, front);
      SortOneEffect(s, Sort(s, front), front, last);
      assert batch == front + [last];
    }
  }

  /** A repeated chunk is sorted as valid once per occurrence; in a batch without
      repetitions each valid chunk is embedded once. */
  lemma {:induction false} ValidOnce(s: State, batch: seq<int>)
    requires Distinct(batch)
    ensures forall id :: multiset(Sort(s, batch).valid)[id] <= 1
  {
    if batch != [] {
      var front, last := batch[..|batch| - 1], batch[|batch| - 1];
      ValidOnce(s, front);
      SortEffect(s, front);
      assert last !in front;
      assert last !in Sort(s, front).valid;
    }
  }

  /** After any execution: chunks outside the batch and chunks that were not
      processing keep their status; when the call returned, no chunk of the batch is
      still processing. */
  lemma ExecuteEffect(s: State, batch: seq<int>, run: Run, id: int)
    requires id in s.status
    ensures var (t, report) := ExecuteStep(s, batch, run);
            && t.status.Keys == s.status.Keys
            && (id !in batch || s.status[id] != Processing ==> t.status[id] == s.status[id])
            && (report.Some? && id in batch ==> t.status[id] != Processing)
            && (t.status[id] == Processing ==> s.status[id] == Processing)
  {
    SortEffect(s, batch);
    if run.Dies? && run.at < |batch| {
      SortEffect(s, batch[..run.at]);
    }
  }

  /** An execution commits embeddings only for chunks that were processing, which
      are completed afterwards, and for each at most one. */
  lemma ExecuteSaves(s: State, batch: seq<int>, run: Run, id: int)
    requires Distinct(batch)
    ensures var t := ExecuteStep(s, batch, run).0;
            && t.saves[id] + IsProcessing(t.status, id) <= s.saves[id] + IsProcessing(s.status, id)
            && (t.saves[id] > s.saves[id] ==> id in t.status && t.status[id] == Completed)
  {
    SortEffect(s, batch);
    ValidOnce(s, batch);
    var valid := Sort(s, batch).valid;
    assert id in multiset(valid) <==> id in valid;
    assert multiset(valid)[id] == if id in valid then 1 else 0;
    if run.Dies? && run.at < |batch| {
      SortEffect(s, batch[..run.at]);
    }
  }

  // ---------- Whole runs ----------

  ghost predicate Inv(s: State) {
    && (forall b :: b in s.published ==> Distinct(b))
    && (forall id :: s.saves[id] + IsProcessing(s.status, id) <= s.claims[id])
  }

  lemma {:induction false} PartsAreDistinct(parts: seq<seq<int>>, i: nat)
    requires Distinct(Flatten(parts)) && i < |parts|
    ensures Distinct(parts[i])
  {
    var front, last := parts[..|parts| - 1], parts[|parts| - 1];
    var whole := Flatten(parts);
    if i == |parts| - 1 {
      forall j, k | 0 <= j < k < |last| ensures last[j] != last[k] {
        assert whole[|Flatten(front)| + j] == last[j] && whole[|Flatten(front)| + k] == last[k];
      }
    } else {
      forall j, k | 0 <= j < k < |Flatten(front)| ensures Flatten(front)[j] != Flatten(front)[k] {
        assert whole[j] == Flatten(front)[j] && whole[k] == Flatten(front)[k];
      }
      PartsAreDistinct(front, i);
    }
  }

  lemma StepKeepsInv(s: State, e: Event, t: State)
    requires Inv(s) && Step(s, e, t)
    ensures Inv(t)
  {
    match e
    case Plan(nodeId, selected, batches, fault) =>
      forall b | b in t.published ensures Distinct(b) {
        if b !in s.published {
          var i :| 0 <= i < Taken(batches, fault) && batches[i] == b;
          PartsAreDistinct(batches, i);
        }
      }
      forall id ensures t.saves[id] + IsProcessing(t.status, id) <= t.claims[id] {
        if id in selected {
          assert id in multiset(selected);
        } else {
          PlanTouchesOnlySelected(s, selected, batches, fault, id);
        }
      }
    case Execute(batch, run) =>
      forall id ensures t.saves[id] + IsProcessing(t.status, id) <= t.claims[id] {
        ExecuteSaves(s, batch, run, id);
      }
    case SetEnabled(nodes) =>
  }

  lemma {:induction false} RunKeepsInv(trace: seq<State>, run: seq<Event>, n: nat)
    requires IsRun(trace, run) && n <= |run|
    ensures Inv(trace[n])
  {
    if n > 0 {
      RunKeepsInv(trace, run, n - 1);
      assert Step(trace[n - 1], run[n - 1], trace[n]);
      StepKeepsInv(trace[n - 1], run[n - 1], trace[n]);
    }
  }

  /** Each claim commits at most one embedding, whatever is redelivered. */
  lemma OneEmbeddingPerClaim(trace: seq<State>, run: seq<Event>, n: nat, id: int)
    requires IsRun(trace, run) && n <= |run|
    ensures trace[n].saves[id] <= trace[n].claims[id]
  {
    RunKeepsInv(trace, run, n);
  }

  /** Once a chunk has stopped processing, only a new claim starts it again. */
  lemma {:induction false} IdleUntilReclaimed(trace: seq<State>, run: seq<Event>, m: nat, n: nat, id: int)
    requires IsRun(trace, run) && m <= n <= |run|
    requires id in trace[m].status ==> trace[m].status[id] != Processing
    requires forall k :: m <= k < n && run[k].Plan? ==> id !in run[k].selected
    ensures id in trace[m].status <==> id in trace[n].status
    ensures id in trace[m].status ==> trace[n].status[id] == trace[m].status[id]
  {
    if m < n {
      IdleUntilReclaimed(trace, run, m, n - 1, id);
      var s, e, t := trace[n - 1], run[n - 1], trace[n];
      assert Step(s, e, t);
      match e
      case Plan(nodeId, selected, batches, fault) => PlanTouchesOnlySelected(s, selected, batches, fault, id);
      case Execute(batch, r) =>
        if id in s.status {
          ExecuteEffect(s, batch, r, id);
        } else {
          KeysKept(s, batch, r);
        }
      case SetEnabled(nodes) =>
    }
  }

  lemma KeysKept(s: State, batch: seq<int>, run: Run)
    ensures ExecuteStep(s, batch, run).0.status.Keys == s.status.Keys
  {
    SortEffect(s, batch);
    if run.Dies? && run.at < |batch| {
      SortEffect(s, batch[..run.at]);
    }
  }

  /** Redelivering a batch whose execution returned changes no status and commits
      nothing, as long as none of its chunks was claimed again in between. */
  lemma RedeliveryIsInert(trace: seq<State>, run: seq<Event>, m: nat, n: nat, again: Run)
    requires IsRun(trace, run) && m < n <= |run|
    requires run[m].Execute? && ExecuteStep(trace[m], run[m].batch, run[m].run).1.Some?
    requires forall k :: m < k < n && run[k].Plan? ==> forall id :: id in run[m].batch ==> id !in run[k].selected
    ensures var after := ExecuteStep(trace[n], run[m].batch, again).0;
            after.status == trace[n].status && after.saves == trace[n].saves
  {
    var batch := run[m].batch;
    assert Step(trace[m], run[m], trace[m + 1]);
    KeysKept(trace[m], batch, run[m].run);
    forall id | id in batch
      ensures !Eligible(trace[n], id) && (id in trace[n].status ==> trace[n].status[id] != Processing)
    {
      if id in trace[m].status {
        ExecuteEffect(trace[m], batch, run[m].run, id);
      }
      IdleUntilReclaimed(trace, run, m + 1, n, id);
    }
    SortEffect(trace[n], batch);
    KeysKept(trace[n], batch, again);
    var after := ExecuteStep(trace[n], batch, again).0;
    forall id | id in trace[n].status ensures after.status[id] == trace[n].status[id] {
      ExecuteEffect(trace[n], batch, again, id);
    }
    var valid := Sort(trace[n], batch).valid;
    assert forall id :: id !in valid;
    forall id ensures multiset(valid)[id] == 0 {
      assert id in multiset(valid) <==> id in valid;
    }
    assert |valid| == |multiset(valid)| == 0;
  }

  // ---------- No orphans ----------

  /** Every processing chunk belongs to a batch the broker can still deliver. */
  ghost predicate NoOrphans(s: State) {
    forall id :: id in s.status && s.status[id] == Processing ==> Deliverable(s, id)
  }

  ghost predicate Deliverable(s: State, id: int) {
    exists b :: b in s.published && id in b
  }

  /** The planning call resets what it did not dispatch, or the broker took everything. */
  predicate StrandsNothing(e: Event) {
    e.Plan? ==> Resets(e.fault) || Taken(e.batches, e.fault) == |e.batches|
  }

  /** A chunk that a planning call leaves processing is deliverable exactly when it was not
      stranded, or an older batch that holds it is still about. */
  lemma DeliverableIffNotStranded(s: State, nodeId: int, selected: seq<int>, batches: seq<seq<int>>, fault: PlanFault,
                                  id: int)
    requires Selectable(s, nodeId, selected) && Flatten(batches) == selected && id in selected
    requires PlanStep(s, selected, batches, fault).status[id] == Processing
    ensures Deliverable(PlanStep(s, selected, batches, fault), id)
       <==> !Stranded(batches, fault, id) || Deliverable(s, id)
  {
    var t, m := PlanStep(s, selected, batches, fault), Taken(batches, fault);
    PlannedStatus(s, nodeId, selected, batches, fault, id);
    TakenChunk(batches, fault, id);
    SelectedOnce(selected, batches, m, id);
    if id in Flatten(batches[..m]) {
      var i := FlattenFinds(batches[..m], id);
      assert batches[..m][i] in t.published;
    } else if Deliverable(t, id) && !Deliverable(s, id) {
      var b :| b in t.published && id in b;
      var i :| 0 <= i < m && batches[..m][i] == b;
      InFlatten(batches[..m], i, id);
      assert false;
    } else if Deliverable(s, id) {
      var b :| b in s.published && id in b;
      assert b in t.published;
    }
  }

  lemma StaysDeliverable(s: State, e: Event, t: State, id: int)
    requires Step(s, e, t) && Deliverable(s, id)
    ensures Deliverable(t, id)
  {
    var b :| b in s.published && id in b;
    assert b in t.published;
  }

  lemma StepKeepsNoOrphans(s: State, e: Event, t: State)
    requires Step(s, e, t) && NoOrphans(s) && StrandsNothing(e)
    ensures NoOrphans(t)
  {
    forall id | id in t.status && t.status[id] == Processing ensures Deliverable(t, id) {
      match e
      case Plan(nodeId, selected, batches, fault) =>
        if id in selected {
          if !Resets(fault) {
            assert batches[Taken(batches, fault)..] == [];
          }
          DeliverableIffNotStranded(s, nodeId, selected, batches, fault, id);
        } else {
          PlanTouchesOnlySelected(s, selected, batches, fault, id);
          StaysDeliverable(s, e, t, id);
        }
      case Execute(batch, run) =>
        KeysKept(s, batch, run);
        ExecuteEffect(s, batch, run, id);
        StaysDeliverable(s, e, t, id);
      case SetEnabled(nodes) =>
        StaysDeliverable(s, e, t, id);
    }
  }

  /** As long as every planning call resets what it did not dispatch, no chunk is ever left
      processing without a batch to finish it. */
  lemma {:induction false} ProcessingIsDeliverable(trace: seq<State>, run: seq<Event>, n: nat)
    requires IsRun(trace, run) && n <= |run|
    requires forall k :: 0 <= k < n ==> StrandsNothing(run[k])
    ensures NoOrphans(trace[n])
  {
    if n > 0 {
      ProcessingIsDeliverable(trace, run, n - 1);
      assert Step(trace[n - 1], run[n - 1], trace[n]);
      StepKeepsNoOrphans(trace[n - 1], run[n - 1], trace[n]);
    }
  }

  /** Event `k` is the last planning call before state `n` that claimed the chunk. */
  ghost predicate LastClaim(run: seq<Event>, k: nat, n: nat, id: int) {
    && k < n <= |run| && run[k].Plan? && id in run[k].selected
    && forall m :: k < m < n && run[m].Plan? ==> id !in run[m].selected
  }

  lemma {:induction false} ProcessingHasClaim(trace: seq<State>, run: seq<Event>, n: nat, id: int) returns (k: nat)
    requires IsRun(trace, run) && n <= |run| && id in trace[n].status && trace[n].status[id] == Processing
    ensures LastClaim(run, k, n, id) && id in trace[k + 1].status && trace[k + 1].status[id] == Processing
  {
    var s, e, t := trace[n - 1], run[n - 1], trace[n];
    assert Step(s, e, t);
    if e.Plan? && id in e.selected {
      k := n - 1;
    } else {
      match e {
        case Plan(_, selected, batches, fault) => PlanTouchesOnlySelected(s, selected, batches, fault, id);
        case Execute(batch, r) =>
          KeysKept(s, batch, r);
          ExecuteEffect(s, batch, r, id);
        case SetEnabled(_) =>
      }
      k := ProcessingHasClaim(trace, run, n - 1, id);
    }
  }

  /** Over every run, whatever fails: a processing chunk is in a batch that its own last claim
      published, if and only if that claim did not strand it. */
  lemma ProcessingWasPublishedIff(trace: seq<State>, run: seq<Event>, n: nat, id: int) returns (k: nat)
    requires IsRun(trace, run) && n <= |run| && id in trace[n].status && trace[n].status[id] == Processing
    ensures LastClaim(run, k, n, id)
    ensures id in Flatten(run[k].batches[..Taken(run[k].batches, run[k].fault)])
       <==> !Stranded(run[k].batches, run[k].fault, id)
  {
    k := ProcessingHasClaim(trace, run, n, id);
    assert Step(trace[k], run[k], trace[k + 1]);
    match run[k]
    case Plan(nodeId, selected, batches, fault) =>
      PlannedStatus(trace[k], nodeId, selected, batches, fault, id);
      TakenChunk(batches, fault, id);
      SelectedOnce(selected, batches, Taken(batches, fault), id);
  }

  // ---------- Readiness ----------

  lemma PlanCompletesNothing(s: State, planned: int, selected: seq<int>, batches: seq<seq<int>>, fault: PlanFault,
                             nodeId: int)
    requires Selectable(s, planned, selected) && Flatten(batches) == selected
    ensures DocumentReady(PlanStep(s, selected, batches, fault), nodeId) ==> DocumentReady(s, nodeId)
  {
    var t := PlanStep(s, selected, batches, fault);
    forall id | id in s.status ensures id in t.status && (t.status[id] == Completed ==> s.status[id] == Completed) {
      if id in selected {
        ClaimedIffDispatched(s, planned, selected, batches, fault, id);
      } else {
        PlanTouchesOnlySelected(s, selected, batches, fault, id);
      }
    }
    forall id | id in t.status ensures id in s.status {
      if id !in selected {
        PlanTouchesOnlySelected(s, selected, batches, fault, id);
      }
    }
  }

  lemma StepKeepsReady(s: State, e: Event, t: State, nodeId: int)
    requires Step(s, e, t) && (DocumentReady(s, nodeId) ==> nodeId in s.ready)
    ensures DocumentReady(t, nodeId) ==> nodeId in t.ready
    ensures s.node == t.node
  {
    if DocumentReady(t, nodeId) && nodeId !in s.ready {
      match e
      case Plan(planned, selected, batches, fault) =>
        PlanCompletesNothing(s, planned, selected, batches, fault, nodeId);
      case Execute(batch, run) =>
        KeysKept(s, batch, run);
        SortEffect(s, batch);
        var id :| id in s.status && id in s.node && s.node[id] == nodeId && s.status[id] != Completed;
        ExecuteCompletes(s, batch, run, id);
        assert s.node[id] in t.ready;
      case SetEnabled(nodes) =>
        SameStatusSameReadiness(s, t, nodeId);
    }
  }

  lemma SameStatusSameReadiness(s: State, t: State, nodeId: int)
    requires s.status == t.status && s.node == t.node
    ensures DocumentReady(s, nodeId) == DocumentReady(t, nodeId)
  {
  }

  /** A chunk becomes completed only in an execution that embeds it, and if that
      completes its document the document is marked ready in the same step. */
  lemma ExecuteCompletes(s: State, batch: seq<int>, run: Run, id: int)
    requires id in s.status && id in s.node && s.status[id] != Completed
    requires ExecuteStep(s, batch, run).0.status.Keys == s.status.Keys
    requires ExecuteStep(s, batch, run).0.status[id] == Completed
    ensures var t := ExecuteStep(s, batch, run).0;
            t.saves[id] > s.saves[id] && (DocumentReady(t, s.node[id]) ==> s.node[id] in t.ready)
  {
    SortEffect(s, batch);
    if run.Dies? && run.at < |batch| {
      SortEffect(s, batch[..run.at]);
    }
    var so := Sort(s, batch);
    assert run.ModelSucceeds? && id in so.valid;
    assert id in multiset(so.valid);
    var marked := s.(status := SetStatus(so.status, so.valid, {Pending, Processing, Completed, Failed}, Completed),
                     saves := s.saves + multiset(so.valid));
    assert ExecuteStep(s, batch, run).0 == MarkReady(marked, so.valid);
    assert DocumentReady(MarkReady(marked, so.valid), s.node[id]) ==> DocumentReady(marked, s.node[id]);
  }

  /** A document that was not fully embedded at the start is marked ready as soon as
      its last chunk is completed, in whatever order its batches ran. */
  lemma {:induction false} FinishedDocumentIsReady(trace: seq<State>, run: seq<Event>, n: nat, nodeId: int)
    requires IsRun(trace, run) && n <= |run| && !DocumentReady(trace[0], nodeId)
    ensures DocumentReady(trace[n], nodeId) ==> nodeId in trace[n].ready
  {
    if n > 0 {
      FinishedDocumentIsReady(trace, run, n - 1, nodeId);
      assert Step(trace[n - 1], run[n - 1], trace[n]);
      StepKeepsReady(trace[n - 1], run[n - 1], trace[n], nodeId);
    }
  }
}
