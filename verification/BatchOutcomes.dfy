/** What a batch execution and a planning call report and leave, chunk by chunk, said of the
    state before the call. */
module BatchOutcomes {
  import opened Options
  import opened Batching
  import opened Claims
  import opened EmbeddingExecutor

  // ---------- Grouping ----------

  /** A row without a stored count weighs nothing. */
  function Weight(row: Row): nat {
    if row.tokenCount == None then 0 else row.tokenCount.value
  }

  lemma WeightCounts(batch: seq<Row>, row: Row)
    ensures TotalTokens([]) == 0 && TotalTokens(batch + [row]) == TotalTokens(batch) + Weight(row)
  {
    assert (batch + [row])[..|batch|] == batch;
  }

  /** A batch of several chunks keeps within both caps; a chunk opens a new batch only if it
      would have broken one of them. */
  lemma GroupingMeaning(parts: seq<seq<Row>>, rows: seq<Row>, limits: Limits, i: nat)
    requires IsLegalPartition(parts, rows, limits) && Saturated(parts, limits) && i < |parts|
    ensures parts[i] != []
    ensures |parts[i]| > 1 ==> |parts[i]| <= limits.maxChunks && TotalTokens(parts[i]) <= limits.maxTokens
    ensures i + 1 < |parts| ==>
              && parts[i + 1] != []
              && (|parts[i]| + 1 > limits.maxChunks
                  || TotalTokens(parts[i]) + Weight(parts[i + 1][0]) > limits.maxTokens)
  {
    assert Legal(parts[i], limits);
    if i + 1 < |parts| {
      assert Legal(parts[i + 1], limits);
      WeightCounts(parts[i], parts[i + 1][0]);
    }
  }

  // ---------- Kinds of chunks ----------

  predicate Missing(s: State, id: int) {
    id !in s.status
  }

  predicate Inactive(s: State, id: int) {
    id !in s.node || s.node[id] !in s.enabled
  }

  /** Stored, but not to be embedded by this call. */
  predicate PassedOver(s: State, id: int) {
    id in s.status && (Inactive(s, id) || s.status[id] != Processing)
  }

  predicate Blank(s: State, id: int) {
    id in s.status && !PassedOver(s, id) && id in s.emptyText
  }

  predicate Embeddable(s: State, id: int) {
    id in s.status && !PassedOver(s, id) && id !in s.emptyText
  }

  // ---------- Sorting a batch without repetitions ----------

  ghost predicate SortedInto(s: State, batch: seq<int>, so: Sorting) {
    && (forall id :: id in so.skipped <==> id in batch && PassedOver(s, id))
    && (forall id :: id in so.failed <==> id in batch && (Missing(s, id) || Blank(s, id)))
    && (forall id :: id in so.valid <==> id in batch && Embeddable(s, id))
  }

  lemma SortOneInto(s: State, so: Sorting, front: seq<int>, id: int)
    requires SortedInto(s, front, so) && id !in front
    requires so.status.Keys == s.status.Keys && (id in s.status ==> so.status[id] == s.status[id])
    ensures SortedInto(s, front + [id], SortOne(s, so, id))
  {
    var after := SortOne(s, so, id);
    assert id in so.status <==> id in so.status.Keys;
    if id !in so.status || (Blank(s, id) && !PassedOver(s, id)) {
      assert after.failed == so.failed + [id];
    } else if PassedOver(s, id) {
      assert after.skipped == so.skipped + [id];
    } else {
      assert after.valid == so.valid + [id];
    }
  }

  lemma {:induction false} SortInto(s: State, batch: seq<int>)
    requires Distinct(batch)
    ensures SortedInto(s, batch, Sort(s, batch))
  {
    if batch != [] {
      var front, last := batch[..|batch| - 1], batch[|batch| - 1];
      SortInto(s, front);
      SortEffect(s, front);
      SortOneInto(s, Sort(s, front), front, last);
      assert batch == front + [last];
    }
  }

  // ---------- Whether the call returns ----------

  /** Only a model that fails for good, a model that succeeds, and a batch with nothing to
      embed let the call return. */
  lemma ReturnsIff(s: State, batch: seq<int>, run: Run)
    requires Distinct(batch)
    ensures ExecuteStep(s, batch, run).1.Some?
       <==> !(run.Dies? && run.at < |batch|)
            && (run == ModelSucceeds || run == ModelFails(false) || forall id :: id in batch ==> !Embeddable(s, id))
  {
    SortInto(s, batch);
    var so := Sort(s, batch);
    if so.valid != [] {
      var id := so.valid[0];
      assert id in so.valid;
      assert id in batch && Embeddable(s, id);
    } else {
      forall id | id in batch ensures !Embeddable(s, id) {
        assert id !in so.valid;
      }
    }
  }

  // ---------- The report ----------

  /** Which list a chunk of the batch is reported in. */
  lemma ReportMeaning(s: State, batch: seq<int>, run: Run, id: int)
    requires Distinct(batch) && id in batch && ExecuteStep(s, batch, run).1.Some?
    ensures var report := ExecuteStep(s, batch, run).1.value;
            && (id in report.succeeded <==> Embeddable(s, id) && run == ModelSucceeds)
            && (id in report.skipped <==> PassedOver(s, id))
            && (id in report.failed <==>
                  Missing(s, id) || Blank(s, id) || (Embeddable(s, id) && run == ModelFails(false)))
            && (Embeddable(s, id) ==> run == ModelSucceeds || run == ModelFails(false))
  {
    SortInto(s, batch);
    ReturnsIff(s, batch, run);
    var so := Sort(s, batch);
    assert so.valid == [] ==> id !in so.valid;
    assert id in so.failed + so.valid <==> id in so.failed || id in so.valid;
  }

  /** The status a returned call gives a stored chunk of its batch. */
  function FinalStatus(s: State, id: int, run: Run): ChunkStatus
    requires id in s.status
  {
    if s.status[id] != Processing then s.status[id]
    else if Inactive(s, id) then Pending
    else if id in s.emptyText || run.ModelFails? then Failed
    else Completed
  }

  lemma ReturnedStatus(s: State, batch: seq<int>, run: Run, id: int)
    requires Distinct(batch) && id in batch && id in s.status && ExecuteStep(s, batch, run).1.Some?
    ensures id in ExecuteStep(s, batch, run).0.status
    ensures ExecuteStep(s, batch, run).0.status[id] == FinalStatus(s, id, run)
  {
    var so := Sort(s, batch);
    SortInto(s, batch);
    SortEffect(s, batch);
    ReturnsIff(s, batch, run);
    assert id in so.status.Keys;
    SetStatusAny(so.status, so.valid, Completed);
    SetStatusAny(so.status, so.valid, Failed);
  }

  /** An embedding is saved for exactly the chunks reported as succeeded, one each. */
  lemma SavedIffSucceeded(s: State, batch: seq<int>, run: Run, id: int)
    requires Distinct(batch) && ExecuteStep(s, batch, run).1.Some?
    ensures var (t, report) := ExecuteStep(s, batch, run);
            && (t.saves[id] > s.saves[id] <==> id in report.value.succeeded)
            && t.saves[id] <= s.saves[id] + 1
  {
    SortInto(s, batch);
    ValidOnce(s, batch);
    var valid := Sort(s, batch).valid;
    assert id in multiset(valid) <==> id in valid;
  }

  /** An embeddable chunk of a batch whose call returns is completed, saved and reported as
      succeeded, or failed, not saved and reported as failed, as the model did. */
  lemma EmbeddableEnds(s: State, batch: seq<int>, run: Run, id: int)
    requires Distinct(batch) && id in batch && Embeddable(s, id) && ExecuteStep(s, batch, run).1.Some?
    ensures var (t, report) := ExecuteStep(s, batch, run);
            && id in t.status
            && if run == ModelFails(false)
               then t.status[id] == Failed && t.saves[id] == s.saves[id] && id in report.value.failed
               else run == ModelSucceeds
                    && t.status[id] == Completed && t.saves[id] == s.saves[id] + 1 && id in report.value.succeeded
  {
    ReportMeaning(s, batch, run, id);
    ReturnedStatus(s, batch, run, id);
    SavedIffSucceeded(s, batch, run, id);
    SavesGrow(s, batch, run, id);
  }

  lemma SavesGrow(s: State, batch: seq<int>, run: Run, id: int)
    ensures ExecuteStep(s, batch, run).0.saves[id] >= s.saves[id]
  {
  }

  // ---------- A call that raises ----------

  /** How far a call looked at its batch before it raised. */
  function LookedAt(batch: seq<int>, run: Run): seq<int> {
    if run.Dies? && run.at < |batch| then batch[..run.at] else batch
  }

  /** A call that raises commits no embedding and marks no document; the chunks it looked at
      keep what sorting decided for them, and those to be embedded are still processing. */
  lemma RaisedLeaves(s: State, batch: seq<int>, run: Run, id: int)
    requires id in s.status && ExecuteStep(s, batch, run).1.None?
    ensures var t := ExecuteStep(s, batch, run).0;
            && t.saves == s.saves && t.ready == s.ready && id in t.status
            && t.status[id] == if id !in LookedAt(batch, run) || s.status[id] != Processing then s.status[id]
                               else if Inactive(s, id) then Pending
                               else if id in s.emptyText then Failed
                               else Processing
  {
    SortEffect(s, LookedAt(batch, run));
    assert id in Sort(s, LookedAt(batch, run)).status.Keys;
  }

  // ---------- Readiness over runs ----------

  lemma ExecuteKeepsCompleted(s: State, batch: seq<int>, run: Run, nodeId: int)
    requires DocumentReady(s, nodeId)
    ensures DocumentReady(ExecuteStep(s, batch, run).0, nodeId)
  {
    var t := ExecuteStep(s, batch, run).0;
    KeysKept(s, batch, run);
    forall id | id in t.status && id in t.node && t.node[id] == nodeId ensures t.status[id] == Completed {
      assert id in t.status.Keys;
      ExecuteEffect(s, batch, run, id);
    }
    var id :| id in s.status && id in s.node && s.node[id] == nodeId;
    assert id in t.status.Keys;
  }

  lemma MarkedIsFinished(s: State, batch: seq<int>, run: Run, nodeId: int)
    requires nodeId in ExecuteStep(s, batch, run).0.ready && nodeId !in s.ready
    ensures DocumentReady(ExecuteStep(s, batch, run).0, nodeId)
  {
    var so := Sort(s, batch);
    var marked := s.(status := SetStatus(so.status, so.valid, {Pending, Processing, Completed, Failed}, Completed),
                     saves := s.saves + multiset(so.valid));
    assert ExecuteStep(s, batch, run).0 == MarkReady(marked, so.valid);
    assert DocumentReady(marked, nodeId);
    SameStatusSameReadiness(marked, MarkReady(marked, so.valid), nodeId);
  }

  lemma PlanKeepsCompleted(s: State, planned: int, selected: seq<int>, batches: seq<seq<int>>, fault: PlanFault,
                           nodeId: int)
    requires Selectable(s, planned, selected) && Flatten(batches) == selected && DocumentReady(s, nodeId)
    ensures DocumentReady(PlanStep(s, selected, batches, fault), nodeId)
  {
    var t := PlanStep(s, selected, batches, fault);
    forall id | id in s.status && id in s.node && s.node[id] == nodeId
      ensures id in t.status && t.status[id] == Completed
    {
      assert id !in selected;
      PlanTouchesOnlySelected(s, selected, batches, fault, id);
    }
    forall id | id in t.status ensures id in s.status {
      if id !in selected {
        PlanTouchesOnlySelected(s, selected, batches, fault, id);
      }
    }
  }

  lemma StepKeepsReadyFinished(s: State, e: Event, t: State, nodeId: int)
    requires Step(s, e, t) && (nodeId in s.ready ==> DocumentReady(s, nodeId))
    ensures nodeId in t.ready ==> DocumentReady(t, nodeId)
  {
    match e
    case Plan(planned, selected, batches, fault) =>
      if nodeId in s.ready {
        PlanKeepsCompleted(s, planned, selected, batches, fault, nodeId);
      }
    case Execute(batch, run) =>
      if nodeId in s.ready {
        ExecuteKeepsCompleted(s, batch, run, nodeId);
      } else if nodeId in t.ready {
        MarkedIsFinished(s, batch, run, nodeId);
      }
    case SetEnabled(nodes) =>
      SameStatusSameReadiness(s, t, nodeId);
  }

  lemma {:induction false} ReadyIsFinished(trace: seq<State>, run: seq<Event>, n: nat, nodeId: int)
    requires IsRun(trace, run) && n <= |run| && (nodeId in trace[0].ready ==> DocumentReady(trace[0], nodeId))
    ensures nodeId in trace[n].ready ==> DocumentReady(trace[n], nodeId)
  {
    if n > 0 {
      ReadyIsFinished(trace, run, n - 1, nodeId);
      assert Step(trace[n - 1], run[n - 1], trace[n]);
      StepKeepsReadyFinished(trace[n - 1], run[n - 1], trace[n], nodeId);
    }
  }

  /** Over every run a document not embedded at the start is marked ready exactly while all
      its chunks are completed. */
  lemma ReadyIffFinished(trace: seq<State>, run: seq<Event>, n: nat, nodeId: int)
    requires IsRun(trace, run) && n <= |run| && !DocumentReady(trace[0], nodeId) && nodeId !in trace[0].ready
    ensures nodeId in trace[n].ready <==> DocumentReady(trace[n], nodeId)
  {
    FinishedDocumentIsReady(trace, run, n, nodeId);
    ReadyIsFinished(trace, run, n, nodeId);
  }

  // ---------- Planning ----------

  /** No dispatch raises and nothing kills the call. */
  predicate EndsWell(batches: seq<seq<int>>, fault: PlanFault) {
    match fault
    case NoFault => true
    case DispatchFails(at, _) => at >= |batches|
    case ResetFails(at, _) => at >= |batches|
    case _ => false
  }

  /** The dispatch of that batch returns, or raises only after the broker took it. */
  predicate ReachesBroker(fault: PlanFault, i: nat) {
    match fault
    case NoFault => true
    case BeforeDispatch => false
    case _ => i < fault.at || (i == fault.at && fault.taken)
  }

  /** Which batches the broker has afterwards, as the fault says. */
  lemma PublishedIff(s: State, selected: seq<int>, batches: seq<seq<int>>, fault: PlanFault, b: seq<int>)
    ensures b in PlanStep(s, selected, batches, fault).published <==>
              b in s.published
              || exists i :: 0 <= i < |batches| && batches[i] == b && ReachesBroker(fault, i)
  {
    var front := batches[..Taken(batches, fault)];
    assert forall i :: 0 <= i < |batches| ==> (i < |front| <==> ReachesBroker(fault, i));
    assert forall i :: 0 <= i < |front| ==> front[i] == batches[i];
    assert b in InBroker(front) <==> exists i :: 0 <= i < |front| && front[i] == b;
  }

  /** What the result of a planning call tells of its chunks: a queue result leaves all of them
      processing and all batches with the broker; a dispatch error names exactly the chunks that
      are pending again; a swallowed error leaves all of them processing. */
  lemma PlanResultMeaning(s: State, nodeId: int, selected: seq<int>, batches: seq<seq<int>>, fault: PlanFault,
                          count: nat, id: int)
    requires Selectable(s, nodeId, selected) && Flatten(batches) == selected && id in selected
    ensures var (result, t) := (Published(batches, fault, count), PlanStep(s, selected, batches, fault));
            && id in t.status && (t.status[id] == Processing || t.status[id] == Pending)
            && (result.Queued? <==> EndsWell(batches, fault))
            && (result.Queued? ==> result.count == count && t.status[id] == Processing && Deliverable(t, id))
            && (result.DispatchError? ==> (id in result.unpublished <==> t.status[id] == Pending))
            && (!result.DispatchError? ==> t.status[id] == Processing)
            && (result.DispatchError? <==> fault.DispatchFails? && fault.at < |batches|)
            && (result.Swallowed? <==> fault.BeforeDispatch? || (fault.ResetFails? && fault.at < |batches|))
  {
    var n := Dispatched(batches, fault);
    PlannedStatus(s, nodeId, selected, batches, fault, id);
    SelectedOnce(selected, batches, n, id);
    if EndsWell(batches, fault) {
      assert batches[..n] == batches;
      var i := FlattenFinds(batches, id);
      PublishedIff(s, selected, batches, fault, batches[i]);
    }
  }

  /** Claims count up by one for exactly the selected chunks, and nothing else is recorded. */
  lemma ClaimsCountSelected(s: State, nodeId: int, selected: seq<int>, batches: seq<seq<int>>, fault: PlanFault,
                            id: int)
    requires Selectable(s, nodeId, selected)
    ensures var t := PlanStep(s, selected, batches, fault);
            && t.claims[id] == s.claims[id] + (if id in selected then 1 else 0)
            && t.saves == s.saves && t.ready == s.ready && t.node == s.node && t.enabled == s.enabled
  {
    OccursOnce(selected, id);
  }

  lemma {:induction false} OccursOnce(ids: seq<int>, id: int)
    requires Distinct(ids)
    ensures multiset(ids)[id] == if id in ids then 1 else 0
  {
    if ids != [] {
      var front, last := ids[..|ids| - 1], ids[|ids| - 1];
      OccursOnce(front, id);
      assert ids == front + [last];
      assert last !in front;
    }
  }
}
