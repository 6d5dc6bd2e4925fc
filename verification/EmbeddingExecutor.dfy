/** The executor's two entry points, updating the chunk table in place. */
module EmbeddingExecutor {
  import opened Options
  import opened Batching
  import opened Claims

  /** `Skipped` and `Nothing` end before a claim; `Swallowed` is the error report
      that hides an exception raised after the claim; `Died` is no result at all. */
  datatype PlanResult =
    | Skipped
    | Nothing
    | Queued(count: nat)
    | Swallowed
    | DispatchError(unpublished: seq<int>)
    | Died

  /** How publishing ends. */
  function Published(batches: seq<seq<int>>, fault: PlanFault, count: nat): PlanResult {
    var n := Dispatched(batches, fault);
    if fault.BeforeDispatch? then Swallowed
    else if fault.Killed? then Died
    else if n == |batches| then Queued(count)
    else if fault.ResetFails? then Swallowed
    else DispatchError(Flatten(batches[n..]))
  }

  /** How the batches and the result of a planning call that claimed something
      depend on its rows and on the fault. */
  ghost predicate Planned(result: PlanResult, batches: seq<seq<int>>, rows: seq<Row>, limits: Limits,
                          fault: PlanFault)
  {
    IsGreedyGrouping(batches, rows, limits) && result == Published(batches, fault, |rows|)
  }

  class Executor {
    var status: map<int, ChunkStatus>
    var node: map<int, int>
    var enabled: set<int>
    var emptyText: set<int>
    var published: set<seq<int>>
    var ready: set<int>
    ghost var claims: multiset<int>
    ghost var saves: multiset<int>

    constructor (status: map<int, ChunkStatus>, node: map<int, int>, enabled: set<int>, emptyText: set<int>)
      ensures View() == State(status, node, enabled, emptyText, {}, {}, multiset{}, multiset{})
    {
      this.status, this.node, this.enabled, this.emptyText := status, node, enabled, emptyText;
      published, ready, claims, saves := {}, {}, multiset{}, multiset{};
    }

    ghost function View(): State
      reads this
    {
      State(status, node, enabled, emptyText, published, ready, claims, saves)
    }

    /** `rows` is what the locked query returned for the node, in chunk order. */
    method EnqueueEmbeddingTasks(nodeId: int, rows: seq<Row>, limits: Limits, fault: PlanFault)
      returns (result: PlanResult, ghost batches: seq<seq<int>>)
      requires nodeId in enabled ==> Selectable(View(), nodeId, Ids(rows))
      modifies this
      ensures nodeId !in enabled ==> result == Skipped && View() == old(View())
      ensures nodeId in enabled && rows == [] ==> result == Nothing && View() == old(View())
      ensures nodeId in old(enabled) && rows != [] ==>
                Planned(result, batches, rows, limits, fault)
                    && View() == PlanStep(old(View()), Ids(rows), batches, fault)
    {
      if nodeId !in enabled {
        return Skipped, [];
      }
      if rows == [] {
        return Nothing, [];
      }
      result, batches := ClaimAndPublish(rows, limits, fault);
    }

    /** The claim is committed before anything is grouped or published. */
    method ClaimAndPublish(rows: seq<Row>, limits: Limits, fault: PlanFault)
      returns (result: PlanResult, ghost batches: seq<seq<int>>)
      modifies this
      ensures View() == PlanStep(old(View()), Ids(rows), batches, fault)
      ensures Planned(result, batches, rows, limits, fault)
    {
      Claim(Ids(rows));
      var grouped := GroupChunksIntoBatches(rows, limits);
      batches := grouped;
      if fault.BeforeDispatch? {
        assert InBroker(batches[..0]) == {};
        result := Swallowed;
      } else {
        result := Dispatch(grouped, fault, |rows|);
      }
    }

    method Claim(chunkIds: seq<int>)
      modifies this
      ensures View() == old(View()).(
                status := SetStatus(old(status), chunkIds, {Pending, Processing, Completed, Failed}, Processing),
                claims := old(claims) + multiset(chunkIds))
    {
      SetStatusAny(status, chunkIds, Processing);
      status := map id | id in status :: if id in chunkIds then Processing else status[id];
      claims := claims + multiset(chunkIds);
    }

    /** Publishes batch after batch.  When a dispatch raises, the chunks of that batch and of
        all later ones go back to pending, unless that update raises too. */
    method Dispatch(batches: seq<seq<int>>, fault: PlanFault, count: nat) returns (result: PlanResult)
      requires !fault.BeforeDispatch?
      modifies this`status, this`published
      ensures status == if Resets(fault)
                        then SetStatus(old(status), Flatten(batches[Dispatched(batches, fault)..]),
                                       {Processing}, Pending)
                        else old(status)
      ensures published == old(published) + InBroker(batches[..Taken(batches, fault)])
      ensures result == Published(batches, fault, count)
    {
      for index := 0 to |batches|
        invariant status == old(status)
        invariant published == old(published) + InBroker(batches[..index])
        invariant !fault.NoFault? ==> index <= fault.at
      {
        InBrokerGrows(batches, index);
        if !fault.NoFault? && fault.at == index {
          if fault.taken {
            published := published + {batches[index]};
          }
          match fault {
            case DispatchFails(_, _) =>
              var ids := Flatten(batches[index..]);
              ResetToPending(ids);
              return DispatchError(ids);
            case ResetFails(_, _) => return Swallowed;
            case Killed(_, _) => return Died;
          }
        }
        published := published + {batches[index]};
      }
      assert batches[..|batches|] == batches;
      assert batches[|batches|..] == [];
      assert SetStatus(status, [], {Processing}, Pending) == status;
      return if fault.Killed? then Died else Queued(count);
    }

    /** Chunks that are still processing become pending. */
    method ResetToPending(ids: seq<int>)
      modifies this`status
      ensures status == SetStatus(old(status), ids, {Processing}, Pending)
    {
      status := map id | id in status :: if id in ids && status[id] == Processing then Pending else status[id];
    }

    /** Sorts the delivered chunks; `died` means the process was killed on the way. */
    method SortChunks(chunkIds: seq<int>, run: Run)
      returns (died: bool, skipped: seq<int>, failed: seq<int>, valid: seq<int>)
      modifies this`status
      ensures died <==> run.Dies? && run.at < |chunkIds|
      ensures died ==> status == Sort(old(View()), chunkIds[..run.at]).status
      ensures !died ==> Sorting(status, skipped, failed, valid) == Sort(old(View()), chunkIds)
    {
      ghost var before := View();
      skipped, failed, valid := [], [], [];
      for i := 0 to |chunkIds|
        invariant Sort(before, chunkIds[..i]) == Sorting(status, skipped, failed, valid)
        invariant run.Dies? ==> i <= run.at
      {
        if run.Dies? && run.at == i {
          return true, skipped, failed, valid;
        }
        SortGrows(before, chunkIds, i);
        var id := chunkIds[i];
        if id !in status {
          failed := failed + [id];
        } else if id !in node || node[id] !in enabled {
          if status[id] == Processing {
            status := status[id := Pending];
          }
          skipped := skipped + [id];
        } else if status[id] != Processing {
          skipped := skipped + [id];
        } else if id in emptyText {
          status := status[id := Failed];
          failed := failed + [id];
        } else {
          valid := valid + [id];
        }
      }
      assert chunkIds[..|chunkIds|] == chunkIds;
      died := false;
    }

    /** Executes one delivered batch; `None` means the call raised. */
    method EmbedDocumentChunksBatch(chunkIds: seq<int>, run: Run) returns (report: Option<Report>)
      modifies this
      ensures (View(), report) == ExecuteStep(old(View()), chunkIds, run)
      ensures saves == old(saves) + if report.Some? then multiset(report.value.succeeded) else multiset{}
      ensures report.Some? ==> forall id :: id in report.value.succeeded ==> id in status && status[id] == Completed
      ensures report.Some? ==> FailuresAreMarked(report.value.failed, status)
    {
      ghost var before := View();
      ReportIsTrue(before, chunkIds, run);
      var died, skipped, failed, valid := SortChunks(chunkIds, run);
      if died {
        return None;
      }
      if valid == [] {
        return Some(Report([], skipped, failed));
      }
      ValidAreStored(before, chunkIds);
      match run
      case Dies(_) => return None;
      case Stale => return None;
      case ModelSucceeds =>
        MarkAll(valid, Completed);
        saves := saves + multiset(valid);
        MarkReadyDocuments(valid);
        return Some(Report(valid, skipped, failed));
      case ModelFails(retriesLeft) =>
        if retriesLeft {
          return None;
        }
        MarkAll(valid, Failed);
        return Some(Report([], skipped, failed + valid));
    }

    /** `_log_if_document_ready` for every chunk of the batch. */
    method MarkReadyDocuments(ids: seq<int>)
      modifies this`ready
      ensures View() == MarkReady(old(View()), ids)
    {
      ghost var before := View();
      assert forall id :: id in node ==> AllEmbedded(node[id]) == DocumentReady(before, node[id]);
      ready := ready + set id | id in ids && id in node && AllEmbedded(node[id]) :: node[id];
    }

    /** Whether the document has chunks and all of them are embedded. */
    predicate AllEmbedded(nodeId: int)
      reads this
      ensures AllEmbedded(nodeId) == DocumentReady(View(), nodeId)
    {
      && (exists id :: id in status && id in node && node[id] == nodeId)
      && (forall id :: id in status && id in node && node[id] == nodeId ==> status[id] == Completed)
    }

    /** Saves one status for every chunk of the list. */
    method MarkAll(ids: seq<int>, to: ChunkStatus)
      requires forall i :: 0 <= i < |ids| ==> ids[i] in status
      modifies this`status
      ensures status == SetStatus(old(status), ids, {Pending, Processing, Completed, Failed}, to)
    {
      for i := 0 to |ids|
        invariant status == map id | id in old(status) :: if id in ids[..i] then to else old(status)[id]
      {
        assert ids[..i + 1] == ids[..i] + [ids[i]];
        status := status[ids[i] := to];
      }
      assert ids[..|ids|] == ids;
      SetStatusAny(old(status), ids, to);
    }
  }

  lemma SortGrows(s: State, batch: seq<int>, i: nat)
    requires i < |batch|
    ensures Sort(s, batch[..i + 1]) == SortOne(s, Sort(s, batch[..i]), batch[i])
  {
    assert batch[..i + 1][..i] == batch[..i];
  }

  lemma ValidAreStored(s: State, batch: seq<int>)
    ensures var so := Sort(s, batch); forall i :: 0 <= i < |so.valid| ==> so.valid[i] in so.status
  {
    SortEffect(s, batch);
    var so := Sort(s, batch);
    forall i | 0 <= i < |so.valid| ensures so.valid[i] in so.status {
      var id := so.valid[i];
      assert id in so.valid;
      assert Eligible(s, id) && id in s.status;
      assert id in so.status.Keys;
    }
  }

  ghost predicate FailuresAreMarked(failed: seq<int>, status: map<int, ChunkStatus>) {
    forall id :: id in failed && id in status ==> status[id] == Failed
  }

  lemma SortOneMarks(s: State, so: Sorting, id: int)
    requires FailuresAreMarked(so.failed, so.status)
    ensures FailuresAreMarked(SortOne(s, so, id).failed, SortOne(s, so, id).status)
  {
  }

  lemma {:induction false} SortMarks(s: State, batch: seq<int>)
    ensures FailuresAreMarked(Sort(s, batch).failed, Sort(s, batch).status)
  {
    if batch != [] {
      SortMarks(s, batch[..|batch| - 1]);
      SortOneMarks(s, Sort(s, batch[..|batch| - 1]), batch[|batch| - 1]);
    }
  }

  /** What the report says is what was done. */
  lemma ReportIsTrue(s: State, batch: seq<int>, run: Run)
    ensures var (t, report) := ExecuteStep(s, batch, run);
            && t.saves == s.saves + (if report.Some? then multiset(report.value.succeeded) else multiset{})
            && (report.Some? ==>
                  && (forall id :: id in report.value.succeeded ==> id in t.status && t.status[id] == Completed)
                  && FailuresAreMarked(report.value.failed, t.status))
  {
    var so := Sort(s, batch);
    SortMarks(s, batch);
    SortEffect(s, batch);
    SetStatusAny(so.status, so.valid, Completed);
    SetStatusAny(so.status, so.valid, Failed);
    forall id | id in so.valid ensures id in so.status {
      assert Eligible(s, id) && id in so.status.Keys;
    }
  }

  lemma SetStatusAny(status: map<int, ChunkStatus>, ids: seq<int>, to: ChunkStatus)
    ensures SetStatus(status, ids, {Pending, Processing, Completed, Failed}, to)
              == map id | id in status :: if id in ids then to else status[id]
  {
    forall id | id in status ensures status[id] in {Pending, Processing, Completed, Failed} {
      match status[id] case Pending => case Processing => case Completed => case Failed =>
    }
  }

  lemma InBrokerGrows(batches: seq<seq<int>>, index: nat)
    requires index < |batches|
    ensures InBroker(batches[..index + 1]) == InBroker(batches[..index]) + {batches[index]}
  {
    var more, fewer := batches[..index + 1], batches[..index];
    forall b | b in InBroker(fewer) ensures b in InBroker(more) {
      var i :| 0 <= i < |fewer| && fewer[i] == b;
      assert more[i] == b;
    }
    assert more[index] == batches[index];
    forall b | b in InBroker(more) ensures b in InBroker(fewer) + {batches[index]} {
      var i :| 0 <= i < |more| && more[i] == b;
      if i < index {
        assert fewer[i] == b;
      }
    }
  }
}
