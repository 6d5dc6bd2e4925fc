/** What one critical section decides, read off the state before it. */
module AdmissionOutcomes {
  import opened WaiterHeap
  import opened AdmissionSteps
  import opened AdmissionRuns

  ghost predicate SlotIsFree(s: State) {
    s.active < s.concurrency
  }

  /** The queue has no room: it is full, or it is full for documents, which leave the
      reserved places to queries. */
  ghost predicate NoRoom(s: State, requestType: RequestType) {
    || |s.waiters| >= s.queueCapacity
    || (requestType == Document && |Documents(s.waiters)| + s.queryReserve >= s.queueCapacity)
  }

  function NewWaiter(s: State, requestType: RequestType): Waiter {
    Waiter(if requestType == Query then 0 else 10, s.nextSequence, requestType)
  }

  /** The waiter would be the first: no query waits before a query, nobody before a document. */
  ghost predicate WouldBeFirst(s: State, requestType: RequestType) {
    if requestType == Query then Queries(s.waiters) == {} else s.waiters == {}
  }

  lemma NewcomerIsLeastIff(s: State, requestType: RequestType)
    requires Numbered(s.waiters, s.nextSequence)
    ensures var w := NewWaiter(s, requestType); IsLeast(w, s.waiters + {w}) <==> WouldBeFirst(s, requestType)
  {
    var w := NewWaiter(s, requestType);
    if WouldBeFirst(s, requestType) {
      forall v | v in s.waiters ensures Less(w, v) {
        assert v.requestType == Query ==> v in Queries(s.waiters);
      }
    } else {
      var v :| v in s.waiters && (requestType == Query ==> v.requestType == Query);
      assert !Less(w, v) && v != w;
    }
  }

  /** An arriving request, from the state before it arrives. */
  lemma ArrivalOutcome(s: State, requestType: RequestType, expired: bool)
    requires Numbered(s.waiters, s.nextSequence)
    ensures var (t, outcome) := Next(s, Arrive(requestType, expired));
            var w := NewWaiter(s, requestType);
            var first := SlotIsFree(s) && WouldBeFirst(s, requestType);
            && (outcome == GrantedAtOnce <==> SlotIsFree(s) && s.waiters == {})
            && (outcome == QueueFull <==> !(SlotIsFree(s) && s.waiters == {}) && NoRoom(s, requestType))
            && (outcome == QueueFull ==> t == s)
            && (outcome != GrantedAtOnce && outcome != QueueFull ==>
                  && (outcome == Granted(w) <==> first)
                  && (outcome == TimedOut(w) <==> !first && expired)
                  && (outcome == Sleeping(w) <==> !first && !expired))
  {
    NewcomerIsLeastIff(s, requestType);
  }

  /** A deadline ends every wait: a request that arrives, or a queued waiter that looks again,
      after its deadline is not in the queue afterwards.  It has its slot exactly when one was
      free and it was the least waiter; else it has timed out and everybody has been woken. */
  lemma DeadlineEndsWait(s: State, w: Waiter)
    requires w in s.waiters
    ensures var (t, outcome) := Next(s, Wake(w, true));
            && w !in t.waiters
            && outcome == (if SlotIsFree(s) && IsLeast(w, s.waiters) then Granted(w) else TimedOut(w))
            && (outcome.TimedOut? ==> t == s.(waiters := s.waiters - {w}, asleep := {}))
  {
  }

  lemma DeadlineEndsArrival(s: State, requestType: RequestType)
    requires Numbered(s.waiters, s.nextSequence) && !NoRoom(s, requestType)
    requires !(SlotIsFree(s) && s.waiters == {})
    ensures var (t, outcome) := Next(s, Arrive(requestType, true));
            && t.waiters == s.waiters
            && outcome == (if SlotIsFree(s) && WouldBeFirst(s, requestType) then Granted(NewWaiter(s, requestType))
                           else TimedOut(NewWaiter(s, requestType)))
            && (outcome.TimedOut? ==> t.asleep == {} && t.active == s.active && t.leases == s.leases)
  {
    var w := NewWaiter(s, requestType);
    NewcomerIsLeastIff(s, requestType);
    assert w !in s.waiters;
    assert s.waiters + {w} - {w} == s.waiters;
  }

  /** Before its deadline a waiter that looks in vain goes back to sleep, and nothing else
      changes. */
  lemma SleepsOnlyBeforeDeadline(s: State, w: Waiter, expired: bool)
    requires w in s.waiters
    ensures var (t, outcome) := Next(s, Wake(w, expired));
            && (outcome == Sleeping(w) <==> !expired && !(SlotIsFree(s) && IsLeast(w, s.waiters)))
            && (outcome == Sleeping(w) ==> t == s.(asleep := s.asleep + {w}))
  {
  }

  /** Over every run: after any step taken past its deadline the waiter is out of the queue,
      and so it stays. */
  lemma ExpiredNeverWaits(trace: seq<State>, run: seq<Event>, n: nat, m: nat)
    requires IsRun(trace, run) && n < m <= |run|
    requires (run[n].Arrive? || run[n].Wake?) && run[n].expired
    ensures var outcome := Next(trace[n], run[n]).1;
            outcome.Granted? || outcome.TimedOut? ==> outcome.waiter !in trace[m].waiters
    ensures !Next(trace[n], run[n]).1.Sleeping?
    ensures run[n].Wake? ==> run[n].waiter !in trace[n + 1].waiters
  {
    RunKeepsInv(trace, run, n);
    RunKeepsInv(trace, run, n + 1);
    assert Moves(trace[n], run[n], trace[n + 1]);
    var outcome := Next(trace[n], run[n]).1;
    match run[n] {
      case Arrive(requestType, expired) =>
        ArrivalOutcome(trace[n], requestType, expired);
        NumbersGrow(trace, run, n, n + 1);
      case Wake(w, expired) =>
        if w in trace[n].waiters {
          DeadlineEndsWait(trace[n], w);
        }
      case _ =>
    }
    if outcome.Granted? || outcome.TimedOut? {
      LeaverIsNumbered(trace[n], run[n]);
      LeftForGood(trace, run, n + 1, m, outcome.waiter);
    }
  }

  lemma LeaverIsNumbered(s: State, e: Event)
    requires Numbered(s.waiters, s.nextSequence)
    requires Next(s, e).1.Granted? || Next(s, e).1.TimedOut?
    ensures var (t, outcome) := Next(s, e); outcome.waiter !in t.waiters && outcome.waiter.sequence < t.nextSequence
  {
  }

  // ---------- What changes with each outcome ----------

  ghost predicate TakesSlot(outcome: Outcome) {
    outcome == GrantedAtOnce || outcome.Granted?
  }

  /** The queue changes with its own outcome and no other: one waiter comes with a first sleep,
      one goes with a grant, a timeout or a cancellation. */
  lemma QueueChangesOnlySo(s: State, e: Event)
    requires Numbered(s.waiters, s.nextSequence)
    ensures var (t, outcome) := Next(s, e);
            && (outcome.Sleeping? ==> t.waiters == s.waiters + {outcome.waiter})
            && (outcome.Granted? || outcome.TimedOut? || outcome.Cancelled?
                ==> t.waiters == s.waiters - {outcome.waiter})
            && (!outcome.Sleeping? && !outcome.Granted? && !outcome.TimedOut? && !outcome.Cancelled? ==>
                  t.waiters == s.waiters)
  {
    if e.Arrive? {
      var w := NewWaiter(s, e.requestType);
      var entered := s.(waiters := s.waiters + {w}, nextSequence := s.nextSequence + 1);
      RecheckQueue(entered, w, e.expired);
      assert w !in s.waiters;
      assert s.waiters + {w} - {w} == s.waiters - {w} == s.waiters;
    }
    if e.Wake? && e.waiter in s.waiters {
      RecheckQueue(s.(asleep := s.asleep - {e.waiter}), e.waiter, e.expired);
      assert s.waiters + {e.waiter} == s.waiters;
    }
  }

  lemma RecheckQueue(s: State, w: Waiter, expired: bool)
    requires w in s.waiters
    ensures var (t, outcome) := Recheck(s, w, expired);
            || ((outcome == Granted(w) || outcome == TimedOut(w)) && t.waiters == s.waiters - {w})
            || (outcome == Sleeping(w) && t.waiters == s.waiters)
  {
  }

  /** Slots are taken and given back one at a time, each with a lease of its own. */
  lemma SlotsChangeOnlySo(s: State, e: Event)
    requires Counted(s)
    ensures var (t, outcome) := Next(s, e);
            && (TakesSlot(outcome) ==> t.active == s.active + 1 && t.leases == s.leases + {s.issued})
            && (outcome == Released <==> e.ReleaseLease? && e.lease in s.leases)
            && (outcome == Released ==> t.active == s.active - 1 && t.leases == s.leases - {e.lease})
            && (!TakesSlot(outcome) && outcome != Released ==> t.active == s.active && t.leases == s.leases)
            && (TakesSlot(outcome) ==> SlotIsFree(s))
  {
    if e.ReleaseLease? {
      ReleaseSlots(s, e.lease);
    } else {
      OtherSlots(s, e);
    }
  }

  lemma ReleaseSlots(s: State, lease: nat)
    requires Counted(s)
    ensures var (t, outcome) := Next(s, ReleaseLease(lease));
            if lease in s.leases then outcome == Released && t.active == s.active - 1 && t.leases == s.leases - {lease}
            else outcome == NoEffect && t == s
  {
    if lease in s.leases {
      SubsetSize({lease}, s.leases);
    }
  }

  lemma OtherSlots(s: State, e: Event)
    requires !e.ReleaseLease?
    ensures var (t, outcome) := Next(s, e);
            && outcome != Released
            && if TakesSlot(outcome) then t.active == s.active + 1 && t.leases == s.leases + {s.issued} && SlotIsFree(s)
               else t.active == s.active && t.leases == s.leases
  {
    match e
    case Arrive(requestType, expired) =>
      var w := NewWaiter(s, requestType);
      RecheckSlots(s.(waiters := s.waiters + {w}, nextSequence := s.nextSequence + 1), w, expired);
    case Wake(w, expired) =>
      if w in s.waiters {
        RecheckSlots(s.(asleep := s.asleep - {w}), w, expired);
      }
    case _ =>
  }

  lemma RecheckSlots(s: State, w: Waiter, expired: bool)
    ensures var (t, outcome) := Recheck(s, w, expired);
            if outcome.Granted? then t.active == s.active + 1 && t.leases == s.leases + {s.issued} && SlotIsFree(s)
            else (outcome.TimedOut? || outcome.Sleeping?) && t.active == s.active && t.leases == s.leases
  {
  }

  /** Who is woken: everybody by a release, a timeout or a cancellation, nobody else by
      anything else -- so a grant wakes nobody. */
  lemma WokenOnlySo(s: State, e: Event)
    requires Counted(s)
    ensures var (t, outcome) := Next(s, e);
            && (outcome == Released || outcome.TimedOut? || outcome.Cancelled? ==> t.asleep == {})
            && (outcome.Granted? ==> t.asleep == s.asleep - {outcome.waiter})
            && (outcome.Sleeping? ==> t.asleep == s.asleep + {outcome.waiter})
            && (outcome == GrantedAtOnce || outcome == QueueFull || outcome == Busy || outcome == NoEffect ==>
                  t.asleep == s.asleep)
  {
    match e
    case Arrive(requestType, expired) => ArrivalWakes(s, requestType, expired);
    case Wake(w, expired) =>
      if w in s.waiters {
        RecheckWakes(s.(asleep := s.asleep - {w}), w, expired);
        assert s.asleep - {w} - {w} == s.asleep - {w} && s.asleep - {w} + {w} == s.asleep + {w};
      }
    case ReleaseLease(lease) =>
      if lease in s.leases {
        SubsetSize({lease}, s.leases);
      }
    case _ =>
  }

  lemma ArrivalWakes(s: State, requestType: RequestType, expired: bool)
    ensures var ((t, outcome), w) := (Next(s, Arrive(requestType, expired)), NewWaiter(s, requestType));
            || (outcome == Granted(w) && t.asleep == s.asleep - {w})
            || (outcome == TimedOut(w) && t.asleep == {})
            || (outcome == Sleeping(w) && t.asleep == s.asleep + {w})
            || ((outcome == GrantedAtOnce || outcome == QueueFull) && t.asleep == s.asleep)
  {
    var w := NewWaiter(s, requestType);
    RecheckWakes(s.(waiters := s.waiters + {w}, nextSequence := s.nextSequence + 1), w, expired);
  }

  lemma RecheckWakes(s: State, w: Waiter, expired: bool)
    requires w in s.waiters
    ensures var (t, outcome) := Recheck(s, w, expired);
            || (outcome == Granted(w) && t.asleep == s.asleep - {w})
            || (outcome == TimedOut(w) && t.asleep == {})
            || (outcome == Sleeping(w) && t.asleep == s.asleep + {w})
  {
  }

  /** The probe takes a free slot exactly when nobody waits; a cancelled wait always ends. */
  lemma ProbeAndCancelOutcome(s: State, w: Waiter)
    ensures Next(s, TryAcquire).1 == if SlotIsFree(s) && s.waiters == {} then GrantedAtOnce else Busy
    ensures Next(s, Interrupt(w)).1 == if w in s.waiters then Cancelled(w) else NoEffect
    ensures w !in Next(s, Interrupt(w)).0.waiters
  {
  }
}
