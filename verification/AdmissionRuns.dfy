/** What every interleaving of the admission monitor keeps. */
module AdmissionRuns {
  import opened WaiterHeap
  import opened AdmissionSteps

  // ---------- Invariant ----------

  ghost predicate Inv(s: State) {
    Counted(s) && Numbered(s.waiters, s.nextSequence) && HeadIsServed(s)
  }

  ghost predicate Counted(s: State) {
    && LegalSettings(s.concurrency, s.queueCapacity, s.queryReserve)
    && s.asleep <= s.waiters
    && s.active == |s.leases| <= s.concurrency
    && (forall l :: l in s.leases ==> l < s.issued)
    && |s.waiters| <= s.queueCapacity
    && |Documents(s.waiters)| <= s.queueCapacity - s.queryReserve
  }

  ghost predicate Numbered(ws: set<Waiter>, bound: nat) {
    && (forall w :: w in ws ==> w.priority == Priority(w.requestType) && w.sequence < bound)
    && (forall v, w :: v in ws && w in ws && v != w ==> v.sequence != w.sequence)
  }

  /** With no lease out, the least waiter is not asleep. */
  ghost predicate HeadIsServed(s: State) {
    s.active == 0 ==> forall w :: w in s.asleep ==> !IsLeast(w, s.waiters)
  }

  lemma SubsetSize<T>(small: set<T>, large: set<T>)
    requires small <= large
    ensures |small| <= |large|
  {
    assert large == small + (large - small);
  }

  lemma LeastExists(ws: set<Waiter>, bound: nat) returns (least: Waiter)
    requires ws != {} && Numbered(ws, bound)
    ensures IsLeast(least, ws)
  {
    var w :| w in ws;
    least := w;
    var rest := ws - {w};
    forall u | u in ws && u != w ensures u in rest {
    }
    if rest != {} {
      var v := LeastExists(rest, bound);
      if Less(v, w) {
        least := v;
      } else {
        assert v in ws && v != w;
        forall u | u in ws && u != w ensures Less(w, u) {
          assert u in rest;
          assert u == v || Less(v, u);
        }
      }
    }
  }

  // Each step keeps each part of the invariant.

  ghost function Enqueued(s: State, requestType: RequestType): (State, Waiter) {
    var w := Waiter(Priority(requestType), s.nextSequence, requestType);
    (s.(waiters := s.waiters + {w}, nextSequence := s.nextSequence + 1), w)
  }

  lemma FewerWaitersKeepCounted(s: State, w: Waiter, asleep: set<Waiter>)
    requires Counted(s) && asleep <= s.asleep - {w}
    ensures Counted(s.(waiters := s.waiters - {w}, asleep := asleep))
  {
    var rest := s.waiters - {w};
    SubsetSize(rest, s.waiters);
    SubsetSize(Documents(rest), Documents(s.waiters));
  }

  lemma RecheckKeepsCounted(s: State, w: Waiter, expired: bool)
    requires Counted(s) && w in s.waiters && w !in s.asleep
    ensures Counted(Recheck(s, w, expired).0)
  {
    if s.active < s.concurrency && IsLeast(w, s.waiters) {
      FewerWaitersKeepCounted(s, w, s.asleep - {w});
    } else if expired {
      FewerWaitersKeepCounted(s, w, {});
    }
  }

  lemma EnqueueKeepsCounted(s: State, requestType: RequestType)
    requires Counted(s) && CanEnqueue(s, requestType)
    ensures Counted(Enqueued(s, requestType).0)
  {
    var (r, w) := Enqueued(s, requestType);
    assert Documents(r.waiters) <= Documents(s.waiters) + {w};
    SubsetSize(Documents(r.waiters), Documents(s.waiters) + {w});
    if requestType.Query? {
      assert Documents(r.waiters) == Documents(s.waiters);
    }
  }

  lemma StepKeepsCounted(s: State, e: Event)
    requires Counted(s) && Numbered(s.waiters, s.nextSequence)
    ensures Counted(Next(s, e).0)
  {
    match e
    case Arrive(requestType, expired) =>
      if !(s.active < s.concurrency && s.waiters == {}) && CanEnqueue(s, requestType) {
        EnqueueKeepsCounted(s, requestType);
        var (r, w) := Enqueued(s, requestType);
        RecheckKeepsCounted(r, w, expired);
      }
    case Wake(w, expired) =>
      if w in s.waiters {
        RecheckKeepsCounted(s.(asleep := s.asleep - {w}), w, expired);
      }
    case Interrupt(w) =>
      SubsetSize(s.waiters - {w}, s.waiters);
      SubsetSize(Documents(s.waiters - {w}), Documents(s.waiters));
    case TryAcquire =>
    case ReleaseLease(lease) =>
  }

  lemma StepKeepsNumbered(s: State, e: Event)
    requires Numbered(s.waiters, s.nextSequence)
    ensures Numbered(Next(s, e).0.waiters, Next(s, e).0.nextSequence)
  {
    var r := Next(s, e).0;
    assert r.nextSequence >= s.nextSequence;
    forall w | w in r.waiters
      ensures w in s.waiters
           || (w.sequence == s.nextSequence < r.nextSequence && w.priority == Priority(w.requestType))
    {
    }
  }

  lemma StepKeepsHeadServed(s: State, e: Event)
    requires HeadIsServed(s) && Counted(s)
    ensures HeadIsServed(Next(s, e).0)
  {
    var r := Next(s, e).0;
    if r.active == 0 && s.active == 0 && r.asleep != {} {
      forall v | v in r.asleep ensures !IsLeast(v, r.waiters) {
        if v in s.asleep {
          var u :| u in s.waiters && u != v && !Less(v, u);
          assert u in r.waiters;
        }
      }
    }
  }

  lemma StepKeepsInv(s: State, e: Event)
    requires Inv(s)
    ensures Inv(Next(s, e).0)
  {
    StepKeepsCounted(s, e);
    StepKeepsNumbered(s, e);
    StepKeepsHeadServed(s, e);
  }

  lemma StepKeepsSettings(s: State, e: Event)
    ensures var r := Next(s, e).0;
            && r.concurrency == s.concurrency
            && r.queueCapacity == s.queueCapacity
            && r.queryReserve == s.queryReserve
            && s.nextSequence <= r.nextSequence
  {
  }

  lemma {:induction false} RunKeepsInv(trace: seq<State>, run: seq<Event>, n: nat)
    requires IsRun(trace, run) && n <= |run|
    ensures Inv(trace[n])
  {
    if n == 0 {
      assert Documents({}) == {};
    } else {
      RunKeepsInv(trace, run, n - 1);
      StepKeepsInv(trace[n - 1], run[n - 1]);
      assert Moves(trace[n - 1], run[n - 1], trace[n]);
    }
  }

  // ---------- No stalled queue ----------

  lemma AwakeHeadIsGranted(s: State, head: Waiter, expired: bool)
    requires s.active < s.concurrency && IsLeast(head, s.waiters)
    ensures Next(s, Wake(head, expired)).1 == Granted(head)
  {
  }

  /** In every reachable state: with no lease out and somebody waiting, the least
      waiter is awake, and its next pass through the loop is granted even when its
      deadline has passed. */
  lemma NoStalledQueue(trace: seq<State>, run: seq<Event>, n: nat) returns (head: Waiter)
    requires IsRun(trace, run) && n <= |run|
    requires trace[n].active == 0 && trace[n].waiters != {}
    ensures IsLeast(head, trace[n].waiters) && head !in trace[n].asleep
    ensures forall expired :: Next(trace[n], Wake(head, expired)).1 == Granted(head)
  {
    RunKeepsInv(trace, run, n);
    head := LeastExists(trace[n].waiters, trace[n].nextSequence);
    forall expired ensures Next(trace[n], Wake(head, expired)).1 == Granted(head) {
      AwakeHeadIsGranted(trace[n], head, expired);
    }
  }

  /** With one slot the queue is work conserving: whenever the slot is free and
      somebody waits, the head is awake and about to take it. */
  lemma SingleSlotIsWorkConserving(trace: seq<State>, run: seq<Event>, n: nat, head: Waiter)
    requires IsRun(trace, run) && n <= |run| && trace[n].concurrency == 1
    requires trace[n].active < trace[n].concurrency && IsLeast(head, trace[n].waiters)
    ensures head !in trace[n].asleep
  {
    RunKeepsInv(trace, run, n);
  }

  /** With several slots a free slot can be missed, but only while some lease is
      still out, and the release of any lease lets the head in. */
  lemma MissedSlotIsTemporary(trace: seq<State>, run: seq<Event>, n: nat, head: Waiter, lease: nat)
    requires IsRun(trace, run) && n <= |run|
    requires trace[n].active < trace[n].concurrency && IsLeast(head, trace[n].waiters) && head in trace[n].asleep
    ensures trace[n].leases != {}
    ensures lease in trace[n].leases ==>
              var after := Next(trace[n], ReleaseLease(lease)).0;
              after.asleep == {} && forall expired :: Next(after, Wake(head, expired)).1 == Granted(head)
  {
    RunKeepsInv(trace, run, n);
    if lease in trace[n].leases {
      var after := Next(trace[n], ReleaseLease(lease)).0;
      forall expired ensures Next(after, Wake(head, expired)).1 == Granted(head) {
        AwakeHeadIsGranted(after, head, expired);
      }
    }
  }

  // ---------- When a free slot can be missed ----------

  /** A free slot finds the head of the queue awake. */
  ghost predicate WorkConserving(s: State) {
    s.active < s.concurrency ==> forall w :: IsLeast(w, s.waiters) ==> w !in s.asleep
  }

  /** With room for one waiter only, nobody sleeps beside a free slot. */
  ghost predicate NobodySleepsIdle(s: State) {
    s.active < s.concurrency ==> s.asleep == {}
  }

  lemma OnlyOneIsLeast(ws: set<Waiter>, w: Waiter)
    requires |ws| <= 1 && w in ws
    ensures ws == {w} && IsLeast(w, ws)
  {
    forall v | v in ws ensures v == w {
      if v != w {
        SubsetSize({v, w}, ws);
      }
    }
  }

  lemma RecheckKeepsNobodyIdle(s: State, w: Waiter, expired: bool)
    requires NobodySleepsIdle(s) && |s.waiters| <= 1 && w in s.waiters && s.asleep <= s.waiters
    ensures NobodySleepsIdle(Recheck(s, w, expired).0)
  {
    OnlyOneIsLeast(s.waiters, w);
  }

  lemma StepKeepsNobodyIdle(s: State, e: Event)
    requires Inv(s) && s.queueCapacity <= 1 && NobodySleepsIdle(s)
    ensures NobodySleepsIdle(Next(s, e).0)
  {
    match e
    case Arrive(requestType, expired) =>
      if !(s.active < s.concurrency && s.waiters == {}) && CanEnqueue(s, requestType) {
        EnqueueKeepsCounted(s, requestType);
        var (r, w) := Enqueued(s, requestType);
        RecheckKeepsNobodyIdle(r, w, expired);
      }
    case Wake(w, expired) =>
      if w in s.waiters {
        RecheckKeepsNobodyIdle(s.(asleep := s.asleep - {w}), w, expired);
      }
    case _ =>
  }

  lemma {:induction false} SmallQueueKeepsNobodyIdle(trace: seq<State>, run: seq<Event>, n: nat)
    requires IsRun(trace, run) && n <= |run| && trace[0].queueCapacity <= 1
    ensures NobodySleepsIdle(trace[n]) && trace[n].queueCapacity <= 1
  {
    if n > 0 {
      SmallQueueKeepsNobodyIdle(trace, run, n - 1);
      RunKeepsInv(trace, run, n - 1);
      StepKeepsNobodyIdle(trace[n - 1], run[n - 1]);
      StepKeepsSettings(trace[n - 1], run[n - 1]);
      assert Moves(trace[n - 1], run[n - 1], trace[n]);
    }
  }

  const FIRST := Waiter(0, 0, Query)
  const SECOND := Waiter(0, 1, Query)

  /** Takes every slot, queues two queries, releases two leases, and then lets the second
      waiter look before the first. */
  function MissedEvent(slots: nat, n: nat): Event {
    if n < slots + 2 then Arrive(Query, false)
    else if n == slots + 2 then ReleaseLease(0)
    else if n == slots + 3 then ReleaseLease(1)
    else if n == slots + 4 then Wake(SECOND, false)
    else Wake(FIRST, false)
  }

  function Numbers(n: nat): (s: set<nat>)
    ensures forall l: nat :: l in s <==> l < n
  {
    if n == 0 then {} else Numbers(n - 1) + {n - 1}
  }

  ghost function MissedState(start: State, n: nat): State
    requires start.concurrency >= 2
  {
    var slots := start.concurrency;
    var taken := if n < slots then n else slots;
    var held := start.(active := taken, leases := Numbers(taken), issued := taken);
    var queued := held.(waiters := {FIRST, SECOND}, nextSequence := 2);
    var freed := queued.(active := slots - 2, leases := Numbers(slots) - {0, 1});
    if n <= slots then held
    else if n == slots + 1 then held.(waiters := {FIRST}, asleep := {FIRST}, nextSequence := 1)
    else if n == slots + 2 then queued.(asleep := {FIRST, SECOND})
    else if n == slots + 3 then queued.(active := slots - 1, leases := Numbers(slots) - {0})
    else if n == slots + 4 then freed
    else if n == slots + 5 then freed.(asleep := {SECOND})
    else freed.(active := slots - 1, waiters := {SECOND}, asleep := {SECOND},
                leases := freed.leases + {slots}, issued := slots + 1)
  }

  ghost predicate Roomy(start: State) {
    && start.concurrency >= 2 && start.queueCapacity >= 2
    && start == Initial(start.concurrency, start.queueCapacity, start.queryReserve)
  }

  /** With every slot taken an arriving query that may queue goes to sleep. */
  lemma FullHouseQueues(s: State)
    requires s.active >= s.concurrency && |s.waiters| < s.queueCapacity
    ensures var w := Waiter(0, s.nextSequence, Query);
            Next(s, Arrive(Query, false)).0 ==
              s.(waiters := s.waiters + {w}, asleep := s.asleep + {w}, nextSequence := s.nextSequence + 1)
  {
  }

  lemma MissedGrants(start: State, n: nat)
    requires Roomy(start) && n < start.concurrency
    ensures Moves(MissedState(start, n), MissedEvent(start.concurrency, n), MissedState(start, n + 1))
  {
    assert Numbers(n) + {n} == Numbers(n + 1);
  }

  lemma MissedArrivals(start: State, n: nat)
    requires Roomy(start) && start.concurrency <= n < start.concurrency + 2
    ensures Moves(MissedState(start, n), MissedEvent(start.concurrency, n), MissedState(start, n + 1))
  {
    var s := MissedState(start, n);
    assert n == start.concurrency + 1 ==> |s.waiters| == 1;
    FullHouseQueues(s);
    assert {FIRST} + {SECOND} == {FIRST, SECOND};
  }

  lemma MissedReleases(start: State, n: nat)
    requires Roomy(start) && start.concurrency + 2 <= n < start.concurrency + 4
    ensures Moves(MissedState(start, n), MissedEvent(start.concurrency, n), MissedState(start, n + 1))
  {
    var all := Numbers(start.concurrency);
    assert 0 in all && 1 in all;
    assert all - {0} - {1} == all - {0, 1};
  }

  lemma MissedWakes(start: State, n: nat)
    requires Roomy(start) && start.concurrency + 4 <= n < start.concurrency + 6
    ensures Moves(MissedState(start, n), MissedEvent(start.concurrency, n), MissedState(start, n + 1))
  {
    var s := MissedState(start, n);
    assert Less(FIRST, SECOND) && !Less(SECOND, FIRST);
    assert s.waiters == {FIRST, SECOND};
    assert IsLeast(FIRST, s.waiters) && !IsLeast(SECOND, s.waiters);
    assert {FIRST, SECOND} - {FIRST} == {SECOND} && {SECOND} - {FIRST} == {SECOND};
  }

  /** With two slots and room for two waiters a free slot is missed in this run: after it a
      slot is free and the head of the queue asleep. */
  lemma SlotIsMissed(start: State) returns (trace: seq<State>, run: seq<Event>)
    requires Roomy(start) && LegalSettings(start.concurrency, start.queueCapacity, start.queryReserve)
    ensures IsRun(trace, run) && trace[0] == start && !WorkConserving(trace[|run|])
  {
    var length := start.concurrency + 6;
    run := seq(length, n requires 0 <= n < length => MissedEvent(start.concurrency, n));
    trace := seq(length + 1, n requires 0 <= n <= length => MissedState(start, n));
    assert Numbers(0) == {};
    forall n {:trigger trace[n], run[n]} | 0 <= n < length ensures Moves(trace[n], run[n], trace[n + 1]) {
      if n < start.concurrency {
        MissedGrants(start, n);
      } else if n < start.concurrency + 2 {
        MissedArrivals(start, n);
      } else if n < start.concurrency + 4 {
        MissedReleases(start, n);
      } else {
        MissedWakes(start, n);
      }
    }
    assert IsLeast(SECOND, trace[length].waiters);
  }

  /** For legal settings: no run ever leaves the head of the queue asleep beside a free slot
      exactly when there is one slot or room for at most one waiter. */
  lemma WorkConservingIff(start: State)
    requires start == Initial(start.concurrency, start.queueCapacity, start.queryReserve)
    requires LegalSettings(start.concurrency, start.queueCapacity, start.queryReserve)
    ensures (forall trace, run :: IsRun(trace, run) && trace[0] == start ==> WorkConserving(trace[|run|]))
       <==> start.concurrency == 1 || start.queueCapacity <= 1
  {
    if start.concurrency == 1 || start.queueCapacity <= 1 {
      forall trace, run | IsRun(trace, run) && trace[0] == start ensures WorkConserving(trace[|run|]) {
        if start.concurrency == 1 {
          OneSlotConserves(trace, run);
        } else {
          SmallQueueKeepsNobodyIdle(trace, run, |run|);
        }
      }
    } else {
      var trace, run := SlotIsMissed(start);
    }
  }

  lemma OneSlotConserves(trace: seq<State>, run: seq<Event>)
    requires IsRun(trace, run) && trace[0].concurrency == 1
    ensures WorkConserving(trace[|run|])
  {
    NumbersGrow(trace, run, 0, |run|);
    forall w | trace[|run|].active < 1 && IsLeast(w, trace[|run|].waiters) ensures w !in trace[|run|].asleep {
      SingleSlotIsWorkConserving(trace, run, |run|, w);
    }
  }

  // ---------- Accounting ----------

  /** `active` counts the unreleased leases and stays within the slots; the queue
      and its document share stay within their limits. */
  lemma Accounting(trace: seq<State>, run: seq<Event>, n: nat)
    requires IsRun(trace, run) && n <= |run|
    ensures var s := trace[n];
            && s.active == |s.leases| <= s.concurrency
            && |s.waiters| <= s.queueCapacity
            && |Documents(s.waiters)| <= s.queueCapacity - s.queryReserve
  {
    RunKeepsInv(trace, run, n);
  }

  /** Releasing through a lease never reports a missing active lease; releasing
      the same lease again changes nothing. */
  lemma ReleaseIsSafe(trace: seq<State>, run: seq<Event>, n: nat, lease: nat)
    requires IsRun(trace, run) && n <= |run|
    ensures Next(trace[n], ReleaseLease(lease)).1 != NoLeaseError
    ensures var once := Next(trace[n], ReleaseLease(lease)).0;
            Next(once, ReleaseLease(lease)) == (once, NoEffect)
  {
    RunKeepsInv(trace, run, n);
    if lease in trace[n].leases {
      SubsetSize({lease}, trace[n].leases);
    }
  }

  /** A query is refused only when at least `queryReserve` queries already wait. */
  lemma ReservedSlotsServeQueries(trace: seq<State>, run: seq<Event>, n: nat, expired: bool)
    requires IsRun(trace, run) && n <= |run|
    requires Next(trace[n], Arrive(Query, expired)).1 == QueueFull
    ensures |Queries(trace[n].waiters)| >= trace[n].queryReserve
  {
    RunKeepsInv(trace, run, n);
    var ws := trace[n].waiters;
    assert Queries(ws) !! Documents(ws);
    assert ws == Queries(ws) + Documents(ws);
  }

  // ---------- Order ----------

  /** What a grant in state `s` may pass. */
  lemma StepPassesNobody(s: State, e: Event, passed: Waiter)
    requires Numbered(s.waiters, s.nextSequence) && passed in s.waiters
    ensures Next(s, e).1 != GrantedAtOnce
    ensures Next(s, e).1.Granted? && Next(s, e).1.waiter != passed ==>
              var w := Next(s, e).1.waiter;
              || (w.requestType.Query? && passed.requestType.Document?)
              || (w.requestType == passed.requestType && e.Wake? && w.sequence < passed.sequence)
  {
    if Next(s, e).1.Granted? && Next(s, e).1.waiter != passed {
      var w := Next(s, e).1.waiter;
      assert Less(w, passed) by {
        if e.Arrive? {
          assert IsLeast(w, Enqueued(s, e.requestType).0.waiters);
        } else {
          assert IsLeast(w, s.waiters);
        }
      }
    }
  }

  /** A slot taken on arrival or by the probe passes nobody, except that a query
      may pass documents; a slot taken from the queue goes to the least waiter, so
      never to a document while a query waits. */
  lemma NobodyIsPassed(trace: seq<State>, run: seq<Event>, n: nat, passed: Waiter)
    requires IsRun(trace, run) && n < |run| && passed in trace[n].waiters
    ensures var outcome := Next(trace[n], run[n]).1;
            && outcome != GrantedAtOnce
            && (outcome.Granted? && outcome.waiter != passed ==>
                  || (outcome.waiter.requestType.Query? && passed.requestType.Document?)
                  || (outcome.waiter.requestType == passed.requestType && run[n].Wake?
                      && outcome.waiter.sequence < passed.sequence))
  {
    RunKeepsInv(trace, run, n);
    StepPassesNobody(trace[n], run[n], passed);
  }

  /** The request that arrived with event `i` got its slot with event `g`. */
  ghost predicate GrantedWhen(trace: seq<State>, run: seq<Event>, i: nat, g: nat) {
    && |trace| == |run| + 1
    && i <= g < |run|
    && run[i].Arrive?
    && var arrival := Next(trace[i], run[i]).1;
       || (g == i && (arrival == GrantedAtOnce || arrival.Granted?))
       || (i < g && arrival.Sleeping? && Next(trace[g], run[g]).1 == Granted(arrival.waiter))
  }

  lemma {:induction false} NumbersGrow(trace: seq<State>, run: seq<Event>, m: nat, n: nat)
    requires IsRun(trace, run) && m <= n <= |run|
    ensures trace[m].nextSequence <= trace[n].nextSequence
    ensures trace[m].concurrency == trace[n].concurrency
  {
    if m < n {
      NumbersGrow(trace, run, m, n - 1);
      StepKeepsSettings(trace[n - 1], run[n - 1]);
      assert Moves(trace[n - 1], run[n - 1], trace[n]);
    }
  }

  lemma StepAddsOnlyFreshWaiters(s: State, e: Event, w: Waiter)
    requires w !in s.waiters && w.sequence < s.nextSequence
    ensures w !in Next(s, e).0.waiters && w.sequence < Next(s, e).0.nextSequence
  {
  }

  /** A waiter that has left the queue never comes back. */
  lemma {:induction false} LeftForGood(trace: seq<State>, run: seq<Event>, m: nat, n: nat, w: Waiter)
    requires IsRun(trace, run) && m <= n <= |run|
    requires w.sequence < trace[m].nextSequence && w !in trace[m].waiters
    ensures w !in trace[n].waiters && w.sequence < trace[n].nextSequence
  {
    if m < n {
      LeftForGood(trace, run, m, n - 1, w);
      StepAddsOnlyFreshWaiters(trace[n - 1], run[n - 1], w);
      assert Moves(trace[n - 1], run[n - 1], trace[n]);
    }
  }

  lemma ArrivalTakesTheNextNumber(s: State, e: Event)
    requires e.Arrive? && (Next(s, e).1.Sleeping? || Next(s, e).1.Granted?)
    ensures Next(s, e).1.waiter.sequence == s.nextSequence < Next(s, e).0.nextSequence
    ensures Next(s, e).1.waiter.requestType == e.requestType
    ensures Next(s, e).1.Sleeping? ==> Next(s, e).1.waiter in Next(s, e).0.waiters
  {
  }

  lemma WakeGrantsAWaiter(s: State, e: Event)
    requires Next(s, e).1.Granted?
    ensures e.Arrive? ==> Next(s, e).1.waiter.sequence == s.nextSequence
    ensures !e.Arrive? ==> e.Wake? && Next(s, e).1.waiter in s.waiters
  {
  }

  /** The waiter of a queued request stays in the queue until it is granted. */
  lemma WaitsUntilGranted(trace: seq<State>, run: seq<Event>, i: nat, m: nat, g: nat)
    requires IsRun(trace, run) && i < m <= g && GrantedWhen(trace, run, i, g)
    ensures var w := Next(trace[i], run[i]).1.waiter;
            && w in trace[m].waiters
            && w.sequence == trace[i].nextSequence < trace[i + 1].nextSequence
            && w.requestType == run[i].requestType
  {
    var w := Next(trace[i], run[i]).1.waiter;
    ArrivalTakesTheNextNumber(trace[i], run[i]);
    assert Moves(trace[i], run[i], trace[i + 1]);
    NumbersGrow(trace, run, i + 1, m);
    NumbersGrow(trace, run, m, g);
    WakeGrantsAWaiter(trace[g], run[g]);
    if w !in trace[m].waiters {
      LeftForGood(trace, run, m, g, w);
    }
  }

  /** Requests of one type are granted in the order in which they arrived, fast
      path included, whatever the interleaving, the timeouts and the interrupts. */
  lemma SameTypeIsFifo(trace: seq<State>, run: seq<Event>, i: nat, j: nat, gi: nat, gj: nat)
    requires IsRun(trace, run) && i < j
    requires GrantedWhen(trace, run, i, gi) && GrantedWhen(trace, run, j, gj)
    requires run[i].requestType == run[j].requestType
    ensures gi < gj
  {
    if gi >= gj {
      WaitsUntilGranted(trace, run, i, gj, gi);
      NobodyIsPassed(trace, run, gj, Next(trace[i], run[i]).1.waiter);
      NumbersGrow(trace, run, i + 1, j);
      ArrivalTakesTheNextNumber(trace[j], run[j]);
      assert false;
    }
  }
}
