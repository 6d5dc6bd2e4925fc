/** `EmbeddingPriorityAdmission` and its leases, one method per critical section.

    `acquire` runs under the condition's lock except while it waits, so it is cut
    at the wait: `Acquire` is the part up to the first wait, `Wake` one later pass
    through the loop, `Interrupt` the handler for an exception raised in the wait.
    The deadline enters as the flag `expired`. */
module Admission {
  import opened WaiterHeap
  import opened AdmissionSteps
  import opened AdmissionRuns

  class AdmissionLease {
    const admission: EmbeddingPriorityAdmission
    var released: bool
    ghost const number: nat

    constructor (admission: EmbeddingPriorityAdmission, ghost number: nat)
      ensures this.admission == admission && this.number == number && !released
    {
      this.admission := admission;
      this.number := number;
      released := false;
    }

    /** The lease knows whether its slot is still taken. */
    ghost predicate Valid()
      reads this, admission
    {
      released <==> number !in admission.leases
    }

    /** Gives the slot back once; later calls do nothing. */
    method Release() returns (error: bool)
      requires Valid() && admission.Valid()
      modifies this, admission
      ensures Valid() && admission.Valid() && released
      ensures admission.View() == Next(old(admission.View()), ReleaseLease(number)).0
      ensures !error
      ensures old(released) ==> admission.View() == old(admission.View())
    {
      if released {
        return false;
      }
      released := true;
      error := admission.ReleaseSlot(number);
    }
  }

  class EmbeddingPriorityAdmission {
    const concurrency: nat
    const queueCapacity: nat
    const queryReserve: nat
    var active: nat
    var waiters: seq<Waiter>
    var asleep: set<Waiter>
    var nextSequence: nat
    ghost var queued: set<Waiter>
    ghost var leases: set<nat>
    ghost var issued: nat

    ghost function View(): State
      reads this
    {
      State(concurrency, queueCapacity, queryReserve, active, queued, asleep, nextSequence, leases, issued)
    }

    /** The list is a heap holding each queued waiter once. */
    ghost predicate Valid()
      reads this
    {
      IsHeap(waiters) && multiset(waiters) == multiset(queued) && Inv(View())
    }

    constructor (concurrency: nat, queueCapacity: nat, queryReserve: nat)
      requires LegalSettings(concurrency, queueCapacity, queryReserve)
      ensures Valid() && View() == Initial(concurrency, queueCapacity, queryReserve)
    {
      this.concurrency, this.queueCapacity, this.queryReserve := concurrency, queueCapacity, queryReserve;
      active, waiters, asleep, nextSequence := 0, [], {}, 0;
      queued, leases, issued := {}, {}, 0;
      new;
      assert Documents({}) == {};
    }

    /** Out-of-range settings are refused, as the constructor of the source does. */
    static method Create(concurrency: int, queueCapacity: int, queryReserve: int)
      returns (admission: EmbeddingPriorityAdmission?)
      ensures admission != null <==> LegalSettings(concurrency, queueCapacity, queryReserve)
      ensures admission == null <==> concurrency <= 0 || queryReserve < 0 || queueCapacity < queryReserve
      ensures admission != null ==> fresh(admission) && admission.Valid()
      ensures admission != null ==> admission.View() == Initial(concurrency, queueCapacity, queryReserve)
    {
      if concurrency < 1 || queueCapacity < 0 || !(0 <= queryReserve <= queueCapacity) {
        return null;
      }
      admission := new EmbeddingPriorityAdmission(concurrency, queueCapacity, queryReserve);
    }

    method Acquire(requestType: RequestType, expired: bool) returns (outcome: Outcome, lease: AdmissionLease?)
      requires Valid()
      modifies this
      ensures Valid()
      ensures (View(), outcome) == Next(old(View()), Arrive(requestType, expired))
      ensures GrantsLease(outcome, lease, old(issued))
    {
      StepKeepsInv(View(), Arrive(requestType, expired));
      assert |waiters| == |queued| by {
        assert |multiset(waiters)| == |multiset(queued)|;
      }
      if active < concurrency && waiters == [] {
        lease := Issue();
        return GrantedAtOnce, lease;
      }
      var admitted := MayEnqueue(requestType);
      if !admitted {
        return QueueFull, null;
      }
      EnqueueKeepsCounted(View(), requestType);
      var waiter := Enqueue(requestType);
      outcome, lease := Recheck(waiter, expired);
    }

    /** A new waiter with the next sequence number joins the heap. */
    method Enqueue(requestType: RequestType) returns (waiter: Waiter)
      requires IsHeap(waiters) && multiset(waiters) == multiset(queued) && Numbered(queued, nextSequence)
      modifies this
      ensures IsHeap(waiters) && multiset(waiters) == multiset(queued) && waiter in queued
      ensures (View(), waiter) == Enqueued(old(View()), requestType)
      ensures Numbered(queued, nextSequence)
    {
      waiter := Waiter(Priority(requestType), nextSequence, requestType);
      nextSequence := nextSequence + 1;
      waiters := HeapPush(waiters, waiter);
      queued := queued + {waiter};
    }

    method Wake(waiter: Waiter, expired: bool) returns (outcome: Outcome, lease: AdmissionLease?)
      requires Valid() && waiter in queued
      modifies this
      ensures Valid()
      ensures (View(), outcome) == Next(old(View()), Event.Wake(waiter, expired))
      ensures GrantsLease(outcome, lease, old(issued))
    {
      StepKeepsInv(View(), Event.Wake(waiter, expired));
      asleep := asleep - {waiter};
      outcome, lease := Recheck(waiter, expired);
    }

    /** The body of the loop in `acquire`. */
    method Recheck(waiter: Waiter, expired: bool) returns (outcome: Outcome, lease: AdmissionLease?)
      requires IsHeap(waiters) && multiset(waiters) == multiset(queued)
      requires Numbered(queued, nextSequence) && asleep <= queued
      requires waiter in queued
      requires Inv(AdmissionSteps.Recheck(View(), waiter, expired).0)
      modifies this
      ensures Valid()
      ensures (View(), outcome) == AdmissionSteps.Recheck(old(View()), waiter, expired)
      ensures GrantsLease(outcome, lease, old(issued))
      ensures expired ==> waiter !in queued && (outcome == Granted(waiter) || outcome == TimedOut(waiter))
    {
      assert waiter in multiset(queued);
      assert waiter in waiters;
      HeadIsLeast();
      if active < concurrency && waiters != [] && waiters[0] == waiter {
        lease := GrantHead();
        return Granted(waiter), lease;
      }
      if expired {
        Remove(waiter);
        // The handler of the exception removes the waiter a second time.
        Remove(waiter);
        return TimedOut(waiter), null;
      }
      asleep := asleep + {waiter};
      return Sleeping(waiter), null;
    }

    /** The head of the heap leaves it with a lease. */
    method GrantHead() returns (lease: AdmissionLease)
      requires IsHeap(waiters) && multiset(waiters) == multiset(queued) && waiters != []
      modifies this
      ensures IsHeap(waiters) && multiset(waiters) == multiset(queued)
      ensures var before, head := old(View()), old(waiters)[0];
              View() == AdmissionSteps.Issue(before.(waiters := before.waiters - {head},
                                                     asleep := before.asleep - {head}))
      ensures fresh(lease) && lease.admission == this && !lease.released && lease.number == old(issued)
    {
      assert waiters[0] in multiset(queued);
      var head;
      head, waiters := HeapPop(waiters);
      queued, asleep := queued - {head}, asleep - {head};
      lease := Issue();
    }

    /** An exception other than the timeout leaves the wait. */
    method Interrupt(waiter: Waiter) returns (outcome: Outcome)
      requires Valid() && waiter in queued
      modifies this
      ensures Valid()
      ensures (View(), outcome) == Next(old(View()), Event.Interrupt(waiter))
    {
      StepKeepsInv(View(), Event.Interrupt(waiter));
      Remove(waiter);
      return Cancelled(waiter);
    }

    method TryAcquire() returns (outcome: Outcome, lease: AdmissionLease?)
      requires Valid()
      modifies this
      ensures Valid()
      ensures (View(), outcome) == Next(old(View()), Event.TryAcquire)
      ensures GrantsLease(outcome, lease, old(issued))
    {
      StepKeepsInv(View(), Event.TryAcquire);
      assert |waiters| == |queued| by {
        assert |multiset(waiters)| == |multiset(queued)|;
      }
      if active >= concurrency || waiters != [] {
        return Busy, null;
      }
      lease := Issue();
      return GrantedAtOnce, lease;
    }

    /** `_can_enqueue`. */
    method MayEnqueue(requestType: RequestType) returns (admitted: bool)
      requires multiset(waiters) == multiset(queued) && queryReserve <= queueCapacity
      ensures admitted <==> CanEnqueue(View(), requestType)
    {
      assert |waiters| == |queued| by {
        assert |multiset(waiters)| == |multiset(queued)|;
      }
      if |waiters| >= queueCapacity {
        return false;
      }
      if requestType == Document {
        var documentLimit := queueCapacity - queryReserve;
        var documentWaiting := 0;
        for i := 0 to |waiters|
          invariant documentWaiting == CountDocuments(waiters[..i])
        {
          assert waiters[..i + 1] == waiters[..i] + [waiters[i]];
          if waiters[i].requestType == Document {
            documentWaiting := documentWaiting + 1;
          }
        }
        assert waiters[..|waiters|] == waiters;
        CountIsSetSize(waiters, queued);
        if documentWaiting >= documentLimit {
          return false;
        }
      }
      return true;
    }

    /** `_remove_waiter`: a waiter that is gone already is left alone. */
    method Remove(waiter: Waiter)
      requires multiset(waiters) == multiset(queued)
      requires IsHeap(waiters)
      modifies this
      ensures IsHeap(waiters) && multiset(waiters) == multiset(queued)
      ensures View() == RemoveWaiter(old(View()), waiter)
    {
      assert waiter in queued <==> waiter in multiset(queued);
      var rest, found := RemoveAndHeapify(waiters, waiter);
      if found {
        waiters := rest;
        queued := queued - {waiter};
        asleep := {};
      }
    }

    /** `_release`, reached through a lease that is still unreleased. */
    method ReleaseSlot(ghost number: nat) returns (error: bool)
      requires Valid() && number in leases
      modifies this
      ensures Valid() && !error
      ensures View() == Next(old(View()), ReleaseLease(number)).0
    {
      StepKeepsInv(View(), ReleaseLease(number));
      assert active > 0 by {
        SubsetSize({number}, leases);
      }
      if active < 1 {
        return true;
      }
      active := active - 1;
      leases := leases - {number};
      asleep := {};
      return false;
    }

    method Issue() returns (lease: AdmissionLease)
      modifies this
      ensures View() == AdmissionSteps.Issue(old(View()))
      ensures waiters == old(waiters)
      ensures fresh(lease) && lease.admission == this && !lease.released && lease.number == old(issued)
    {
      active := active + 1;
      lease := new AdmissionLease(this, issued);
      leases, issued := leases + {issued}, issued + 1;
    }

    /** A granted request gets a new, unreleased lease; the others get none. */
    ghost predicate GrantsLease(outcome: Outcome, lease: AdmissionLease?, number: nat)
      reads this, lease
    {
      if outcome == GrantedAtOnce || outcome.Granted? then
        lease != null && lease.admission == this && lease.number == number && !lease.released && number in leases
      else
        lease == null
    }

    lemma HeadIsLeast()
      requires IsHeap(waiters) && multiset(waiters) == multiset(queued) && Numbered(queued, nextSequence)
      ensures waiters != [] ==> forall w :: IsLeast(w, queued) <==> w == waiters[0]
      ensures waiters == [] ==> queued == {}
    {
      forall w ensures w in queued <==> w in waiters {
        assert w in multiset(queued) <==> w in multiset(waiters);
      }
      if waiters != [] {
        forall v | v in queued && v != waiters[0] ensures Less(waiters[0], v) {
          var i: nat :| i < |waiters| && waiters[i] == v;
          RootIsLeast(waiters, i);
        }
      }
    }
  }

  function CountDocuments(ws: seq<Waiter>): nat {
    if ws == [] then 0
    else CountDocuments(ws[..|ws| - 1]) + if ws[|ws| - 1].requestType == Document then 1 else 0
  }

  /** Counting in the list gives the number of distinct waiting documents. */
  lemma {:induction false} CountIsSetSize(ws: seq<Waiter>, queued: set<Waiter>)
    requires multiset(ws) == multiset(queued)
    ensures CountDocuments(ws) == |Documents(queued)|
  {
    if ws == [] {
      assert |queued| == |multiset(ws)| == 0;
    } else {
      var front, last := ws[..|ws| - 1], ws[|ws| - 1];
      assert ws == front + [last];
      assert last in multiset(ws);
      var rest := queued - {last};
      assert multiset(front) == multiset(ws) - multiset{last};
      assert multiset(rest) == multiset(queued) - multiset{last};
      CountIsSetSize(front, rest);
      assert Documents(queued) == if last.requestType == Document then Documents(rest) + {last} else Documents(rest);
    }
  }
}
