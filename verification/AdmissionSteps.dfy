/** The admission monitor as a state machine.  Every step is one critical section
    of `EmbeddingPriorityAdmission`: the code between taking the condition's lock
    and either releasing it or going to sleep on it.  The queue is a set of
    waiters here; `Admission` shows that the heap-based class refines it. */
module AdmissionSteps {
  import opened WaiterHeap

  /** `asleep` is the condition's own wait list: the waiters that have not been
      notified since they last went to sleep.  `leases` are the unreleased leases,
      numbered in the order in which they were issued. */
  datatype State = State(
    concurrency: nat,
    queueCapacity: nat,
    queryReserve: nat,
    active: nat,
    waiters: set<Waiter>,
    asleep: set<Waiter>,
    nextSequence: nat,
    leases: set<nat>,
    issued: nat)

  /** `expired` says whether the caller's deadline has passed when it is checked. */
  datatype Event =
    | Arrive(requestType: RequestType, expired: bool)
    | Wake(waiter: Waiter, expired: bool)
    | Interrupt(waiter: Waiter)
    | TryAcquire
    | ReleaseLease(lease: nat)

  datatype Outcome =
    | GrantedAtOnce
    | Granted(waiter: Waiter)
    | Sleeping(waiter: Waiter)
    | QueueFull
    | TimedOut(waiter: Waiter)
    | Cancelled(waiter: Waiter)
    | Busy
    | Released
    | NoLeaseError
    | NoEffect

  predicate LegalSettings(concurrency: int, queueCapacity: int, queryReserve: int) {
    concurrency >= 1 && queueCapacity >= 0 && 0 <= queryReserve <= queueCapacity
  }

  function Initial(concurrency: nat, queueCapacity: nat, queryReserve: nat): State {
    State(concurrency, queueCapacity, queryReserve, 0, {}, {}, 0, {}, 0)
  }

  ghost predicate IsLeast(w: Waiter, ws: set<Waiter>) {
    w in ws && forall v :: v in ws && v != w ==> Less(w, v)
  }

  function Documents(ws: set<Waiter>): set<Waiter> {
    set w | w in ws && w.requestType.Document?
  }

  function Queries(ws: set<Waiter>): set<Waiter> {
    set w | w in ws && w.requestType.Query?
  }

  predicate CanEnqueue(s: State, requestType: RequestType) {
    && |s.waiters| < s.queueCapacity
    && (requestType.Document? ==> |Documents(s.waiters)| < s.queueCapacity - s.queryReserve)
  }

  function Issue(s: State): State {
    s.(active := s.active + 1, leases := s.leases + {s.issued}, issued := s.issued + 1)
  }

  /** Removing a waiter notifies everybody. */
  function RemoveWaiter(s: State, w: Waiter): State {
    if w in s.waiters then s.(waiters := s.waiters - {w}, asleep := {}) else s
  }

  /** One pass through the loop of `acquire` by the thread that owns `w`. */
  ghost function Recheck(s: State, w: Waiter, expired: bool): (State, Outcome) {
    if s.active < s.concurrency && IsLeast(w, s.waiters) then
      (Issue(s.(waiters := s.waiters - {w}, asleep := s.asleep - {w})), Granted(w))
    else if expired then
      (RemoveWaiter(s, w), TimedOut(w))
    else
      (s.(asleep := s.asleep + {w}), Sleeping(w))
  }

  ghost function Next(s: State, e: Event): (State, Outcome) {
    match e
    case Arrive(requestType, expired) =>
      if s.active < s.concurrency && s.waiters == {} then
        (Issue(s), GrantedAtOnce)
      else if !CanEnqueue(s, requestType) then
        (s, QueueFull)
      else
        var w := Waiter(Priority(requestType), s.nextSequence, requestType);
        Recheck(s.(waiters := s.waiters + {w}, nextSequence := s.nextSequence + 1), w, expired)
    case Wake(w, expired) =>
      if w in s.waiters then Recheck(s.(asleep := s.asleep - {w}), w, expired) else (s, NoEffect)
    case Interrupt(w) =>
      if w in s.waiters then (RemoveWaiter(s, w), Cancelled(w)) else (s, NoEffect)
    case TryAcquire =>
      if s.active >= s.concurrency || s.waiters != {} then (s, Busy) else (Issue(s), GrantedAtOnce)
    case ReleaseLease(lease) =>
      if lease !in s.leases then (s, NoEffect)
      else if s.active < 1 then (s.(leases := s.leases - {lease}), NoLeaseError)
      else (s.(active := s.active - 1, leases := s.leases - {lease}, asleep := {}), Released)
  }

  // ---------- Runs ----------

  ghost predicate Moves(before: State, e: Event, after: State) {
    after == Next(before, e).0
  }

  /** `trace` lists the states passed through when the events of `run` are taken,
      starting from a freshly built queue. */
  ghost predicate IsRun(trace: seq<State>, run: seq<Event>) {
    && |trace| == |run| + 1
    && LegalSettings(trace[0].concurrency, trace[0].queueCapacity, trace[0].queryReserve)
    && trace[0] == Initial(trace[0].concurrency, trace[0].queueCapacity, trace[0].queryReserve)
    && forall n {:trigger trace[n], run[n]} :: 0 <= n < |run| ==> Moves(trace[n], run[n], trace[n + 1])
  }
}
