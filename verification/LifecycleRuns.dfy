/** Whole sequences of switches, resumes and stops of the runtime. */
module LifecycleRuns {
  import opened Options
  import opened Docker
  import opened Lifecycle

  datatype Event =
    | Switch(generation: string, faults: ApplyFaults)
    | ResumeAs(generation: string, resumeFaults: ResumeFaults)
    | Halt(answer: InspectAnswer, stop: bool, remove: bool, removeWorks: bool)

  function Step(w: World, e: Event): World {
    match e
    case Switch(generation, f) => Apply(w, generation, f).0
    case ResumeAs(generation, f) => Resume(w, generation, f).0
    case Halt(answer, stop, remove, removeWorks) => StopRuntime(w, answer, stop, remove, removeWorks).0
  }

  function Run(w: World, events: seq<Event>): World
    decreases |events|
  {
    if events == [] then w else Step(Run(w, events[..|events| - 1]), events[|events| - 1])
  }

  /** The switch succeeded, so its candidate started, was healthy, answered its endpoint
      and was promoted. */
  predicate Validates(w: World, e: Event) {
    e.Switch? && Apply(w, e.generation, e.faults).1.Succeeded?
  }

  /** The generation of the last switch that validated its candidate, if there was one. */
  function LastValidated(w: World, events: seq<Event>): Option<string>
    decreases |events|
  {
    if events == [] then None
    else
      var front, last := events[..|events| - 1], events[|events| - 1];
      if Validates(Run(w, front), last) then Some(last.generation) else LastValidated(w, front)
  }

  /** Whatever fails, the active generation is the last validated one. */
  lemma {:induction false} PointerIsLastValidated(w: World, events: seq<Event>)
    ensures Run(w, events).active == (if LastValidated(w, events).Some? then LastValidated(w, events).value
                                      else w.active)
    decreases |events|
  {
    if events != [] {
      var front, last := events[..|events| - 1], events[|events| - 1];
      PointerIsLastValidated(w, front);
      match last
      case Switch(generation, f) => PointerMovesOnlyToValidated(Run(w, front), generation, f);
      case ResumeAs(generation, f) => ResumeKeepsPointer(Run(w, front), generation, f);
      case Halt(_, _, _, _) =>
    }
  }

  /** And a generation that was validated passed every check when it was. */
  lemma {:induction false} ValidatedPassedChecks(w: World, events: seq<Event>)
    requires LastValidated(w, events).Some?
    ensures exists n ::
              && 0 <= n < |events| && events[n].Switch? && events[n].generation == LastValidated(w, events).value
              && events[n].faults.run.Started? && Validated(events[n].faults)
    decreases |events|
  {
    var front, last := events[..|events| - 1], events[|events| - 1];
    if Validates(Run(w, front), last) {
      PointerMovesOnlyToValidated(Run(w, front), last.generation, last.faults);
      assert events[|events| - 1] == last;
    } else {
      ValidatedPassedChecks(w, front);
      var n :| 0 <= n < |front| && front[n].Switch? && front[n].generation == LastValidated(w, front).value
               && front[n].faults.run.Started? && Validated(front[n].faults);
      assert events[n] == front[n];
    }
  }

  /** Containers under other names come through every sequence unchanged. */
  lemma {:induction false} OtherNamesUntouched(w: World, events: seq<Event>, name: Name)
    requires name in w.containers && name != Primary
    ensures Keeps(w.containers, Run(w, events).containers, name)
    decreases |events|
  {
    if events != [] {
      var front, last := events[..|events| - 1], events[|events| - 1];
      OtherNamesUntouched(w, front, name);
      match last
      case Switch(generation, f) => OtherNamesUntouchedByApply(Run(w, front), generation, f, name);
      case ResumeAs(generation, f) => OtherNamesUntouchedByResume(Run(w, front), generation, f, name);
      case Halt(_, _, _, _) =>
    }
  }

  predicate Answers(e: Event) {
    match e
    case Switch(_, f) => !f.inspect.NoAnswer?
    case ResumeAs(_, f) => !f.inspect.NoAnswer?
    case Halt(_, _, _, _) => true
  }

  /** While inspection answers, a container under the runtime's name that Dotori does not
      own survives every sequence, and no switch goes through beside it. */
  lemma {:induction false} ForeignIsNeverTouched(w: World, events: seq<Event>)
    requires Primary in w.containers && !w.containers[Primary].owned
    requires forall n :: 0 <= n < |events| ==> Answers(events[n])
    ensures Run(w, events).containers == w.containers && Run(w, events).active == w.active
    decreases |events|
  {
    if events != [] {
      var front, last := events[..|events| - 1], events[|events| - 1];
      forall n | 0 <= n < |front| ensures Answers(front[n]) {
        assert front[n] == events[n];
      }
      ForeignIsNeverTouched(w, front);
      assert Answers(last);
      if last.Halt? {
        StopSparesForeign(Run(w, front), last.answer, last.stop, last.remove, last.removeWorks);
      }
    }
  }

  /** The commands that only look, name, remove and record work.  What the candidate
      does is open: it may fail to start, leave a container behind, stay unhealthy, not
      answer or not be promoted, and the original may fail to stop or to restart. */
  predicate NamesReliably(e: Event) {
    match e
    case Switch(_, f) =>
      && f.inspect.Truth? && f.renameOut && f.removeBeforeRun && f.commit
      && f.removePrevious && f.removeCandidate && f.renameBack
    case ResumeAs(_, f) => f.inspect.Truth? && f.removeBeforeRun
    case Halt(_, _, _, _) => true
  }

  /** Only the active generation is ever resumed. */
  ghost predicate ResumesActive(w: World, events: seq<Event>) {
    forall n {:trigger events[n]} :: 0 <= n < |events| && events[n].ResumeAs? ==>
      events[n].generation == Run(w, events[..n]).active
  }

  /** The name belongs to the active generation, and no backup is lying about. */
  predicate InAgreement(w: World) {
    && (Primary in w.containers ==> w.containers[Primary].owned && w.containers[Primary].generation == w.active)
    && Backup !in w.containers
  }

  lemma SwitchKeepsAgreement(w: World, generation: string, f: ApplyFaults)
    requires InAgreement(w) && NamesReliably(Switch(generation, f))
    ensures InAgreement(Apply(w, generation, f).0)
    ensures Apply(w, generation, f).1 == Failed(true) ==> Apply(w, generation, f).0.status == w.status
  {
  }

  /** When only the commit fails, the agreement is lost -- unless no container was there and
      the candidate is of the active generation itself. */
  lemma CommitFailureBreaksAgreementIff(w: World, generation: string, f: ApplyFaults)
    requires InAgreement(w) && NamesReliably(Switch(generation, f.(commit := true)))
    requires Apply(w, generation, f).1.Raised?
    ensures InAgreement(Apply(w, generation, f).0) <==> Primary !in w.containers && generation == w.active
  {
    CommitFailureLeaves(w, generation, f);
  }

  lemma ResumeKeepsAgreement(w: World, f: ResumeFaults)
    requires InAgreement(w) && NamesReliably(ResumeAs(w.active, f))
    ensures InAgreement(Resume(w, w.active, f).0)
  {
  }

  /** Under reliable naming, after any sequence in which candidates fail in any way, the
      container under the runtime's name -- if there is one -- is of the active
      generation, which is the last one validated. */
  lemma {:induction false} AgreementSurvives(w: World, events: seq<Event>)
    requires InAgreement(w) && ResumesActive(w, events)
    requires forall n :: 0 <= n < |events| ==> NamesReliably(events[n])
    ensures InAgreement(Run(w, events))
    decreases |events|
  {
    if events != [] {
      var front, last := events[..|events| - 1], events[|events| - 1];
      ShorterRun(w, events);
      AgreementSurvives(w, front);
      assert NamesReliably(last);
      var v := Run(w, front);
      match last
      case Switch(generation, f) => SwitchKeepsAgreement(v, generation, f);
      case ResumeAs(generation, f) =>
        assert events[|events| - 1].generation == v.active;
        ResumeKeepsAgreement(v, f);
      case Halt(_, _, _, _) =>
    }
  }

  lemma ShorterRun(w: World, events: seq<Event>)
    requires events != [] && ResumesActive(w, events) && forall n :: 0 <= n < |events| ==> NamesReliably(events[n])
    ensures var front := events[..|events| - 1];
            ResumesActive(w, front) && forall n :: 0 <= n < |front| ==> NamesReliably(front[n])
  {
    var front := events[..|events| - 1];
    forall n | 0 <= n < |front|
      ensures NamesReliably(front[n]) && (front[n].ResumeAs? ==> front[n].generation == Run(w, front[..n]).active)
    {
      assert front[n] == events[n] && front[..n] == events[..n];
    }
  }
}
