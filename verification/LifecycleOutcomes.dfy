/** How a switch, a resume and a stop end, said of the containers and the failures met alone,
    and what a healthy status stands for over whole sequences. */
module LifecycleOutcomes {
  import opened Options
  import opened Docker
  import opened Lifecycle
  import opened LifecycleRuns

  // ---------- What a switch needs ----------

  /** The inspection shows a container under the name that it does not call ours. */
  predicate SeenAsForeign(w: World, answer: InspectAnswer) {
    && Primary in w.containers && !answer.NoAnswer?
    && (answer.NoLabels? || !w.containers[Primary].owned)
  }

  /** The original waits under the backup name while the candidate is tried. */
  predicate SetAside(w: World, f: ApplyFaults) {
    HasOriginal(w) && RenamedOut(w, f)
  }

  /** No one holds the name any more when the candidate is created. */
  predicate NameIsClear(w: World, f: ApplyFaults) {
    Primary !in w.containers || SetAside(w, f) || f.removeBeforeRun
  }

  /** Every check: it started under a clear name, was healthy, answered, was promoted. */
  predicate CandidatePasses(w: World, f: ApplyFaults) {
    NameIsClear(w, f) && f.run.Started? && f.healthy && f.endpoints && f.promote
  }

  predicate MayBegin(w: World, f: ApplyFaults) {
    f.argsFileExists && f.imageReady && !SeenAsForeign(w, f.inspect)
  }

  /** A switch is refused, succeeds or raises exactly in these cases; a failed one reports a
      rollback exactly if the original was set aside, `start` worked and somebody held the name. */
  lemma SwitchOutcomeIff(w: World, generation: string, f: ApplyFaults)
    ensures var result := Apply(w, generation, f).1;
            && (result.Refused? <==> !MayBegin(w, f))
            && (result.Succeeded? <==> MayBegin(w, f) && CandidatePasses(w, f) && f.commit)
            && (result.Raised? <==> MayBegin(w, f) && CandidatePasses(w, f) && !f.commit)
            && (result.Failed? ==>
                  (result.rolledBack <==> SetAside(w, f) && f.restart
                                          && (f.renameBack || (!f.run.FailedClean? && !f.removeCandidate))))
  {
  }

  /** The status each ending leaves. */
  lemma SwitchStatusMeaning(w: World, generation: string, f: ApplyFaults)
    ensures var (u, result) := Apply(w, generation, f);
            match result
            case Refused => u == w
            case Succeeded => u.status == Some(Healthy(generation))
            case Raised => u.status == Some(Starting(generation))
            case Failed(rolledBack) =>
              u.status == if rolledBack then w.status else Some(Unavailable(generation, f.code))
  {
  }

  /** A container after a `stop` that may not work. */
  function Stopped(c: Container, works: bool): Container {
    c.(running := c.running && !works)
  }

  /** A successful switch leaves the candidate under the name, and the stopped original as the
      backup only if its removal failed; nothing else changed. */
  lemma SuccessLeaves(w: World, generation: string, f: ApplyFaults)
    requires Apply(w, generation, f).1.Succeeded?
    ensures var candidate := Container(f.newId, true, true, true, generation);
            Apply(w, generation, f).0.containers
              == (if SetAside(w, f) && !f.removePrevious
                  then w.containers[Backup := Stopped(w.containers[Primary], f.stop)]
                  else w.containers)[Primary := candidate]
  {
    var seen := Inspect(w.containers, f.inspect);
    var (displaced, hasPrevious) := Displace(w.containers, seen, f);
    assert hasPrevious <==> SetAside(w, f);
    assert hasPrevious ==> Backup !in w.containers && Primary !in displaced;
  }

  /** A switch that failed with nothing set aside leaves nobody under the name, or, if that
      removal failed too, the candidate as far as it got, or else whoever could not be removed. */
  lemma FailureWithoutBackupLeaves(w: World, generation: string, f: ApplyFaults)
    requires Apply(w, generation, f).1.Failed? && !SetAside(w, f)
    ensures var after := Apply(w, generation, f).0.containers;
            && after.Keys - {Primary} == w.containers.Keys - {Primary}
            && (f.removeCandidate ==> Primary !in after)
            && (!f.removeCandidate && NameIsClear(w, f) ==>
                  if f.run.FailedClean? then Primary !in after
                  else Primary in after
                       && after[Primary] == Container(f.newId, true, f.run.Started?, false, generation))
            && (!f.removeCandidate && !NameIsClear(w, f) ==>
                  Primary in after && after[Primary].id == w.containers[Primary].id)
  {
  }

  // ---------- Resume ----------

  predicate Sees(w: World, answer: InspectAnswer) {
    Primary in w.containers && !answer.NoAnswer?
  }

  predicate MayResume(w: World, generation: string, f: ResumeFaults) {
    && f.argsFileExists && f.network && !SeenAsForeign(w, f.inspect)
    && (Sees(w, f.inspect) ==> w.containers[Primary].generation == generation)
  }

  /** A container seen is started if it does not run; one not seen is created anew. */
  predicate ComesUp(w: World, f: ResumeFaults) {
    if Sees(w, f.inspect) then f.disableRestart && (w.containers[Primary].running || f.start)
    else f.imageReady && f.run.Started? && (Primary !in w.containers || f.removeBeforeRun)
  }

  /** A resume succeeds exactly in this case; a refused one changes nothing, any other failure
      is written to the status, with the code found out if the container stayed unhealthy. */
  lemma ResumeOutcomeIff(w: World, generation: string, f: ResumeFaults)
    ensures var (u, ok) := Resume(w, generation, f);
            && (ok <==> MayResume(w, generation, f) && ComesUp(w, f) && f.healthy && f.endpoints && f.promote)
            && (ok ==> u.status == Some(Healthy(generation)))
            && (!MayResume(w, generation, f) ==> u == w)
            && (MayResume(w, generation, f) && !ok ==>
                  u.status == Some(Unavailable(generation,
                                               if ComesUp(w, f) && !f.healthy then f.code else StartFailed)))
  {
  }

  /** The container that is up for the checks: the one seen, or a new one. */
  function BroughtUp(w: World, generation: string, f: ResumeFaults): Container {
    if Sees(w, f.inspect) then w.containers[Primary] else Container(f.newId, true, true, false, generation)
  }

  /** The container a resume leaves under the name when it came up: running and promoted after
      all checks; else removed, unless the removal or the inspection before it failed. */
  lemma ResumedContainer(w: World, generation: string, f: ResumeFaults)
    requires MayResume(w, generation, f) && ComesUp(w, f)
    ensures var (u, ok) := Resume(w, generation, f);
            var c := BroughtUp(w, generation, f);
            u.containers == if ok then w.containers[Primary := c.(running := true, autoRestart := true)]
                            else if f.removeFailed && (f.healthy || f.inspectAfter.Truth?) then w.containers - {Primary}
                            else w.containers[Primary := c.(running := true, autoRestart := false)]
  {
    var up := BringUp(w, generation, f).0;
    var c := BroughtUp(w, generation, f);
    assert up.containers == w.containers[Primary := c.(running := true, autoRestart := false)];
    assert up.containers - {Primary} == w.containers - {Primary};
  }

  // ---------- Stop ----------

  /** A stop that sees an owned container leaves it as its two commands make it: gone if asked
      for and `rm` worked, else stopped if `stop` worked.  It says it is done unless what it
      sees is not ours. */
  lemma StopMeaning(w: World, answer: InspectAnswer, stop: bool, remove: bool, removeWorks: bool)
    ensures var (u, ok) := StopRuntime(w, answer, stop, remove, removeWorks);
            && (ok <==> !SeenAsForeign(w, answer))
            && u.active == w.active && u.status == w.status
            && u.containers ==
                 if answer.Truth? && HasOriginal(w) then
                   if remove && removeWorks then w.containers - {Primary}
                   else w.containers[Primary := Stopped(w.containers[Primary], stop)]
                 else w.containers
  {
    if answer.Truth? && HasOriginal(w) {
      var c := w.containers[Primary];
      assert stop || c == Stopped(c, stop);
      assert w.containers == w.containers[Primary := c];
    }
  }

  // ---------- What a healthy status stands for ----------

  /** A switch to, or resume of, the generation in which everything that is checked passed. */
  predicate PassesChecks(e: Event, generation: string) {
    match e
    case Switch(g, f) => g == generation && f.run.Started? && f.healthy && f.endpoints && f.promote && f.commit
    case ResumeAs(g, f) => g == generation && f.healthy && f.endpoints && f.promote
    case Halt(_, _, _, _) => false
  }

  /** Whatever fails: a status that calls a generation healthy is the one the sequence began
      with, or some event of the sequence checked that generation and it passed. */
  lemma {:induction false} HealthyWasChecked(w: World, events: seq<Event>, generation: string)
    requires LifecycleRuns.Run(w, events).status == Some(Healthy(generation))
    ensures w.status == Some(Healthy(generation))
            || exists n :: 0 <= n < |events| && PassesChecks(events[n], generation)
    decreases |events|
  {
    if events != [] {
      var front, last := events[..|events| - 1], events[|events| - 1];
      StepToHealthy(LifecycleRuns.Run(w, front), last, generation);
      if !PassesChecks(last, generation) {
        HealthyWasChecked(w, front, generation);
        if n :| 0 <= n < |front| && PassesChecks(front[n], generation) {
          assert events[n] == front[n];
        }
      }
    }
  }

  lemma StepToHealthy(v: World, e: Event, generation: string)
    requires Step(v, e).status == Some(Healthy(generation))
    ensures v.status == Some(Healthy(generation)) || PassesChecks(e, generation)
  {
    match e
    case Switch(g, f) =>
      SwitchStatusMeaning(v, g, f);
      SwitchOutcomeIff(v, g, f);
    case ResumeAs(g, f) => ResumeOutcomeIff(v, g, f);
    case Halt(answer, stop, remove, removeWorks) => StopMeaning(v, answer, stop, remove, removeWorks);
  }

  /** After an event that failed without a way back, nothing is called healthy any more. */
  lemma FailureIsNeverHealthy(v: World, e: Event, generation: string)
    requires match e
             case Switch(g, f) => Apply(v, g, f).1 == Failed(false) || Apply(v, g, f).1.Raised?
             case ResumeAs(g, f) => MayResume(v, g, f) && !Resume(v, g, f).1
             case Halt(_, _, _, _) => false
    ensures Step(v, e).status != Some(Healthy(generation))
  {
    match e
    case Switch(g, f) => SwitchStatusMeaning(v, g, f);
    case ResumeAs(g, f) => ResumeOutcomeIff(v, g, f);
    case Halt(_, _, _, _) =>
  }
}
