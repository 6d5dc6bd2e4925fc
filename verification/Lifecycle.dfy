/** Switching the runtime container (`RuntimeLifecycleManager.apply`, `resume`, `stop`).

    Every command draws its outcome from a record the caller supplies, so a lemma
    about all records is a lemma about all patterns of failure. */
module Lifecycle {
  import opened Options
  import opened Docker

  datatype FailureCode = OutOfMemory | TimedOut | StartFailed

  datatype StatusFile =
    | Starting(generation: string)
    | Healthy(generation: string)
    | Unavailable(generation: string, code: FailureCode)

  /** `status` is the runtime status file, absent at first; `active` the
      active generation. */
  datatype World = World(containers: Containers, active: string, status: Option<StatusFile>)

  /** What `docker inspect` tells: the truth, nothing (read as "does not exist"), or
      the state without the labels (read as "not owned"). */
  datatype InspectAnswer = Truth | NoAnswer | NoLabels

  datatype Seen = Seen(present: bool, owned: bool, running: bool, generation: string)

  function Inspect(cs: Containers, answer: InspectAnswer): Seen {
    if answer.NoAnswer? || Primary !in cs then Seen(false, false, false, "")
    else var c := cs[Primary];
         if answer.NoLabels? then Seen(true, false, c.running, "")
         else Seen(true, c.owned, c.running, c.generation)
  }

  /** The outcomes met by one `apply`; `newId` identifies the candidate container. */
  datatype ApplyFaults = ApplyFaults(
    argsFileExists: bool,
    imageReady: bool,
    inspect: InspectAnswer,
    stop: bool,
    renameOut: bool,
    removeBeforeRun: bool,
    run: RunOutcome,
    healthy: bool,
    endpoints: bool,
    promote: bool,
    commit: bool,
    removePrevious: bool,
    code: FailureCode,
    removeCandidate: bool,
    renameBack: bool,
    restart: bool,
    newId: int)

  /** `Raised`: the commit of the pointer threw. */
  datatype ApplyResult = Refused | Succeeded | Failed(rolledBack: bool) | Raised

  // ---------- apply ----------

  function Candidate(generation: string, id: int): Container {
    Container(id, true, true, false, generation)
  }

  /** Moves an owned container out of the way; says whether that worked. */
  function Displace(cs: Containers, seen: Seen, f: ApplyFaults): (Containers, bool) {
    if seen.present && seen.owned then
      var stopped := Stop(cs, Primary, f.stop);
      (Rename(stopped, Primary, Backup, f.renameOut), CanRename(stopped, Primary, Backup, f.renameOut))
    else (cs, false)
  }

  /** `_run_candidate` clears the name first, whoever holds it. */
  function Launch(cs: Containers, generation: string, f: ApplyFaults): (Containers, bool) {
    var cleared := Remove(cs, Primary, f.removeBeforeRun);
    (Run(cleared, Primary, Candidate(generation, f.newId), f.run), CanRun(cleared, Primary, f.run))
  }

  /** Health, endpoints and restart promotion, in this order. */
  predicate Validated(f: ApplyFaults) {
    f.healthy && f.endpoints && f.promote
  }

  /** The promotion is attempted, and may take effect, only after the other checks. */
  function Promoted(cs: Containers, started: bool, f: ApplyFaults): Containers {
    if started && f.healthy && f.endpoints then SetRestart(cs, Primary, true, f.promote) else cs
  }

  function RollBack(cs: Containers, hasPrevious: bool, f: ApplyFaults): (Containers, bool) {
    var cleared := Remove(cs, Primary, f.removeCandidate);
    if hasPrevious then
      var renamed := Rename(cleared, Backup, Primary, f.renameBack);
      (Start(renamed, Primary, f.restart), f.restart && Primary in renamed)
    else (cleared, false)
  }

  function Apply(w: World, generation: string, f: ApplyFaults): (World, ApplyResult) {
    var seen := Inspect(w.containers, f.inspect);
    if !f.argsFileExists || !f.imageReady || (seen.present && !seen.owned) then (w, Refused)
    else
      var (displaced, hasPrevious) := Displace(w.containers, seen, f);
      var (launched, started) := Launch(displaced, generation, f);
      var status := if started then Some(Starting(generation)) else w.status;
      var checked := Promoted(launched, started, f);
      if started && Validated(f) then
        if !f.commit then (World(checked, w.active, status), Raised)
        else (World(if hasPrevious then Remove(checked, Backup, f.removePrevious) else checked,
                    generation, Some(Healthy(generation))), Succeeded)
      else
        var (restored, rolledBack) := RollBack(checked, hasPrevious, f);
        (World(restored, w.active, if rolledBack then w.status else Some(Unavailable(generation, f.code))),
         Failed(rolledBack))
  }

  // ---------- resume and stop ----------

  datatype ResumeFaults = ResumeFaults(
    argsFileExists: bool,
    network: bool,
    inspect: InspectAnswer,
    disableRestart: bool,
    start: bool,
    imageReady: bool,
    removeBeforeRun: bool,
    run: RunOutcome,
    healthy: bool,
    inspectAfter: InspectAnswer,
    endpoints: bool,
    promote: bool,
    code: FailureCode,
    removeFailed: bool,
    newId: int)

  /** The container that is up for validation, if the attempt got that far. */
  function BringUp(w: World, generation: string, f: ResumeFaults): (World, bool) {
    var seen := Inspect(w.containers, f.inspect);
    var failed := Some(Unavailable(generation, StartFailed));
    if seen.present then
      if !f.disableRestart then (w.(status := failed), false)
      else
        var cs := SetRestart(w.containers, Primary, false, true);
        if seen.running then (w.(containers := cs), true)
        else if !f.start then (w.(containers := cs, status := failed), false)
        else (w.(containers := Start(cs, Primary, true)), true)
    else if !f.imageReady then (w.(status := failed), false)
    else
      var cleared := Remove(w.containers, Primary, f.removeBeforeRun);
      var launched := Run(cleared, Primary, Candidate(generation, f.newId), f.run);
      if CanRun(cleared, Primary, f.run) then (w.(containers := launched, status := Some(Starting(generation))), true)
      else (w.(containers := launched, status := failed), false)
  }

  function Resume(w: World, generation: string, f: ResumeFaults): (World, bool) {
    var seen := Inspect(w.containers, f.inspect);
    var refused := seen.present && (!seen.owned || seen.generation != generation);
    if !f.argsFileExists || !f.network || refused then (w, false)
    else
      var (up, brought) := BringUp(w, generation, f);
      if !brought then (up, false)
      else if !f.healthy then
        var after := Inspect(up.containers, f.inspectAfter);
        var removed := Remove(up.containers, Primary, f.removeFailed);
        (up.(containers := if after.present && after.owned then removed else up.containers,
             status := Some(Unavailable(generation, f.code))), false)
      else if !f.endpoints || !f.promote then
        (up.(containers := Remove(up.containers, Primary, f.removeFailed),
             status := Some(Unavailable(generation, StartFailed))), false)
      else
        (up.(containers := SetRestart(up.containers, Primary, true, true), status := Some(Healthy(generation))), true)
  }

  function StopRuntime(w: World, answer: InspectAnswer, stop: bool, remove: bool, removeWorks: bool): (World, bool) {
    var seen := Inspect(w.containers, answer);
    if !seen.present then (w, true)
    else if !seen.owned then (w, false)
    else
      var stopped := Stop(w.containers, Primary, stop);
      (w.(containers := if remove then Remove(stopped, Primary, removeWorks) else stopped), true)
  }

  // ---------- The pointer ----------

  /** The active pointer moves only when apply succeeds, and apply succeeds only with
      a candidate that started, was healthy, answered its endpoint and was promoted.
      Then pointer, status and the container under the name all agree. */
  lemma PointerMovesOnlyToValidated(w: World, generation: string, f: ApplyFaults)
    ensures var (u, r) := Apply(w, generation, f);
            && (r.Succeeded? ==>
                  && f.run.Started? && Validated(f)
                  && u.active == generation && u.status == Some(Healthy(generation))
                  && Primary in u.containers
                  && u.containers[Primary] == Container(f.newId, true, true, true, generation))
            && (!r.Succeeded? ==> u.active == w.active)
  {
  }

  /** No resume and no stop moves the pointer; a successful resume leaves a running,
      promoted container under the name. */
  lemma ResumeKeepsPointer(w: World, generation: string, f: ResumeFaults)
    ensures var (u, ok) := Resume(w, generation, f);
            && u.active == w.active
            && (ok ==> Primary in u.containers && u.containers[Primary].running && u.containers[Primary].autoRestart
                       && u.containers[Primary].owned && u.containers[Primary].generation == generation
                       && u.status == Some(Healthy(generation)))
  {
  }

  // ---------- Rolling back ----------

  predicate HasOriginal(w: World) {
    Primary in w.containers && w.containers[Primary].owned
  }

  /** The switch reached Docker while an owned container held the name. */
  predicate Switching(w: World, f: ApplyFaults) {
    HasOriginal(w) && f.argsFileExists && f.imageReady
  }

  /** The inspection told of the original, and renaming it worked. */
  predicate RenamedOut(w: World, f: ApplyFaults) {
    f.inspect.Truth? && f.renameOut && Backup !in w.containers
  }

  /** Nothing holds the name when the original is renamed back: no container was
      created for the candidate, or it was removed. */
  predicate RenamedBack(f: ApplyFaults) {
    f.renameBack && (f.removeCandidate || f.run.FailedClean?)
  }

  /** If the original could be renamed out and back, a failed apply leaves it under
      its name; if it could also be restarted, it runs again and the earlier status
      payload is back.  The pointer has not moved. */
  lemma FailedSwitchRestoresOriginal(w: World, generation: string, f: ApplyFaults)
    requires Switching(w, f) && RenamedOut(w, f) && RenamedBack(f)
    requires Apply(w, generation, f).1.Failed?
    ensures var (u, r) := Apply(w, generation, f);
            var original := w.containers[Primary];
            && u.active == w.active
            && u.containers.Keys == w.containers.Keys
            && u.containers[Primary] == original.(running := f.restart || (original.running && !f.stop))
            && (f.restart <==> r.rolledBack)
            && (f.restart ==> u.status == w.status)
  {
    var seen := Inspect(w.containers, f.inspect);
    var (displaced, hasPrevious) := Displace(w.containers, seen, f);
    assert hasPrevious && Primary !in displaced && Backup in displaced;
  }

  predicate Survives(u: World, id: int) {
    exists name :: name in u.containers && u.containers[name].id == id
  }

  predicate IdsAreDistinct(w: World) {
    forall a, b :: a in w.containers && b in w.containers && a != b ==> w.containers[a].id != w.containers[b].id
  }

  /** Exactly when a failed apply keeps the original at all: its rename out of the way
      worked, or neither removal of the name did.  A rename that fails is not checked, and
      one that an inspection without an answer left out is not missed: the next command
      removes the original. */
  lemma OriginalSurvivesIff(w: World, generation: string, f: ApplyFaults)
    requires Switching(w, f) && IdsAreDistinct(w) && (forall n :: n in w.containers ==> w.containers[n].id != f.newId)
    requires Apply(w, generation, f).1.Failed?
    ensures Survives(Apply(w, generation, f).0, w.containers[Primary].id) <==>
              RenamedOut(w, f) || (!f.removeBeforeRun && !f.removeCandidate)
  {
    if RenamedOut(w, f) {
      RenamedOriginalSurvives(w, generation, f);
    } else {
      StuckOriginal(w, generation, f);
    }
  }

  lemma RenamedOriginalSurvives(w: World, generation: string, f: ApplyFaults)
    requires Switching(w, f) && RenamedOut(w, f) && Apply(w, generation, f).1.Failed?
    ensures Survives(Apply(w, generation, f).0, w.containers[Primary].id)
  {
    var u, id := Apply(w, generation, f).0, w.containers[Primary].id;
    var (displaced, hasPrevious) := Displace(w.containers, Inspect(w.containers, f.inspect), f);
    assert hasPrevious && Backup in displaced && displaced[Backup].id == id;
    var (launched, started) := Launch(displaced, generation, f);
    LaunchKeeps(displaced, generation, f, Backup);
    var checked := Promoted(launched, started, f);
    assert checked[Backup].id == id;
    BackupComesThrough(checked, f, id);
  }

  lemma BackupComesThrough(cs: Containers, f: ApplyFaults, id: int)
    requires Backup in cs && cs[Backup].id == id
    ensures var after := RollBack(cs, true, f).0;
            exists name :: name in after && after[name].id == id
  {
    var after := RollBack(cs, true, f).0;
    assert (Primary in after && after[Primary].id == id) || (Backup in after && after[Backup].id == id);
  }

  /** Not renamed, the original lives or dies under the name itself. */
  lemma StuckOriginal(w: World, generation: string, f: ApplyFaults)
    requires Switching(w, f) && !RenamedOut(w, f) && Apply(w, generation, f).1.Failed?
    requires IdsAreDistinct(w) && (forall n :: n in w.containers ==> w.containers[n].id != f.newId)
    ensures Survives(Apply(w, generation, f).0, w.containers[Primary].id) <==> !f.removeBeforeRun && !f.removeCandidate
  {
    var u, id := Apply(w, generation, f).0, w.containers[Primary].id;
    forall n | n in u.containers && n != Primary ensures n in w.containers && u.containers[n].id == w.containers[n].id {
      StuckKeepsOthers(w, generation, f, n);
    }
    if !f.removeBeforeRun && !f.removeCandidate {
      assert u.containers[Primary].id == id;
    } else {
      assert Primary in u.containers ==> u.containers[Primary].id == f.newId;
    }
  }

  lemma StuckKeepsOthers(w: World, generation: string, f: ApplyFaults, n: Name)
    requires Switching(w, f) && !RenamedOut(w, f) && n in Apply(w, generation, f).0.containers && n != Primary
    ensures n in w.containers && Apply(w, generation, f).0.containers[n] == w.containers[n]
  {
  }

  /** `rolled_back` says that whatever holds the name could be started.  After the
      original was renamed out, that is the original exactly when it was renamed back;
      otherwise it is the failed candidate, reported with the old status payload. */
  lemma RolledBackMeansOriginalIff(w: World, generation: string, f: ApplyFaults)
    requires Switching(w, f) && RenamedOut(w, f) && w.containers[Primary].id != f.newId
    requires Apply(w, generation, f).1 == Failed(true)
    ensures var u := Apply(w, generation, f).0;
            && Primary in u.containers && u.containers[Primary].running && u.status == w.status
            && (u.containers[Primary].id == w.containers[Primary].id <==> RenamedBack(f))
            && (u.containers[Primary].id == f.newId <==> !RenamedBack(f))
  {
    var seen := Inspect(w.containers, f.inspect);
    var (displaced, hasPrevious) := Displace(w.containers, seen, f);
    assert hasPrevious && Primary !in displaced && Backup in displaced;
  }

  /** An inspection without an answer costs even a running original: nothing is left. */
  lemma SilentInspectLosesOriginal(w: World, generation: string, f: ApplyFaults)
    requires w.containers.Keys == {Primary} && Switching(w, f) && f.inspect.NoAnswer?
    requires f.removeBeforeRun && f.removeCandidate && Apply(w, generation, f).1.Failed?
    ensures Apply(w, generation, f).0.containers == map[] && Apply(w, generation, f).1 == Failed(false)
  {
    assert Remove(w.containers, Primary, true).Keys == {};
  }

  /** When resume keeps an owned container under the name.  It is removed when inspection
      gives no answer, and when it fails validation and the removal works. */
  lemma OriginalSurvivesResumeIff(w: World, generation: string, f: ResumeFaults)
    requires HasOriginal(w) && w.containers[Primary].id != f.newId
    requires !Resume(w, generation, f).1
    ensures var u := Resume(w, generation, f).0;
            var seen := Inspect(w.containers, f.inspect);
            var started := f.disableRestart && (seen.running || f.start);
            (Primary in u.containers && u.containers[Primary].id == w.containers[Primary].id) <==>
              || !f.argsFileExists || !f.network
              || (if f.inspect.NoAnswer? then !f.imageReady || !f.removeBeforeRun
                  else || !seen.owned || seen.generation != generation || !started || !f.removeFailed
                       || (!f.healthy && !f.inspectAfter.Truth?))
  {
  }

  // ---------- A commit that raises ----------

  /** The commit of the active configuration raises after the candidate was promoted: the
      active generation stays, the candidate runs under the name, and an original that was
      renamed out stays under the backup name. */
  lemma CommitFailureLeaves(w: World, generation: string, f: ApplyFaults)
    requires Apply(w, generation, f).1.Raised?
    ensures var u := Apply(w, generation, f).0;
            && !f.commit && f.run.Started? && Validated(f)
            && u.active == w.active && u.status == Some(Starting(generation))
            && Primary in u.containers && u.containers[Primary] == Container(f.newId, true, true, true, generation)
            && (HasOriginal(w) && RenamedOut(w, f) ==>
                  Backup in u.containers && u.containers[Backup] == Stop(w.containers, Primary, f.stop)[Primary])
            && (!(HasOriginal(w) && RenamedOut(w, f)) ==>
                  (Backup in u.containers <==> Backup in w.containers)
                  && (Backup in w.containers ==> u.containers[Backup] == w.containers[Backup]))
  {
  }

  /** A concrete case of a rollback in name only: the candidate is unhealthy and cannot be removed. */
  lemma CandidateCanPassAsRestored()
    ensures var w := World(map[Primary := Container(1, true, true, true, "g1")], "g1", Some(Healthy("g1")));
            var f := ApplyFaults(true, true, Truth, true, true, true, Started, false, true, true, true, true,
                                 TimedOut, false, true, true, 2);
            var (u, r) := Apply(w, "g2", f);
            r == Failed(true) && u.containers[Primary].generation == "g2" && u.status == Some(Healthy("g1"))
  {
  }

  // ---------- Containers that are not ours ----------

  predicate Keeps(before: Containers, after: Containers, name: Name) {
    name in before && name in after && after[name] == before[name]
  }

  lemma DisplaceKeeps(cs: Containers, seen: Seen, f: ApplyFaults, name: Name)
    requires name in cs && name != Primary
    ensures var (after, hasPrevious) := Displace(cs, seen, f);
            Keeps(cs, after, name) && (hasPrevious ==> name != Backup)
  {
  }

  lemma LaunchKeeps(cs: Containers, generation: string, f: ApplyFaults, name: Name)
    requires name in cs && name != Primary
    ensures var (after, started) := Launch(cs, generation, f);
            Keeps(cs, after, name) && Keeps(cs, Promoted(after, started, f), name)
  {
  }

  lemma RollBackKeeps(cs: Containers, hasPrevious: bool, f: ApplyFaults, name: Name)
    requires name in cs && name != Primary && (hasPrevious ==> name != Backup)
    ensures Keeps(cs, RollBack(cs, hasPrevious, f).0, name)
  {
  }

  /** Containers under any other name than the runtime's are never touched -- not
      even one that already holds the backup name. */
  lemma OtherNamesUntouchedByApply(w: World, generation: string, f: ApplyFaults, name: Name)
    requires name in w.containers && name != Primary
    ensures Keeps(w.containers, Apply(w, generation, f).0.containers, name)
  {
    var seen := Inspect(w.containers, f.inspect);
    DisplaceKeeps(w.containers, seen, f, name);
    var (displaced, hasPrevious) := Displace(w.containers, seen, f);
    LaunchKeeps(displaced, generation, f, name);
    var (launched, started) := Launch(displaced, generation, f);
    RollBackKeeps(Promoted(launched, started, f), hasPrevious, f, name);
  }

  lemma OtherNamesUntouchedByResume(w: World, generation: string, f: ResumeFaults, name: Name)
    requires name in w.containers && name != Primary
    ensures Keeps(w.containers, Resume(w, generation, f).0.containers, name)
  {
    assert Keeps(w.containers, BringUp(w, generation, f).0.containers, name);
  }

  /** A foreign container under the runtime's own name survives an apply unchanged
      except exactly when the inspection gave no answer -- which is read as "there is
      no container" -- and one of the two removals then worked. */
  lemma ForeignSurvivesApplyIff(w: World, generation: string, f: ApplyFaults)
    requires Primary in w.containers && !w.containers[Primary].owned && w.containers[Primary].id != f.newId
    ensures var u := Apply(w, generation, f).0;
            (Primary in u.containers && u.containers[Primary] == w.containers[Primary]) <==>
              !(f.argsFileExists && f.imageReady && f.inspect.NoAnswer? && (f.removeBeforeRun || f.removeCandidate))
  {
  }

  /** The same for resume. */
  lemma ForeignSurvivesResumeIff(w: World, generation: string, f: ResumeFaults)
    requires Primary in w.containers && !w.containers[Primary].owned && w.containers[Primary].id != f.newId
    ensures var u := Resume(w, generation, f).0;
            (Primary in u.containers && u.containers[Primary] == w.containers[Primary]) <==>
              !(f.argsFileExists && f.network && f.inspect.NoAnswer? && f.imageReady && f.removeBeforeRun)
  {
  }

  /** Stopping never touches a foreign container, whatever the inspection says. */
  lemma StopSparesForeign(w: World, answer: InspectAnswer, stop: bool, remove: bool, removeWorks: bool)
    requires Primary in w.containers && !w.containers[Primary].owned
    ensures StopRuntime(w, answer, stop, remove, removeWorks).0 == w
  {
  }

  // ---------- Two switches in a row ----------

  /** A successful switch whose last command -- removing the backup -- fails leaves the
      backup name taken.  The next switch then cannot rename its original out, so if
      it fails after a removal worked, no running or stopped copy of it is left. */
  lemma LeftoverBackupDisablesRollback(w: World, g1: string, f1: ApplyFaults, g2: string, f2: ApplyFaults)
    requires Switching(w, f1) && RenamedOut(w, f1) && !f1.removePrevious && IdsAreDistinct(w)
    requires forall n :: n in w.containers ==> w.containers[n].id != f1.newId && w.containers[n].id != f2.newId
    requires f1.newId != f2.newId
    requires Apply(w, g1, f1).1.Succeeded?
    ensures HasOriginal(Apply(w, g1, f1).0) && Apply(w, g1, f1).0.containers[Primary].id == f1.newId
    ensures var u := Apply(w, g1, f1).0;
            Switching(u, f2) && Apply(u, g2, f2).1.Failed? && (f2.removeBeforeRun || f2.removeCandidate) ==>
              !Survives(Apply(u, g2, f2).0, f1.newId)
  {
    AfterLeftover(w, g1, f1);
    var u := Apply(w, g1, f1).0;
    if Switching(u, f2) && Apply(u, g2, f2).1.Failed? {
      NoWayBack(u, g2, f2);
    }
  }

  lemma NoWayBack(u: World, g2: string, f2: ApplyFaults)
    requires Switching(u, f2) && Backup in u.containers && IdsAreDistinct(u)
    requires forall n :: n in u.containers ==> u.containers[n].id != f2.newId
    requires Apply(u, g2, f2).1.Failed?
    ensures f2.removeBeforeRun || f2.removeCandidate ==> !Survives(Apply(u, g2, f2).0, u.containers[Primary].id)
  {
    OriginalSurvivesIff(u, g2, f2);
  }

  lemma AfterLeftover(w: World, g1: string, f1: ApplyFaults)
    requires Switching(w, f1) && RenamedOut(w, f1) && !f1.removePrevious && Apply(w, g1, f1).1.Succeeded?
    ensures Apply(w, g1, f1).0.containers
              == w.containers[Backup := w.containers[Primary].(running := w.containers[Primary].running && !f1.stop)]
                             [Primary := Container(f1.newId, true, true, true, g1)]
  {
  }
}
