/** `RuntimeLifecycleManager`, command by command, with its rollback branches. */
module RuntimeManager {
  import opened Options
  import opened Docker
  import opened Lifecycle
  import opened LifecycleOutcomes

  class RuntimeLifecycleManager {
    var containers: Containers
    var active: string
    var status: Option<StatusFile>

    constructor (containers: Containers, active: string, status: Option<StatusFile>)
      ensures View() == World(containers, active, status)
    {
      this.containers, this.active, this.status := containers, active, status;
    }

    ghost function View(): World
      reads this
    {
      World(containers, active, status)
    }

    /** `_run_candidate`. */
    method RunCandidate(generation: string, f: ApplyFaults) returns (started: bool)
      modifies this`containers, this`status
      ensures (containers, started) == Launch(old(containers), generation, f)
      ensures status == if started then Some(Starting(generation)) else old(status)
    {
      containers := Remove(containers, Primary, f.removeBeforeRun);
      started := CanRun(containers, Primary, f.run);
      containers := Run(containers, Primary, Candidate(generation, f.newId), f.run);
      if started {
        status := Some(Starting(generation));
      }
    }

    /** Stops an owned container and renames it out of the way. */
    method MoveAside(current: Seen, f: ApplyFaults) returns (hasPrevious: bool)
      modifies this`containers
      ensures (containers, hasPrevious) == Displace(old(containers), current, f)
    {
      hasPrevious := false;
      if current.present && current.owned {
        containers := Docker.Stop(containers, Primary, f.stop);
        hasPrevious := CanRename(containers, Primary, Backup, f.renameOut);
        containers := Rename(containers, Primary, Backup, f.renameOut);
      }
    }

    /** The rollback branch: clears the name and brings the backup back. */
    method RestorePrevious(hasPrevious: bool, f: ApplyFaults) returns (rolledBack: bool)
      modifies this`containers
      ensures (containers, rolledBack) == RollBack(old(containers), hasPrevious, f)
    {
      containers := Remove(containers, Primary, f.removeCandidate);
      rolledBack := false;
      if hasPrevious {
        containers := Rename(containers, Backup, Primary, f.renameBack);
        rolledBack := f.restart && Primary in containers;
        containers := Start(containers, Primary, f.restart);
      }
    }

    method Apply(generation: string, f: ApplyFaults) returns (result: ApplyResult)
      modifies this
      ensures (View(), result) == Lifecycle.Apply(old(View()), generation, f)
      ensures active == if result == Succeeded then generation else old(active)
      ensures status == match result
                        case Refused => old(status)
                        case Succeeded => Some(Healthy(generation))
                        case Raised => Some(Starting(generation))
                        case Failed(true) => old(status)
                        case Failed(false) => Some(Unavailable(generation, f.code))
    {
      SwitchStatusMeaning(View(), generation, f);
      PointerMovesOnlyToValidated(View(), generation, f);
      if !f.argsFileExists || !f.imageReady {
        return Refused;
      }
      var current := Inspect(containers, f.inspect);
      var previousStatus := status;
      if current.present && !current.owned {
        return Refused;
      }
      var hasPrevious := MoveAside(current, f);
      var started := RunCandidate(generation, f);
      var healthy := started && f.healthy;
      var verified := healthy && f.endpoints;
      if verified {
        containers := SetRestart(containers, Primary, true, f.promote);
        verified := f.promote;
      }
      if started && healthy && verified {
        if !f.commit {
          return Raised;
        }
        active := generation;
        if hasPrevious {
          containers := Remove(containers, Backup, f.removePrevious);
        }
        status := Some(Healthy(generation));
        return Succeeded;
      }
      var rolledBack := RestorePrevious(hasPrevious, f);
      status := if rolledBack then previousStatus else Some(Unavailable(generation, f.code));
      return Failed(rolledBack);
    }

    method Resume(generation: string, f: ResumeFaults) returns (ok: bool)
      modifies this
      ensures (View(), ok) == Lifecycle.Resume(old(View()), generation, f)
    {
      if !f.argsFileExists || !f.network {
        return false;
      }
      var current := Inspect(containers, f.inspect);
      if current.present {
        if !current.owned || current.generation != generation {
          return false;
        }
        if !f.disableRestart {
          status := Some(Unavailable(generation, StartFailed));
          return false;
        }
        containers := SetRestart(containers, Primary, false, true);
        if !current.running {
          if !f.start {
            status := Some(Unavailable(generation, StartFailed));
            return false;
          }
          containers := Start(containers, Primary, true);
        }
      } else {
        if !f.imageReady {
          status := Some(Unavailable(generation, StartFailed));
          return false;
        }
        containers := Remove(containers, Primary, f.removeBeforeRun);
        var started := CanRun(containers, Primary, f.run);
        containers := Run(containers, Primary, Candidate(generation, f.newId), f.run);
        if !started {
          status := Some(Unavailable(generation, StartFailed));
          return false;
        }
        status := Some(Starting(generation));
      }
      if !f.healthy {
        var failedState := Inspect(containers, f.inspectAfter);
        status := Some(Unavailable(generation, f.code));
        if failedState.present && failedState.owned {
          containers := Remove(containers, Primary, f.removeFailed);
        }
        return false;
      }
      if !f.endpoints || !f.promote {
        status := Some(Unavailable(generation, StartFailed));
        containers := Remove(containers, Primary, f.removeFailed);
        return false;
      }
      containers := SetRestart(containers, Primary, true, true);
      status := Some(Healthy(generation));
      return true;
    }

    method Stop(answer: InspectAnswer, stop: bool, remove: bool, removeWorks: bool) returns (ok: bool)
      modifies this
      ensures (View(), ok) == StopRuntime(old(View()), answer, stop, remove, removeWorks)
      ensures answer.Truth? && remove && removeWorks && Primary in containers ==> !containers[Primary].owned
      ensures answer.Truth? && stop && Primary in containers ==>
                !containers[Primary].owned || !containers[Primary].running
    {
      var state := Inspect(containers, answer);
      if !state.present {
        return true;
      }
      if !state.owned {
        return false;
      }
      containers := Docker.Stop(containers, Primary, stop);
      if remove {
        containers := Remove(containers, Primary, removeWorks);
      }
      return true;
    }
  }
}
