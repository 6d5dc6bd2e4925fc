/** Docker as a map from container name to container, with commands that may fail. */
module Docker {

  /** `id` identifies the container itself, whatever its name. */
  datatype Container = Container(id: int, owned: bool, running: bool, autoRestart: bool, generation: string)

  /** The runtime's own container name, its "-previous" backup name, and all others. */
  datatype Name = Primary | Backup | Another(name: string)

  type Containers = map<Name, Container>

  /** A failing `run` may leave a created container behind. */
  datatype RunOutcome = Started | FailedClean | FailedCreated

  function Stop(cs: Containers, name: Name, works: bool): Containers {
    if works && name in cs then cs[name := cs[name].(running := false)] else cs
  }

  predicate CanRename(cs: Containers, from: Name, to: Name, works: bool) {
    works && from in cs && to !in cs
  }

  function Rename(cs: Containers, from: Name, to: Name, works: bool): Containers {
    if CanRename(cs, from, to, works) then (cs - {from})[to := cs[from]] else cs
  }

  function Remove(cs: Containers, name: Name, works: bool): Containers {
    if works then cs - {name} else cs
  }

  predicate CanRun(cs: Containers, name: Name, outcome: RunOutcome) {
    outcome.Started? && name !in cs
  }

  /** A taken name makes `run` fail without effect. */
  function Run(cs: Containers, name: Name, c: Container, outcome: RunOutcome): Containers {
    if name in cs || outcome.FailedClean? then cs
    else cs[name := c.(running := outcome.Started?)]
  }

  function Start(cs: Containers, name: Name, works: bool): Containers {
    if works && name in cs then cs[name := cs[name].(running := true)] else cs
  }

  function SetRestart(cs: Containers, name: Name, always: bool, works: bool): Containers {
    if works && name in cs then cs[name := cs[name].(autoRestart := always)] else cs
  }
}
