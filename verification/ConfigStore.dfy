/** The runtime configuration store, its staging and the calibration script's
    recovery loop, updating in place. */
module ConfigStore {
  import opened Options
  import opened Generations

  /** `_replace_runtime_arg`: overwrites the slot after the first occurrence. */
  method ReplaceRuntimeArg(args: array<string>, flag: string, value: string) returns (error: Option<StageError>)
    modifies args
    ensures var r := ReplaceArg(old(args[..]), flag, value);
            && (error.None? <==> r.Ok?)
            && (error.Some? ==> r == Err(error.value))
            && args[..] == (if r.Ok? then r.value else old(args[..]))
  {
    var index := 0;
    while index < args.Length && args[index] != flag
      invariant 0 <= index <= args.Length && flag !in args[..index]
    {
      index := index + 1;
    }
    assert index < args.Length ==> IndexOf(args[..], flag) == index by {
      if index < args.Length {
        assert args[..][..index] == args[..index];
        IndexIsFirst(args[..], flag, index);
      }
    }
    if index == args.Length {
      assert args[..][..index] == args[..];
      return Some(FlagMissing);
    }
    if index + 1 >= args.Length {
      return Some(FlagWithoutValue);
    }
    args[index + 1] := value;
    return None;
  }

  class RuntimeConfigStore {
    var generations: map<string, Generation>
    var active: string

    constructor (generations: map<string, Generation>, active: string)
      ensures View() == Store(generations, active)
    {
      this.generations, this.active := generations, active;
    }

    ghost function View(): Store
      reads this
    {
      Store(generations, active)
    }

    /** `stage_calibration_runtime_generation`; the active pointer stays. */
    method StageCalibration(concurrency: int, status: CalibrationStatus, id: string) returns (error: Option<StageError>)
      modifies this`generations
      ensures var r := Stage(old(View()), concurrency, status, id);
              && (error.None? <==> r.Ok?)
              && (error.Some? ==> r == Err(error.value))
              && View() == (if r.Ok? then r.value else old(View()))
    {
      if concurrency < 1 {
        return Some(BadConcurrency);
      }
      if active == "" || active !in generations {
        return Some(NoActive);
      }
      var g := generations[active];
      if concurrency > g.ceiling {
        return Some(AboveCeiling);
      }
      if g.contextLength < 1 {
        return Some(NoContext);
      }
      if g.args == [] {
        return Some(NoArgs);
      }
      var args;
      error, args := RescaledArgs(g, concurrency);
      if error.Some? {
        return;
      }
      if id in generations || id == "" {
        return Some(IdTaken);
      }
      var original := if g.original != "" then g.original else active;
      generations := generations[id := g.(status := status, original := original, source := active,
                                          serving := concurrency, args := args)];
    }

    /** The arguments of a generation with both scheduler flags set for the concurrency. */
    method RescaledArgs(g: Generation, concurrency: nat) returns (error: Option<StageError>, rescaled: seq<string>)
      requires g.contextLength >= 0
      ensures error == if ReplaceBoth(g, concurrency).Err? then Some(ReplaceBoth(g, concurrency).error) else None
      ensures error.None? ==> rescaled == ReplaceBoth(g, concurrency).value
    {
      rescaled := [];
      var args := new string[|g.args|](i requires 0 <= i < |g.args| => g.args[i]);
      assert args[..] == g.args;
      error := ReplaceRuntimeArg(args, ConcurrencyFlag(g), Digits(concurrency));
      if error.None? {
        error := ReplaceRuntimeArg(args, WindowFlag(g), Digits(WindowTokens(g.contextLength, concurrency)));
        rescaled := args[..];
      }
    }

    /** `commit_active_runtime_config`, at the end of a successful switch. */
    method Activate(id: string, ok: bool)
      modifies this`active
      ensures View() == Generations.Activate(old(View()), id, ok)
    {
      if ok && id in generations {
        active := id;
      }
    }

    /** One pass through the body of the restore loop, up to the switch of the pointer. */
    method TurnBack(applies: seq<bool>) returns (turn: Turn)
      ensures turn == NextTurn(View(), applies)
    {
      if active !in generations {
        return Stuck(NotConfigured);
      }
      var g := generations[active];
      if g.status != Running {
        return Settled;
      }
      var target := if g.original != "" then g.original else g.source;
      if target == "" || target == active {
        return Stuck(NoRecoverableSource);
      }
      if applies == [] || !applies[0] || target !in generations {
        return Stuck(ApplyFailed);
      }
      return SwitchTo(target);
    }

    /** `_restore_interrupted_calibration`; `applies[k]` says whether the k-th switch works. */
    method RestoreInterrupted(applies: seq<bool>) returns (result: Result<nat, RestoreError>)
      modifies this`active
      ensures (View(), result) == Restore(old(View()), 16, applies)
    {
      ghost var whole := Restore(View(), 16, applies);
      var left := applies;
      for done := 0 to 16
        invariant whole == Later(Restore(View(), 16 - done, left), done)
      {
        var turn := TurnBack(left);
        match turn {
          case Settled =>
            return Ok(done);
          case Stuck(error) =>
            return Err(error);
          case SwitchTo(target) =>
            SwitchUnfolds(View(), 16 - done, left, target, done);
            active, left := target, left[1..];
        }
      }
      return Err(ChainTooDeep);
    }
  }
}
