/** Runtime generations, staging for calibration and recovery after a crash
    (`config_store.py`, `_restore_interrupted_calibration`). */
module Generations {
  import opened Options

  datatype CalibrationStatus = Pending | Running | Calibrated

  /** The parts of a stored generation that staging reads or writes; `original` and
      `source` are the generation ids calibration records, empty when absent. */
  datatype Generation = Generation(
    status: CalibrationStatus,
    original: string,
    source: string,
    serving: int,
    ceiling: int,
    contextLength: int,
    llamaCpp: bool,
    args: seq<string>)

  datatype Store = Store(generations: map<string, Generation>, active: string)

  datatype StageError =
    | BadConcurrency | AboveCeiling | NoContext | NoArgs | FlagMissing | FlagWithoutValue | IdTaken | NoActive

  // ---------- Runtime arguments ----------

  /** The index of the first occurrence, or the length. */
  function IndexOf(args: seq<string>, flag: string): (i: nat)
    ensures i <= |args|
    ensures i < |args| ==> args[i] == flag
    ensures flag !in args[..i]
  {
    if args == [] || args[0] == flag then 0
    else
      var rest := IndexOf(args[1..], flag);
      assert args[..rest + 1] == [args[0]] + args[1..][..rest];
      rest + 1
  }

  /** `_replace_runtime_arg` on a list value. */
  function ReplaceArg(args: seq<string>, flag: string, value: string): (r: Result<seq<string>, StageError>)
    ensures r.Ok? ==> |r.value| == |args|
  {
    var i := IndexOf(args, flag);
    if i == |args| then Err(FlagMissing)
    else if i + 1 >= |args| then Err(FlagWithoutValue)
    else Ok(args[i + 1 := value])
  }

  lemma {:induction false} IndexIsFirst(args: seq<string>, flag: string, i: nat)
    requires i < |args| && args[i] == flag && flag !in args[..i]
    ensures IndexOf(args, flag) == i
  {
    var j := IndexOf(args, flag);
    forall k | 0 <= k < i ensures args[k] != flag {
      assert args[..i][k] == args[k];
    }
    forall k | 0 <= k < j ensures args[k] != flag {
      assert args[..j][k] == args[k];
    }
  }

  /** What a replacement does to the list: only the slot after the first occurrence of the
      flag changes; without the flag, or with nothing after it, there is an error. */
  lemma ReplaceArgMeaning(args: seq<string>, flag: string, value: string)
    ensures ReplaceArg(args, flag, value) == Err(FlagMissing) <==> flag !in args
    ensures ReplaceArg(args, flag, value) == Err(FlagWithoutValue)
       <==> args != [] && args[|args| - 1] == flag && flag !in args[..|args| - 1]
    ensures ReplaceArg(args, flag, value).Ok? ==>
              exists i :: 0 <= i < |args| - 1 && args[i] == flag && flag !in args[..i]
                          && ReplaceArg(args, flag, value).value == args[i + 1 := value]
  {
    var i := IndexOf(args, flag);
    if i == |args| {
      assert args[..i] == args;
    } else {
      assert args[i] in args;
      if args[|args| - 1] == flag && flag !in args[..|args| - 1] {
        IndexIsFirst(args, flag, |args| - 1);
      }
    }
  }

  /** Setting a flag twice is setting it once: staging from a staged generation does
      not pile up.  Every other slot is untouched. */
  lemma LastValueWins(args: seq<string>, flag: string, first: string, second: string)
    requires ReplaceArg(args, flag, first).Ok?
    ensures ReplaceArg(ReplaceArg(args, flag, first).value, flag, second) == ReplaceArg(args, flag, second)
    ensures forall k :: 0 <= k < |args| && k != IndexOf(args, flag) + 1
              ==> ReplaceArg(args, flag, first).value[k] == args[k]
  {
    var i := IndexOf(args, flag);
    var once := ReplaceArg(args, flag, first).value;
    assert once[..i] == args[..i];
    IndexIsFirst(once, flag, i);
    assert once[i + 1 := second] == args[i + 1 := second];
  }

  function Digits(n: nat): (d: string)
    ensures d != "" && '0' <= d[0] <= '9'
  {
    if n < 10 then [('0' as int + n) as char] else Digits(n / 10) + [('0' as int + n % 10) as char]
  }

  /** The tokens all requests in flight may hold together. */
  function WindowTokens(contextLength: nat, concurrency: nat): nat {
    contextLength * concurrency
  }

  function ConcurrencyFlag(g: Generation): string {
    if g.llamaCpp then "--parallel" else "--max-num-seqs"
  }

  function WindowFlag(g: Generation): string {
    if g.llamaCpp then "--ctx-size" else "--max-num-batched-tokens"
  }

  /** The scheduler flags of both runtimes. */
  function ReplaceBoth(g: Generation, concurrency: nat): Result<seq<string>, StageError>
    requires g.contextLength >= 0
  {
    ReplaceTwo(g.args, ConcurrencyFlag(g), Digits(concurrency), WindowFlag(g),
               Digits(WindowTokens(g.contextLength, concurrency)))
  }

  /** The flag `f` stands at slot `i`, is found there, and has a value slot. */
  ghost predicate FlagAt(args: seq<string>, f: string, i: nat) {
    i + 1 < |args| && args[i] == f && f !in args[..i]
  }

  lemma SlotUpdateKeepsFlag(args: seq<string>, f: string, i: nat, k: nat, value: string)
    requires FlagAt(args, f, i) && k < |args| && k != i && value != f
    ensures FlagAt(args[k := value], f, i)
    ensures IndexOf(args, f) == i && IndexOf(args[k := value], f) == i
  {
    var updated := args[k := value];
    forall j | 0 <= j < i ensures updated[..i][j] != f {
      assert updated[..i][j] == if j == k then value else args[..i][j];
      assert j != k ==> args[..i][j] in args[..i];
    }
    IndexIsFirst(args, f, i);
    IndexIsFirst(updated, f, i);
  }

  /** Both flags are there, each followed by a value of its own. */
  ghost predicate WellFormedArgs(args: seq<string>, f1: string, f2: string, i: nat, j: nat) {
    FlagAt(args, f1, i) && FlagAt(args, f2, j) && i + 1 != j && j + 1 != i && i != j
  }

  function ReplaceTwo(args: seq<string>, f1: string, v1: string, f2: string, v2: string)
    : (r: Result<seq<string>, StageError>)
    ensures r.Ok? ==> |r.value| == |args|
  {
    var first := ReplaceArg(args, f1, v1);
    if first.Err? then first else ReplaceArg(first.value, f2, v2)
  }

  lemma OneSlot(args: seq<string>, f1: string, v1: string, f2: string, i: nat, j: nat)
    requires WellFormedArgs(args, f1, f2, i, j) && v1 != f1 && v1 != f2
    ensures ReplaceArg(args, f1, v1) == Ok(args[i + 1 := v1])
    ensures WellFormedArgs(args[i + 1 := v1], f1, f2, i, j) && WellFormedArgs(args[i + 1 := v1], f2, f1, j, i)
  {
    SlotUpdateKeepsFlag(args, f1, i, i + 1, v1);
    SlotUpdateKeepsFlag(args, f2, j, i + 1, v1);
  }

  lemma BothSlots(args: seq<string>, f1: string, v1: string, f2: string, v2: string, i: nat, j: nat)
    requires WellFormedArgs(args, f1, f2, i, j) && v1 != f1 && v1 != f2 && v2 != f1 && v2 != f2
    ensures ReplaceTwo(args, f1, v1, f2, v2) == Ok(args[i + 1 := v1][j + 1 := v2])
    ensures WellFormedArgs(args[i + 1 := v1][j + 1 := v2], f1, f2, i, j)
  {
    OneSlot(args, f1, v1, f2, i, j);
    OneSlot(args[i + 1 := v1], f2, v2, f1, j, i);
  }

  lemma NumbersAreNotFlags(g: Generation, c: nat)
    requires g.contextLength >= 0
    ensures Digits(c) != ConcurrencyFlag(g) && Digits(c) != WindowFlag(g)
    ensures Digits(WindowTokens(g.contextLength, c)) != ConcurrencyFlag(g)
              && Digits(WindowTokens(g.contextLength, c)) != WindowFlag(g)
  {
    assert ConcurrencyFlag(g)[0] == '-' && WindowFlag(g)[0] == '-';
  }

  /** Replacing both values twice is replacing them once. */
  lemma ReplaceTwoTwice(args: seq<string>, f1: string, a: string, c: string, f2: string, b: string, d: string, i: nat,
                        j: nat)
    requires WellFormedArgs(args, f1, f2, i, j)
    requires a != f1 && a != f2 && b != f1 && b != f2 && c != f1 && c != f2 && d != f1 && d != f2
    ensures ReplaceTwo(args, f1, a, f2, b).Ok?
    ensures ReplaceTwo(ReplaceTwo(args, f1, a, f2, b).value, f1, c, f2, d) == ReplaceTwo(args, f1, c, f2, d)
  {
    BothSlots(args, f1, a, f2, b, i, j);
    BothSlots(args, f1, c, f2, d, i, j);
    var once := args[i + 1 := a][j + 1 := b];
    BothSlots(once, f1, c, f2, d, i, j);
    assert once[i + 1 := c][j + 1 := d] == args[i + 1 := c][j + 1 := d];
  }

  // ---------- Staging and activating ----------

  /** The pre-calibration generation a staged generation will point to. */
  function OriginalOf(s: Store): string {
    if s.active in s.generations && s.generations[s.active].original != ""
    then s.generations[s.active].original
    else s.active
  }

  /** `stage_calibration_runtime_generation`: clones the active generation. */
  function Stage(s: Store, concurrency: int, status: CalibrationStatus, id: string): Result<Store, StageError> {
    if concurrency < 1 then Err(BadConcurrency)
    else if s.active == "" || s.active !in s.generations then Err(NoActive)
    else
      var g := s.generations[s.active];
      if concurrency > g.ceiling then Err(AboveCeiling)
      else if g.contextLength < 1 then Err(NoContext)
      else if g.args == [] then Err(NoArgs)
      else
        var args := ReplaceBoth(g, concurrency);
        if args.Err? then Err(args.error)
        else if id in s.generations || id == "" then Err(IdTaken)
        else
          var staged := g.(status := status, original := OriginalOf(s), source := s.active, serving := concurrency,
                           args := args.value);
          Ok(s.(generations := s.generations[id := staged]))
  }

  /** A runtime switch moves the pointer exactly when it succeeds. */
  function Activate(s: Store, id: string, ok: bool): Store {
    if ok && id in s.generations then s.(active := id) else s
  }

  datatype RestoreError = NoRecoverableSource | ApplyFailed | ChainTooDeep | NotConfigured

  /** One round of the restore loop: nothing to restore, a switch that works, or a stop. */
  datatype Turn = Settled | SwitchTo(target: string) | Stuck(error: RestoreError)

  function NextTurn(s: Store, applies: seq<bool>): Turn {
    if s.active !in s.generations then Stuck(NotConfigured)
    else
      var g := s.generations[s.active];
      if g.status != Running then Settled
      else
        var target := if g.original != "" then g.original else g.source;
        if target == "" || target == s.active then Stuck(NoRecoverableSource)
        else if applies == [] || !applies[0] || target !in s.generations then Stuck(ApplyFailed)
        else SwitchTo(target)
  }

  /** The restore loop; `applies` gives the outcome of each attempted switch. */
  function Restore(s: Store, rounds: nat, applies: seq<bool>): (Store, Result<nat, RestoreError>)
    decreases rounds
  {
    if rounds == 0 then (s, Err(ChainTooDeep))
    else
      match NextTurn(s, applies)
      case Settled => (s, Ok(0))
      case Stuck(error) => (s, Err(error))
      case SwitchTo(target) => Later(Restore(s.(active := target), rounds - 1, applies[1..]), 1)
  }

  /** The same outcome after `turns` earlier switches. */
  function Later(outcome: (Store, Result<nat, RestoreError>), turns: nat): (Store, Result<nat, RestoreError>) {
    (outcome.0, if outcome.1.Ok? then Ok(outcome.1.value + turns) else outcome.1)
  }

  lemma SwitchUnfolds(s: Store, rounds: nat, applies: seq<bool>, target: string, done: nat)
    requires rounds > 0 && NextTurn(s, applies) == SwitchTo(target)
    ensures applies != []
    ensures Later(Restore(s, rounds, applies), done)
         == Later(Restore(s.(active := target), rounds - 1, applies[1..]), done + 1)
  {
  }

  // ---------- Runs ----------

  /** What any calibration, installation or recovery may do to the store, in any
      order; a crash is simply the end of a sequence of these. */
  datatype Event =
    | Install(id: string, generation: Generation)
    | StageFor(concurrency: int, status: CalibrationStatus, id: string)
    | Switch(id: string, ok: bool)
    | Recover(rounds: nat, applies: seq<bool>)

  ghost predicate Step(s: Store, e: Event, t: Store) {
    match e
    case Install(id, g) =>
      && id !in s.generations && id != "" && g.status == Pending && g.original == ""
      && t == s.(generations := s.generations[id := g])
    case StageFor(concurrency, status, id) =>
      t == (var r := Stage(s, concurrency, status, id); if r.Ok? then r.value else s)
    case Switch(id, ok) =>
      t == Activate(s, id, ok)
    case Recover(rounds, applies) =>
      t == Restore(s, rounds, applies).0
  }

  ghost predicate IsRun(trace: seq<Store>, run: seq<Event>) {
    && |trace| == |run| + 1
    && trace[0].active in trace[0].generations
    && (forall id :: id in trace[0].generations ==>
          id != "" && trace[0].generations[id].status == Pending && trace[0].generations[id].original == "")
    && forall n {:trigger trace[n], run[n]} :: 0 <= n < |run| ==> Step(trace[n], run[n], trace[n + 1])
  }

  /** Every recorded original exists and is not itself a running candidate; every
      running candidate records one. */
  ghost predicate Anchored(s: Store) {
    && s.active in s.generations
    && (forall id :: id in s.generations ==> AnchoredAt(s, id))
  }

  ghost predicate AnchoredAt(s: Store, id: string)
    requires id in s.generations
  {
    var g := s.generations[id];
    && id != ""
    && (g.status == Running ==> g.original != "")
    && g.original != id
    && (g.original != "" ==> g.original in s.generations && s.generations[g.original].status != Running)
  }

  lemma StageKeepsAnchored(s: Store, concurrency: int, status: CalibrationStatus, id: string)
    requires Anchored(s) && Stage(s, concurrency, status, id).Ok?
    ensures Anchored(Stage(s, concurrency, status, id).value)
  {
    var t := Stage(s, concurrency, status, id).value;
    assert AnchoredAt(s, s.active);
    forall k | k in t.generations ensures AnchoredAt(t, k) {
      if k != id {
        assert AnchoredAt(s, k);
      }
    }
  }

  /** From an anchored store the loop needs at most one switch; it fails only when
      that switch fails, and otherwise ends at the recorded original. */
  lemma RestoreNeedsOneSwitch(s: Store, rounds: nat, applies: seq<bool>)
    requires Anchored(s) && rounds >= 2
    ensures var (t, r) := Restore(s, rounds, applies);
            && Anchored(t) && t.generations == s.generations
            && (s.generations[s.active].status != Running ==> t == s && r == Ok(0))
            && (s.generations[s.active].status == Running ==>
                  if applies != [] && applies[0]
                  then r == Ok(1) && t.active == s.generations[s.active].original
                      && t.generations[t.active].status != Running
                  else r == Err(ApplyFailed) && t == s)
  {
    assert AnchoredAt(s, s.active);
    if s.generations[s.active].status == Running {
      var target := s.generations[s.active].original;
      assert AnchoredAt(s, target);
      var next := s.(active := target);
      assert next.generations[next.active].status != Running;
      assert forall id :: id in next.generations ==> AnchoredAt(s, id) ==> AnchoredAt(next, id);
    }
  }

  lemma {:induction false} RestoreKeepsAnchored(s: Store, rounds: nat, applies: seq<bool>)
    requires Anchored(s)
    ensures Anchored(Restore(s, rounds, applies).0)
    decreases rounds
  {
    if rounds > 0 {
      assert AnchoredAt(s, s.active);
      var g := s.generations[s.active];
      if g.status == Running && applies != [] && applies[0] {
        var next := s.(active := g.original);
        assert forall id :: id in next.generations ==> AnchoredAt(s, id) ==> AnchoredAt(next, id);
        RestoreKeepsAnchored(next, rounds - 1, applies[1..]);
      }
    }
  }

  lemma StepKeepsAnchored(s: Store, e: Event, t: Store)
    requires Anchored(s) && Step(s, e, t)
    ensures Anchored(t)
  {
    match e
    case Install(id, g) =>
      forall k | k in t.generations ensures AnchoredAt(t, k) {
        if k != id {
          assert AnchoredAt(s, k);
        }
      }
    case StageFor(concurrency, status, id) =>
      if Stage(s, concurrency, status, id).Ok? {
        StageKeepsAnchored(s, concurrency, status, id);
      }
    case Switch(id, ok) =>
      forall k | k in t.generations ensures AnchoredAt(t, k) {
        assert AnchoredAt(s, k);
      }
    case Recover(rounds, applies) => RestoreKeepsAnchored(s, rounds, applies);
  }

  lemma {:induction false} RunsStayAnchored(trace: seq<Store>, run: seq<Event>, n: nat)
    requires IsRun(trace, run) && n <= |run|
    ensures Anchored(trace[n])
  {
    if n == 0 {
      forall id | id in trace[0].generations ensures AnchoredAt(trace[0], id) {
      }
    } else {
      RunsStayAnchored(trace, run, n - 1);
      assert Step(trace[n - 1], run[n - 1], trace[n]);
      StepKeepsAnchored(trace[n - 1], run[n - 1], trace[n]);
    }
  }

  /** Wherever a chain of calibrations was cut off, the 16-round loop reaches a
      generation that is not running with one successful switch, and never reports a
      chain that is too deep or has no source. */
  lemma CrashIsRecoverable(trace: seq<Store>, run: seq<Event>, n: nat, applies: seq<bool>)
    requires IsRun(trace, run) && n <= |run|
    ensures var (t, r) := Restore(trace[n], 16, applies);
            && (r.Ok? ==> r.value <= 1 && t.generations[t.active].status != Running)
            && (r.Err? ==> r == Err(ApplyFailed) && t == trace[n] && (applies == [] || !applies[0]))
  {
    RunsStayAnchored(trace, run, n);
    RestoreNeedsOneSwitch(trace[n], 16, applies);
  }

  // ---------- Restaging ----------

  lemma ReplaceBothTwice(g: Generation, c1: nat, c2: nat, i: nat, j: nat)
    requires g.contextLength >= 0 && WellFormedArgs(g.args, ConcurrencyFlag(g), WindowFlag(g), i, j)
    ensures ReplaceBoth(g, c1).Ok?
    ensures ReplaceBoth(g.(args := ReplaceBoth(g, c1).value), c2) == ReplaceBoth(g, c2)
  {
    NumbersAreNotFlags(g, c1);
    NumbersAreNotFlags(g, c2);
    ReplaceTwoTwice(g.args, ConcurrencyFlag(g), Digits(c1), Digits(c2), WindowFlag(g),
                    Digits(WindowTokens(g.contextLength, c1)), Digits(WindowTokens(g.contextLength, c2)), i, j);
  }

  lemma ArgsDecideBoth(g: Generation, h: Generation, concurrency: nat)
    requires g.contextLength == h.contextLength >= 0 && g.llamaCpp == h.llamaCpp && g.args == h.args
    ensures ReplaceBoth(g, concurrency) == ReplaceBoth(h, concurrency)
  {
  }

  /** Staging from a staged and activated candidate gives the generation that staging
      straight from its predecessor would have given; only the recorded source
      differs.  So the generation a calibration ends with carries the arguments of the
      selected concurrency and nothing of the candidates tried on the way. */
  lemma RestagingDoesNotPileUp(s: Store, i: nat, j: nat, c1: int, st1: CalibrationStatus, id1: string,
                               c2: int, st2: CalibrationStatus, id2: string)
    requires Stage(s, c1, st1, id1).Ok? && Stage(s, c2, st2, id2).Ok? && id1 != id2
    requires var g := s.generations[s.active]; WellFormedArgs(g.args, ConcurrencyFlag(g), WindowFlag(g), i, j)
    ensures var mid := Activate(Stage(s, c1, st1, id1).value, id1, true);
            && Stage(mid, c2, st2, id2).Ok?
            && Stage(mid, c2, st2, id2).value.generations[id2]
                 == Stage(s, c2, st2, id2).value.generations[id2].(source := id1)
  {
    var g := s.generations[s.active];
    ReplaceBothTwice(g, c1, c2, i, j);
    StagedFields(s, c1, st1, id1);
    var mid := Activate(Stage(s, c1, st1, id1).value, id1, true);
    var g1 := mid.generations[id1];
    ArgsDecideBoth(g1, g.(args := ReplaceBoth(g, c1).value), c2);
    StagedFields(s, c2, st2, id2);
    StagedFields(mid, c2, st2, id2);
  }

  lemma StagedFields(s: Store, c: int, st: CalibrationStatus, id: string)
    requires s.active != "" && s.active in s.generations && id != "" && id !in s.generations && c >= 1
    requires var g := s.generations[s.active];
             c <= g.ceiling && g.contextLength >= 1 && g.args != [] && ReplaceBoth(g, c).Ok?
    ensures var g := s.generations[s.active];
            && Stage(s, c, st, id).Ok?
            && Stage(s, c, st, id).value.active == s.active
            && Stage(s, c, st, id).value.generations ==
                 s.generations[id := g.(status := st, original := OriginalOf(s), source := s.active, serving := c,
                                        args := ReplaceBoth(g, c).value)]
            && OriginalOf(s) != "" && ReplaceBoth(g, c).value != []
  {
  }

  // ---------- Which generation comes back ----------

  /** One calibration run's own events: staging candidates and switching to them. */
  ghost predicate CandidateEvent(s: Store, e: Event) {
    || (e.StageFor? && e.status == Running)
    || (e.Switch? && (e.id in s.generations ==>
                        s.generations[e.id].status == Running && s.generations[e.id].original == OriginalOf(s)))
  }

  /** While a calibration run stages and switches, the original it would restore stays
      the one of the generation it started from. */
  lemma CandidateKeepsOriginal(s: Store, e: Event, t: Store)
    requires Anchored(s) && Step(s, e, t) && CandidateEvent(s, e)
    ensures Anchored(t) && OriginalOf(t) == OriginalOf(s)
    ensures e.StageFor? && Stage(s, e.concurrency, e.status, e.id).Ok? ==>
              t.generations[e.id].status == Running && t.generations[e.id].original == OriginalOf(t)
  {
    StepKeepsAnchored(s, e, t);
    assert AnchoredAt(s, s.active);
    if e.Switch? && e.id in s.generations {
      assert AnchoredAt(s, e.id);
    }
  }

  lemma {:induction false} CalibrationKeepsOriginal(trace: seq<Store>, run: seq<Event>, m: nat, n: nat)
    requires IsRun(trace, run) && m <= n <= |run|
    requires forall k :: m <= k < n ==> CandidateEvent(trace[k], run[k])
    ensures Anchored(trace[m]) && Anchored(trace[n]) && OriginalOf(trace[n]) == OriginalOf(trace[m])
  {
    RunsStayAnchored(trace, run, m);
    if m < n {
      CalibrationKeepsOriginal(trace, run, m, n - 1);
      StepOfRun(trace, run, n - 1);
      CandidateKeepsOriginal(trace[n - 1], run[n - 1], trace[n]);
    }
  }

  lemma StepOfRun(trace: seq<Store>, run: seq<Event>, n: nat)
    requires IsRun(trace, run) && n < |run|
    ensures Step(trace[n], run[n], trace[n + 1])
  {
  }

  /** A calibration that started from the settled generation `trace[m].active` and was
      cut off with a candidate active is rolled back to that very generation exactly
      when it had never been calibrated itself; otherwise to the generation before
      the first calibration. */
  lemma RecoveryReturnsToStartIff(trace: seq<Store>, run: seq<Event>, m: nat, n: nat, applies: seq<bool>)
    requires IsRun(trace, run) && m <= n <= |run|
    requires forall k :: m <= k < n ==> CandidateEvent(trace[k], run[k])
    requires trace[m].active in trace[m].generations && trace[m].generations[trace[m].active].status != Running
    requires trace[n].active in trace[n].generations && trace[n].generations[trace[n].active].status == Running
    requires applies != [] && applies[0]
    ensures var t := Restore(trace[n], 16, applies).0;
            && t.active == OriginalOf(trace[m])
            && (t.active == trace[m].active <==> trace[m].generations[trace[m].active].original == "")
  {
    CalibrationKeepsOriginal(trace, run, m, n);
    RestoreNeedsOneSwitch(trace[n], 16, applies);
    assert AnchoredAt(trace[n], trace[n].active);
    assert AnchoredAt(trace[m], trace[m].active);
  }
}
