/** What staging writes into a generation, when it refuses, and how far the restore loop follows
    a chain of interrupted calibrations. */
module GenerationOutcomes {
  import opened Options
  import opened Generations

  // ---------- Numbers in the argument file ----------

  predicate IsDigit(c: char) {
    '0' <= c <= '9'
  }

  /** The number a string of decimal digits stands for. */
  function Read(d: string): nat
    requires forall i :: 0 <= i < |d| ==> IsDigit(d[i])
  {
    if d == [] then 0
    else
      var front, last := d[..|d| - 1], d[|d| - 1];
      assert IsDigit(last);
      10 * Read(front) + (last as int - '0' as int)
  }

  /** A written number reads back, and has no leading zero. */
  lemma {:induction false} DigitsReadBack(n: nat)
    ensures forall i :: 0 <= i < |Digits(n)| ==> IsDigit(Digits(n)[i])
    ensures Read(Digits(n)) == n
    ensures Digits(n)[0] == '0' ==> n == 0
  {
    if n < 10 {
      assert Digits(n)[..0] == [];
      assert Read(Digits(n)[..0]) == 0;
    } else {
      DigitsReadBack(n / 10);
      var d := Digits(n);
      assert d[..|d| - 1] == Digits(n / 10);
      assert forall i :: 0 <= i < |d| - 1 ==> d[i] == Digits(n / 10)[i];
    }
  }

  /** The argument says the number. */
  ghost predicate Says(arg: string, n: nat) {
    (forall i :: 0 <= i < |arg| ==> IsDigit(arg[i])) && Read(arg) == n
  }

  // ---------- Staging ----------

  function ParallelFlag(llamaCpp: bool): string {
    if llamaCpp then "--parallel" else "--max-num-seqs"
  }

  function TokensFlag(llamaCpp: bool): string {
    if llamaCpp then "--ctx-size" else "--max-num-batched-tokens"
  }

  lemma Flags(g: Generation)
    ensures ConcurrencyFlag(g) == ParallelFlag(g.llamaCpp) && WindowFlag(g) == TokensFlag(g.llamaCpp)
    ensures ConcurrencyFlag(g) != WindowFlag(g)
  {
    assert |ParallelFlag(g.llamaCpp)| != |TokensFlag(g.llamaCpp)| || ParallelFlag(g.llamaCpp)[2] == 'p';
    assert TokensFlag(g.llamaCpp)[2] == 'c' || |TokensFlag(g.llamaCpp)| > |ParallelFlag(g.llamaCpp)|;
  }

  /** A staged generation asks for the concurrency, and for one context per request in flight:
      the slots after the first occurrences of the runtime's two flags say so, and no other
      argument differs from the active generation's. */
  lemma StagedArgs(s: Store, c: int, status: CalibrationStatus, id: string, i: nat, j: nat)
    requires Stage(s, c, status, id).Ok? && s.active in s.generations && i != j
    requires var g := s.generations[s.active];
             && FlagAt(g.args, ParallelFlag(g.llamaCpp), i) && FlagAt(g.args, TokensFlag(g.llamaCpp), j)
             && i + 1 != j && j + 1 != i
    ensures id in Stage(s, c, status, id).value.generations
    ensures var (g, staged) := (s.generations[s.active], Stage(s, c, status, id).value.generations[id]);
            && |staged.args| == |g.args|
            && Says(staged.args[i + 1], c) && Says(staged.args[j + 1], g.contextLength * c)
            && forall k :: 0 <= k < |g.args| && k != i + 1 && k != j + 1 ==> staged.args[k] == g.args[k]
  {
    var g := s.generations[s.active];
    var tokens := WindowTokens(g.contextLength, c);
    Flags(g);
    NumbersAreNotFlags(g, c);
    BothSlots(g.args, ConcurrencyFlag(g), Digits(c), WindowFlag(g), Digits(tokens), i, j);
    DigitsReadBack(c);
    DigitsReadBack(tokens);
  }

  /** What staging leaves: one new generation that differs from the active one in what
      calibration records, and everything else as it was. */
  lemma StagedGeneration(s: Store, c: int, status: CalibrationStatus, id: string)
    requires Stage(s, c, status, id).Ok?
    ensures var t := Stage(s, c, status, id).value;
            && s.active in s.generations && id !in s.generations && id in t.generations
            && t.active == s.active && t.generations - {id} == s.generations
            && var (g, staged) := (s.generations[s.active], t.generations[id]);
               && staged.status == status && staged.serving == c && staged.source == s.active
               && staged.original == (if g.original == "" then s.active else g.original)
               && staged.ceiling == g.ceiling && staged.contextLength == g.contextLength
               && staged.llamaCpp == g.llamaCpp
               && 1 <= c <= g.ceiling
  {
    var t := Stage(s, c, status, id).value;
    assert t.generations - {id} == s.generations;
  }

  ghost predicate HasSlot(args: seq<string>, flag: string) {
    exists i: nat :: FlagAt(args, flag, i)
  }

  /** The arguments have both flags, each with a slot after it; a flag that the first
      replacement overwrites is not there for the second. */
  ghost predicate TakesBoth(g: Generation, c: nat) {
    exists i: nat :: FlagAt(g.args, ParallelFlag(g.llamaCpp), i)
                     && HasSlot(g.args[i + 1 := Digits(c)], TokensFlag(g.llamaCpp))
  }

  lemma ReplaceArgOkIff(args: seq<string>, flag: string, value: string)
    ensures ReplaceArg(args, flag, value).Ok? <==> HasSlot(args, flag)
    ensures forall i: nat :: FlagAt(args, flag, i) ==> ReplaceArg(args, flag, value) == Ok(args[i + 1 := value])
  {
    forall i: nat | FlagAt(args, flag, i) ensures ReplaceArg(args, flag, value) == Ok(args[i + 1 := value]) {
      IndexIsFirst(args, flag, i);
    }
    if ReplaceArg(args, flag, value).Ok? {
      assert FlagAt(args, flag, IndexOf(args, flag));
    }
  }

  lemma TakesBothIff(g: Generation, c: nat)
    requires g.contextLength >= 0
    ensures ReplaceBoth(g, c).Ok? <==> TakesBoth(g, c)
  {
    var tokens := Digits(WindowTokens(g.contextLength, c));
    Flags(g);
    ReplaceArgOkIff(g.args, ConcurrencyFlag(g), Digits(c));
    var first := ReplaceArg(g.args, ConcurrencyFlag(g), Digits(c));
    if first.Ok? {
      ReplaceArgOkIff(first.value, WindowFlag(g), tokens);
      var i: nat :| FlagAt(g.args, ConcurrencyFlag(g), i);
      assert first.value == g.args[i + 1 := Digits(c)];
    }
  }

  /** Staging is refused exactly for these reasons, in this order. */
  lemma StageRefusedIff(s: Store, c: int, status: CalibrationStatus, id: string)
    ensures var known := s.active != "" && s.active in s.generations;
            match Stage(s, c, status, id)
            case Err(BadConcurrency) => c <= 0
            case Err(NoActive) => c > 0 && !known
            case Err(AboveCeiling) => c > 0 && known && s.generations[s.active].ceiling < c
            case Err(NoContext) =>
              0 < c && known && c <= s.generations[s.active].ceiling && s.generations[s.active].contextLength <= 0
            case Err(NoArgs) => known && Fits(s, c) && s.generations[s.active].args == []
            case Err(FlagMissing) => known && Fits(s, c) && !TakesBoth(s.generations[s.active], c)
            case Err(FlagWithoutValue) => known && Fits(s, c) && !TakesBoth(s.generations[s.active], c)
            case Err(IdTaken) =>
              known && Fits(s, c) && TakesBoth(s.generations[s.active], c) && (id == "" || id in s.generations)
            case Ok(_) =>
              known && Fits(s, c) && TakesBoth(s.generations[s.active], c) && id != "" && id !in s.generations
  {
    if s.active in s.generations && Fits(s, c) {
      TakesBothIff(s.generations[s.active], c);
    }
  }

  predicate Fits(s: Store, c: int)
    requires s.active in s.generations
  {
    1 <= c <= s.generations[s.active].ceiling && s.generations[s.active].contextLength > 0
  }

  // ---------- The pointer over runs ----------

  /** A switch that worked. */
  predicate MovesTo(e: Event, id: string) {
    (e.Switch? && e.ok && e.id == id) || (e.Recover? && e.applies != [] && e.applies[0])
  }

  lemma {:induction false} RestoreMovesIfItWorks(s: Store, rounds: nat, applies: seq<bool>)
    ensures Restore(s, rounds, applies).0.generations == s.generations
    ensures applies == [] || !applies[0] ==> Restore(s, rounds, applies).0 == s
    decreases rounds
  {
    if rounds > 0 && NextTurn(s, applies).SwitchTo? {
      RestoreMovesIfItWorks(s.(active := NextTurn(s, applies).target), rounds - 1, applies[1..]);
    }
  }

  /** Over every run the active generation is the first one, or a switch to it worked. */
  lemma {:induction false} ActiveWasSwitchedTo(trace: seq<Store>, run: seq<Event>, n: nat)
    requires IsRun(trace, run) && n <= |run|
    ensures trace[n].active == trace[0].active || exists k :: 0 <= k < n && MovesTo(run[k], trace[n].active)
  {
    if n > 0 {
      ActiveWasSwitchedTo(trace, run, n - 1);
      StepOfRun(trace, run, n - 1);
      var s, e, t := trace[n - 1], run[n - 1], trace[n];
      if e.Recover? {
        RestoreMovesIfItWorks(s, e.rounds, e.applies);
      }
      assert t.active == s.active || MovesTo(e, t.active);
    }
  }

  // ---------- Following a chain of interrupted calibrations ----------

  /** Where an interrupted generation points back to: the recorded original, or else the
      generation it was staged from. */
  function PointsBack(g: Generation): string {
    if g.original == "" then g.source else g.original
  }

  /** When the loop stops without a switch, and with which error: the active generation is not
      there, is settled, points back nowhere or to itself, or the switch fails. */
  lemma RestoreStopsAt(s: Store, rounds: nat, applies: seq<bool>)
    requires rounds > 0
    ensures var result := Restore(s, rounds, applies);
            if s.active !in s.generations then result == (s, Err(NotConfigured))
            else
              var g := s.generations[s.active];
              if g.status == Pending || g.status == Calibrated then result == (s, Ok(0))
              else if PointsBack(g) == "" || PointsBack(g) == s.active then result == (s, Err(NoRecoverableSource))
              else if applies == [] || applies[0] == false || PointsBack(g) !in s.generations then
                result == (s, Err(ApplyFailed))
              else NextTurn(s, applies) == SwitchTo(PointsBack(g))
  {
  }

  /** Interrupted generations, each pointing back to the next; the last one is settled. */
  ghost predicate Chain(s: Store, path: seq<string>) {
    && path != [] && (forall k :: 0 <= k < |path| ==> path[k] != "" && path[k] in s.generations)
    && (forall k :: 0 <= k < |path| - 1 ==>
          && s.generations[path[k]].status == Running && path[k] != path[k + 1]
          && PointsBack(s.generations[path[k]]) == path[k + 1])
    && s.generations[path[|path| - 1]].status != Running
  }

  /** As long as the switches work, the loop follows any chain back, whoever recorded it, to its
      settled end, if that is fewer than `rounds` switches away; from a longer chain it comes
      back having made `rounds` switches, with an error. */
  lemma {:induction false} RestoreFollowsChain(s: Store, path: seq<string>, rounds: nat, applies: seq<bool>)
    requires Chain(s, path) && s.active == path[0]
    requires |applies| >= |path| - 1 && forall k :: 0 <= k < |path| - 1 ==> applies[k]
    ensures Restore(s, rounds, applies)
         == if |path| - 1 < rounds then (s.(active := path[|path| - 1]), Ok(|path| - 1))
            else (s.(active := path[rounds]), Err(ChainTooDeep))
    decreases rounds
  {
    if rounds > 0 {
      if |path| == 1 {
        assert s == s.(active := path[0]);
      } else {
        var next, rest := s.(active := path[1]), path[1..];
        assert NextTurn(s, applies) == SwitchTo(path[1]);
        ShorterChain(s, path);
        RestoreFollowsChain(next, rest, rounds - 1, applies[1..]);
      }
    }
  }

  lemma ShorterChain(s: Store, path: seq<string>)
    requires Chain(s, path) && |path| > 1
    ensures Chain(s.(active := path[1]), path[1..])
  {
    var rest := path[1..];
    assert forall k :: 0 <= k < |rest| ==> rest[k] == path[k + 1];
    forall k | 0 <= k < |rest| - 1
      ensures s.generations[rest[k]].status == Running && rest[k] != rest[k + 1]
      ensures PointsBack(s.generations[rest[k]]) == rest[k + 1]
    {
      assert path[k + 1] != path[k + 2];
    }
  }
}
