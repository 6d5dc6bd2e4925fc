/** The nested search of `_plan_llamacpp`, proved equal to exhaustive search. */
module PlannerSearch {
  import opened Options
  import opened Planner
  import opened PlannerProperties
  import opened PlannerPreference
  import opened PlannerSpace

  datatype Scanned = Found(combo: Combo) | Best(risky: Option<Combo>)

  /** Going through the list with the best risky combination so far. */
  function Scan(s: Setting, best: Option<Combo>, cs: seq<Combo>): Scanned
    requires ProperModel(s.model)
    decreases |cs|
  {
    if cs == [] then Best(best)
    else
      match Verdict(s, cs[0])
      case Fit => Found(cs[0])
      case Risky => Scan(s, if best.Some? then best else Some(cs[0]), cs[1..])
      case NoFit => Scan(s, best, cs[1..])
  }

  lemma {:induction false} ScanAppend(s: Setting, best: Option<Combo>, a: seq<Combo>, b: seq<Combo>)
    requires ProperModel(s.model)
    ensures Scan(s, best, a + b)
         == if Scan(s, best, a).Found? then Scan(s, best, a) else Scan(s, Scan(s, best, a).risky, b)
    decreases |a|
  {
    if a == [] {
      assert a + b == b;
    } else {
      assert (a + b)[0] == a[0] && (a + b)[1..] == a[1..] + b;
      var verdict := Verdict(s, a[0]);
      if verdict != Fit {
        ScanAppend(s, if verdict == Risky && best.None? then Some(a[0]) else best, a[1..], b);
      }
    }
  }

  /** Scanning finds the first fitting combination, else the first risky one. */
  lemma {:induction false} ScanIsFirst(s: Setting, best: Option<Combo>, cs: seq<Combo>)
    requires ProperModel(s.model)
    ensures First(s, cs, Fit).Some? ==> Scan(s, best, cs) == Found(First(s, cs, Fit).value)
    ensures First(s, cs, Fit).None? ==> Scan(s, best, cs) == Best(if best.Some? then best else First(s, cs, Risky))
    decreases |cs|
  {
    if cs != [] {
      var verdict := Verdict(s, cs[0]);
      if verdict != Fit {
        ScanIsFirst(s, if verdict == Risky && best.None? then Some(cs[0]) else best, cs[1..]);
      }
    }
  }

  // ---------- Pruning ----------

  /** If one sequence alone does not fit, no parallelism does: skipping loses nothing. */
  lemma {:induction false} PrunedHasNothing(s: Setting, best: Option<Combo>, c: Cache, context: nat, place: KvPlace,
                                            parallel: nat)
    requires ProperModel(s.model)
    requires MemoryVerdict(s, Combo(c, context, place, 1)) == NoFit
    ensures Scan(s, best, ByParallel(c, context, place, parallel)) == Best(best)
    decreases parallel
  {
    if parallel > 0 {
      PrunedHasNothing(s, best, c, context, place, parallel - 1);
      StatusIsMonotone(s.model, s.profile, s.backend, c, context, place, 1, parallel);
      var all := ByParallel(c, context, place, parallel);
      assert Verdict(s, all[0]) == NoFit;
      assert all[1..] == ByParallel(c, context, place, parallel - 1);
    }
  }

  // ---------- The search ----------

  method JudgeMemory(s: Setting, combo: Combo) returns (status: Status)
    requires ProperModel(s.model)
    ensures status == MemoryVerdict(s, combo)
  {
    status := PoolFit(Candidate(s, combo), s.profile);
  }

  /** The inner `while`: from the cap down to one. */
  method SearchParallel(s: Setting, c: Cache, context: nat, place: KvPlace, cap: nat, bestRisky: Option<Combo>)
    returns (scanned: Scanned)
    requires ProperModel(s.model)
    ensures scanned == Scan(s, bestRisky, ByParallel(c, context, place, cap))
  {
    var best, parallel := bestRisky, cap;
    while parallel >= 1
      invariant 0 <= parallel <= cap
      invariant Scan(s, bestRisky, ByParallel(c, context, place, cap))
                == Scan(s, best, ByParallel(c, context, place, parallel))
    {
      var combo := Combo(c, context, place, parallel);
      var memory := JudgeMemory(s, combo);
      var status := Combine(memory, DiskStatus(s.model, s.profile));
      ghost var rest := ByParallel(c, context, place, parallel - 1);
      assert ([combo] + rest)[1..] == rest;
      assert status == Verdict(s, combo);
      if status == Fit {
        return Found(combo);
      }
      if status != NoFit && best.None? {
        best := Some(combo);
      }
      parallel := parallel - 1;
    }
    return Best(best);
  }

  /** The loop over KV placements, with the early prune. */
  method SearchPlaces(s: Setting, c: Cache, context: nat, bestRisky: Option<Combo>) returns (scanned: Scanned)
    requires ProperModel(s.model)
    ensures scanned == Scan(s, bestRisky, ByPlace(c, context, Places(s), ParallelCap(s.preset)))
  {
    var best, places, cap := bestRisky, Places(s), ParallelCap(s.preset);
    for i := 0 to |places|
      invariant Scan(s, bestRisky, ByPlace(c, context, places, cap))
                == Scan(s, best, ByPlace(c, context, places[i..], cap))
    {
      assert places[i..][1..] == places[i + 1..];
      ScanAppend(s, best, ByParallel(c, context, places[i], cap), ByPlace(c, context, places[i + 1..], cap));
      var baseline := JudgeMemory(s, Combo(c, context, places[i], 1));
      if baseline == NoFit {
        PrunedHasNothing(s, best, c, context, places[i], cap);
      } else {
        scanned := SearchParallel(s, c, context, places[i], cap, best);
        if scanned.Found? {
          return;
        }
        best := scanned.risky;
      }
    }
    return Best(best);
  }

  method SearchContexts(s: Setting, c: Cache, bestRisky: Option<Combo>) returns (scanned: Scanned)
    requires ProperModel(s.model)
    ensures scanned == Scan(s, bestRisky, ByContext(c, Contexts(s), Places(s), ParallelCap(s.preset)))
  {
    var best, contexts := bestRisky, Contexts(s);
    ghost var places, cap := Places(s), ParallelCap(s.preset);
    for i := 0 to |contexts|
      invariant Scan(s, bestRisky, ByContext(c, contexts, places, cap))
                == Scan(s, best, ByContext(c, contexts[i..], places, cap))
    {
      assert contexts[i..][1..] == contexts[i + 1..];
      ScanAppend(s, best, ByPlace(c, contexts[i], places, cap), ByContext(c, contexts[i + 1..], places, cap));
      scanned := SearchPlaces(s, c, contexts[i], best);
      if scanned.Found? {
        return;
      }
      best := scanned.risky;
    }
    return Best(best);
  }

  method SearchCaches(s: Setting) returns (scanned: Scanned)
    requires ProperModel(s.model)
    ensures scanned == Scan(s, None, AllCombos(s))
  {
    var best: Option<Combo>, caches := None, Caches(s.preset);
    ghost var contexts, places, cap := Contexts(s), Places(s), ParallelCap(s.preset);
    for i := 0 to |caches|
      invariant Scan(s, None, ByCache(caches, contexts, places, cap))
                == Scan(s, best, ByCache(caches[i..], contexts, places, cap))
    {
      assert caches[i..][1..] == caches[i + 1..];
      ScanAppend(s, best, ByContext(caches[i], contexts, places, cap), ByCache(caches[i + 1..], contexts, places, cap));
      scanned := SearchContexts(s, caches[i], best);
      if scanned.Found? {
        return;
      }
      best := scanned.risky;
    }
    return Best(best);
  }

  /** The pruned search returns exactly what exhaustive search returns, and so the most
      preferred of the offered combinations. */
  method PlanLlamaCpp(s: Setting, preserved: Option<Status>) returns (result: PlanResult)
    requires ProperModel(s.model)
    ensures result == Exhaustive(s, preserved) && Keeps(s, preserved, result)
  {
    ExhaustiveKeeps(s, preserved);
    var scanned := SearchCaches(s);
    ScanIsFirst(s, None, AllCombos(s));
    match scanned
    case Found(combo) =>
      return Plan(PlanOf(s, combo, if preserved.Some? then preserved.value else Fit));
    case Best(Some(combo)) =>
      if preserved == Some(Fit) {
        return Unresolvable;
      }
      return Plan(PlanOf(s, combo, if preserved.Some? then preserved.value else Risky));
    case Best(None) =>
      return DiagnosticPlan(s);
  }

  /** Without a preserved verdict the plan carries the verdict it deserves, and a FIT
      plan leaves the headroom in every pool. */
  lemma ReportedStatusIsTrue(s: Setting)
    requires ProperModel(s.model) && Exhaustive(s, None).Plan?
    ensures var plan := Exhaustive(s, None).plan;
            && plan.combo in AllCombos(s) && plan.fitStatus == Verdict(s, plan.combo) != NoFit
            && (plan.fitStatus == Risky ==> forall i :: 0 <= i < |AllCombos(s)| ==> Verdict(s, AllCombos(s)[i]) != Fit)
            && (plan.fitStatus == Fit ==>
                  && PoolStatus(plan.placement.RequiredRam(), PlanningRam(s.profile)) == Fit
                  && DiskStatus(s.model, s.profile) == Fit
                  && forall i: nat :: i < |plan.placement.vram| ==>
                       PoolStatus(plan.placement.RequiredVram(i), Available(s.profile, i)) == Fit)
  {
    var all := AllCombos(s);
    FirstMeaning(s, all, Fit);
    FirstMeaning(s, all, Risky);
    var plan := Exhaustive(s, None).plan;
    WorstPoolMeaning(plan.placement, s.profile, |plan.placement.vram|);
  }
}
