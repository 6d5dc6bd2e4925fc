/** Which plan the search returns, said without its lists: the offered combinations, the order
    of preference among them, and what each figure stands for. */
module PlannerPreference {
  import opened Options
  import opened Planner
  import opened PlannerProperties
  import opened PlannerSpace

  // ---------- What may be planned ----------

  predicate OffersParallel(p: Preset, parallel: nat) {
    match p
    case Speed => parallel == 1 || parallel == 2
    case Balanced => 1 <= parallel <= 4
    case Quality => parallel == 1
  }

  predicate OffersCache(p: Preset, c: Cache) {
    match p
    case Quality => c == F16 || c == Q8
    case _ => c == Q8 || c == Q4
  }

  predicate OffersWindow(p: Preset, window: int) {
    match p
    case Speed => window == 4096 || window == 2048
    case Balanced => window == 8192 || window == 4096 || window == 2048
    case Quality => window == 16384 || window == 8192 || window == 4096
  }

  /** The larger window is refused by the model or by the configured cap, 16384 by default. */
  predicate WithinCap(s: Setting, window: int) {
    && window <= s.model.maxContext
    && window <= (if s.profile.contextCap == 0 then 16384 else s.profile.contextCap)
  }

  /** The context is a window of the preset within the cap; only if the smallest window is too
      large it is the cap itself, and at least one token. */
  predicate OffersContext(s: Setting, context: nat) {
    if WithinCap(s, if s.preset.Quality? then 4096 else 2048)
    then OffersWindow(s.preset, context) && WithinCap(s, context)
    else if WithinCap(s, 1) then WithinCap(s, context) && !WithinCap(s, context + 1)
    else context == 1
  }

  predicate OffersPlace(s: Setting, place: KvPlace) {
    place == InRam || (s.backend == GpuOffload && s.profile.kvOffloadSupported)
  }

  predicate Offered(s: Setting, c: Combo) {
    && OffersCache(s.preset, c.cache) && OffersContext(s, c.context)
    && OffersPlace(s, c.place) && OffersParallel(s.preset, c.parallel)
  }

  /** More precise caches come first. */
  function CacheBits(c: Cache): nat {
    match c case F16 => 16 case Q8 => 8 case Q4 => 4
  }

  /** `a` is preferred to `b`: by a more precise cache, then the larger window, then the cache
      in VRAM, then more sequences at once. */
  predicate Preferred(a: Combo, b: Combo) {
    if CacheBits(a.cache) != CacheBits(b.cache) then CacheBits(a.cache) > CacheBits(b.cache)
    else if a.context != b.context then a.context > b.context
    else if a.place != b.place then a.place == InVram
    else a.parallel > b.parallel
  }

  /** The plan is the most preferred offered combination with the verdict. */
  ghost predicate IsBest(s: Setting, c: Combo, verdict: Status)
    requires ProperModel(s.model)
  {
    && Offered(s, c) && Verdict(s, c) == verdict
    && forall b: Combo :: Offered(s, b) && Verdict(s, b) == verdict && b != c ==> Preferred(c, b)
  }

  ghost predicate SomeOffered(s: Setting, verdict: Status)
    requires ProperModel(s.model)
  {
    exists c: Combo :: Offered(s, c) && Verdict(s, c) == verdict
  }

  // ---------- The lists hold what is offered, best first ----------

  ghost predicate Listed(cs: seq<Combo>, c: Combo) {
    exists i :: 0 <= i < |cs| && cs[i] == c
  }

  ghost predicate BestFirst(cs: seq<Combo>) {
    forall i, j :: 0 <= i < j < |cs| ==> Preferred(cs[i], cs[j])
  }

  lemma JoinedLists(a: seq<Combo>, b: seq<Combo>)
    requires BestFirst(a) && BestFirst(b)
    requires forall i, j :: 0 <= i < |a| && 0 <= j < |b| ==> Preferred(a[i], b[j])
    ensures BestFirst(a + b)
    ensures forall c :: Listed(a + b, c) <==> Listed(a, c) || Listed(b, c)
  {
    forall c ensures Listed(a + b, c) <==> Listed(a, c) || Listed(b, c) {
      if i :| 0 <= i < |a| && a[i] == c {
        assert (a + b)[i] == c;
      }
      if j :| 0 <= j < |b| && b[j] == c {
        assert (a + b)[|a| + j] == c;
      }
    }
  }

  lemma SingleList(c: Combo)
    ensures forall x :: Listed([c], x) <==> x == c
  {
    assert [c][0] == c;
    assert Listed([c], c);
  }

  lemma {:induction false} ParallelList(c: Cache, context: nat, place: KvPlace, cap: nat)
    ensures BestFirst(ByParallel(c, context, place, cap))
    ensures forall x :: Listed(ByParallel(c, context, place, cap), x)
                   <==> x.cache == c && x.context == context && x.place == place && 1 <= x.parallel <= cap
  {
    if cap > 0 {
      var first, rest := [Combo(c, context, place, cap)], ByParallel(c, context, place, cap - 1);
      ParallelList(c, context, place, cap - 1);
      forall j | 0 <= j < |rest| ensures Preferred(first[0], rest[j]) {
        assert Listed(rest, rest[j]);
      }
      forall i, j | 0 <= i < |first| && 0 <= j < |rest| ensures Preferred(first[i], rest[j]) {
        assert Preferred(first[0], rest[j]);
      }
      JoinedLists(first, rest);
      SingleList(first[0]);
    }
  }

  predicate Nearer(p: KvPlace, q: KvPlace) {
    p == InVram && q == InRam
  }

  ghost predicate VramFirst(places: seq<KvPlace>) {
    forall i, j :: 0 <= i < j < |places| ==> Nearer(places[i], places[j])
  }

  lemma VramFirstTail(places: seq<KvPlace>)
    requires VramFirst(places) && places != []
    ensures VramFirst(places[1..])
  {
    var rest := places[1..];
    assert forall i :: 0 <= i < |rest| ==> rest[i] == places[i + 1];
    forall i, j | 0 <= i < j < |rest| ensures Nearer(rest[i], rest[j]) {
      assert Nearer(places[i + 1], places[j + 1]);
    }
  }

  lemma {:induction false} PlaceList(c: Cache, context: nat, places: seq<KvPlace>, cap: nat)
    requires VramFirst(places)
    ensures BestFirst(ByPlace(c, context, places, cap))
    ensures forall x :: Listed(ByPlace(c, context, places, cap), x)
                   <==> x.cache == c && x.context == context && x.place in places && 1 <= x.parallel <= cap
  {
    if places != [] {
      var first, rest := ByParallel(c, context, places[0], cap), ByPlace(c, context, places[1..], cap);
      ParallelList(c, context, places[0], cap);
      VramFirstTail(places);
      PlaceList(c, context, places[1..], cap);
      forall i, j | 0 <= i < |first| && 0 <= j < |rest| ensures Preferred(first[i], rest[j]) {
        assert Listed(first, first[i]) && Listed(rest, rest[j]);
      }
      JoinedLists(first, rest);
      assert forall p :: p in places <==> p == places[0] || p in places[1..];
    }
  }

  ghost predicate LargestFirst(windows: seq<nat>) {
    forall i, j :: 0 <= i < j < |windows| ==> windows[i] > windows[j]
  }

  lemma LargestFirstTail(windows: seq<nat>)
    requires LargestFirst(windows) && windows != []
    ensures LargestFirst(windows[1..])
    ensures forall j :: 0 <= j < |windows[1..]| ==> windows[1..][j] < windows[0]
  {
    var rest := windows[1..];
    assert forall i :: 0 <= i < |rest| ==> rest[i] == windows[i + 1];
    forall i, j | 0 <= i < j < |rest| ensures rest[i] > rest[j] {
      assert windows[i + 1] > windows[j + 1];
    }
  }

  lemma {:induction false} ContextList(c: Cache, contexts: seq<nat>, places: seq<KvPlace>, cap: nat)
    requires VramFirst(places) && LargestFirst(contexts)
    ensures BestFirst(ByContext(c, contexts, places, cap))
    ensures forall x :: Listed(ByContext(c, contexts, places, cap), x)
                   <==> x.cache == c && x.context in contexts && x.place in places && 1 <= x.parallel <= cap
  {
    if contexts != [] {
      var first, rest := ByPlace(c, contexts[0], places, cap), ByContext(c, contexts[1..], places, cap);
      PlaceList(c, contexts[0], places, cap);
      LargestFirstTail(contexts);
      ContextList(c, contexts[1..], places, cap);
      forall i, j | 0 <= i < |first| && 0 <= j < |rest| ensures Preferred(first[i], rest[j]) {
        assert Listed(first, first[i]) && Listed(rest, rest[j]);
      }
      JoinedLists(first, rest);
      assert forall w :: w in contexts <==> w == contexts[0] || w in contexts[1..];
    }
  }

  ghost predicate MostPreciseFirst(caches: seq<Cache>) {
    forall i, j :: 0 <= i < j < |caches| ==> CacheBits(caches[i]) > CacheBits(caches[j])
  }

  lemma MostPreciseFirstTail(caches: seq<Cache>)
    requires MostPreciseFirst(caches) && caches != []
    ensures MostPreciseFirst(caches[1..])
  {
    var rest := caches[1..];
    assert forall i :: 0 <= i < |rest| ==> rest[i] == caches[i + 1];
    forall i, j | 0 <= i < j < |rest| ensures CacheBits(rest[i]) > CacheBits(rest[j]) {
      assert CacheBits(caches[i + 1]) > CacheBits(caches[j + 1]);
    }
  }

  lemma {:induction false} CacheList(caches: seq<Cache>, contexts: seq<nat>, places: seq<KvPlace>, cap: nat)
    requires VramFirst(places) && LargestFirst(contexts) && MostPreciseFirst(caches)
    ensures BestFirst(ByCache(caches, contexts, places, cap))
    ensures forall x :: Listed(ByCache(caches, contexts, places, cap), x)
                   <==> x.cache in caches && x.context in contexts && x.place in places && 1 <= x.parallel <= cap
  {
    if caches != [] {
      var first, rest := ByContext(caches[0], contexts, places, cap), ByCache(caches[1..], contexts, places, cap);
      ContextList(caches[0], contexts, places, cap);
      MostPreciseFirstTail(caches);
      CacheList(caches[1..], contexts, places, cap);
      forall i, j | 0 <= i < |first| && 0 <= j < |rest| ensures Preferred(first[i], rest[j]) {
        assert Listed(first, first[i]) && Listed(rest, rest[j]);
      }
      JoinedLists(first, rest);
      assert forall c :: c in caches <==> c == caches[0] || c in caches[1..];
    }
  }

  lemma {:induction false} AtMostMembers(values: seq<nat>, cap: int)
    ensures forall w :: w in AtMost(values, cap) <==> w in values && w <= cap
  {
    if values != [] {
      AtMostMembers(values[1..], cap);
      assert values == [values[0]] + values[1..];
    }
  }

  lemma {:induction false} AtMostKeeps(values: seq<nat>, cap: int)
    requires LargestFirst(values)
    ensures LargestFirst(AtMost(values, cap))
  {
    if values != [] {
      var rest := AtMost(values[1..], cap);
      LargestFirstTail(values);
      AtMostKeeps(values[1..], cap);
      forall j | 0 <= j < |rest| ensures rest[j] < values[0] {
        AtMostMembers(values[1..], cap);
        assert rest[j] in values[1..];
      }
    }
  }

  lemma {:induction false} AtMostOfLarger(values: seq<nat>, cap: int)
    requires forall w :: w in values ==> w > cap
    ensures AtMost(values, cap) == []
  {
    if values != [] {
      assert values[0] in values && forall w :: w in values[1..] ==> w in values;
      AtMostOfLarger(values[1..], cap);
    }
  }

  lemma WindowsAreOffered(p: Preset)
    ensures LargestFirst(ContextValues(p)) && forall w: nat :: w in ContextValues(p) <==> OffersWindow(p, w)
  {
  }

  lemma ContextsAreOffered(s: Setting)
    ensures LargestFirst(Contexts(s))
    ensures forall context: nat :: context in Contexts(s) <==> OffersContext(s, context)
  {
    var cap := Min(s.model.maxContext, if s.profile.contextCap == 0 then 16384 else s.profile.contextCap);
    var windows := AtMost(ContextValues(s.preset), cap);
    WindowsAreOffered(s.preset);
    AtMostKeeps(ContextValues(s.preset), cap);
    AtMostMembers(ContextValues(s.preset), cap);
    var smallest: nat := if s.preset.Quality? then 4096 else 2048;
    assert OffersWindow(s.preset, smallest);
    assert forall w: int :: WithinCap(s, w) <==> w <= cap;
    if smallest <= cap {
      assert smallest in windows;
    } else {
      forall w: nat | w in ContextValues(s.preset) ensures w > cap {
        assert OffersWindow(s.preset, w);
      }
      AtMostOfLarger(ContextValues(s.preset), cap);
    }
  }

  lemma ListsAreOrdered(p: Preset, s: Setting)
    ensures MostPreciseFirst(Caches(p)) && forall c :: c in Caches(p) <==> OffersCache(p, c)
    ensures VramFirst(Places(s)) && forall place :: place in Places(s) <==> OffersPlace(s, place)
    ensures forall parallel: nat :: 1 <= parallel <= ParallelCap(p) <==> OffersParallel(p, parallel)
  {
  }

  lemma AllCombosAreOffered(s: Setting)
    ensures BestFirst(AllCombos(s))
    ensures forall c :: Listed(AllCombos(s), c) <==> Offered(s, c)
  {
    ListsAreOrdered(s.preset, s);
    ContextsAreOffered(s);
    CacheList(Caches(s.preset), Contexts(s), Places(s), ParallelCap(s.preset));
  }

  /** The first of the list with a verdict is the best offered one with it. */
  lemma FirstIsBest(s: Setting, verdict: Status)
    requires ProperModel(s.model)
    ensures var first := First(s, AllCombos(s), verdict);
            && (first.Some? <==> SomeOffered(s, verdict))
            && (first.Some? ==> IsBest(s, first.value, verdict))
  {
    var all := AllCombos(s);
    AllCombosAreOffered(s);
    FirstMeaning(s, all, verdict);
    if First(s, all, verdict).Some? {
      var i :| 0 <= i < |all| && all[i] == First(s, all, verdict).value && Verdict(s, all[i]) == verdict
               && forall j :: 0 <= j < i ==> Verdict(s, all[j]) != verdict;
      FoundIsBest(s, all, verdict, i);
    } else {
      forall c: Combo | Offered(s, c) ensures Verdict(s, c) != verdict {
        assert Listed(all, c);
      }
    }
  }

  lemma FoundIsBest(s: Setting, all: seq<Combo>, verdict: Status, i: nat)
    requires ProperModel(s.model) && BestFirst(all) && forall c :: Listed(all, c) <==> Offered(s, c)
    requires i < |all| && Verdict(s, all[i]) == verdict && forall j :: 0 <= j < i ==> Verdict(s, all[j]) != verdict
    ensures IsBest(s, all[i], verdict)
  {
    assert Listed(all, all[i]);
    forall b: Combo | Offered(s, b) && Verdict(s, b) == verdict && b != all[i] ensures Preferred(all[i], b) {
      assert Listed(all, b);
      var j :| 0 <= j < |all| && all[j] == b;
      assert j > i;
    }
  }

  // ---------- The plan ----------

  /** The figures of the plan are those of its combination; every sequence gets the window. */
  ghost predicate Describes(s: Setting, plan: ServingPlan)
    requires ProperModel(s.model)
  {
    && plan.serverContext == plan.combo.context * plan.combo.parallel
    && plan.placement == Candidate(s, plan.combo) && plan.placement.gpuLayers == Some(plan.gpuLayers)
  }

  /** What the planner owes its caller: the best fitting combination if one is offered, else
      the best risky one; a preserved verdict is reported in place of the plan's own, and a
      preserved FIT refuses a risky plan. */
  ghost predicate Keeps(s: Setting, preserved: Option<Status>, result: PlanResult)
    requires ProperModel(s.model)
  {
    match result
    case Plan(plan) =>
      && (if SomeOffered(s, Fit) then IsBest(s, plan.combo, Fit)
          else IsBest(s, plan.combo, Risky) && preserved != Some(Fit))
      && plan.fitStatus == (if preserved.Some? then preserved.value else Verdict(s, plan.combo))
      && Describes(s, plan)
    case Unresolvable => !SomeOffered(s, Fit) && SomeOffered(s, Risky) && preserved == Some(Fit)
    case Diagnostic(_, _) => !SomeOffered(s, Fit) && !SomeOffered(s, Risky)
  }

  lemma ExhaustiveKeeps(s: Setting, preserved: Option<Status>)
    requires ProperModel(s.model)
    ensures Keeps(s, preserved, Exhaustive(s, preserved))
  {
    FirstIsBest(s, Fit);
    FirstIsBest(s, Risky);
    var fit, risky := First(s, AllCombos(s), Fit), First(s, AllCombos(s), Risky);
    if fit.Some? {
      PlanKeeps(s, preserved, fit.value, Fit);
    } else if risky.None? {
      assert Exhaustive(s, preserved) == DiagnosticPlan(s);
    } else if preserved != Some(Fit) {
      PlanKeeps(s, preserved, risky.value, Risky);
    }
  }

  lemma PlanKeeps(s: Setting, preserved: Option<Status>, c: Combo, verdict: Status)
    requires ProperModel(s.model) && IsBest(s, c, verdict)
    requires if SomeOffered(s, Fit) then verdict == Fit else verdict == Risky && preserved != Some(Fit)
    ensures Keeps(s, preserved, Plan(PlanOf(s, c, if preserved.Some? then preserved.value else verdict)))
  {
    var plan := PlanOf(s, c, if preserved.Some? then preserved.value else verdict);
    assert plan.combo == c && Describes(s, plan);
  }

  /** A fitting plan with its cache in RAM, though it could have been in VRAM: with that cache
      type and window no parallelism at all fits with the cache in VRAM. */
  lemma RamOnlyIfVramDoesNotFit(s: Setting, preserved: Option<Status>, parallel: nat)
    requires ProperModel(s.model) && Exhaustive(s, preserved).Plan? && OffersParallel(s.preset, parallel)
    requires var combo := Exhaustive(s, preserved).plan.combo; combo.place == InRam
    requires s.backend == GpuOffload && s.profile.kvOffloadSupported
    ensures var combo := Exhaustive(s, preserved).plan.combo;
            var inVram := Verdict(s, Combo(combo.cache, combo.context, InVram, parallel));
            && inVram != Fit && (Verdict(s, combo) == Risky ==> inVram == NoFit)
  {
    ExhaustiveKeeps(s, preserved);
    BetterNeverFits(s, preserved, Combo(Exhaustive(s, preserved).plan.combo.cache,
                                        Exhaustive(s, preserved).plan.combo.context, InVram, parallel));
  }

  /** The same for anything offered and preferred to the plan: a larger parallelism, a larger
      window, a more precise cache. */
  lemma BetterNeverFits(s: Setting, preserved: Option<Status>, better: Combo)
    requires ProperModel(s.model) && Exhaustive(s, preserved).Plan?
    requires Offered(s, better) && Preferred(better, Exhaustive(s, preserved).plan.combo)
    ensures Verdict(s, better) != Fit
    ensures Verdict(s, Exhaustive(s, preserved).plan.combo) == Risky ==> Verdict(s, better) == NoFit
  {
    ExhaustiveKeeps(s, preserved);
    var combo := Exhaustive(s, preserved).plan.combo;
    assert !Preferred(combo, better);
  }
}
