/** What `_plan_llamacpp` searches, in which order, how it judges a combination, and what
    exhaustive search over all of them returns. */
module PlannerSpace {
  import opened Options
  import opened Planner
  import opened PlannerProperties

  datatype Preset = Speed | Balanced | Quality

  datatype Combo = Combo(cache: Cache, context: nat, place: KvPlace, parallel: nat)

  datatype Setting = Setting(model: Model, profile: Profile, preset: Preset, backend: Backend)

  datatype ServingPlan = ServingPlan(combo: Combo, fitStatus: Status, gpuLayers: int, serverContext: nat,
                                     placement: Placement)

  /** `Diagnostic` is the plan built when no combination fits at all. */
  datatype PlanResult = Plan(plan: ServingPlan) | Unresolvable | Diagnostic(placement: Placement, status: Status)

  // ---------- What is searched, in order ----------

  function ParallelCap(p: Preset): nat {
    match p case Speed => 2 case Balanced => 4 case Quality => 1
  }

  function Caches(p: Preset): seq<Cache> {
    if p.Quality? then [F16, Q8] else [Q8, Q4]
  }

  function ContextValues(p: Preset): seq<nat> {
    match p case Speed => [4096, 2048] case Balanced => [8192, 4096, 2048] case Quality => [16384, 8192, 4096]
  }

  function AtMost(values: seq<nat>, cap: int): seq<nat> {
    if values == [] then []
    else if values[0] <= cap then [values[0]] + AtMost(values[1..], cap)
    else AtMost(values[1..], cap)
  }

  /** Windows up to the cap, or the cap itself when all windows are larger. */
  function Contexts(s: Setting): seq<nat> {
    var cap := Min(s.model.maxContext, if s.profile.contextCap == 0 then 16384 else s.profile.contextCap);
    var filtered := AtMost(ContextValues(s.preset), cap);
    if filtered != [] then filtered else [Max(1, cap)]
  }

  function Places(s: Setting): seq<KvPlace> {
    if s.backend.GpuOffload? && s.profile.kvOffloadSupported then [InVram, InRam] else [InRam]
  }

  function ByParallel(c: Cache, context: nat, place: KvPlace, parallel: nat): seq<Combo> {
    if parallel == 0 then [] else [Combo(c, context, place, parallel)] + ByParallel(c, context, place, parallel - 1)
  }

  function ByPlace(c: Cache, context: nat, places: seq<KvPlace>, cap: nat): seq<Combo> {
    if places == [] then [] else ByParallel(c, context, places[0], cap) + ByPlace(c, context, places[1..], cap)
  }

  function ByContext(c: Cache, contexts: seq<nat>, places: seq<KvPlace>, cap: nat): seq<Combo> {
    if contexts == [] then [] else ByPlace(c, contexts[0], places, cap) + ByContext(c, contexts[1..], places, cap)
  }

  function ByCache(caches: seq<Cache>, contexts: seq<nat>, places: seq<KvPlace>, cap: nat): seq<Combo> {
    if caches == [] then []
    else ByContext(caches[0], contexts, places, cap) + ByCache(caches[1..], contexts, places, cap)
  }

  /** Every combination, in lexicographic order of preference. */
  function AllCombos(s: Setting): seq<Combo> {
    ByCache(Caches(s.preset), Contexts(s), Places(s), ParallelCap(s.preset))
  }

  // ---------- The verdict on one combination ----------

  function Candidate(s: Setting, c: Combo): Placement
    requires ProperModel(s.model)
  {
    PlaceCandidate(EstimateMemory(s.model, c.cache, c.context, c.parallel), s.profile, s.model.layers, s.backend,
                   c.place)
  }

  function MemoryVerdict(s: Setting, c: Combo): Status
    requires ProperModel(s.model)
  {
    MemoryStatus(s.model, s.profile, s.backend, c.cache, c.context, c.place, c.parallel)
  }

  function Verdict(s: Setting, c: Combo): Status
    requires ProperModel(s.model)
  {
    Combine(MemoryVerdict(s, c), DiskStatus(s.model, s.profile))
  }

  /** The first combination of the list with the given verdict. */
  function First(s: Setting, cs: seq<Combo>, want: Status): Option<Combo>
    requires ProperModel(s.model)
  {
    if cs == [] then None
    else if Verdict(s, cs[0]) == want then Some(cs[0])
    else First(s, cs[1..], want)
  }

  function PlanOf(s: Setting, c: Combo, status: Status): ServingPlan
    requires ProperModel(s.model)
  {
    var placement := Candidate(s, c);
    ServingPlan(c, status, placement.gpuLayers.value, c.context * c.parallel, placement)
  }

  /** Exhaustive search: the first fitting combination, else the first risky one.  A
      preserved verdict replaces the reported status, and a preserved FIT refuses a
      risky plan. */
  function Exhaustive(s: Setting, preserved: Option<Status>): PlanResult
    requires ProperModel(s.model)
  {
    var fit, risky := First(s, AllCombos(s), Fit), First(s, AllCombos(s), Risky);
    if fit.Some? then Plan(PlanOf(s, fit.value, if preserved.Some? then preserved.value else Fit))
    else if risky.Some? then
      if preserved == Some(Fit) then Unresolvable
      else Plan(PlanOf(s, risky.value, if preserved.Some? then preserved.value else Risky))
    else DiagnosticPlan(s)
  }

  function DiagnosticPlan(s: Setting): PlanResult
    requires ProperModel(s.model)
  {
    var e := EstimateMemory(s.model, F16, 4096, 1);
    var placement := if s.backend.Cpu? then PlaceCpu(e, |s.profile.gpuTotal|)
                     else PlaceLlamaCppGpu(e, s.profile.gpuFree, s.model.layers, InVram, None);
    Diagnostic(placement, Combine(WorstPool(placement, s.profile, |placement.vram|), DiskStatus(s.model, s.profile)))
  }

  // ---------- Lists ----------

  /** `First` finds what its name says. */
  lemma {:induction false} FirstMeaning(s: Setting, cs: seq<Combo>, want: Status)
    requires ProperModel(s.model)
    ensures First(s, cs, want).None? <==> forall i :: 0 <= i < |cs| ==> Verdict(s, cs[i]) != want
    ensures First(s, cs, want).Some? ==>
              exists i :: 0 <= i < |cs| && cs[i] == First(s, cs, want).value && Verdict(s, cs[i]) == want
                          && forall j :: 0 <= j < i ==> Verdict(s, cs[j]) != want
  {
    if cs != [] && Verdict(s, cs[0]) != want {
      FirstMeaning(s, cs[1..], want);
      if First(s, cs, want).Some? {
        var k :| 0 <= k < |cs[1..]| && cs[1..][k] == First(s, cs, want).value && Verdict(s, cs[1..][k]) == want
                 && forall j :: 0 <= j < k ==> Verdict(s, cs[1..][j]) != want;
        forall j | 0 <= j < k + 1 ensures Verdict(s, cs[j]) != want {
          if j > 0 {
            assert cs[j] == cs[1..][j - 1];
          }
        }
        assert cs[k + 1] == cs[1..][k];
      } else {
        forall i | 0 <= i < |cs| ensures Verdict(s, cs[i]) != want {
          if i > 0 {
            assert cs[i] == cs[1..][i - 1];
          }
        }
      }
    }
  }
}
