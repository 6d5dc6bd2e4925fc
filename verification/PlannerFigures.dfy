/** What the figures of an estimate and a placement stand for. */
module PlannerFigures {
  import opened Options
  import opened Planner
  import opened PlannerProperties
  import opened PlannerSpace

  const MB := 1048576

  /** Bytes of the KV cache: two cached values for each layer, head, dimension and token, at 16,
      8 or 4 bits. */
  function KvBits(m: Model, c: Cache, context: nat, parallel: nat): nat {
    2 * (match c case F16 => 16 case Q8 => 8 case Q4 => 4) * m.kvUnit * context * parallel
  }

  /** The estimate is the nearest number of megabytes, ties to the even one, and at least one. */
  lemma KvIsNearest(m: Model, c: Cache, context: nat, parallel: nat)
    ensures var bits, mb := KvBits(m, c, context, parallel), KvMb(m, c, context, parallel);
            && mb >= 1
            && (2 * bits >= 8 * MB ==> -8 * MB <= 2 * (8 * MB * mb - bits) <= 8 * MB)
            && (2 * bits >= 8 * MB && (2 * (8 * MB * mb - bits) == 8 * MB || 2 * (8 * MB * mb - bits) == -8 * MB) ==>
                  mb % 2 == 0 || mb == 1)
            && (2 * bits < 8 * MB ==> mb == 1)
  {
    var bytes := m.kvUnit * CacheBytes(c) * context * parallel;
    BitsOfBytes(m.kvUnit, c, context, parallel);
    NearestMb(bytes);
  }

  lemma BitsOfBytes(unit: nat, c: Cache, context: nat, parallel: nat)
    ensures 8 * (unit * CacheBytes(c) * context * parallel)
         == 2 * (match c case F16 => 16 case Q8 => 8 case Q4 => 4) * unit * context * parallel
  {
    var b := CacheBytes(c);
    assert 8 * b == 2 * (match c case F16 => 16 case Q8 => 8 case Q4 => 4);
    Regroup(8, b, unit, context, parallel);
  }

  lemma Regroup(k: nat, b: nat, unit: nat, context: nat, parallel: nat)
    ensures k * (unit * b * context * parallel) == k * b * unit * context * parallel
  {
    assert unit * b == b * unit;
    assert k * (b * unit) == k * b * unit;
    assert k * (b * unit * context) == k * b * unit * context;
  }

  lemma NearestMb(bytes: nat)
    ensures var mb := BytesToMb(bytes);
            && mb >= 1
            && (2 * bytes >= MB ==> -MB <= 2 * (MB * mb - bytes) <= MB)
            && (2 * bytes >= MB && (2 * (MB * mb - bytes) == MB || 2 * (MB * mb - bytes) == -MB)
                ==> mb % 2 == 0 || mb == 1)
            && (2 * bytes < MB ==> mb == 1)
  {
    assert bytes == MB * (bytes / MB) + bytes % MB;
  }

  /** A pool fits with a quarter more than it needs, and does not fit below what it needs. */
  lemma PoolStatusMeaning(required: int, available: int)
    requires required >= 0
    ensures PoolStatus(required, available) == Fit <==> required as real * 1.25 <= available as real
    ensures PoolStatus(required, available) == NoFit <==> required > available
  {
  }

  /** A known disk requirement fits with 15% to spare; an unknown one always does. */
  lemma DiskStatusMeaning(m: Model, p: Profile)
    ensures m.diskRequiredMb.None? ==> DiskStatus(m, p) == Fit
    ensures m.diskRequiredMb.Some? ==>
              && (DiskStatus(m, p) == NoFit <==> m.diskRequiredMb.value > p.diskFreeMb)
              && (DiskStatus(m, p) == Fit <==> m.diskRequiredMb.value <= p.diskFreeMb
                                               && m.diskRequiredMb.value as real * 1.15 <= p.diskFreeMb as real)
  {
  }

  /** RAM is planned up to the machine's or, if there is one, a smaller container's limit. */
  lemma PlanningRamMeaning(p: Profile)
    ensures PlanningRam(p) <= p.ramMb && (p.containerLimitMb > 0 ==> PlanningRam(p) <= p.containerLimitMb)
    ensures PlanningRam(p) == p.ramMb || (p.containerLimitMb > 0 && PlanningRam(p) == p.containerLimitMb)
  {
  }

  /** `n` layers and the fixed part fit into four fifths of the first GPU. */
  ghost predicate LayersFit(s: Setting, c: Combo, n: nat)
    requires ProperModel(s.model) && s.profile.gpuFree != []
  {
    var fixed := 2012 + (if c.place == InVram then KvMb(s.model, c.cache, c.context, c.parallel) else 0);
    (n * s.model.weightMb) as real / s.model.layers as real <= (s.profile.gpuFree[0] * 4 / 5 - fixed) as real
  }

  lemma ShareFits(n: nat, weight: nat, layers: nat, room: int)
    requires layers > 0
    ensures (n * weight) as real / layers as real <= room as real <==> n * weight <= room * layers
  {
    var share := (n * weight) as real / layers as real;
    assert share * layers as real == (n * weight) as real;
    if share <= room as real {
      assert share * layers as real <= room as real * layers as real;
    } else {
      assert share * layers as real > room as real * layers as real;
    }
    assert room as real * layers as real == (room * layers) as real;
  }

  /** How many layers the judged offload placement puts on the GPU: as many as fit, and one
      where none does. */
  lemma JudgedLayersMeaning(s: Setting, c: Combo)
    requires ProperModel(s.model) && s.backend == GpuOffload && s.profile.gpuFree != []
    ensures var n := Candidate(s, c).gpuLayers;
            && n.Some? && 1 <= n.value <= s.model.layers
            && (n.value > 1 ==> LayersFit(s, c, n.value))
            && (n.value < s.model.layers && (n.value > 1 || LayersFit(s, c, 1)) ==> !LayersFit(s, c, n.value + 1))
            && (LayersFit(s, c, 1) ==> LayersFit(s, c, n.value))
  {
    var e := EstimateMemory(s.model, c.cache, c.context, c.parallel);
    var n := JudgedLayers(e, s.profile, s.model.layers, c.place);
    CandidateIsPlacedLayers(e, s.profile, s.model.layers, c.place);
    LayersFitIff(s, c, n);
    LayersFitIff(s, c, 1);
    if n < s.model.layers {
      LayersFitIff(s, c, n + 1);
    }
  }

  lemma LayersFitIff(s: Setting, c: Combo, n: nat)
    requires ProperModel(s.model) && s.profile.gpuFree != [] && 1 <= n <= s.model.layers
    ensures var e := EstimateMemory(s.model, c.cache, c.context, c.parallel);
            LayersFit(s, c, n) <==> n <= UnforcedLayers(e, s.profile.gpuFree, s.model.layers, c.place)
  {
    var e := EstimateMemory(s.model, c.cache, c.context, c.parallel);
    var room := s.profile.gpuFree[0] * 4 / 5 - FixedVram(e, c.place);
    LayersAtLeast(e, s.profile.gpuFree, s.model.layers, c.place, n);
    ShareFits(n, s.model.weightMb, s.model.layers, room);
    assert n * s.model.weightMb >= 1;
    if room < 0 {
      MulIsMonotone(room, -1, s.model.layers);
    }
  }

  /** Where everything stands in a judged offload placement: the weights of the GPU layers,
      rounded up, and the fixed overheads on the first GPU alone, the cache where the
      combination says, the rest of the weights in RAM. */
  lemma OffloadPlacementMeaning(s: Setting, c: Combo)
    requires ProperModel(s.model) && s.backend == GpuOffload && s.profile.gpuFree != []
    ensures var placement, kv := Candidate(s, c), KvMb(s.model, c.cache, c.context, c.parallel);
            var n, weight, layers := placement.gpuLayers.value, s.model.weightMb, s.model.layers;
            && |placement.vram| == |s.profile.gpuFree|
            && n * weight <= placement.vram[0].weights * layers < n * weight + layers
            && placement.vram[0].overhead == 512 && placement.vram[0].cuda == 1500
            && placement.vram[0].kv == (if c.place == InVram then kv else 0)
            && (forall i: nat :: 1 <= i < |placement.vram| ==> placement.RequiredVram(i) == 0)
            && placement.ram == RamParts(weight - placement.vram[0].weights, if c.place == InRam then kv else 0, 512)
  {
    var e := EstimateMemory(s.model, c.cache, c.context, c.parallel);
    var n := JudgedLayers(e, s.profile, s.model.layers, c.place);
    CandidateIsPlacedLayers(e, s.profile, s.model.layers, c.place);
    WeightIsMonotone(e, s.model.layers, n, n);
    WeightRoundsUp(e, s.model.layers, n);
  }

  lemma WeightRoundsUp(e: Estimate, layers: nat, n: nat)
    requires layers >= 1 && n <= layers
    ensures n * e.weightMb <= WeightOf(e, layers, n) * layers < n * e.weightMb + layers
  {
    var a := n * e.weightMb;
    CeilAtMost(a, layers, WeightOf(e, layers, n));
    CeilAtMost(a, layers, WeightOf(e, layers, n) - 1);
    assert (WeightOf(e, layers, n) - 1) * layers == WeightOf(e, layers, n) * layers - layers;
  }

  lemma CpuPlacementMeaning(s: Setting, c: Combo)
    requires ProperModel(s.model) && s.backend == Cpu
    ensures var placement, kv := Candidate(s, c), KvMb(s.model, c.cache, c.context, c.parallel);
            && placement.ram == RamParts(s.model.weightMb, kv, 512) && placement.gpuLayers == Some(0)
            && |placement.vram| == |s.profile.gpuTotal|
            && forall i: nat :: i < |placement.vram| ==> placement.RequiredVram(i) == 0
  {
  }

  /** The plan built when nothing fits: one sequence of 4096 tokens with the full cache, in VRAM
      when there is an offload backend, and no forced layer. */
  lemma DiagnosticMeaning(s: Setting)
    requires ProperModel(s.model)
    ensures var e := Estimate(s.model.weightMb, KvMb(s.model, F16, 4096, 1));
            var result := DiagnosticPlan(s);
            && result.Diagnostic?
            && (s.backend == Cpu ==> result.placement.ram == RamParts(e.weightMb, e.kvMb, 512))
            && (s.backend == GpuOffload && s.profile.gpuFree != [] ==>
                  && Conserves(result.placement, e)
                  && result.placement.vram[0].kv == e.kvMb && result.placement.ram.kv == 0)
            && Rank(result.status) >= Rank(DiskStatus(s.model, s.profile))
            && Rank(result.status) >= Rank(PoolStatus(result.placement.RequiredRam(), PlanningRam(s.profile)))
  {
    var e := EstimateMemory(s.model, F16, 4096, 1);
    var placement := DiagnosticPlan(s).placement;
    OffloadConservesIffGpu(e, s.profile, s.model.layers, InVram, None);
    WorstPoolMeaning(placement, s.profile, |placement.vram|);
  }
}
