/** Memory estimates, placements and fit of the runtime planner.

    Megabytes are integers as in the source; the factors 1.25 and 1.15, the cost of
    one layer and the KV cache are exact rationals, multiplied out. */
module Planner {
  import opened Options

  const CPU_RUNTIME_OVERHEAD_MB := 512
  const GPU_RUNTIME_OVERHEAD_MB := 512
  const CUDA_CONTEXT_OVERHEAD_MB := 1500

  datatype Status = Fit | Risky | NoFit

  datatype Cache = F16 | Q8 | Q4

  datatype KvPlace = InVram | InRam

  datatype Backend = Cpu | GpuOffload

  /** `kvUnit` is layers * KV heads * head dimension. */
  datatype Model = Model(weightMb: nat, layers: nat, kvUnit: nat, maxContext: int, diskRequiredMb: Option<nat>)

  datatype Profile = Profile(
    ramMb: int,
    containerLimitMb: int,
    gpuTotal: seq<int>,
    gpuFree: seq<int>,
    diskFreeMb: int,
    contextCap: int,
    kvOffloadSupported: bool)

  datatype Estimate = Estimate(weightMb: nat, kvMb: nat)

  datatype RamParts = RamParts(weights: int, kv: int, overhead: int)
  datatype VramParts = VramParts(weights: int, kv: int, overhead: int, cuda: int)

  datatype Placement = Placement(ram: RamParts, vram: seq<VramParts>, gpuLayers: Option<int>) {
    function RequiredRam(): int {
      ram.weights + ram.kv + ram.overhead
    }

    function RequiredVram(gpu: nat): int
      requires gpu < |vram|
    {
      vram[gpu].weights + vram[gpu].kv + vram[gpu].overhead + vram[gpu].cuda
    }
  }

  /** The planner divides by the weight of one layer. */
  predicate ProperModel(m: Model) {
    m.weightMb > 0 && m.layers >= 1
  }

  // ---------- Estimates ----------

  /** Bytes per cached key and value together, as 2 + 2, 1 + 1 and 0.5 + 0.5. */
  function CacheBytes(c: Cache): nat {
    match c case F16 => 4 case Q8 => 2 case Q4 => 1
  }

  /** Python's `round`: to the nearest integer, halves to the even one. */
  function RoundHalfEven(n: nat, d: nat): nat
    requires d > 0
  {
    var q, r := n / d, n % d;
    if 2 * r < d || (2 * r == d && q % 2 == 0) then q else q + 1
  }

  /** Rounded, but at least one. */
  function BytesToMb(bytes: nat): nat {
    var mb := RoundHalfEven(bytes, 1024 * 1024);
    if mb < 1 then 1 else mb
  }

  function KvMb(m: Model, c: Cache, context: nat, parallel: nat): nat {
    BytesToMb(m.kvUnit * CacheBytes(c) * context * parallel)
  }

  function EstimateMemory(m: Model, c: Cache, context: nat, parallel: nat): Estimate {
    Estimate(m.weightMb, KvMb(m, c, context, parallel))
  }

  lemma MulIsMonotone(a: int, b: int, c: nat)
    requires a <= b
    ensures a * c <= b * c
  {
  }

  /** `x <= a / d` exactly when `x * d <= a`. */
  lemma FloorAtLeast(a: nat, d: nat, x: int)
    requires d > 0
    ensures x <= a / d <==> x * d <= a
  {
    var q := a / d;
    assert a == q * d + a % d;
    if x <= q {
      MulIsMonotone(x, q, d);
    } else {
      MulIsMonotone(q + 1, x, d);
      assert (q + 1) * d == q * d + d;
    }
  }

  /** `ceil(a / d) <= x` exactly when `a <= x * d`. */
  lemma CeilAtMost(a: nat, d: nat, x: int)
    requires d > 0
    ensures (a + d - 1) / d <= x <==> a <= x * d
  {
    FloorAtLeast(a + d - 1, d, x + 1);
    assert (x + 1) * d == x * d + d;
  }

  lemma RoundIsMonotone(a: nat, b: nat, d: nat)
    requires d > 0 && a <= b
    ensures RoundHalfEven(a, d) <= RoundHalfEven(b, d)
  {
    FloorAtLeast(a, d, a / d);
    FloorAtLeast(b, d, a / d);
    var p, q := a / d, b / d;
    assert p <= q;
    assert a == p * d + a % d && b == q * d + b % d;
    if p == q {
      assert a % d <= b % d;
    }
  }

  lemma BytesToMbIsMonotone(a: nat, b: nat)
    requires a <= b
    ensures BytesToMb(a) <= BytesToMb(b)
  {
    RoundIsMonotone(a, b, 1024 * 1024);
  }

  lemma KvIsMonotone(m: Model, c: Cache, context: nat, few: nat, many: nat)
    requires few <= many
    ensures KvMb(m, c, context, few) <= KvMb(m, c, context, many)
  {
    var unit := m.kvUnit * CacheBytes(c) * context;
    MulIsMonotone(few, many, unit);
    BytesToMbIsMonotone(unit * few, unit * many);
  }

  // ---------- Placements ----------

  const NO_VRAM := VramParts(0, 0, 0, 0)

  function PlaceCpu(e: Estimate, gpuCount: nat): Placement {
    Placement(RamParts(e.weightMb, e.kvMb, CPU_RUNTIME_OVERHEAD_MB), seq(gpuCount, _ => NO_VRAM), Some(0))
  }

  function SplitEvenly(total: nat, count: nat): seq<nat> {
    if count == 0 then [] else seq(count, i => total / count + if i < total % count then 1 else 0)
  }

  function PlaceVllm(e: Estimate, gpuCount: nat): Placement {
    Placement(
      RamParts(0, 0, CPU_RUNTIME_OVERHEAD_MB),
      seq(gpuCount, i requires 0 <= i < gpuCount =>
        VramParts(SplitEvenly(e.weightMb, gpuCount)[i], SplitEvenly(e.kvMb, gpuCount)[i],
                  GPU_RUNTIME_OVERHEAD_MB, CUDA_CONTEXT_OVERHEAD_MB)),
      None)
  }

  function Max(a: int, b: int): int {
    if a < b then b else a
  }

  function Min(a: int, b: int): int {
    if a < b then a else b
  }

  /** `math.floor(free / 1.25)` for the first GPU. */
  function SafeCapacity(free: seq<int>): int {
    if free == [] then 0 else 4 * free[0] / 5
  }

  function FixedVram(e: Estimate, place: KvPlace): int {
    GPU_RUNTIME_OVERHEAD_MB + CUDA_CONTEXT_OVERHEAD_MB + if place.InVram? then e.kvMb else 0
  }

  /** How many layers fit beside the fixed part, between 0 and all. */
  function UnforcedLayers(e: Estimate, free: seq<int>, layers: nat, place: KvPlace): int
    requires e.weightMb > 0
  {
    Max(0, Min(layers, Max(0, SafeCapacity(free) - FixedVram(e, place)) * layers / e.weightMb))
  }

  /** Weight of the first `onGpu` layers, rounded up. */
  function WeightOf(e: Estimate, layers: nat, onGpu: int): int
    requires layers >= 1
  {
    if onGpu == layers then e.weightMb else (onGpu * e.weightMb + layers - 1) / layers
  }

  function PlaceLayers(e: Estimate, free: seq<int>, layers: nat, place: KvPlace, onGpu: int): Placement
    requires layers >= 1
  {
    var weightVram := WeightOf(e, layers, onGpu);
    var gpu0 := VramParts(weightVram, if place.InVram? then e.kvMb else 0, GPU_RUNTIME_OVERHEAD_MB,
                          CUDA_CONTEXT_OVERHEAD_MB);
    Placement(
      RamParts(Max(0, e.weightMb - weightVram), if place.InRam? then e.kvMb else 0, CPU_RUNTIME_OVERHEAD_MB),
      seq(|free|, i => if i == 0 then gpu0 else NO_VRAM),
      Some(onGpu))
  }

  /** `_place_llamacpp_gpu`; `force` is the forced layer count, if any. */
  function PlaceLlamaCppGpu(e: Estimate, free: seq<int>, layers: nat, place: KvPlace, force: Option<int>): Placement
    requires e.weightMb > 0 && layers >= 1
  {
    var onGpu := if force.Some? then Max(0, Min(layers, force.value)) else UnforcedLayers(e, free, layers, place);
    PlaceLayers(e, free, layers, place, onGpu)
  }

  /** The placement the planner judges: an empty GPU share becomes one forced layer. */
  function PlaceCandidate(e: Estimate, p: Profile, layers: nat, backend: Backend, place: KvPlace): Placement
    requires e.weightMb > 0 && layers >= 1
  {
    if backend.Cpu? then PlaceCpu(e, |p.gpuTotal|)
    else
      var placement := PlaceLlamaCppGpu(e, p.gpuFree, layers, place, None);
      if placement.gpuLayers == Some(0) then PlaceLlamaCppGpu(e, p.gpuFree, layers, place, Some(1)) else placement
  }

  // ---------- Fit ----------

  function PlanningRam(p: Profile): int {
    if p.containerLimitMb > 0 then Min(p.ramMb, p.containerLimitMb) else p.ramMb
  }

  /** One memory pool: 1.25 times the need should be there. */
  function PoolStatus(required: int, available: int): Status {
    if required > available then NoFit
    else if 5 * required > 4 * available then Risky
    else Fit
  }

  function Available(p: Profile, gpu: nat): int {
    if gpu < |p.gpuFree| then p.gpuFree[gpu] else 0
  }

  function DiskStatus(m: Model, p: Profile): Status {
    if m.diskRequiredMb.None? then Fit
    else if m.diskRequiredMb.value > p.diskFreeMb then NoFit
    else if 23 * m.diskRequiredMb.value > 20 * p.diskFreeMb then Risky
    else Fit
  }

  function Rank(s: Status): nat {
    match s case Fit => 0 case Risky => 1 case NoFit => 2
  }

  /** `_combine_status`: the worse of two verdicts. */
  function Combine(a: Status, b: Status): (r: Status)
    ensures Rank(r) == if Rank(a) < Rank(b) then Rank(b) else Rank(a)
  {
    if a.NoFit? || b.NoFit? then NoFit else if a.Risky? || b.Risky? then Risky else Fit
  }

  /** The worst verdict over the RAM pool and the first `gpus` GPUs. */
  function WorstPool(placement: Placement, p: Profile, gpus: nat): Status
    requires gpus <= |placement.vram|
  {
    if gpus == 0 then PoolStatus(placement.RequiredRam(), PlanningRam(p))
    else Combine(WorstPool(placement, p, gpus - 1),
                 PoolStatus(placement.RequiredVram(gpus - 1), Available(p, gpus - 1)))
  }

  /** `_pool_fit`: collects hard and risky reasons pool by pool. */
  method PoolFit(placement: Placement, p: Profile) returns (status: Status)
    ensures status == WorstPool(placement, p, |placement.vram|)
  {
    var hardReasons, riskyReasons := 0, 0;
    var availableRam := PlanningRam(p);
    if placement.RequiredRam() > availableRam {
      hardReasons := hardReasons + 1;
    } else if 5 * placement.RequiredRam() > 4 * availableRam {
      riskyReasons := riskyReasons + 1;
    }
    for gpu := 0 to |placement.vram|
      invariant hardReasons >= 0 && riskyReasons >= 0
      invariant WorstPool(placement, p, gpu)
             == if hardReasons > 0 then NoFit else if riskyReasons > 0 then Risky else Fit
    {
      var required, available := placement.RequiredVram(gpu), Available(p, gpu);
      if required > available {
        hardReasons := hardReasons + 1;
      } else if 5 * required > 4 * available {
        riskyReasons := riskyReasons + 1;
      }
    }
    status := if hardReasons > 0 then NoFit else if riskyReasons > 0 then Risky else Fit;
  }

  /** Fit means every pool has its headroom; anything else names an offending pool. */
  lemma {:induction false} WorstPoolMeaning(placement: Placement, p: Profile, gpus: nat)
    requires gpus <= |placement.vram|
    ensures WorstPool(placement, p, gpus) == Fit <==>
              && PoolStatus(placement.RequiredRam(), PlanningRam(p)) == Fit
              && forall i: nat :: i < gpus ==> PoolStatus(placement.RequiredVram(i), Available(p, i)) == Fit
    ensures WorstPool(placement, p, gpus) == NoFit <==>
              || PoolStatus(placement.RequiredRam(), PlanningRam(p)) == NoFit
              || exists i: nat :: i < gpus && PoolStatus(placement.RequiredVram(i), Available(p, i)) == NoFit
  {
    if gpus > 0 {
      WorstPoolMeaning(placement, p, gpus - 1);
    }
  }

  // ---------- Layer arithmetic ----------

  /** More layers weigh more, all of them exactly the model. */
  lemma WeightIsMonotone(e: Estimate, layers: nat, few: nat, many: nat)
    requires layers >= 1 && few <= many <= layers
    ensures 0 <= WeightOf(e, layers, few) <= WeightOf(e, layers, many) <= e.weightMb
  {
    var w := e.weightMb;
    MulIsMonotone(few, many, w);
    MulIsMonotone(many, layers, w);
    CeilAtMost(many * w, layers, w);
    var top := if many == layers then w else (many * w + layers - 1) / layers;
    CeilAtMost(many * w, layers, top);
    CeilAtMost(few * w, layers, top);
  }

  /** The first layer has a positive weight that is no less than its exact share. */
  lemma OneLayerWeighs(e: Estimate, layers: nat, x: int)
    requires layers >= 1 && e.weightMb > 0
    ensures WeightOf(e, layers, 1) <= x <==> e.weightMb <= x * layers
  {
    CeilAtMost(e.weightMb, layers, x);
  }

  function Room(e: Estimate, free: seq<int>, place: KvPlace): nat {
    Max(0, SafeCapacity(free) - FixedVram(e, place))
  }

  /** The layer count is at least `n` exactly when `n` layers' exact share fits. */
  lemma LayersAtLeast(e: Estimate, free: seq<int>, layers: nat, place: KvPlace, n: nat)
    requires e.weightMb > 0 && n <= layers
    ensures n <= UnforcedLayers(e, free, layers, place) <==> n * e.weightMb <= Room(e, free, place) * layers
    ensures 0 <= UnforcedLayers(e, free, layers, place) <= layers
  {
    FloorAtLeast(Room(e, free, place) * layers, e.weightMb, n);
  }

  /** A larger KV cache leaves room for no more layers. */
  lemma LayersAreAntitone(small: Estimate, large: Estimate, free: seq<int>, layers: nat, place: KvPlace)
    requires 0 < small.weightMb == large.weightMb && small.kvMb <= large.kvMb
    ensures 0 <= UnforcedLayers(large, free, layers, place) <= UnforcedLayers(small, free, layers, place) <= layers
  {
    LayersAtLeast(large, free, layers, place, 0);
    var n := UnforcedLayers(large, free, layers, place);
    LayersAtLeast(large, free, layers, place, n);
    LayersAtLeast(small, free, layers, place, n);
    MulIsMonotone(Room(large, free, place), Room(small, free, place), layers);
  }

  /** `n` layers stay within the room exactly when their exact share does. */
  lemma WeightWithin(e: Estimate, layers: nat, n: nat, x: int)
    requires layers >= 1 && n <= layers
    ensures WeightOf(e, layers, n) <= x <==> n * e.weightMb <= x * layers
  {
    if n == layers {
      if e.weightMb <= x {
        MulIsMonotone(e.weightMb, x, layers);
      } else {
        MulIsMonotone(x + 1, e.weightMb, layers);
        assert (x + 1) * layers == x * layers + layers;
      }
      assert n * e.weightMb == e.weightMb * layers;
    } else {
      CeilAtMost(n * e.weightMb, layers, x);
    }
  }

  /** An unforced placement with a layer on the GPU keeps within the safe capacity of
      GPU 0, and one more layer would leave it unless all layers are placed. */
  lemma UnforcedIsSafeAndMaximal(e: Estimate, free: seq<int>, layers: nat, place: KvPlace)
    requires e.weightMb > 0 && layers >= 1
    ensures var n := UnforcedLayers(e, free, layers, place);
            && 0 <= n <= layers
            && (n >= 1 ==> WeightOf(e, layers, n) + FixedVram(e, place) <= SafeCapacity(free))
            && (n < layers ==> WeightOf(e, layers, n + 1) + FixedVram(e, place) > SafeCapacity(free))
  {
    LayersAtLeast(e, free, layers, place, 0);
    var n := UnforcedLayers(e, free, layers, place);
    var room := Room(e, free, place);
    LayersAtLeast(e, free, layers, place, n);
    WeightWithin(e, layers, n, room);
    if n >= 1 {
      WeightWithin(e, layers, n, 0);
      assert n * e.weightMb >= 1;
    }
    if n < layers {
      LayersAtLeast(e, free, layers, place, n + 1);
      WeightWithin(e, layers, n + 1, room);
    }
  }

  /** What that means for the verdict on GPU 0: unforced layers always leave the 25%
      headroom, and a layer forced after an empty share never does. */
  lemma FirstGpuVerdict(e: Estimate, p: Profile, layers: nat, place: KvPlace)
    requires e.weightMb > 0 && layers >= 1 && p.gpuFree != []
    ensures var unforced := PlaceLlamaCppGpu(e, p.gpuFree, layers, place, None);
            var forced := PlaceLlamaCppGpu(e, p.gpuFree, layers, place, Some(1));
            if unforced.gpuLayers.value >= 1
            then PoolStatus(unforced.RequiredVram(0), Available(p, 0)) == Fit
            else PoolStatus(forced.RequiredVram(0), Available(p, 0)) != Fit
  {
    UnforcedIsSafeAndMaximal(e, p.gpuFree, layers, place);
    WeightIsMonotone(e, layers, 1, 1);
    OneLayerWeighs(e, layers, 0);
  }
}
