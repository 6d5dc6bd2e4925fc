/** Placements conserve memory, and a larger KV cache never gets a better verdict. */
module PlannerProperties {
  import opened Options
  import opened Planner

  // ---------- Conservation ----------

  function TotalVram(vram: seq<VramParts>): VramParts {
    if vram == [] then NO_VRAM
    else
      var t, v := TotalVram(vram[..|vram| - 1]), vram[|vram| - 1];
      VramParts(t.weights + v.weights, t.kv + v.kv, t.overhead + v.overhead, t.cuda + v.cuda)
  }

  /** RAM and VRAM together hold the weights and the KV cache exactly once. */
  predicate Conserves(placement: Placement, e: Estimate) {
    && placement.ram.weights + TotalVram(placement.vram).weights == e.weightMb
    && placement.ram.kv + TotalVram(placement.vram).kv == e.kvMb
  }

  lemma {:induction false} EmptyGpusAddNothing(vram: seq<VramParts>)
    requires forall i :: 0 <= i < |vram| ==> vram[i] == NO_VRAM
    ensures TotalVram(vram) == NO_VRAM
  {
    if vram != [] {
      EmptyGpusAddNothing(vram[..|vram| - 1]);
    }
  }

  lemma {:induction false} OnlyFirstGpuCounts(vram: seq<VramParts>)
    requires vram != [] && forall i :: 1 <= i < |vram| ==> vram[i] == NO_VRAM
    ensures TotalVram(vram) == vram[0]
  {
    if |vram| > 1 {
      OnlyFirstGpuCounts(vram[..|vram| - 1]);
    } else {
      assert vram[..0] == [];
    }
  }

  /** CPU placement: everything is in RAM. */
  lemma CpuConserves(e: Estimate, gpuCount: nat)
    ensures Conserves(PlaceCpu(e, gpuCount), e)
    ensures PlaceCpu(e, gpuCount).RequiredRam() == e.weightMb + e.kvMb + CPU_RUNTIME_OVERHEAD_MB
  {
    EmptyGpusAddNothing(PlaceCpu(e, gpuCount).vram);
  }

  /** Partial offload: despite rounding up and clamping, the two shares add up -- exactly
      when there is a GPU to hold the share that leaves RAM, or none is asked to leave. */
  lemma OffloadConservesIffGpu(e: Estimate, p: Profile, layers: nat, place: KvPlace, force: Option<int>)
    requires e.weightMb > 0 && e.kvMb > 0 && layers >= 1
    requires force.Some? ==> force.value >= 1
    ensures var placement := PlaceLlamaCppGpu(e, p.gpuFree, layers, place, force);
            Conserves(placement, e) <==> p.gpuFree != [] || (place.InRam? && force.None?)
    ensures var placement := PlaceLlamaCppGpu(e, p.gpuFree, layers, place, force);
            p.gpuFree != [] ==>
              placement.RequiredRam() + placement.RequiredVram(0) ==
                e.weightMb + e.kvMb + CPU_RUNTIME_OVERHEAD_MB + GPU_RUNTIME_OVERHEAD_MB + CUDA_CONTEXT_OVERHEAD_MB
  {
    var placement := PlaceLlamaCppGpu(e, p.gpuFree, layers, place, force);
    var n := placement.gpuLayers.value;
    LayersAtLeast(e, p.gpuFree, layers, place, 0);
    WeightIsMonotone(e, layers, n, n);
    WeightWithin(e, layers, n, 0);
    if n >= 1 {
      assert n * e.weightMb >= 1;
    } else {
      assert n * e.weightMb == 0;
    }
    if p.gpuFree == [] {
      EmptyGpusAddNothing(placement.vram);
    } else {
      OnlyFirstGpuCounts(placement.vram);
    }
  }

  // ---------- Even split ----------

  function Sum(xs: seq<int>): int {
    if xs == [] then 0 else Sum(xs[..|xs| - 1]) + xs[|xs| - 1]
  }

  lemma {:induction false} SumOfShares(total: nat, count: nat, n: nat)
    requires n <= count && count > 0
    ensures Sum(SplitEvenly(total, count)[..n]) == n * (total / count) + Min(n, total % count)
  {
    var shares := SplitEvenly(total, count);
    if n > 0 {
      SumOfShares(total, count, n - 1);
      assert shares[..n][..n - 1] == shares[..n - 1];
      assert n * (total / count) == (n - 1) * (total / count) + total / count;
    }
  }

  lemma {:induction false} SumIsAtMost(xs: seq<int>, bound: int)
    requires forall i :: 0 <= i < |xs| ==> xs[i] <= bound
    ensures Sum(xs) <= |xs| * bound
  {
    if xs != [] {
      SumIsAtMost(xs[..|xs| - 1], bound);
      assert |xs| * bound == (|xs| - 1) * bound + bound;
    }
  }

  /** The shares add up to the total. */
  lemma SplitSumsToTotal(total: nat, count: nat)
    requires count > 0
    ensures |SplitEvenly(total, count)| == count && Sum(SplitEvenly(total, count)) == total
  {
    SumOfShares(total, count, count);
    assert SplitEvenly(total, count)[..count] == SplitEvenly(total, count);
    assert total == count * (total / count) + total % count;
  }

  /** No other integer split has a smaller largest share. */
  lemma SplitIsFairest(total: nat, count: nat, other: seq<int>, bound: int, i: nat)
    requires count > 0 && |other| == count && Sum(other) == total && i < count
    requires forall k :: 0 <= k < count ==> other[k] <= bound
    ensures SplitEvenly(total, count)[i] <= bound
  {
    SumIsAtMost(other, bound);
    var q, r := total / count, total % count;
    assert total == q * count + r;
    assert total <= bound * count;
    FloorAtLeast(total, count, q);
    if bound < q {
      MulIsMonotone(bound, q - 1, count);
      assert false;
    }
    if bound == q {
      assert r == 0;
    }
  }

  lemma {:induction false} VllmTotals(e: Estimate, gpuCount: nat, n: nat)
    requires n <= gpuCount
    ensures var t := TotalVram(PlaceVllm(e, gpuCount).vram[..n]);
            && t.weights == Sum(SplitEvenly(e.weightMb, gpuCount)[..n])
            && t.kv == Sum(SplitEvenly(e.kvMb, gpuCount)[..n])
            && t.overhead == n * GPU_RUNTIME_OVERHEAD_MB && t.cuda == n * CUDA_CONTEXT_OVERHEAD_MB
  {
    if n > 0 {
      VllmTotals(e, gpuCount, n - 1);
      var vram, w, k := PlaceVllm(e, gpuCount).vram, SplitEvenly(e.weightMb, gpuCount), SplitEvenly(e.kvMb, gpuCount);
      assert vram[..n][..n - 1] == vram[..n - 1] && w[..n][..n - 1] == w[..n - 1] && k[..n][..n - 1] == k[..n - 1];
    }
  }

  function SumOfVram(placement: Placement, gpus: nat): int
    requires gpus <= |placement.vram|
  {
    if gpus == 0 then 0 else SumOfVram(placement, gpus - 1) + placement.RequiredVram(gpus - 1)
  }

  lemma {:induction false} SumOfVramIsTotal(placement: Placement, gpus: nat)
    requires gpus <= |placement.vram|
    ensures var t := TotalVram(placement.vram[..gpus]);
            SumOfVram(placement, gpus) == t.weights + t.kv + t.overhead + t.cuda
  {
    if gpus > 0 {
      SumOfVramIsTotal(placement, gpus - 1);
      assert placement.vram[..gpus][..gpus - 1] == placement.vram[..gpus - 1];
    }
  }

  /** vLLM: the GPUs together hold everything, and RAM and VRAM add up to weights, cache
      and the fixed overheads, those of a GPU once for each. */
  lemma VllmConserves(e: Estimate, gpuCount: nat)
    requires gpuCount > 0
    ensures Conserves(PlaceVllm(e, gpuCount), e)
    ensures PlaceVllm(e, gpuCount).RequiredRam() + SumOfVram(PlaceVllm(e, gpuCount), gpuCount)
         == e.weightMb + e.kvMb + CPU_RUNTIME_OVERHEAD_MB
            + gpuCount * (GPU_RUNTIME_OVERHEAD_MB + CUDA_CONTEXT_OVERHEAD_MB)
  {
    var placement := PlaceVllm(e, gpuCount);
    VllmTotals(e, gpuCount, gpuCount);
    assert placement.vram[..gpuCount] == placement.vram;
    assert SplitEvenly(e.weightMb, gpuCount)[..gpuCount] == SplitEvenly(e.weightMb, gpuCount);
    assert SplitEvenly(e.kvMb, gpuCount)[..gpuCount] == SplitEvenly(e.kvMb, gpuCount);
    SplitSumsToTotal(e.weightMb, gpuCount);
    SplitSumsToTotal(e.kvMb, gpuCount);
    SumOfVramIsTotal(placement, gpuCount);
  }

  // ---------- A larger KV cache never gets a better verdict ----------

  lemma PoolIsMonotone(small: int, large: int, available: int)
    requires small <= large
    ensures Rank(PoolStatus(small, available)) <= Rank(PoolStatus(large, available))
  {
  }

  /** Pool by pool: the larger cache needs no less, or the pool had its headroom. */
  ghost predicate NoBetter(small: Placement, large: Placement, p: Profile) {
    && |small.vram| == |large.vram|
    && small.RequiredRam() <= large.RequiredRam()
    && forall i: nat :: i < |small.vram| ==>
         || small.RequiredVram(i) <= large.RequiredVram(i)
         || PoolStatus(small.RequiredVram(i), Available(p, i)) == Fit
  }

  lemma {:induction false} NoBetterVerdict(small: Placement, large: Placement, p: Profile, gpus: nat)
    requires NoBetter(small, large, p) && gpus <= |small.vram|
    ensures Rank(WorstPool(small, p, gpus)) <= Rank(WorstPool(large, p, gpus))
  {
    if gpus == 0 {
      PoolIsMonotone(small.RequiredRam(), large.RequiredRam(), PlanningRam(p));
    } else {
      NoBetterVerdict(small, large, p, gpus - 1);
    }
  }

  /** The number of GPU layers the planner judges. */
  function JudgedLayers(e: Estimate, p: Profile, layers: nat, place: KvPlace): nat
    requires e.weightMb > 0 && layers >= 1
    ensures JudgedLayers(e, p, layers, place) <= layers
  {
    LayersAtLeast(e, p.gpuFree, layers, place, 0);
    var n := UnforcedLayers(e, p.gpuFree, layers, place);
    if n == 0 then 1 else n
  }

  lemma CandidateIsPlacedLayers(e: Estimate, p: Profile, layers: nat, place: KvPlace)
    requires e.weightMb > 0 && layers >= 1
    ensures PlaceCandidate(e, p, layers, GpuOffload, place)
              == PlaceLayers(e, p.gpuFree, layers, place, JudgedLayers(e, p, layers, place))
  {
  }

  /** With the cache on the GPU a larger cache moves layers to RAM, so VRAM use can
      shrink; but then the smaller cache had its headroom on GPU 0. */
  lemma FirstGpuNoBetter(small: Estimate, large: Estimate, p: Profile, layers: nat, place: KvPlace)
    requires 0 < small.weightMb == large.weightMb && small.kvMb <= large.kvMb && layers >= 1 && p.gpuFree != []
    ensures var a := PlaceCandidate(small, p, layers, GpuOffload, place);
            var b := PlaceCandidate(large, p, layers, GpuOffload, place);
            a.RequiredVram(0) <= b.RequiredVram(0) || PoolStatus(a.RequiredVram(0), Available(p, 0)) == Fit
  {
    FirstGpuVerdict(small, p, layers, place);
    LayersAreAntitone(small, large, p.gpuFree, layers, place);
  }

  lemma OffloadNoBetter(small: Estimate, large: Estimate, p: Profile, layers: nat, place: KvPlace)
    requires 0 < small.weightMb == large.weightMb && small.kvMb <= large.kvMb && layers >= 1
    ensures NoBetter(PlaceCandidate(small, p, layers, GpuOffload, place),
                     PlaceCandidate(large, p, layers, GpuOffload, place), p)
  {
    var few, many := JudgedLayers(large, p, layers, place), JudgedLayers(small, p, layers, place);
    LayersAreAntitone(small, large, p.gpuFree, layers, place);
    WeightIsMonotone(small, layers, few, many);
    CandidateIsPlacedLayers(small, p, layers, place);
    CandidateIsPlacedLayers(large, p, layers, place);
    var a, b := PlaceLayers(small, p.gpuFree, layers, place, many), PlaceLayers(large, p.gpuFree, layers, place, few);
    assert WeightOf(large, layers, few) == WeightOf(small, layers, few);
    if p.gpuFree != [] {
      FirstGpuNoBetter(small, large, p, layers, place);
    }
    assert a.RequiredRam() <= b.RequiredRam();
  }

  function MemoryStatus(m: Model, p: Profile, backend: Backend, c: Cache, context: nat, place: KvPlace,
                        parallel: nat): Status
    requires ProperModel(m)
  {
    var placement := PlaceCandidate(EstimateMemory(m, c, context, parallel), p, m.layers, backend, place);
    WorstPool(placement, p, |placement.vram|)
  }

  /** Memory status never improves as parallelism grows. */
  lemma StatusIsMonotone(m: Model, p: Profile, backend: Backend, c: Cache, context: nat, place: KvPlace, few: nat,
                         many: nat)
    requires ProperModel(m) && few <= many
    ensures Rank(MemoryStatus(m, p, backend, c, context, place, few))
         <= Rank(MemoryStatus(m, p, backend, c, context, place, many))
  {
    KvIsMonotone(m, c, context, few, many);
    var small, large := EstimateMemory(m, c, context, few), EstimateMemory(m, c, context, many);
    var a, b := PlaceCandidate(small, p, m.layers, backend, place), PlaceCandidate(large, p, m.layers, backend, place);
    if backend.GpuOffload? {
      OffloadNoBetter(small, large, p, m.layers, place);
    }
    NoBetterVerdict(a, b, p, |a.vram|);
  }

  /** VRAM use itself is not monotone: a larger cache can push layers out to RAM and
      need less of the GPU. */
  lemma VramIsNotMonotone()
    ensures var m := Model(8000, 10, 65536, 8192, None);
            var p := Profile(64000, 0, [10000], [10000], 0, 16384, true);
            var one := PlaceCandidate(EstimateMemory(m, F16, 4096, 1), p, 10, GpuOffload, InVram);
            var two := PlaceCandidate(EstimateMemory(m, F16, 4096, 2), p, 10, GpuOffload, InVram);
            one.RequiredVram(0) == 7836 && two.RequiredVram(0) == 7260
  {
    var m := Model(8000, 10, 65536, 8192, None);
    var p := Profile(64000, 0, [10000], [10000], 0, 16384, true);
    assert KvMb(m, F16, 4096, 1) == 1024 && KvMb(m, F16, 4096, 2) == 2048;
    var one, two := Estimate(8000, 1024), Estimate(8000, 2048);
    assert UnforcedLayers(one, [10000], 10, InVram) == 6;
    assert UnforcedLayers(two, [10000], 10, InVram) == 4;
    CandidateIsPlacedLayers(one, p, 10, InVram);
    CandidateIsPlacedLayers(two, p, 10, InVram);
  }
}
