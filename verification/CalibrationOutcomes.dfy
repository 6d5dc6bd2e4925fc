/** Which measured steps are accepted and which concurrency is selected, said of the measured
    figures and the presets' numbers alone. */
module CalibrationOutcomes {
  import opened Options
  import opened StableSort
  import opened Calibration

  // ---------- The budgets ----------

  function TtftBudget(p: Preset): real {
    if p == Speed then 1.15 else if p == Balanced then 1.35 else 1.25
  }

  function TotalBudget(p: Preset): real {
    if p == Speed then 1.2 else if p == Balanced then 1.4 else 1.3
  }

  /** What the throughput of the step before is multiplied with. */
  function RequiredGrowth(p: Preset): real {
    if p == Speed then 1.1 else 1.08
  }

  predicate Measured(v: Option<real>) {
    v.Some? && v.value > 0.0
  }

  /** `now` is measured and larger than `factor` times the measured `base`. */
  predicate Over(now: Option<real>, factor: real, base: Option<real>) {
    Measured(now) && Measured(base) && !AtMostTimes(now.value, factor, base.value)
  }

  predicate Under(now: Option<real>, factor: real, base: Option<real>) {
    Measured(now) && Measured(base) && !AtLeastTimes(now.value, factor, base.value)
  }

  /** Step `k` of the sorted steps is broken, over a budget of the first step, or does not grow
      enough over the step before it. */
  function Objections(preset: Preset, sorted: seq<Step>, k: nat): Reasons
    requires k < |sorted|
  {
    var s, loaded := sorted[k], k > 0 && sorted[k].concurrency > 1;
    Reasons(s.failed != 0,
            !(s.metricsComplete && Measured(s.throughput)),
            !(Measured(s.ttft) && Measured(s.total)),
            !Measured(s.tpot),
            loaded && Over(s.ttft, TtftBudget(preset), sorted[0].ttft),
            loaded && Over(s.total, TotalBudget(preset), sorted[0].total),
            loaded && Under(s.throughput, RequiredGrowth(preset), sorted[k - 1].throughput))
  }

  /** The step is whole, within both budgets and grew enough; the first step, and one of no
      more concurrency than one, has nothing to keep to. */
  predicate Acceptable(preset: Preset, sorted: seq<Step>, k: nat)
    requires k < |sorted|
  {
    var s := sorted[k];
    && s.failed == 0 && s.metricsComplete
    && Measured(s.throughput) && Measured(s.ttft) && Measured(s.total) && Measured(s.tpot)
    && (k > 0 && s.concurrency > 1 ==>
          && !Over(s.ttft, TtftBudget(preset), sorted[0].ttft)
          && !Over(s.total, TotalBudget(preset), sorted[0].total)
          && !Under(s.throughput, RequiredGrowth(preset), sorted[k - 1].throughput))
  }

  // ---------- Ratios and products ----------

  lemma RatioOver(x: real, y: real, limit: real)
    requires y > 0.0
    ensures x / y > limit <==> !AtMostTimes(x, limit, y)
  {
    assert x == (x / y) * y;
  }

  lemma ExceedsIsOver(now: Option<real>, base: Option<real>, limit: real)
    ensures Exceeds(now, base, limit) <==> Over(now, limit, base)
  {
    if Measured(now) && Measured(base) {
      RatioOver(now.value, base.value, limit);
    }
  }

  lemma RatioUnder(x: real, y: real, growth: real)
    requires y > 0.0
    ensures x / y - 1.0 < growth - 1.0 <==> !AtLeastTimes(x, growth, y)
  {
    assert x == (x / y) * y;
  }

  lemma JudgeMeaning(preset: Preset, sorted: seq<Step>, k: nat)
    requires k < |sorted| && (k == 0 ==> sorted[0].concurrency == 1)
    ensures Judge(PolicyOf(preset), sorted[0], LastThroughput(None, sorted[..k]), sorted[k])
         == Objections(preset, sorted, k)
  {
    var s, policy := sorted[k], PolicyOf(preset);
    ExceedsIsOver(s.ttft, sorted[0].ttft, policy.maxTtftRatio);
    ExceedsIsOver(s.total, sorted[0].total, policy.maxTotalRatio);
    if k > 0 {
      assert sorted[..k][k - 1] == sorted[k - 1];
      if Measured(s.throughput) && Measured(sorted[k - 1].throughput) {
        RatioUnder(s.throughput.value, sorted[k - 1].throughput.value, RequiredGrowth(preset));
      }
    }
  }

  // ---------- Decisions ----------

  /** Some step has concurrency one, and none has less. */
  ghost predicate HasBaseline(steps: seq<Step>) {
    && (exists s :: s in steps && s.concurrency == 1)
    && forall s :: s in steps ==> s.concurrency >= 1
  }

  /** Errors come of an empty list and of a smallest concurrency other than one. */
  lemma SelectErrors(steps: seq<Step>, preset: Preset)
    ensures Select(steps, preset) == Err(NoSteps) <==> steps == []
    ensures Select(steps, preset) == Err(NoBaseline)
       <==> steps != [] && !HasBaseline(steps)
  {
    if steps != [] {
      LeastComesFirst(steps);
    }
  }

  lemma LeastComesFirst(steps: seq<Step>)
    requires steps != []
    ensures InOrder(steps) != [] && InOrder(steps)[0] in steps
    ensures forall x :: x in steps ==> x.concurrency >= InOrder(steps)[0].concurrency
  {
    var sorted, tie := InOrder(steps), (a: Step, b: Step) => true;
    SortedElements(steps, ConcurrencyKey, false);
    SortedIsOrdered(steps, ConcurrencyKey, false, tie);
    assert sorted[0] in multiset(sorted);
    forall x | x in steps ensures x.concurrency >= sorted[0].concurrency {
      assert x in multiset(sorted);
      var i :| 0 <= i < |sorted| && sorted[i] == x;
      if i > 0 {
        assert MayPrecede(sorted[0], sorted[i], ConcurrencyKey, false, tie);
      }
    }
  }

  /** The decisions go through the steps by concurrency; each reports just what speaks against
      its step, and they stop at the first step turned down. */
  lemma DecisionMeaning(steps: seq<Step>, preset: Preset, k: nat)
    requires Select(steps, preset).Ok? && k < |Select(steps, preset).value.decisions|
    ensures var (sorted, ds) := (InOrder(steps), Select(steps, preset).value.decisions);
            && |ds| <= |sorted| == |steps|
            && ds[k] == Decision(sorted[k].concurrency, Acceptable(preset, sorted, k), Objections(preset, sorted, k))
            && (k < |ds| - 1 ==> ds[k].accepted)
            && (k == |ds| - 1 && ds[k].accepted ==> |ds| == |sorted|)
  {
    var sorted, policy := InOrder(steps), PolicyOf(preset);
    SelectionIsDecided(steps, preset);
    SortedElements(steps, ConcurrencyKey, false);
    OnlyLastTurnedDown(policy, sorted[0], None, sorted);
    DecisionAt(policy, sorted[0], None, sorted, k);
    JudgeMeaning(preset, sorted, k);
    var ds := Decide(policy, sorted[0], None, sorted);
    if k == |ds| - 1 && ds[k].accepted {
      AllDecided(policy, sorted[0], None, sorted);
    }
  }

  lemma {:induction false} AllDecided(policy: Policy, baseline: Step, previous: Option<real>, steps: seq<Step>)
    requires previous.Some? ==> previous.value > 0.0
    requires var ds := Decide(policy, baseline, previous, steps); ds == [] || ds[|ds| - 1].accepted
    ensures |Decide(policy, baseline, previous, steps)| == |steps|
    decreases steps
  {
    if steps != [] {
      var ds := Decide(policy, baseline, previous, steps);
      var rest := Decide(policy, baseline, Positive(steps[0].throughput), steps[1..]);
      assert ds[0].accepted;
      assert ds == [ds[0]] + rest;
      assert rest != [] ==> rest[|rest| - 1] == ds[|ds| - 1];
      AllDecided(policy, baseline, Positive(steps[0].throughput), steps[1..]);
    }
  }

  /** The longest run of acceptable steps from the start has `n` of them. */
  ghost predicate AcceptableUpTo(preset: Preset, sorted: seq<Step>, n: nat) {
    && n <= |sorted| && (forall k :: 0 <= k < n ==> Acceptable(preset, sorted, k))
    && (n < |sorted| ==> !Acceptable(preset, sorted, n))
  }

  /** The concurrency selected is that of the last step before the first unacceptable one, and
      one if not even the first step is acceptable. */
  lemma SelectedConcurrency(steps: seq<Step>, preset: Preset, n: nat)
    requires Select(steps, preset).Ok? && AcceptableUpTo(preset, InOrder(steps), n)
    ensures Select(steps, preset).value.concurrency == if n == 0 then 1 else InOrder(steps)[n - 1].concurrency
    ensures |Select(steps, preset).value.decisions| == if n < |steps| then n + 1 else n
  {
    var sorted, ds := InOrder(steps), Select(steps, preset).value.decisions;
    SelectionIsDecided(steps, preset);
    SortedElements(steps, ConcurrencyKey, false);
    assert ds != [];
    var last := |ds| - 1;
    DecisionMeaning(steps, preset, last);
    forall k | 0 <= k < last ensures Acceptable(preset, sorted, k) {
      DecisionMeaning(steps, preset, k);
    }
    assert n == if ds[last].accepted then |ds| else last;
    if !ds[last].accepted && last > 0 {
      DecisionMeaning(steps, preset, last - 1);
    }
    assert Select(steps, preset).value.concurrency == LastAccepted(ds);
  }
}
