/** Choosing the serving concurrency from measured steps (`calibration.py`) and the
    measuring loop of the calibration script. */
module Calibration {
  import opened Options
  import opened StableSort

  datatype Preset = Speed | Balanced | Quality

  datatype Policy = Policy(maxTtftRatio: real, maxTotalRatio: real, minGain: real)

  function PolicyOf(p: Preset): Policy {
    match p
    case Speed => Policy(1.15, 1.20, 0.10)
    case Balanced => Policy(1.35, 1.40, 0.08)
    case Quality => Policy(1.25, 1.30, 0.08)
  }

  /** One measured step; the figures are p95 latencies and tokens per second. */
  datatype Step = Step(
    concurrency: int,
    failed: nat,
    metricsComplete: bool,
    throughput: Option<real>,
    ttft: Option<real>,
    total: Option<real>,
    tpot: Option<real>)

  /** The reasons for turning a step down, one flag each, in the order of the report. */
  datatype Reasons = Reasons(
    requestFailures: bool,
    incompleteTokenMetrics: bool,
    incompleteLatencyMetrics: bool,
    incompleteTpotMetrics: bool,
    ttftBudgetExceeded: bool,
    totalBudgetExceeded: bool,
    gainTooSmall: bool)
  {
    predicate Empty() {
      !requestFailures && !incompleteTokenMetrics && !incompleteLatencyMetrics && !incompleteTpotMetrics
      && !ttftBudgetExceeded && !totalBudgetExceeded && !gainTooSmall
    }
  }

  datatype Decision = Decision(concurrency: int, accepted: bool, reasons: Reasons)

  datatype Selection = Selection(concurrency: int, decisions: seq<Decision>)

  datatype SelectionError = NoSteps | NoBaseline

  /** `_positive_ratio`. */
  function Positive(v: Option<real>): (r: Option<real>)
    ensures r.Some? ==> r.value > 0.0
  {
    if v.Some? && v.value > 0.0 then v else None
  }

  /** Whether `now` exceeds `limit` times `base`, both being known. */
  predicate Exceeds(now: Option<real>, base: Option<real>, limit: real) {
    Positive(now).Some? && Positive(base).Some? && Positive(now).value / Positive(base).value > limit
  }

  /** Why a step is turned down, given the baseline and the throughput of the step
      accepted before it. */
  function Judge(policy: Policy, baseline: Step, previous: Option<real>, s: Step): Reasons
    requires previous.Some? ==> previous.value > 0.0
  {
    var throughput := Positive(s.throughput);
    Reasons(
      s.failed > 0,
      !s.metricsComplete || throughput.None?,
      Positive(s.ttft).None? || Positive(s.total).None?,
      Positive(s.tpot).None?,
      s.concurrency > 1 && Exceeds(s.ttft, baseline.ttft, policy.maxTtftRatio),
      s.concurrency > 1 && Exceeds(s.total, baseline.total, policy.maxTotalRatio),
      s.concurrency > 1 && previous.Some? && throughput.Some?
        && throughput.value / previous.value - 1.0 < policy.minGain)
  }

  function DecideOne(policy: Policy, baseline: Step, previous: Option<real>, s: Step): Decision
    requires previous.Some? ==> previous.value > 0.0
  {
    var reasons := Judge(policy, baseline, previous, s);
    Decision(s.concurrency, reasons.Empty(), reasons)
  }

  /** The decisions over sorted steps: the first one turned down is the last. */
  function Decide(policy: Policy, baseline: Step, previous: Option<real>, steps: seq<Step>): seq<Decision>
    requires previous.Some? ==> previous.value > 0.0
    decreases steps
  {
    if steps == [] then []
    else
      var d := DecideOne(policy, baseline, previous, steps[0]);
      [d] + if d.accepted then Decide(policy, baseline, Positive(steps[0].throughput), steps[1..]) else []
  }

  function LastAccepted(decisions: seq<Decision>): int {
    if decisions == [] then 1
    else if decisions[|decisions| - 1].accepted then decisions[|decisions| - 1].concurrency
    else LastAccepted(decisions[..|decisions| - 1])
  }

  function ConcurrencyKey(s: Step): Key {
    [s.concurrency as real]
  }

  function InOrder(steps: seq<Step>): seq<Step> {
    Sorted(steps, ConcurrencyKey, false)
  }

  function Select(steps: seq<Step>, preset: Preset): Result<Selection, SelectionError> {
    var sorted := InOrder(steps);
    if steps == [] then Err(NoSteps)
    else
      SortedElements(steps, ConcurrencyKey, false);
      if sorted[0].concurrency != 1 then Err(NoBaseline)
      else
        var decisions := Decide(PolicyOf(preset), sorted[0], None, sorted);
        Ok(Selection(LastAccepted(decisions), decisions))
  }

  ghost predicate AllAccepted(decisions: seq<Decision>) {
    forall i :: 0 <= i < |decisions| ==> decisions[i].accepted
  }

  /** The throughput the next step is weighed against. */
  function LastThroughput(previous: Option<real>, front: seq<Step>): (r: Option<real>)
    requires previous.Some? ==> previous.value > 0.0
    ensures r.Some? ==> r.value > 0.0
  {
    if front == [] then previous else Positive(front[|front| - 1].throughput)
  }

  lemma {:induction false} DecideAppend(policy: Policy, baseline: Step, previous: Option<real>, front: seq<Step>,
                                        s: Step)
    requires previous.Some? ==> previous.value > 0.0
    requires AllAccepted(Decide(policy, baseline, previous, front))
    ensures |Decide(policy, baseline, previous, front)| == |front|
    ensures Decide(policy, baseline, previous, front + [s])
              == Decide(policy, baseline, previous, front)
                  + [DecideOne(policy, baseline, LastThroughput(previous, front), s)]
    decreases front
  {
    if front == [] {
      assert front + [s] == [s];
      assert [s][1..] == [];
    } else {
      var ds := Decide(policy, baseline, previous, front);
      var next := Positive(front[0].throughput);
      assert (front + [s])[1..] == front[1..] + [s];
      assert ds[0].accepted;
      assert ds[1..] == Decide(policy, baseline, next, front[1..]);
      DecideAppend(policy, baseline, next, front[1..], s);
      assert LastThroughput(previous, front) == LastThroughput(next, front[1..]);
    }
  }

  lemma LastAcceptedAppend(decisions: seq<Decision>, d: Decision)
    ensures LastAccepted(decisions + [d]) == if d.accepted then d.concurrency else LastAccepted(decisions)
  {
    assert (decisions + [d])[..|decisions|] == decisions;
  }

  /** `select_serving_concurrency`: the loop with its early exit. */
  method SelectServingConcurrency(steps: seq<Step>, preset: Preset) returns (result: Result<Selection, SelectionError>)
    ensures result == Select(steps, preset)
  {
    if steps == [] {
      return Err(NoSteps);
    }
    SortedElements(steps, ConcurrencyKey, false);
    var sorted := InOrder(steps);
    if sorted[0].concurrency != 1 {
      return Err(NoBaseline);
    }
    var selection := DecideLoop(sorted, PolicyOf(preset));
    return Ok(selection);
  }

  method DecideLoop(sorted: seq<Step>, policy: Policy) returns (selection: Selection)
    requires sorted != []
    ensures selection.decisions == Decide(policy, sorted[0], None, sorted)
    ensures selection.concurrency == LastAccepted(selection.decisions)
  {
    var baseline := sorted[0];
    var decisions: seq<Decision> := [];
    var selected, previousTps := 1, None;
    for i := 0 to |sorted|
      invariant decisions == Decide(policy, baseline, None, sorted[..i])
      invariant AllAccepted(decisions)
      invariant selected == LastAccepted(decisions)
      invariant previousTps == LastThroughput(None, sorted[..i])
    {
      var s := sorted[i];
      assert sorted[..i + 1] == sorted[..i] + [s];
      DecideAppend(policy, baseline, None, sorted[..i], s);
      var reasons := Judge(policy, baseline, previousTps, s);
      var decision := Decision(s.concurrency, reasons.Empty(), reasons);
      LastAcceptedAppend(decisions, decision);
      decisions := decisions + [decision];
      if !decision.accepted {
        DecideStops(policy, baseline, None, sorted, i + 1);
        return Selection(selected, decisions);
      }
      selected := s.concurrency;
      previousTps := Positive(s.throughput);
    }
    assert sorted[..|sorted|] == sorted;
    return Selection(selected, decisions);
  }

  // ---------- Prefixes ----------

  /** Deciding on the first `n` steps gives the first `n` decisions on all of them. */
  lemma {:induction false} DecidePrefix(policy: Policy, baseline: Step, previous: Option<real>, steps: seq<Step>,
                                        n: nat)
    requires n <= |steps| && (previous.Some? ==> previous.value > 0.0)
    ensures var whole := Decide(policy, baseline, previous, steps);
            var part := Decide(policy, baseline, previous, steps[..n]);
            part == if n <= |whole| then whole[..n] else whole
    decreases steps
  {
    if n > 0 {
      assert steps[..n][1..] == steps[1..][..n - 1];
      if DecideOne(policy, baseline, previous, steps[0]).accepted {
        DecidePrefix(policy, baseline, Positive(steps[0].throughput), steps[1..], n - 1);
      }
    }
  }

  /** Once a step has been turned down, later steps change nothing. */
  lemma DecideStops(policy: Policy, baseline: Step, previous: Option<real>, steps: seq<Step>, n: nat)
    requires 0 < n <= |steps| && (previous.Some? ==> previous.value > 0.0)
    requires var part := Decide(policy, baseline, previous, steps[..n]);
             |part| > 0 && !part[|part| - 1].accepted
    ensures Decide(policy, baseline, previous, steps) == Decide(policy, baseline, previous, steps[..n])
  {
    DecidePrefix(policy, baseline, previous, steps, n);
    var whole := Decide(policy, baseline, previous, steps);
    OnlyLastTurnedDown(policy, baseline, previous, steps);
    if n < |whole| {
      assert false;
    }
  }

  lemma {:induction false} OnlyLastTurnedDown(policy: Policy, baseline: Step, previous: Option<real>, steps: seq<Step>)
    requires previous.Some? ==> previous.value > 0.0
    ensures var ds := Decide(policy, baseline, previous, steps);
            && |ds| <= |steps|
            && (forall i :: 0 <= i < |ds| - 1 ==> ds[i].accepted)
            && (forall i :: 0 <= i < |ds| ==> ds[i].concurrency == steps[i].concurrency)
    decreases steps
  {
    if steps != [] && DecideOne(policy, baseline, previous, steps[0]).accepted {
      OnlyLastTurnedDown(policy, baseline, Positive(steps[0].throughput), steps[1..]);
    }
  }

  // ---------- What an accepted step guarantees ----------

  function Power(base: real, n: nat): real {
    if n == 0 then 1.0 else base * Power(base, n - 1)
  }

  predicate AtMostTimes(x: real, factor: real, y: real) {
    x <= factor * y
  }

  predicate AtLeastTimes(x: real, factor: real, y: real) {
    x >= factor * y
  }

  lemma AcceptedMeans(policy: Policy, baseline: Step, previous: Option<real>, s: Step)
    requires previous.Some? ==> previous.value > 0.0
    requires DecideOne(policy, baseline, previous, s).accepted
    ensures s.failed == 0 && s.metricsComplete
    ensures Positive(s.throughput).Some? && Positive(s.ttft).Some? && Positive(s.total).Some? && Positive(s.tpot).Some?
    ensures s.concurrency > 1 && Positive(baseline.ttft).Some? ==>
              AtMostTimes(s.ttft.value, policy.maxTtftRatio, baseline.ttft.value)
    ensures s.concurrency > 1 && Positive(baseline.total).Some? ==>
              AtMostTimes(s.total.value, policy.maxTotalRatio, baseline.total.value)
    ensures s.concurrency > 1 && previous.Some? ==>
              AtLeastTimes(s.throughput.value, 1.0 + policy.minGain, previous.value)
  {
    assert !Exceeds(s.ttft, baseline.ttft, policy.maxTtftRatio) || s.concurrency <= 1;
    if s.concurrency > 1 && Positive(baseline.ttft).Some? {
      RatioAtMost(s.ttft.value, baseline.ttft.value, policy.maxTtftRatio);
    }
    if s.concurrency > 1 && Positive(baseline.total).Some? {
      RatioAtMost(s.total.value, baseline.total.value, policy.maxTotalRatio);
    }
    if s.concurrency > 1 && previous.Some? {
      RatioAtLeast(s.throughput.value, previous.value, 1.0 + policy.minGain);
    }
  }

  lemma RatioAtMost(x: real, y: real, limit: real)
    requires y > 0.0 && !(x / y > limit)
    ensures AtMostTimes(x, limit, y)
  {
    assert x == (x / y) * y;
  }

  lemma RatioAtLeast(x: real, y: real, limit: real)
    requires y > 0.0 && !(x / y < limit)
    ensures AtLeastTimes(x, limit, y)
  {
    assert x == (x / y) * y;
  }

  /** Distinct, increasing concurrencies starting at one. */
  ghost predicate Increasing(steps: seq<Step>) {
    forall i, j :: 0 <= i < j < |steps| ==> steps[i].concurrency < steps[j].concurrency
  }

  /** The k-th step (counting from zero) was accepted. */
  ghost predicate AcceptedAt(policy: Policy, steps: seq<Step>, k: nat) {
    && steps != [] && steps[0].concurrency == 1 && Increasing(steps) && k < |steps|
    && var ds := Decide(policy, steps[0], None, steps); k < |ds| && ds[k].accepted
  }

  ghost predicate Generous(policy: Policy) {
    policy.minGain >= 0.0 && policy.maxTtftRatio >= 1.0 && policy.maxTotalRatio >= 1.0
  }

  lemma AcceptedFigures(policy: Policy, steps: seq<Step>, k: nat)
    requires AcceptedAt(policy, steps, k)
    ensures DecideOne(policy, steps[0], LastThroughput(None, steps[..k]), steps[k]).accepted
    ensures Positive(steps[k].throughput).Some? && Positive(steps[k].ttft).Some? && Positive(steps[k].total).Some?
    ensures k > 0 ==> AcceptedAt(policy, steps, k - 1) && AcceptedAt(policy, steps, 0) && steps[k].concurrency > 1
  {
    OnlyLastTurnedDown(policy, steps[0], None, steps);
    DecisionAt(policy, steps[0], None, steps, k);
    if k > 0 {
      assert steps[0].concurrency < steps[k].concurrency;
    }
  }

  lemma StepGain(policy: Policy, steps: seq<Step>, k: nat)
    requires AcceptedAt(policy, steps, k) && k > 0
    ensures AcceptedAt(policy, steps, k - 1)
    ensures Positive(steps[k].throughput).Some? && Positive(steps[k - 1].throughput).Some?
    ensures AtLeastTimes(steps[k].throughput.value, 1.0 + policy.minGain, steps[k - 1].throughput.value)
  {
    AcceptedFigures(policy, steps, k);
    AcceptedFigures(policy, steps, k - 1);
    assert steps[..k][k - 1] == steps[k - 1];
    AcceptedMeans(policy, steps[0], LastThroughput(None, steps[..k]), steps[k]);
  }

  /** The throughput of step `k`, or zero when it was not measured. */
  function Tps(steps: seq<Step>, k: nat): real
    requires k < |steps|
  {
    if steps[k].throughput.Some? then steps[k].throughput.value else 0.0
  }

  /** The gains compound: the k-th accepted step (counting from zero) has at least
      (1 + g)^k times the throughput of the baseline. */
  lemma {:induction false} GainsCompound(policy: Policy, steps: seq<Step>, k: nat)
    requires Generous(policy) && AcceptedAt(policy, steps, k)
    ensures Tps(steps, k) >= Power(1.0 + policy.minGain, k) * Tps(steps, 0)
    ensures Tps(steps, 0) > 0.0
  {
    if k == 0 {
      AcceptedFigures(policy, steps, 0);
    } else {
      StepGain(policy, steps, k);
      GainsCompound(policy, steps, k - 1);
      var g := 1.0 + policy.minGain;
      CompoundStep(Tps(steps, k), Tps(steps, k - 1), Tps(steps, 0), g, Power(g, k - 1));
    }
  }

  lemma CompoundStep(t: real, previous: real, first: real, g: real, power: real)
    requires t >= g * previous && previous >= power * first && g >= 0.0
    ensures t >= (g * power) * first
  {
    ScaleBoth(previous, power * first, g);
    assert g * (power * first) == (g * power) * first;
  }

  /** Every accepted step meets both latency budgets of the baseline. */
  lemma AcceptedMeetsBudgets(policy: Policy, steps: seq<Step>, k: nat)
    requires Generous(policy) && AcceptedAt(policy, steps, k)
    ensures Positive(steps[k].ttft).Some? && Positive(steps[0].ttft).Some?
    ensures Positive(steps[k].total).Some? && Positive(steps[0].total).Some?
    ensures AtMostTimes(steps[k].ttft.value, policy.maxTtftRatio, steps[0].ttft.value)
    ensures AtMostTimes(steps[k].total.value, policy.maxTotalRatio, steps[0].total.value)
    ensures steps[k].failed == 0 && steps[k].metricsComplete
  {
    AcceptedFigures(policy, steps, k);
    if k == 0 {
      AtLeastItself(steps[0].ttft.value, policy.maxTtftRatio);
      AtLeastItself(steps[0].total.value, policy.maxTotalRatio);
    } else {
      AcceptedFigures(policy, steps, 0);
      AcceptedMeans(policy, steps[0], LastThroughput(None, steps[..k]), steps[k]);
    }
  }

  lemma AtLeastItself(x: real, factor: real)
    requires x > 0.0 && factor >= 1.0
    ensures AtMostTimes(x, factor, x)
  {
  }

  lemma ScaleBoth(x: real, y: real, factor: real)
    requires x >= y && factor >= 0.0
    ensures factor * x >= factor * y
  {
  }

  /** Decision `k` weighs step `k` against the throughput of step `k - 1`. */
  lemma {:induction false} DecisionAt(policy: Policy, baseline: Step, previous: Option<real>, steps: seq<Step>, k: nat)
    requires previous.Some? ==> previous.value > 0.0
    requires k < |Decide(policy, baseline, previous, steps)| && k < |steps|
    ensures Decide(policy, baseline, previous, steps)[k]
              == DecideOne(policy, baseline, LastThroughput(previous, steps[..k]), steps[k])
    decreases steps
  {
    if k > 0 {
      var next := Positive(steps[0].throughput);
      DecisionAt(policy, baseline, next, steps[1..], k - 1);
      assert LastThroughput(previous, steps[..k]) == LastThroughput(next, steps[1..][..k - 1]);
    }
  }

  lemma PoliciesAreGenerous(preset: Preset)
    ensures Generous(PolicyOf(preset))
  {
  }

  lemma SelectionIsDecided(steps: seq<Step>, preset: Preset)
    requires Select(steps, preset).Ok?
    ensures InOrder(steps) != [] && InOrder(steps)[0].concurrency == 1
    ensures Select(steps, preset).value.decisions == Decide(PolicyOf(preset), InOrder(steps)[0], None, InOrder(steps))
  {
    SortedElements(steps, ConcurrencyKey, false);
  }

  lemma DecidedIsAcceptedAt(policy: Policy, sorted: seq<Step>, k: nat)
    requires sorted != [] && sorted[0].concurrency == 1 && Increasing(sorted)
    requires var ds := Decide(policy, sorted[0], None, sorted); k < |ds| && ds[k].accepted
    ensures AcceptedAt(policy, sorted, k)
  {
    OnlyLastTurnedDown(policy, sorted[0], None, sorted);
  }

  /** The presets' own policies are covered, whatever order the steps come in. */
  lemma PresetGainsCompound(preset: Preset, steps: seq<Step>, k: nat)
    requires Select(steps, preset).Ok? && Increasing(InOrder(steps))
    requires var ds := Select(steps, preset).value.decisions; k < |ds| && ds[k].accepted
    ensures AcceptedAt(PolicyOf(preset), InOrder(steps), k)
    ensures Tps(InOrder(steps), k) >= Power(1.0 + PolicyOf(preset).minGain, k) * Tps(InOrder(steps), 0)
  {
    SelectionIsDecided(steps, preset);
    PoliciesAreGenerous(preset);
    DecidedIsAcceptedAt(PolicyOf(preset), InOrder(steps), k);
    GainsCompound(PolicyOf(preset), InOrder(steps), k);
  }

  lemma IncreasingIsSorted(steps: seq<Step>)
    requires Increasing(steps)
    ensures InOrder(steps) == steps
  {
    var tie := (a: Step, b: Step) => true;
    forall i, j | 0 <= i < j < |steps| ensures MayPrecede(steps[i], steps[j], ConcurrencyKey, false, tie) {
      assert Less(ConcurrencyKey(steps[i]), ConcurrencyKey(steps[j]));
    }
    SortedKeepsOrdered(steps, ConcurrencyKey, false, tie);
  }

  // ---------- The measuring loop of the script ----------

  /** What measuring concurrency i + 1 would give, for as many concurrencies as the
      runtime can be switched to. */
  ghost predicate IsMeasurement(all: seq<Step>) {
    forall i :: 0 <= i < |all| ==> all[i].concurrency == i + 1
  }

  /** After `i` measured steps: nothing turned down so far. */
  ghost predicate StillAccepting(all: seq<Step>, preset: Preset, i: nat) {
    i <= |all| && (i > 0 ==> AllAccepted(Decide(PolicyOf(preset), all[0], None, all[..i])))
  }

  lemma MeasuredIsDecided(all: seq<Step>, preset: Preset, n: nat)
    requires IsMeasurement(all) && 0 < n <= |all|
    ensures Select(all[..n], preset).Ok?
    ensures Select(all[..n], preset).value.decisions == Decide(PolicyOf(preset), all[0], None, all[..n])
    ensures Select(all[..n], preset).value.concurrency == LastAccepted(Select(all[..n], preset).value.decisions)
  {
    IncreasingIsSorted(all[..n]);
  }

  lemma NextDecision(all: seq<Step>, preset: Preset, i: nat)
    requires IsMeasurement(all) && i < |all| && StillAccepting(all, preset, i)
    ensures var ds := Decide(PolicyOf(preset), all[0], None, all[..i + 1]);
            && |ds| == i + 1
            && (ds[i].accepted ==> StillAccepting(all, preset, i + 1))
            && (all[i].failed > 0 || !all[i].metricsComplete ==> !ds[i].accepted)
  {
    assert all[..i + 1] == all[..i] + [all[i]];
    assert i == 0 ==> all[..i] == [];
    DecideAppend(PolicyOf(preset), all[0], None, all[..i], all[i]);
  }

  lemma TurnedDownIsFinal(all: seq<Step>, preset: Preset, i: nat)
    requires IsMeasurement(all) && i < |all|
    requires var ds := Decide(PolicyOf(preset), all[0], None, all[..i + 1]); |ds| == i + 1 && !ds[i].accepted
    ensures Select(all[..i + 1], preset) == Select(all, preset)
  {
    DecideStops(PolicyOf(preset), all[0], None, all, i + 1);
    MeasuredIsDecided(all, preset, i + 1);
    assert all[..|all|] == all;
    MeasuredIsDecided(all, preset, |all|);
  }

  lemma SelectMeasured(all: seq<Step>, preset: Preset, i: nat)
    requires IsMeasurement(all) && i < |all| && StillAccepting(all, preset, i)
    ensures Select(all[..i + 1], preset).Ok?
    ensures var ds := Select(all[..i + 1], preset).value.decisions;
            && |ds| == i + 1
            && (ds[i].accepted ==> StillAccepting(all, preset, i + 1))
            && (!ds[i].accepted ==> Select(all[..i + 1], preset) == Select(all, preset))
            && (all[i].failed > 0 || !all[i].metricsComplete ==> !ds[i].accepted)
  {
    MeasuredIsDecided(all, preset, i + 1);
    NextDecision(all, preset, i);
    if !Decide(PolicyOf(preset), all[0], None, all[..i + 1])[i].accepted {
      TurnedDownIsFinal(all, preset, i);
    }
  }

  /** The loop in `main`: measure, select on what has been measured so far, stop at the
      first step that is broken or turned down.  Selecting on the measured steps gives
      what selecting once on all steps would have given. */
  method MeasureAndSelect(all: seq<Step>, preset: Preset)
    returns (steps: seq<Step>, selection: Result<Selection, SelectionError>)
    requires IsMeasurement(all)
    ensures steps <= all
    ensures selection == Select(steps, preset) == Select(all, preset)
  {
    steps := [];
    for i := 0 to |all|
      invariant steps == all[..i] && StillAccepting(all, preset, i)
    {
      var s := all[i];
      steps := steps + [s];
      assert steps == all[..i + 1];
      SelectMeasured(all, preset, i);
      if s.failed > 0 || !s.metricsComplete {
        break;
      }
      var partial := SelectServingConcurrency(steps, preset);
      if !partial.value.decisions[|partial.value.decisions| - 1].accepted {
        break;
      }
    }
    assert all[..|all|] == all;
    selection := SelectServingConcurrency(steps, preset);
  }

  /** Selecting again after one more step changes no earlier decision. */
  lemma EarlierDecisionsStand(all: seq<Step>, preset: Preset, n: nat)
    requires IsMeasurement(all) && 0 < n <= |all|
    ensures Select(all[..n], preset).Ok? && Select(all, preset).Ok?
    ensures Select(all[..n], preset).value.decisions <= Select(all, preset).value.decisions
  {
    IncreasingIsSorted(all);
    IncreasingIsSorted(all[..n]);
    DecidePrefix(PolicyOf(preset), all[0], None, all, n);
  }
}
