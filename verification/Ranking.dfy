/** Ranking and selecting catalog models (`selection.py`). */
module Ranking {
  import opened Options
  import opened StableSort

  datatype Preset = Speed | Balanced | Quality

  datatype FitStatus = Fit | Risky | NoFit

  /** A candidate with the figures its ranking key is built from; `tps` and
      `headroom` may be unknown. */
  datatype Candidate = Candidate(
    id: string,
    fit: FitStatus,
    autoSelectable: bool,
    manualSelectable: bool,
    tps: Option<real>,
    headroom: Option<real>,
    parameters: real,
    precision: int,
    maxContext: int,
    priority: int)

  datatype Mode = Automatic | Manual(requested: Option<string>)

  datatype Outcome =
    | Selected(candidate: Candidate, ranked: seq<string>, riskyConfirmed: bool)
    | ConfirmationRequired(ranked: seq<string>)
    | ManualSelectionRequired(ranked: seq<string>)
    | InvalidManualSelection(ranked: seq<string>)
    | NoSelectableModel

  // ---------- Keys ----------

  function Known(v: Option<real>): Key {
    if v.None? then [0.0, 0.0] else [1.0, v.value]
  }

  /** The tuples are flattened; every component has a fixed width. */
  function RankingKey(c: Candidate, preset: Preset): Key {
    match preset
    case Speed => Known(c.tps) + Known(c.headroom) + [c.priority as real, c.parameters, c.precision as real]
    case Quality =>
      [c.parameters, c.precision as real, c.maxContext as real] + Known(c.headroom) + Known(c.tps)
          + [c.priority as real]
    case Balanced => [c.priority as real] + Known(c.headroom) + [c.parameters, c.precision as real] + Known(c.tps)
  }

  /** A string as a tuple of code points. */
  function Codes(s: string): Key {
    seq(|s|, i requires 0 <= i < |s| => s[i] as int as real)
  }

  function IdKey(c: Candidate): Key {
    Codes(c.id)
  }

  predicate ById(a: Candidate, b: Candidate) {
    Less(IdKey(a), IdKey(b))
  }

  predicate AnyOrder(a: Candidate, b: Candidate) {
    true
  }

  function KeyFor(preset: Preset): Candidate -> Key {
    (c: Candidate) => RankingKey(c, preset)
  }

  /** `_rank`: by id ascending, then stably by key descending. */
  function RankCandidates(cs: seq<Candidate>, preset: Preset): seq<Candidate> {
    Sorted(Sorted(cs, IdKey, false), KeyFor(preset), true)
  }

  function Ids(cs: seq<Candidate>): seq<string> {
    seq(|cs|, i requires 0 <= i < |cs| => cs[i].id)
  }

  ghost predicate DistinctIds(cs: seq<Candidate>) {
    forall i, j :: 0 <= i < j < |cs| ==> cs[i].id != cs[j].id
  }

  /** Key descending, id ascending. */
  ghost predicate RankedOrder(cs: seq<Candidate>, preset: Preset) {
    Ordered(cs, KeyFor(preset), true, ById)
  }

  // ---------- The ranking is one order ----------

  lemma CodesAreInjective(a: string, b: string)
    requires Codes(a) == Codes(b)
    ensures a == b
  {
    assert |Codes(a)| == |a| && |Codes(b)| == |b|;
    forall i | 0 <= i < |a| ensures a[i] == b[i] {
      assert Codes(a)[i] == Codes(b)[i];
    }
  }

  /** Distinct ids say that no two occurrences share an id, so the list has no repeats. */
  lemma {:induction false} DistinctByMultiset(cs: seq<Candidate>, ds: seq<Candidate>)
    requires DistinctIds(cs) && multiset(cs) == multiset(ds)
    ensures DistinctIds(ds)
  {
    forall i, j | 0 <= i < j < |ds| ensures ds[i].id != ds[j].id {
      assert ds == ds[..i] + [ds[i]] + ds[i + 1..j] + [ds[j]] + ds[j + 1..];
      assert ds[i] in multiset(cs) && ds[j] in multiset(cs);
      var k :| 0 <= k < |cs| && cs[k] == ds[i];
      var l :| 0 <= l < |cs| && cs[l] == ds[j];
      if k == l {
        assert multiset(ds)[ds[i]] >= 2;
        Single(cs, k);
        assert false;
      }
    }
  }

  lemma Single(cs: seq<Candidate>, k: nat)
    requires DistinctIds(cs) && k < |cs|
    ensures multiset(cs)[cs[k]] == 1
  {
    assert cs == cs[..k] + [cs[k]] + cs[k + 1..];
    assert cs[k] !in cs[..k] && cs[k] !in cs[k + 1..];
    assert multiset(cs[..k])[cs[k]] == 0 && multiset(cs[k + 1..])[cs[k]] == 0;
  }

  /** Sorting by distinct ids gives strictly increasing ids. */
  lemma IdSortIsStrict(cs: seq<Candidate>)
    requires DistinctIds(cs)
    ensures PairwiseTied(Sorted(cs, IdKey, false), ById)
  {
    var r := Sorted(cs, IdKey, false);
    SortedIsOrdered(cs, IdKey, false, AnyOrder);
    SortedElements(cs, IdKey, false);
    DistinctByMultiset(cs, r);
    forall i, j | 0 <= i < j < |r| ensures ById(r[i], r[j]) {
      assert MayPrecede(r[i], r[j], IdKey, false, AnyOrder);
      if IdKey(r[i]) == IdKey(r[j]) {
        CodesAreInjective(r[i].id, r[j].id);
      }
    }
  }

  /** The two stable passes leave key descending, id ascending. */
  lemma RankIsRankedOrder(cs: seq<Candidate>, preset: Preset)
    requires DistinctIds(cs)
    ensures RankedOrder(RankCandidates(cs, preset), preset)
    ensures multiset(RankCandidates(cs, preset)) == multiset(cs)
  {
    IdSortIsStrict(cs);
    var byId := Sorted(cs, IdKey, false);
    SortedElements(cs, IdKey, false);
    SortedElements(byId, KeyFor(preset), true);
    SortedIsOrdered(byId, KeyFor(preset), true, ById);
  }

  lemma RankedOrderIsStrict(a: Candidate, b: Candidate, preset: Preset)
    requires MayPrecede(a, b, KeyFor(preset), true, ById)
    ensures !MayPrecede(b, a, KeyFor(preset), true, ById)
  {
    LessIsTotal(KeyFor(preset)(a), KeyFor(preset)(b));
    LessIsTotal(IdKey(a), IdKey(b));
  }

  /** There is only one way to rank a collection of candidates. */
  lemma RankingIsUnique(cs: seq<Candidate>, ranked: seq<Candidate>, preset: Preset)
    requires DistinctIds(cs) && multiset(ranked) == multiset(cs) && RankedOrder(ranked, preset)
    ensures ranked == RankCandidates(cs, preset)
  {
    RankIsRankedOrder(cs, preset);
    forall a, b | MayPrecede(a, b, KeyFor(preset), true, ById) ensures !MayPrecede(b, a, KeyFor(preset), true, ById) {
      RankedOrderIsStrict(a, b, preset);
    }
    OrderedIsUnique(ranked, RankCandidates(cs, preset), KeyFor(preset), true, ById);
  }

  /** Ranking does not depend on the order of the catalog. */
  lemma RankIgnoresCatalogOrder(cs: seq<Candidate>, ds: seq<Candidate>, preset: Preset)
    requires DistinctIds(cs) && multiset(cs) == multiset(ds)
    ensures RankCandidates(cs, preset) == RankCandidates(ds, preset)
  {
    DistinctByMultiset(cs, ds);
    RankIsRankedOrder(ds, preset);
    RankingIsUnique(cs, RankCandidates(ds, preset), preset);
  }

  // ---------- Splitting and selecting ----------

  predicate Eligible(c: Candidate, mode: Mode) {
    (if mode.Automatic? then c.autoSelectable else c.manualSelectable) && c.fit != NoFit
  }

  function Filter(cs: seq<Candidate>, keep: Candidate -> bool): seq<Candidate> {
    if cs == [] then []
    else Filter(cs[..|cs| - 1], keep) + if keep(cs[|cs| - 1]) then [cs[|cs| - 1]] else []
  }

  function WithFit(cs: seq<Candidate>, mode: Mode, fit: FitStatus): seq<Candidate> {
    Filter(cs, (c: Candidate) => Eligible(c, mode) && c.fit == fit)
  }

  /** The order in which manual candidates are displayed. */
  function ManualRanking(cs: seq<Candidate>, preset: Preset): seq<Candidate> {
    RankCandidates(WithFit(cs, Manual(None), Fit), preset) + RankCandidates(WithFit(cs, Manual(None), Risky), preset)
  }

  lemma {:induction false} FilterMultiset(cs: seq<Candidate>, keep: Candidate -> bool)
    ensures forall c :: multiset(Filter(cs, keep))[c] == if keep(c) then multiset(cs)[c] else 0
  {
    if cs != [] {
      FilterMultiset(cs[..|cs| - 1], keep);
      assert cs == cs[..|cs| - 1] + [cs[|cs| - 1]];
    }
  }

  lemma FilterIsPermutable(cs: seq<Candidate>, ds: seq<Candidate>, keep: Candidate -> bool)
    requires multiset(cs) == multiset(ds)
    ensures multiset(Filter(cs, keep)) == multiset(Filter(ds, keep))
  {
    FilterMultiset(cs, keep);
    FilterMultiset(ds, keep);
  }

  lemma {:induction false} FilterKeepsIds(cs: seq<Candidate>, keep: Candidate -> bool)
    requires DistinctIds(cs)
    ensures DistinctIds(Filter(cs, keep))
    ensures forall c :: c in Filter(cs, keep) <==> c in cs && keep(c)
  {
    if cs != [] {
      var front, last := cs[..|cs| - 1], cs[|cs| - 1];
      FilterKeepsIds(front, keep);
      assert forall c :: c in cs <==> c in front || c == last;
      forall c | c in Filter(front, keep) ensures c.id != last.id {
        assert c in front;
      }
    }
  }

  /** `rank_manual_candidates`: one pass over the candidates fills three lists. */
  method RankManualCandidates(cs: seq<Candidate>, preset: Preset)
    returns (ranked: seq<Candidate>, nonSelectable: seq<Candidate>)
    ensures ranked == ManualRanking(cs, preset)
    ensures nonSelectable == Filter(cs, (c: Candidate) => !Eligible(c, Manual(None)))
  {
    var fitCandidates, riskyCandidates: seq<Candidate> := [], [];
    nonSelectable := [];
    for i := 0 to |cs|
      invariant fitCandidates == WithFit(cs[..i], Manual(None), Fit)
      invariant riskyCandidates == WithFit(cs[..i], Manual(None), Risky)
      invariant nonSelectable == Filter(cs[..i], (c: Candidate) => !Eligible(c, Manual(None)))
    {
      assert cs[..i + 1][..i] == cs[..i];
      var c := cs[i];
      if c.manualSelectable && (c.fit == Fit || c.fit == Risky) {
        if c.fit == Fit {
          fitCandidates := fitCandidates + [c];
        } else {
          riskyCandidates := riskyCandidates + [c];
        }
      } else {
        nonSelectable := nonSelectable + [c];
      }
    }
    assert cs[..|cs|] == cs;
    ranked := RankCandidates(fitCandidates, preset) + RankCandidates(riskyCandidates, preset);
  }

  /** The first candidate of the list with the id, if any. */
  function Find(cs: seq<Candidate>, id: string): Option<Candidate> {
    if cs == [] then None else if cs[0].id == id then Some(cs[0]) else Find(cs[1..], id)
  }

  /** The first eligible candidate with the id. */
  function FindEligible(cs: seq<Candidate>, mode: Mode, id: string): Option<Candidate> {
    Find(Filter(cs, (c: Candidate) => Eligible(c, mode)), id)
  }

  /** `select_catalog_model`.  An empty requested id counts as none. */
  function Select(cs: seq<Candidate>, preset: Preset, mode: Mode, riskyConfirmed: bool): Outcome {
    if mode.Manual? then
      var ranked := Ids(ManualRanking(cs, preset));
      if mode.requested.None? || mode.requested.value == "" then ManualSelectionRequired(ranked)
      else match FindEligible(cs, mode, mode.requested.value)
        case None => InvalidManualSelection(ranked)
        case Some(c) =>
          if c.fit == Risky && !riskyConfirmed then ConfirmationRequired(ranked)
          else Selected(c, ranked, c.fit == Risky)
    else
      var fits := WithFit(cs, mode, Fit);
      var riskies := RankCandidates(WithFit(cs, mode, Risky), preset);
      if fits != [] then
        var ranked := RankCandidates(fits, preset);
        SortedElements(fits, IdKey, false);
        SortedElements(Sorted(fits, IdKey, false), KeyFor(preset), true);
        Selected(ranked[0], Ids(ranked), false)
      else if riskies == [] then NoSelectableModel
      else if !riskyConfirmed then ConfirmationRequired(Ids(riskies))
      else Selected(riskies[0], Ids(riskies), true)
  }

  lemma {:induction false} FindMeaning(cs: seq<Candidate>, id: string)
    ensures Find(cs, id).None? <==> forall c :: c in cs ==> c.id != id
    ensures Find(cs, id).Some? ==> Find(cs, id).value in cs && Find(cs, id).value.id == id
  {
    if cs != [] && cs[0].id != id {
      FindMeaning(cs[1..], id);
      assert forall c :: c in cs <==> c == cs[0] || c in cs[1..];
    }
  }

  /** With distinct ids the candidate found is the only one with its id. */
  lemma FindIgnoresOrder(cs: seq<Candidate>, ds: seq<Candidate>, id: string)
    requires DistinctIds(cs) && multiset(cs) == multiset(ds)
    ensures Find(cs, id) == Find(ds, id)
  {
    FindMeaning(cs, id);
    FindMeaning(ds, id);
    forall c ensures c in cs <==> c in ds {
      assert c in multiset(cs) <==> c in multiset(ds);
    }
    if Find(cs, id).Some? {
      assert exists c :: c in ds && c.id == id;
    }
  }

  lemma WithFitIgnoresOrder(cs: seq<Candidate>, ds: seq<Candidate>, mode: Mode, fit: FitStatus, preset: Preset)
    requires DistinctIds(cs) && multiset(cs) == multiset(ds)
    ensures RankCandidates(WithFit(cs, mode, fit), preset) == RankCandidates(WithFit(ds, mode, fit), preset)
    ensures WithFit(cs, mode, fit) == [] <==> WithFit(ds, mode, fit) == []
  {
    var keep := (c: Candidate) => Eligible(c, mode) && c.fit == fit;
    FilterKeepsIds(cs, keep);
    FilterIsPermutable(cs, ds, keep);
    assert |multiset(WithFit(cs, mode, fit))| == |multiset(WithFit(ds, mode, fit))|;
    RankIgnoresCatalogOrder(WithFit(cs, mode, fit), WithFit(ds, mode, fit), preset);
  }

  lemma RequestIgnoresOrder(cs: seq<Candidate>, ds: seq<Candidate>, mode: Mode)
    requires DistinctIds(cs) && multiset(cs) == multiset(ds) && mode.Manual? && mode.requested.Some?
    ensures FindEligible(cs, mode, mode.requested.value) == FindEligible(ds, mode, mode.requested.value)
  {
    var keep := (c: Candidate) => Eligible(c, mode);
    FilterKeepsIds(cs, keep);
    FilterIsPermutable(cs, ds, keep);
    FindIgnoresOrder(Filter(cs, keep), Filter(ds, keep), mode.requested.value);
  }

  lemma ManualIgnoresOrder(cs: seq<Candidate>, ds: seq<Candidate>, preset: Preset, mode: Mode, riskyConfirmed: bool)
    requires DistinctIds(cs) && multiset(cs) == multiset(ds) && mode.Manual?
    ensures Select(cs, preset, mode, riskyConfirmed) == Select(ds, preset, mode, riskyConfirmed)
  {
    WithFitIgnoresOrder(cs, ds, Manual(None), Fit, preset);
    WithFitIgnoresOrder(cs, ds, Manual(None), Risky, preset);
    assert ManualRanking(cs, preset) == ManualRanking(ds, preset);
    if mode.requested.Some? {
      RequestIgnoresOrder(cs, ds, mode);
    }
  }

  /** The outcome of a selection does not depend on the order of the catalog. */
  lemma SelectIgnoresCatalogOrder(cs: seq<Candidate>, ds: seq<Candidate>, preset: Preset, mode: Mode, confirmed: bool)
    requires DistinctIds(cs) && multiset(cs) == multiset(ds)
    ensures Select(cs, preset, mode, confirmed) == Select(ds, preset, mode, confirmed)
  {
    if mode.Manual? {
      ManualIgnoresOrder(cs, ds, preset, mode, confirmed);
    } else {
      WithFitIgnoresOrder(cs, ds, mode, Fit, preset);
      WithFitIgnoresOrder(cs, ds, mode, Risky, preset);
    }
  }

  lemma RankedElements(cs: seq<Candidate>, preset: Preset, c: Candidate)
    ensures c in RankCandidates(cs, preset) <==> c in cs
  {
    SortedElements(cs, IdKey, false);
    SortedElements(Sorted(cs, IdKey, false), KeyFor(preset), true);
    assert c in multiset(RankCandidates(cs, preset)) <==> c in multiset(cs);
  }

  /** In manual mode an id is accepted exactly when the displayed ranking shows it. */
  lemma AcceptedIffDisplayed(cs: seq<Candidate>, preset: Preset, id: string)
    requires DistinctIds(cs) && id != ""
    ensures !Select(cs, preset, Manual(Some(id)), true).InvalidManualSelection? <==>
              exists c :: c in ManualRanking(cs, preset) && c.id == id
  {
    var keep := (c: Candidate) => Eligible(c, Manual(Some(id)));
    var eligible := Filter(cs, keep);
    FilterKeepsIds(cs, keep);
    FilterKeepsIds(cs, (c: Candidate) => Eligible(c, Manual(None)) && c.fit == Fit);
    FilterKeepsIds(cs, (c: Candidate) => Eligible(c, Manual(None)) && c.fit == Risky);
    FindMeaning(eligible, id);
    forall c ensures c in ManualRanking(cs, preset) <==> c in eligible {
      RankedElements(WithFit(cs, Manual(None), Fit), preset, c);
      RankedElements(WithFit(cs, Manual(None), Risky), preset, c);
    }
  }

  /** Automatic selection: the winner beats every other candidate of its class, and a
      risky model is chosen only when nothing fits and it was confirmed. */
  lemma AutomaticWinner(cs: seq<Candidate>, preset: Preset, riskyConfirmed: bool, other: Candidate)
    requires DistinctIds(cs) && other in cs && Eligible(other, Automatic)
    requires Select(cs, preset, Automatic, riskyConfirmed).Selected?
    ensures var winner := Select(cs, preset, Automatic, riskyConfirmed).candidate;
            && winner in cs && Eligible(winner, Automatic)
            && (winner.fit == Risky ==> riskyConfirmed && other.fit == Risky)
            && (other != winner && other.fit == winner.fit ==> MayPrecede(winner, other, KeyFor(preset), true, ById))
  {
    var fits, riskies := WithFit(cs, Automatic, Fit), WithFit(cs, Automatic, Risky);
    FilterKeepsIds(cs, (c: Candidate) => Eligible(c, Automatic) && c.fit == Fit);
    FilterKeepsIds(cs, (c: Candidate) => Eligible(c, Automatic) && c.fit == Risky);
    var pool := if fits != [] then fits else riskies;
    RankIsRankedOrder(pool, preset);
    var ranked := RankCandidates(pool, preset);
    RankedElements(pool, preset, ranked[0]);
    RankedElements(pool, preset, other);
    if other != ranked[0] && other in ranked {
      var k :| 0 <= k < |ranked| && ranked[k] == other;
      assert MayPrecede(ranked[0], ranked[k], KeyFor(preset), true, ById);
    }
    if other.fit == Fit {
      assert other in fits;
    }
  }
}
