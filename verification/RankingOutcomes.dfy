/** The order of the candidates, figure by figure, and how each kind of selection ends. */
module RankingOutcomes {
  import opened Options
  import opened StableSort
  import opened Ranking

  // ---------- Who outranks whom ----------

  /** A known figure beats an unknown one, and the larger figure the smaller. */
  predicate Better(a: Option<real>, b: Option<real>) {
    a.Some? && (b.None? || a.value > b.value)
  }

  /** In dictionary order of the code points. */
  ghost predicate Earlier(a: string, b: string) {
    exists i :: 0 <= i <= |a| && i < |b| && a[..i] == b[..i] && (i == |a| || a[i] < b[i])
  }

  /** The first figure in which two candidates differ decides; ids decide last. */
  ghost predicate Outranks(a: Candidate, b: Candidate, preset: Preset) {
    match preset
    case Speed =>
      if a.tps != b.tps then Better(a.tps, b.tps)
      else if a.headroom != b.headroom then Better(a.headroom, b.headroom)
      else if a.priority != b.priority then a.priority > b.priority
      else if a.parameters != b.parameters then a.parameters > b.parameters
      else if a.precision != b.precision then a.precision > b.precision
      else Earlier(a.id, b.id)
    case Balanced =>
      if a.priority != b.priority then a.priority > b.priority
      else if a.headroom != b.headroom then Better(a.headroom, b.headroom)
      else if a.parameters != b.parameters then a.parameters > b.parameters
      else if a.precision != b.precision then a.precision > b.precision
      else if a.tps != b.tps then Better(a.tps, b.tps)
      else Earlier(a.id, b.id)
    case Quality =>
      if a.parameters != b.parameters then a.parameters > b.parameters
      else if a.precision != b.precision then a.precision > b.precision
      else if a.maxContext != b.maxContext then a.maxContext > b.maxContext
      else if a.headroom != b.headroom then Better(a.headroom, b.headroom)
      else if a.tps != b.tps then Better(a.tps, b.tps)
      else if a.priority != b.priority then a.priority > b.priority
      else Earlier(a.id, b.id)
  }

  // ---------- Comparing keys component by component ----------

  lemma LessCons(x: real, a: Key, y: real, b: Key)
    ensures Less([x] + a, [y] + b) <==> x < y || (x == y && Less(a, b))
    ensures [x] + a == [y] + b <==> x == y && a == b
  {
    assert ([x] + a)[1..] == a && ([y] + b)[1..] == b;
    assert ([x] + a)[0] == x && ([y] + b)[0] == y;
  }

  lemma LessKnown(v: Option<real>, a: Key, w: Option<real>, b: Key)
    ensures Less(Known(v) + a, Known(w) + b) <==> Better(w, v) || (v == w && Less(a, b))
    ensures Known(v) + a == Known(w) + b <==> v == w && a == b
  {
    var x, y := Known(v), Known(w);
    assert x + a == [x[0]] + ([x[1]] + a) && y + b == [y[0]] + ([y[1]] + b);
    LessCons(x[1], a, y[1], b);
    LessCons(x[0], [x[1]] + a, y[0], [y[1]] + b);
  }

  lemma SpeedKey(c: Candidate)
    ensures RankingKey(c, Speed)
         == Known(c.tps) + (Known(c.headroom)
                            + ([c.priority as real] + ([c.parameters] + ([c.precision as real] + []))))
  {
  }

  lemma BalancedKey(c: Candidate)
    ensures RankingKey(c, Balanced)
         == [c.priority as real]
              + (Known(c.headroom) + ([c.parameters] + ([c.precision as real] + (Known(c.tps) + []))))
  {
  }

  /** The three figures that come last in the quality preset. */
  function LastFigures(c: Candidate): Key {
    Known(c.headroom) + (Known(c.tps) + ([c.priority as real] + []))
  }

  lemma QualityKey(c: Candidate)
    ensures RankingKey(c, Quality)
         == [c.parameters] + ([c.precision as real] + ([c.maxContext as real] + LastFigures(c)))
  {
  }

  lemma SpeedOrder(a: Candidate, b: Candidate)
    ensures MayPrecede(a, b, KeyFor(Speed), true, ById) <==> Outranks(a, b, Speed)
  {
    var a0, b0 := [a.precision as real] + [], [b.precision as real] + [];
    var a1, b1 := [a.parameters] + a0, [b.parameters] + b0;
    var a2, b2 := [a.priority as real] + a1, [b.priority as real] + b1;
    SpeedKey(a);
    SpeedKey(b);
    LessKnown(b.tps, Known(b.headroom) + b2, a.tps, Known(a.headroom) + a2);
    LessKnown(b.headroom, b2, a.headroom, a2);
    LessCons(b.priority as real, b1, a.priority as real, a1);
    LessCons(b.parameters, b0, a.parameters, a0);
    LessCons(b.precision as real, [], a.precision as real, []);
    EarlierIsLess(a.id, b.id);
  }

  lemma BalancedOrder(a: Candidate, b: Candidate)
    ensures MayPrecede(a, b, KeyFor(Balanced), true, ById) <==> Outranks(a, b, Balanced)
  {
    var a0, b0 := Known(a.tps) + [], Known(b.tps) + [];
    var a1, b1 := [a.precision as real] + a0, [b.precision as real] + b0;
    var a2, b2 := [a.parameters] + a1, [b.parameters] + b1;
    BalancedKey(a);
    BalancedKey(b);
    LessCons(b.priority as real, Known(b.headroom) + b2, a.priority as real, Known(a.headroom) + a2);
    LessKnown(b.headroom, b2, a.headroom, a2);
    LessCons(b.parameters, b1, a.parameters, a1);
    LessCons(b.precision as real, b0, a.precision as real, a0);
    LessKnown(b.tps, [], a.tps, []);
    EarlierIsLess(a.id, b.id);
  }

  lemma LastFiguresOrder(a: Candidate, b: Candidate)
    ensures Less(LastFigures(b), LastFigures(a)) <==>
              if a.headroom != b.headroom then Better(a.headroom, b.headroom)
              else if a.tps != b.tps then Better(a.tps, b.tps)
              else a.priority > b.priority
    ensures LastFigures(a) == LastFigures(b) <==> a.headroom == b.headroom && a.tps == b.tps && a.priority == b.priority
  {
    var a0, b0 := [a.priority as real] + [], [b.priority as real] + [];
    LessKnown(b.headroom, Known(b.tps) + b0, a.headroom, Known(a.tps) + a0);
    LessKnown(b.tps, b0, a.tps, a0);
    LessCons(b.priority as real, [], a.priority as real, []);
  }

  lemma QualityOrder(a: Candidate, b: Candidate)
    ensures MayPrecede(a, b, KeyFor(Quality), true, ById) <==> Outranks(a, b, Quality)
  {
    var a0, b0 := LastFigures(a), LastFigures(b);
    var a1, b1 := [a.maxContext as real] + a0, [b.maxContext as real] + b0;
    var a2, b2 := [a.precision as real] + a1, [b.precision as real] + b1;
    QualityKey(a);
    QualityKey(b);
    LessCons(b.parameters, b2, a.parameters, a2);
    LessCons(b.precision as real, b1, a.precision as real, a1);
    LessCons(b.maxContext as real, b0, a.maxContext as real, a0);
    LastFiguresOrder(a, b);
    EarlierIsLess(a.id, b.id);
  }

  lemma SharedHead(a: string, b: string, i: nat)
    requires i <= |a| && i <= |b| && a[..i] == b[..i]
    ensures i > 0 ==> a[0] == b[0]
  {
    if i > 0 {
      assert a[0] == a[..i][0] && b[0] == b[..i][0];
    }
  }

  lemma {:induction false} EarlierIsLess(a: string, b: string)
    ensures Less(Codes(a), Codes(b)) <==> Earlier(a, b)
    decreases |a|
  {
    if b == [] {
    } else if a == [] {
      assert a[..0] == b[..0];
    } else {
      EarlierIsLess(a[1..], b[1..]);
      assert Codes(a)[1..] == Codes(a[1..]) && Codes(b)[1..] == Codes(b[1..]);
      if a[0] != b[0] {
        assert a[..0] == b[..0];
        if Earlier(a, b) {
          var i :| 0 <= i <= |a| && i < |b| && a[..i] == b[..i] && (i == |a| || a[i] < b[i]);
          SharedHead(a, b, i);
        }
      } else {
        EarlierTail(a, b);
      }
    }
  }

  lemma EarlierTail(a: string, b: string)
    requires a != [] && b != [] && a[0] == b[0]
    ensures Earlier(a, b) <==> Earlier(a[1..], b[1..])
  {
    if Earlier(a, b) {
      var i :| 0 <= i <= |a| && i < |b| && a[..i] == b[..i] && (i == |a| || a[i] < b[i]);
      assert i > 0;
      assert a[1..][..i - 1] == a[..i][1..] && b[1..][..i - 1] == b[..i][1..];
    }
    if Earlier(a[1..], b[1..]) {
      var i :| 0 <= i <= |a[1..]| && i < |b[1..]| && a[1..][..i] == b[1..][..i]
               && (i == |a[1..]| || a[1..][i] < b[1..][i]);
      assert a[..i + 1] == [a[0]] + a[1..][..i] && b[..i + 1] == [b[0]] + b[1..][..i];
    }
  }

  lemma OrderIsOutranks(a: Candidate, b: Candidate, preset: Preset)
    ensures MayPrecede(a, b, KeyFor(preset), true, ById) <==> Outranks(a, b, preset)
  {
    match preset
    case Speed => SpeedOrder(a, b);
    case Balanced => BalancedOrder(a, b);
    case Quality => QualityOrder(a, b);
  }

  // ---------- The ranking ----------

  ghost predicate InRank(r: seq<Candidate>, preset: Preset) {
    forall i, j :: 0 <= i < j < |r| ==> Outranks(r[i], r[j], preset)
  }

  lemma RankedOrderIff(r: seq<Candidate>, preset: Preset)
    ensures RankedOrder(r, preset) <==> InRank(r, preset)
  {
    forall i, j | 0 <= i < j < |r|
      ensures MayPrecede(r[i], r[j], KeyFor(preset), true, ById) <==> Outranks(r[i], r[j], preset)
    {
      OrderIsOutranks(r[i], r[j], preset);
    }
  }

  /** An arrangement of the candidates is their ranking if and only if each outranks all that
      come after it. */
  lemma RankingIff(cs: seq<Candidate>, r: seq<Candidate>, preset: Preset)
    requires DistinctIds(cs) && multiset(r) == multiset(cs)
    ensures r == RankCandidates(cs, preset) <==> InRank(r, preset)
  {
    RankedOrderIff(r, preset);
    RankIsRankedOrder(cs, preset);
    if InRank(r, preset) {
      RankingIsUnique(cs, r, preset);
    }
  }

  // ---------- Selections ----------

  /** What a mode lets be selected at all. */
  predicate Selectable(c: Candidate, mode: Mode, fit: FitStatus) {
    c.fit == fit && fit != NoFit && if mode.Automatic? then c.autoSelectable else c.manualSelectable
  }

  /** The list shows exactly the selectable candidates with the verdict, ranked. */
  ghost predicate Ranks(r: seq<Candidate>, cs: seq<Candidate>, preset: Preset, mode: Mode, fit: FitStatus) {
    && InRank(r, preset) && DistinctIds(r)
    && forall c :: c in r <==> c in cs && Selectable(c, mode, fit)
  }

  lemma ClassIsRanked(cs: seq<Candidate>, preset: Preset, mode: Mode, fit: FitStatus)
    requires DistinctIds(cs) && fit != NoFit
    ensures Ranks(RankCandidates(WithFit(cs, mode, fit), preset), cs, preset, mode, fit)
    ensures |RankCandidates(WithFit(cs, mode, fit), preset)| == |WithFit(cs, mode, fit)|
  {
    var members := WithFit(cs, mode, fit);
    var r := RankCandidates(members, preset);
    FilterKeepsIds(cs, (c: Candidate) => Eligible(c, mode) && c.fit == fit);
    RankIsRankedOrder(members, preset);
    RankedOrderIff(r, preset);
    DistinctByMultiset(members, r);
    forall c ensures c in r <==> c in cs && Selectable(c, mode, fit) {
      RankedElements(members, preset, c);
    }
    assert |r| == |multiset(r)|;
  }

  ghost predicate Any(cs: seq<Candidate>, mode: Mode, fit: FitStatus) {
    exists c :: c in cs && Selectable(c, mode, fit)
  }

  /** Automatic selection: the best FIT candidate; without one, the best RISKY one, if the risk
      is confirmed; and what is shown is the ranking of that class. */
  lemma AutomaticMeaning(cs: seq<Candidate>, preset: Preset, confirmed: bool)
    requires DistinctIds(cs)
    ensures var (fits, riskies) := (RankCandidates(WithFit(cs, Automatic, Fit), preset),
                                    RankCandidates(WithFit(cs, Automatic, Risky), preset));
            && Ranks(fits, cs, preset, Automatic, Fit) && Ranks(riskies, cs, preset, Automatic, Risky)
            && Select(cs, preset, Automatic, confirmed)
                 == if Any(cs, Automatic, Fit) then Selected(fits[0], Ids(fits), false)
                    else if !Any(cs, Automatic, Risky) then NoSelectableModel
                    else if confirmed then Selected(riskies[0], Ids(riskies), true)
                    else ConfirmationRequired(Ids(riskies))
  {
    ClassIsRanked(cs, preset, Automatic, Fit);
    ClassIsRanked(cs, preset, Automatic, Risky);
    NonEmptyIff(RankCandidates(WithFit(cs, Automatic, Fit), preset), cs, preset, Automatic, Fit);
    NonEmptyIff(RankCandidates(WithFit(cs, Automatic, Risky), preset), cs, preset, Automatic, Risky);
  }

  lemma NonEmptyIff(r: seq<Candidate>, cs: seq<Candidate>, preset: Preset, mode: Mode, fit: FitStatus)
    requires Ranks(r, cs, preset, mode, fit)
    ensures r != [] <==> Any(cs, mode, fit)
  {
    if r != [] {
      assert r[0] in r;
    }
  }

  /** The candidate asked for, if it is there and may be selected by hand. */
  ghost predicate Asked(cs: seq<Candidate>, id: string, c: Candidate) {
    c in cs && c.id == id && (Selectable(c, Manual(None), Fit) || Selectable(c, Manual(None), Risky))
  }

  /** Manual selection: what is shown lists the FIT candidates ranked, then the RISKY ones
      ranked, and the ending depends on the candidate asked for and the confirmation alone. */
  lemma ManualMeaning(cs: seq<Candidate>, preset: Preset, requested: Option<string>, confirmed: bool)
    requires DistinctIds(cs)
    ensures var (fits, riskies) := (RankCandidates(WithFit(cs, Manual(None), Fit), preset),
                                    RankCandidates(WithFit(cs, Manual(None), Risky), preset));
            var (shown, outcome) := (Ids(fits + riskies), Select(cs, preset, Manual(requested), confirmed));
            && Ranks(fits, cs, preset, Manual(None), Fit) && Ranks(riskies, cs, preset, Manual(None), Risky)
            && (requested == None || requested == Some("") ==> outcome == ManualSelectionRequired(shown))
            && (requested != None && requested != Some("") ==>
                  match outcome
                  case Selected(c, ranked, risky) =>
                    && Asked(cs, requested.value, c) && ranked == shown && risky == (c.fit == Risky)
                    && (risky ==> confirmed)
                  case ConfirmationRequired(ranked) =>
                    && ranked == shown && !confirmed
                    && exists c :: Asked(cs, requested.value, c) && c.fit == Risky
                  case InvalidManualSelection(ranked) =>
                    ranked == shown && forall c :: !Asked(cs, requested.value, c)
                  case _ => false)
  {
    ClassIsRanked(cs, preset, Manual(None), Fit);
    ClassIsRanked(cs, preset, Manual(None), Risky);
    if requested != None && requested != Some("") {
      FoundIsAsked(cs, requested);
    }
  }

  lemma FoundIsAsked(cs: seq<Candidate>, requested: Option<string>)
    requires DistinctIds(cs) && requested.Some?
    ensures var found := FindEligible(cs, Manual(requested), requested.value);
            if found.Some? then Asked(cs, requested.value, found.value)
            else forall c :: !Asked(cs, requested.value, c)
  {
    var keep := (c: Candidate) => Eligible(c, Manual(requested));
    FilterKeepsIds(cs, keep);
    FindMeaning(Filter(cs, keep), requested.value);
    forall c | Asked(cs, requested.value, c) ensures c in Filter(cs, keep) {
    }
  }
}
