/** What the retrieval scores are numbers of. */
module RetrievalOutcomes {
  import opened Options
  import opened StableSort
  import opened Retrieval

  // ---------- Gains ----------

  function Times(x: real, y: real): real {
    x * y
  }

  lemma TimesOne(x: real)
    ensures Times(x, 1.0) == x
  {
  }

  lemma TimesDouble(x: real, y: real)
    ensures Times(x, 2.0 * y) == 2.0 * Times(x, y)
  {
    assert x * (2.0 * y) == 2.0 * (x * y);
  }

  /** Gains grow as the powers of two, less one. */
  lemma {:induction false} GainIsExponential(a: nat, b: nat)
    ensures Gain(1) == 1.0
    ensures Gain(a + b) + 1.0 == Times(Gain(a) + 1.0, Gain(b) + 1.0)
  {
    assert Gain(1) == 2.0 * Gain(0) + 1.0;
    if b == 0 {
      TimesOne(Gain(a) + 1.0);
    } else {
      GainIsExponential(a, b - 1);
      TimesDouble(Gain(a) + 1.0, Gain(b - 1) + 1.0);
      assert Gain(b) + 1.0 == 2.0 * (Gain(b - 1) + 1.0);
    }
  }

  // ---------- Sums over positions ----------

  /** The gain of one result, at its place in the ranking. */
  function Worth(grade: nat, place: nat, w: Weights): real {
    Times(w.gain(grade), w.discount(place))
  }

  lemma WorthMeaning(g: nat, place: nat, d: Discount)
    ensures Worth(g, place, Weights(Gain, d)) == Times(Gain(g), d(place))
  {
  }

  /** Every result counts, at its own place. */
  lemma DcgGrows(grades: seq<nat>, g: nat, d: Discount)
    ensures Dcg(grades + [g], d) == Dcg(grades, d) + Worth(g, |grades|, Weights(Gain, d))
  {
    SumGrows(grades, g, Weights(Gain, d), 0);
  }

  lemma {:induction false} SumGrows(grades: seq<nat>, g: nat, w: Weights, from: nat)
    ensures Sum(grades + [g], w, from) == Sum(grades, w, from) + Worth(g, from + |grades|, w)
    decreases |grades|
  {
    if grades == [] {
      assert [g][1..] == [] && grades + [g] == [g];
    } else {
      assert (grades + [g])[1..] == grades[1..] + [g];
      SumGrows(grades[1..], g, w, from + 1);
    }
  }

  lemma {:induction false} PositiveIff(grades: seq<nat>, w: Weights, from: nat)
    requires IsWeights(w) && forall g: nat :: g > 0 ==> w.gain(g) > 0.0
    ensures Sum(grades, w, from) >= 0.0
    ensures Sum(grades, w, from) == 0.0 <==> forall i :: 0 <= i < |grades| ==> grades[i] == 0
    decreases |grades|
  {
    if grades != [] {
      var rest := grades[1..];
      PositiveIff(rest, w, from + 1);
      if grades[0] > 0 {
        Positive(w.gain(grades[0]), w.discount(from));
      }
      assert forall i :: 0 <= i < |rest| ==> rest[i] == grades[i + 1];
      assert (forall i :: 0 <= i < |grades| ==> grades[i] == 0)
        <==> grades[0] == 0 && forall i :: 0 <= i < |rest| ==> rest[i] == 0 by {
        if grades[0] == 0 && forall i :: 0 <= i < |rest| ==> rest[i] == 0 {
          forall i | 0 <= i < |grades| ensures grades[i] == 0 {
            assert i > 0 ==> rest[i - 1] == grades[i];
          }
        }
      }
    }
  }

  lemma Positive(x: real, y: real)
    requires x > 0.0 && y > 0.0
    ensures x * y > 0.0
  {
  }

  // ---------- nDCG ----------

  lemma SameLargest(xs: seq<nat>, ys: seq<nat>)
    requires Descending(xs) && Descending(ys) && multiset(xs) == multiset(ys) && xs != [] && ys != []
    ensures xs[0] == ys[0]
  {
    assert xs[0] in multiset(ys) && ys[0] in multiset(xs);
  }

  lemma SameLength(xs: seq<nat>, ys: seq<nat>)
    requires multiset(xs) == multiset(ys)
    ensures |xs| == |ys|
  {
    assert |multiset(xs)| == |multiset(ys)|;
  }

  lemma TailOfDescending(xs: seq<nat>)
    requires xs != [] && Descending(xs)
    ensures Descending(xs[1..]) && multiset(xs[1..]) == multiset(xs) - multiset{xs[0]}
  {
    assert xs == [xs[0]] + xs[1..];
  }

  lemma {:induction false} DescendingIsUnique(xs: seq<nat>, ys: seq<nat>)
    requires Descending(xs) && Descending(ys) && multiset(xs) == multiset(ys)
    ensures xs == ys
  {
    SameLength(xs, ys);
    if xs != [] {
      SameLargest(xs, ys);
      TailOfDescending(xs);
      TailOfDescending(ys);
      DescendingIsUnique(xs[1..], ys[1..]);
      assert xs == [xs[0]] + xs[1..] == [ys[0]] + ys[1..] == ys;
    }
  }

  lemma Share(x: real, y: real)
    requires y > 0.0
    ensures Times(x / y, y) == x && y / y == 1.0
  {
  }

  /** nDCG is missing exactly if nothing of value could be shown; else it is the share of the
      best first `k` results that the ranking reaches, and the best ranking has all of it. */
  lemma NdcgMeaning(ranked: seq<nat>, all: seq<nat>, best: seq<nat>, k: nat, d: Discount)
    requires IsDiscount(d) && Descending(best) && multiset(best) == multiset(all)
    ensures Ndcg(ranked, all, k, d).None? <==> k == 0 || forall g :: g in all ==> g == 0
    ensures Ndcg(ranked, all, k, d).Some? ==>
              && Dcg(Take(best, k), d) > 0.0
              && Times(Ndcg(ranked, all, k, d).value, Dcg(Take(best, k), d)) == Dcg(Take(ranked, k), d)
              && Ndcg(best, all, k, d) == Some(1.0)
  {
    IdealIsDescending(all);
    DescendingIsUnique(best, Ideal(all));
    GainsAreWeights(d);
    forall g: nat | g > 0 ensures Gain(g) > 0.0 {
      GainIsMonotone(0, g);
    }
    PositiveIff(Take(best, k), Weights(Gain, d), 0);
    NothingOfValue(best, all, k);
    if Dcg(Take(best, k), d) > 0.0 {
      Share(Dcg(Take(ranked, k), d), Dcg(Take(best, k), d));
    }
  }

  lemma NothingOfValue(best: seq<nat>, all: seq<nat>, k: nat)
    requires Descending(best) && multiset(best) == multiset(all)
    ensures (forall i :: 0 <= i < |Take(best, k)| ==> Take(best, k)[i] == 0)
       <==> k == 0 || forall g :: g in all ==> g == 0
  {
    forall g ensures g in all <==> g in best {
      assert g in multiset(all) <==> g in multiset(best);
    }
    if k > 0 && best != [] && best[0] == 0 {
      forall g | g in all ensures g == 0 {
        var i :| 0 <= i < |best| && best[i] == g;
      }
    }
    if k > 0 && best != [] && (forall i :: 0 <= i < |Take(best, k)| ==> Take(best, k)[i] == 0) {
      assert Take(best, k)[0] == best[0];
    }
    if forall g :: g in all ==> g == 0 {
      forall i | 0 <= i < |Take(best, k)| ensures Take(best, k)[i] == 0 {
        assert Take(best, k)[i] == best[i] && best[i] in best;
      }
    }
  }

  // ---------- Recall ----------

  function Hits(grades: seq<nat>, threshold: int): set<nat> {
    set i: nat | i < |grades| && grades[i] >= threshold
  }

  lemma {:induction false} CountIsHits(grades: seq<nat>, threshold: int)
    ensures CountAtLeast(grades, threshold) == |Hits(grades, threshold)|
    decreases |grades|
  {
    if grades != [] {
      var front, last := grades[..|grades| - 1], grades[|grades| - 1];
      CountIsHits(front, threshold);
      CountAppend(front, [last], threshold);
      assert grades == front + [last] && [last][1..] == [];
      assert CountAtLeast([last], threshold) == if last >= threshold then 1 else 0;
      assert Hits(grades, threshold)
          == Hits(front, threshold) + if last >= threshold then {|front|} else {};
    }
  }

  lemma NoneRelevant(js: seq<Judgement>, threshold: int)
    ensures Hits(AllGrades(js), threshold) == {} <==> forall j :: j in js ==> j.grade < threshold
  {
    var relevant := Hits(AllGrades(js), threshold);
    if relevant == {} {
      forall j | j in js ensures j.grade < threshold {
        var i: nat :| i < |js| && js[i] == j;
        assert i !in relevant;
      }
    } else {
      var i :| i in relevant;
      assert js[i] in js;
    }
  }

  /** Recall is missing exactly if no judgement is relevant; else it is the share of relevant
      judgements that the relevant results among the first `k` make up. */
  lemma RecallMeaning(js: seq<Judgement>, names: seq<string>, k: nat, threshold: int)
    ensures var relevant, recall := |Hits(AllGrades(js), threshold)|, RecallScore(js, names, k, threshold);
            && (recall.None? <==> forall j :: j in js ==> j.grade < threshold)
            && (recall.Some? ==> Times(recall.value, relevant as real)
                                   == |Hits(RankedGrades(js, Take(names, k)), threshold)| as real)
  {
    var relevant, found := AllGrades(js), RankedGrades(js, Take(names, k));
    CountIsHits(relevant, threshold);
    CountIsHits(found, threshold);
    TakeRanked(js, names, k);
    NoneRelevant(js, threshold);
    if CountAtLeast(relevant, threshold) > 0 {
      Share(CountAtLeast(found, threshold) as real, CountAtLeast(relevant, threshold) as real);
    }
  }

  /** A result has the grade its name was judged with, or zero. */
  lemma RankedGradeMeaning(js: seq<Judgement>, names: seq<string>, i: nat, grade: nat)
    requires IsRelevance(js) && i < |names| && grade > 0
    ensures |RankedGrades(js, names)| == |names|
    ensures RankedGrades(js, names)[i] == grade <==> Judgement(names[i], grade) in js
  {
    if j: nat :| j < |js| && js[j].name == names[i] {
      GradeOfAt(js, j);
      if Judgement(names[i], grade) in js {
        var l: nat :| l < |js| && js[l] == Judgement(names[i], grade);
        GradeOfAt(js, l);
      }
    } else {
      GradeOfAbsent(js, names[i]);
    }
  }
}
