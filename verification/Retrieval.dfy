/** Scoring retrieval (`score_retrieval.py`): DCG, nDCG@k and recall@k.

    The discount 1 / log2(index + 2) enters only as a positive, non-increasing
    function of the position. */
module Retrieval {
  import opened Options
  import opened StableSort

  type Discount = nat -> real

  ghost predicate IsDiscount(d: Discount) {
    && (forall i: nat :: d(i) > 0.0)
    && (forall i: nat, j: nat :: i <= j ==> d(i) >= d(j))
  }

  datatype Weights = Weights(gain: nat -> real, discount: Discount)

  ghost predicate IsWeights(w: Weights) {
    && w.gain(0) == 0.0
    && (forall a: nat, b: nat :: a <= b ==> w.gain(a) <= w.gain(b))
    && IsDiscount(w.discount)
  }

  /** 2^grade - 1. */
  function Gain(grade: nat): real {
    if grade == 0 then 0.0 else 2.0 * Gain(grade - 1) + 1.0
  }

  /** The discounted gains of grades standing at positions `from`, `from + 1`, ... */
  function Sum(grades: seq<nat>, w: Weights, from: nat): real
    decreases |grades|
  {
    if grades == [] then 0.0 else w.gain(grades[0]) * w.discount(from) + Sum(grades[1..], w, from + 1)
  }

  function Dcg(grades: seq<nat>, d: Discount): real {
    Sum(grades, Weights(Gain, d), 0)
  }

  function Take<T>(xs: seq<T>, k: nat): seq<T> {
    if k < |xs| then xs[..k] else xs
  }

  function GradeKey(g: nat): Key {
    [g as real]
  }

  /** The grades, best first. */
  function Ideal(grades: seq<nat>): seq<nat> {
    Sorted(grades, GradeKey, true)
  }

  function Ndcg(ranked: seq<nat>, all: seq<nat>, k: nat, d: Discount): Option<real> {
    var ideal := Dcg(Take(Ideal(all), k), d);
    if ideal == 0.0 then None else Some(Dcg(Take(ranked, k), d) / ideal)
  }

  function CountAtLeast(grades: seq<nat>, threshold: int): nat {
    if grades == [] then 0 else (if grades[0] >= threshold then 1 else 0) + CountAtLeast(grades[1..], threshold)
  }

  function Recall(ranked: seq<nat>, totalRelevant: nat, k: nat, threshold: int): Option<real> {
    if totalRelevant == 0 then None
    else Some(CountAtLeast(Take(ranked, k), threshold) as real / totalRelevant as real)
  }

  // ---------- How a query builds the inputs ----------

  /** The judgements of one query: name and grade, each name once. */
  datatype Judgement = Judgement(name: string, grade: nat)

  ghost predicate IsRelevance(js: seq<Judgement>) {
    forall i, j :: 0 <= i < j < |js| ==> js[i].name != js[j].name
  }

  /** `relevance.get(name, 0)`. */
  function GradeOf(js: seq<Judgement>, name: string): nat {
    if js == [] then 0 else if js[0].name == name then js[0].grade else GradeOf(js[1..], name)
  }

  function RankedGrades(js: seq<Judgement>, names: seq<string>): seq<nat> {
    seq(|names|, i requires 0 <= i < |names| => GradeOf(js, names[i]))
  }

  function AllGrades(js: seq<Judgement>): seq<nat> {
    seq(|js|, i requires 0 <= i < |js| => js[i].grade)
  }

  ghost predicate DistinctNames(names: seq<string>) {
    forall i, j :: 0 <= i < j < |names| ==> names[i] != names[j]
  }

  // ---------- Gains and discounts ----------

  lemma {:induction false} GainIsMonotone(a: nat, b: nat)
    requires a <= b
    ensures 0.0 <= Gain(a) <= Gain(b)
    ensures a < b ==> Gain(a) < Gain(b)
    decreases b
  {
    if a > 0 {
      GainIsMonotone(a - 1, b - 1);
    } else if b > 0 {
      GainIsMonotone(0, b - 1);
    }
  }

  lemma GainsAreWeights(d: Discount)
    requires IsDiscount(d)
    ensures IsWeights(Weights(Gain, d))
  {
    forall a: nat, b: nat | a <= b ensures Gain(a) <= Gain(b) {
      GainIsMonotone(a, b);
    }
  }

  lemma {:induction false} SumIsNonNegative(grades: seq<nat>, w: Weights, from: nat)
    requires IsWeights(w)
    ensures Sum(grades, w, from) >= 0.0
    decreases grades
  {
    if grades != [] {
      ProductAtLeast(0.0, w.gain(grades[0]), w.discount(from));
      SumIsNonNegative(grades[1..], w, from + 1);
    }
  }

  lemma ProductAtLeast(a: real, b: real, factor: real)
    requires a <= b && factor >= 0.0
    ensures a * factor <= b * factor
  {
  }

  lemma Distribute(a: real, b: real, factor: real)
    ensures (a - b) * factor == a * factor - b * factor
  {
  }

  lemma SumStep(grades: seq<nat>, w: Weights, from: nat)
    requires grades != []
    ensures Sum(grades, w, from) == w.gain(grades[0]) * w.discount(from) + Sum(grades[1..], w, from + 1)
  {
  }

  /** Changing one grade replaces its discounted gain. */
  lemma {:induction false} SumUpdate(grades: seq<nat>, w: Weights, from: nat, p: nat, g: nat)
    requires p < |grades|
    ensures Sum(grades[p := g], w, from)
         == Sum(grades, w, from) + w.gain(g) * w.discount(from + p) - w.gain(grades[p]) * w.discount(from + p)
    decreases p
  {
    var after := grades[p := g];
    SumStep(grades, w, from);
    SumStep(after, w, from);
    if p > 0 {
      var rest, restAfter := grades[1..], grades[1..][p - 1 := g];
      assert after[1..] == restAfter;
      SumUpdate(rest, w, from + 1, p - 1, g);
    } else {
      assert after[1..] == grades[1..];
    }
  }

  // ---------- The rearrangement inequality ----------

  /** Every positive grade occurs in `r` at most as often as in `t`. */
  ghost predicate Dominated(r: seq<nat>, t: seq<nat>) {
    forall g: nat :: g > 0 ==> multiset(r)[g] <= multiset(t)[g]
  }

  ghost predicate Descending(t: seq<nat>) {
    forall i, j :: 0 <= i < j < |t| ==> t[i] >= t[j]
  }

  lemma HeadSplits(xs: seq<nat>)
    requires xs != []
    ensures multiset(xs) == multiset{xs[0]} + multiset(xs[1..])
  {
    assert xs == [xs[0]] + xs[1..];
  }

  lemma {:induction false} AllZeroes(r: seq<nat>, w: Weights, from: nat)
    requires IsWeights(w) && Dominated(r, [])
    ensures Sum(r, w, from) == 0.0
    decreases r
  {
    if r != [] {
      HeadSplits(r);
      assert multiset(r)[r[0]] > 0;
      assert r[0] == 0;
      AllZeroes(r[1..], w, from + 1);
    }
  }

  /** A positive grade of `r` occurs in `t`, so it is at most the head of `t`. */
  lemma HeadIsLargest(r: seq<nat>, t: seq<nat>, x: nat)
    requires Dominated(r, t) && Descending(t) && t != [] && x in r
    ensures x <= t[0]
  {
    if x > 0 {
      assert x in multiset(r);
      assert x in multiset(t);
      var i :| 0 <= i < |t| && t[i] == x;
    }
  }

  lemma SwapKeepsDominated(r: seq<nat>, t: seq<nat>, p: nat)
    requires Dominated(r, t) && r != [] && t != [] && p < |r| - 1 && r[1..][p] == t[0]
    ensures Dominated(r[1..][p := r[0]], t[1..])
  {
    var tail: seq<nat>, rest: seq<nat> := r[1..], r[1..][p := r[0]];
    HeadSplits(r);
    HeadSplits(t);
    assert multiset(rest) == multiset(tail) - multiset{t[0]} + multiset{r[0]};
    assert multiset(r) == multiset(rest) + multiset{t[0]};
    forall g: nat | g > 0 ensures multiset(rest)[g] <= multiset(t[1..])[g] {
      assert multiset(r)[g] <= multiset(t)[g];
    }
  }

  lemma DropKeepsDominated(r: seq<nat>, t: seq<nat>)
    requires Dominated(r, t) && r != [] && t != [] && (r[0] == t[0] || t[0] !in r[1..])
    ensures Dominated(r[1..], t[1..])
  {
    HeadSplits(r);
    HeadSplits(t);
    forall g: nat | g > 0 ensures multiset(r[1..])[g] <= multiset(t[1..])[g] {
      assert multiset(r)[g] <= multiset(t)[g];
      if g == t[0] && r[0] != t[0] {
        assert g !in multiset(r[1..]);
      }
    }
  }

  /** Putting the largest grade first, by a swap with its occurrence in the rest or by
      raising the head, loses nothing and keeps the rest dominated. */
  lemma BestFirst(r: seq<nat>, t: seq<nat>, w: Weights, from: nat) returns (rest: seq<nat>)
    requires IsWeights(w) && Dominated(r, t) && Descending(t) && r != [] && t != []
    ensures |rest| == |r| - 1 && Dominated(rest, t[1..])
    ensures Sum(r, w, from) <= w.gain(t[0]) * w.discount(from) + Sum(rest, w, from + 1)
  {
    var x, top, tail := r[0], t[0], r[1..];
    HeadIsLargest(r, t, x);
    SumStep(r, w, from);
    if x != top && top in tail {
      var p :| 0 <= p < |tail| && tail[p] == top;
      rest := tail[p := x];
      SwapKeepsDominated(r, t, p);
      SumUpdate(tail, w, from + 1, p, x);
      SwapGains(w.gain(x), w.gain(top), w.discount(from), w.discount(from + 1 + p));
    } else {
      rest := tail;
      DropKeepsDominated(r, t);
      ProductAtLeast(w.gain(x), w.gain(top), w.discount(from));
    }
  }

  lemma SwapGains(low: real, high: real, near: real, far: real)
    requires low <= high && far <= near
    ensures low * near + high * far <= high * near + low * far
  {
    ProductAtLeast(far, near, high - low);
    Distribute(high, low, near);
    Distribute(high, low, far);
  }

  lemma TailDescends(t: seq<nat>)
    requires Descending(t) && t != []
    ensures Descending(t[1..])
  {
  }

  lemma TakeTail(t: seq<nat>, k: nat)
    requires k > 0 && t != []
    ensures Take(t, k) != [] && Take(t, k)[0] == t[0] && Take(t, k)[1..] == Take(t[1..], k - 1)
  {
  }

  lemma IdealStep(t: seq<nat>, k: nat, w: Weights, from: nat)
    requires k > 0 && t != []
    ensures Sum(Take(t, k), w, from) == w.gain(t[0]) * w.discount(from) + Sum(Take(t[1..], k - 1), w, from + 1)
  {
    TakeTail(t, k);
    SumStep(Take(t, k), w, from);
  }

  /** The DCG of any arrangement of a sub-collection of the grades, zeros allowed, is
      at most that of the k best grades in descending order. */
  lemma {:induction false} SumIsAtMostIdeal(r: seq<nat>, t: seq<nat>, k: nat, w: Weights, from: nat)
    requires IsWeights(w) && Dominated(r, t) && Descending(t) && |r| <= k
    ensures Sum(r, w, from) <= Sum(Take(t, k), w, from)
    decreases |r|
  {
    if r == [] {
      SumIsNonNegative(Take(t, k), w, from);
    } else if t == [] {
      AllZeroes(r, w, from);
    } else {
      var rest := BestFirst(r, t, w, from);
      TailDescends(t);
      SumIsAtMostIdeal(rest, t[1..], k - 1, w, from + 1);
      IdealStep(t, k, w, from);
    }
  }

  lemma IdealIsDescending(all: seq<nat>)
    ensures Descending(Ideal(all)) && multiset(Ideal(all)) == multiset(all)
  {
    var tie := (a: nat, b: nat) => true;
    SortedIsOrdered(all, GradeKey, true, tie);
    SortedElements(all, GradeKey, true);
    var t := Ideal(all);
    forall i, j | 0 <= i < j < |t| ensures t[i] >= t[j] {
      assert MayPrecede(t[i], t[j], GradeKey, true, tie);
    }
  }

  // ---------- Distinct names ----------

  function Without(js: seq<Judgement>, i: nat): seq<Judgement>
    requires i < |js|
  {
    js[..i] + js[i + 1..]
  }

  lemma {:induction false} GradeOfAt(js: seq<Judgement>, i: nat)
    requires IsRelevance(js) && i < |js|
    ensures GradeOf(js, js[i].name) == js[i].grade
  {
    if i > 0 {
      assert js[0].name != js[i].name;
      GradeOfAt(js[1..], i - 1);
    }
  }

  lemma {:induction false} GradeOfAbsent(js: seq<Judgement>, name: string)
    requires forall i :: 0 <= i < |js| ==> js[i].name != name
    ensures GradeOf(js, name) == 0
  {
    if js != [] {
      GradeOfAbsent(js[1..], name);
    }
  }

  lemma {:induction false} GradeOfOther(js: seq<Judgement>, i: nat, name: string)
    requires i < |js| && js[i].name != name
    ensures GradeOf(Without(js, i), name) == GradeOf(js, name)
  {
    if i > 0 {
      assert Without(js, i)[1..] == Without(js[1..], i - 1);
      GradeOfOther(js[1..], i - 1, name);
    } else {
      assert Without(js, 0) == js[1..];
    }
  }

  lemma AllGradesWithout(js: seq<Judgement>, i: nat)
    requires i < |js|
    ensures multiset(AllGrades(js)) == multiset(AllGrades(Without(js, i))) + multiset{js[i].grade}
  {
    var all := AllGrades(js);
    assert all == all[..i] + [all[i]] + all[i + 1..];
    assert AllGrades(Without(js, i)) == all[..i] + all[i + 1..];
  }

  lemma OneMoreGrade(grades: seq<nat>, fewer: seq<nat>, all: seq<nat>, grade: nat)
    requires Dominated(grades, fewer) && multiset(all) == multiset(fewer) + multiset{grade}
    ensures Dominated([grade] + grades, all)
  {
    HeadSplits([grade] + grades);
    assert ([grade] + grades)[1..] == grades;
    forall g: nat | g > 0 ensures multiset([grade] + grades)[g] <= multiset(all)[g] {
      assert multiset(grades)[g] <= multiset(fewer)[g];
    }
  }

  lemma OneMoreZero(grades: seq<nat>, all: seq<nat>)
    requires Dominated(grades, all)
    ensures Dominated([0] + grades, all)
  {
    HeadSplits([0] + grades);
    assert ([0] + grades)[1..] == grades;
  }

  lemma OtherNamesKeepGrades(js: seq<Judgement>, i: nat, names: seq<string>)
    requires i < |js| && js[i].name !in names
    ensures RankedGrades(Without(js, i), names) == RankedGrades(js, names)
  {
    forall k | 0 <= k < |names| ensures GradeOf(Without(js, i), names[k]) == GradeOf(js, names[k]) {
      assert names[k] in names;
      GradeOfOther(js, i, names[k]);
    }
  }

  lemma HeadNotInTail(names: seq<string>)
    requires DistinctNames(names) && names != []
    ensures names[0] !in names[1..] && DistinctNames(names[1..])
  {
    forall k | 0 <= k < |names[1..]| ensures names[1..][k] != names[0] {
      assert names[k + 1] != names[0];
    }
  }

  /** Distinct names use each judgement at most once. */
  lemma {:induction false} DistinctIsDominated(js: seq<Judgement>, names: seq<string>)
    requires IsRelevance(js) && DistinctNames(names)
    ensures Dominated(RankedGrades(js, names), AllGrades(js))
    decreases |names|
  {
    if names != [] {
      var name, rest := names[0], names[1..];
      HeadNotInTail(names);
      assert RankedGrades(js, names) == [GradeOf(js, name)] + RankedGrades(js, rest);
      if i :| 0 <= i < |js| && js[i].name == name {
        var fewer := Without(js, i);
        DistinctIsDominated(fewer, rest);
        GradeOfAt(js, i);
        AllGradesWithout(js, i);
        OtherNamesKeepGrades(js, i, rest);
        OneMoreGrade(RankedGrades(fewer, rest), AllGrades(fewer), AllGrades(js), js[i].grade);
      } else {
        GradeOfAbsent(js, name);
        DistinctIsDominated(js, rest);
        OneMoreZero(RankedGrades(js, rest), AllGrades(js));
      }
    }
  }

  function Score(js: seq<Judgement>, names: seq<string>, k: nat, d: Discount): Option<real> {
    Ndcg(RankedGrades(js, names), AllGrades(js), k, d)
  }

  lemma TakeRanked(js: seq<Judgement>, names: seq<string>, k: nat)
    ensures Take(RankedGrades(js, names), k) == RankedGrades(js, Take(names, k))
  {
  }

  /** With distinct names among the first k results, nDCG@k lies between 0 and 1. */
  lemma NdcgIsBounded(js: seq<Judgement>, names: seq<string>, k: nat, d: Discount)
    requires IsDiscount(d) && IsRelevance(js) && DistinctNames(Take(names, k))
    requires Score(js, names, k, d).Some?
    ensures 0.0 <= Score(js, names, k, d).value <= 1.0
  {
    var ranked, all := Take(RankedGrades(js, names), k), AllGrades(js);
    TakeRanked(js, names, k);
    DistinctIsDominated(js, Take(names, k));
    IdealIsDescending(all);
    GainsAreWeights(d);
    var w := Weights(Gain, d);
    SumIsAtMostIdeal(ranked, Ideal(all), k, w, 0);
    SumIsNonNegative(ranked, w, 0);
    SumIsNonNegative(Take(Ideal(all), k), w, 0);
    QuotientBounds(Dcg(ranked, d), Dcg(Take(Ideal(all), k), d));
  }

  lemma QuotientBounds(x: real, y: real)
    requires y > 0.0 && x >= 0.0
    ensures x / y >= 0.0 && (x / y <= 1.0 <==> x <= y)
  {
  }

  // ---------- Repeated names ----------

  /** Each name once, all with grade one. */
  function OnceEach(names: seq<string>): seq<Judgement> {
    if names == [] then []
    else
      var front, last := names[..|names| - 1], names[|names| - 1];
      if last in front then OnceEach(front) else OnceEach(front) + [Judgement(last, 1)]
  }

  lemma {:induction false} OnceEachShape(names: seq<string>)
    ensures IsRelevance(OnceEach(names)) && |OnceEach(names)| <= |names|
    ensures forall i :: 0 <= i < |OnceEach(names)| ==> OnceEach(names)[i].grade == 1
    ensures forall name :: name in names <==> exists i :: 0 <= i < |OnceEach(names)| && OnceEach(names)[i].name == name
    ensures !DistinctNames(names) ==> |OnceEach(names)| < |names|
  {
    if names != [] {
      var front, last := names[..|names| - 1], names[|names| - 1];
      var js := OnceEach(front);
      OnceEachShape(front);
      assert names == front + [last];
      if last !in front {
        assert forall i :: 0 <= i < |js| ==> OnceEach(names)[i] == js[i];
        assert OnceEach(names)[|js|].name == last;
        if DistinctNames(front) {
          assert DistinctNames(names);
        }
      }
    }
  }

  function Ones(n: nat): seq<nat> {
    seq(n, _ => 1)
  }

  lemma {:induction false} MoreOnesScoreMore(few: nat, many: nat, w: Weights, from: nat)
    requires IsWeights(w) && w.gain(1) > 0.0 && few < many
    ensures 0.0 <= Sum(Ones(few), w, from) < Sum(Ones(many), w, from)
    decreases many
  {
    assert Ones(many)[1..] == Ones(many - 1);
    assert w.gain(1) * w.discount(from) > 0.0;
    SumStep(Ones(many), w, from);
    if few > 0 {
      assert Ones(few)[1..] == Ones(few - 1);
      SumStep(Ones(few), w, from);
      MoreOnesScoreMore(few - 1, many - 1, w, from + 1);
    } else {
      SumIsNonNegative(Ones(many - 1), w, from + 1);
    }
  }

  /** If a name repeats among the first k results there are judgements for which
      nDCG@k exceeds 1. */
  lemma RepeatedNameExceedsOne(names: seq<string>, k: nat, d: Discount) returns (js: seq<Judgement>)
    requires IsDiscount(d) && !DistinctNames(Take(names, k))
    ensures IsRelevance(js) && Score(js, names, k, d).Some? && Score(js, names, k, d).value > 1.0
  {
    var shown := Take(names, k);
    js := OnceEach(shown);
    OnceEachShape(shown);
    TakeRanked(js, names, k);
    forall i | 0 <= i < |shown| ensures RankedGrades(js, shown)[i] == 1 {
      assert shown[i] in shown;
      var j :| 0 <= j < |js| && js[j].name == shown[i];
      GradeOfAt(js, j);
    }
    assert RankedGrades(js, shown) == Ones(|shown|);
    assert AllGrades(js) == Ones(|js|);
    var tie := (a: nat, b: nat) => true;
    SortedKeepsOrdered(Ones(|js|), GradeKey, true, tie);
    assert Take(Ideal(AllGrades(js)), k) == Ones(|js|);
    assert |js| > 0 by {
      assert shown[0] in shown;
    }
    GainIsMonotone(0, 1);
    GainsAreWeights(d);
    MoreOnesScoreMore(|js|, |shown|, Weights(Gain, d), 0);
    MoreOnesScoreMore(0, |js|, Weights(Gain, d), 0);
    QuotientBounds(Dcg(Ones(|shown|), d), Dcg(Ones(|js|), d));
  }

  /** nDCG@k stays within 1 for every judgement of the corpus exactly when the first k
      returned names are distinct. */
  lemma NdcgBoundedIffDistinct(names: seq<string>, k: nat, d: Discount)
    requires IsDiscount(d)
    ensures (forall js :: IsRelevance(js) && Score(js, names, k, d).Some? ==> Score(js, names, k, d).value <= 1.0)
              <==> DistinctNames(Take(names, k))
  {
    if DistinctNames(Take(names, k)) {
      forall js | IsRelevance(js) && Score(js, names, k, d).Some? ensures Score(js, names, k, d).value <= 1.0 {
        NdcgIsBounded(js, names, k, d);
      }
    } else {
      var js := RepeatedNameExceedsOne(names, k, d);
    }
  }

  // ---------- Recall ----------

  lemma RemoveKeepsDominated(xs: seq<nat>, ys: seq<nat>, i: nat)
    requires Dominated(xs, ys) && xs != [] && i < |ys| && ys[i] == xs[0]
    ensures Dominated(xs[1..], ys[..i] + ys[i + 1..])
  {
    HeadSplits(xs);
    assert ys == ys[..i] + [ys[i]] + ys[i + 1..];
    var fewer: seq<nat> := ys[..i] + ys[i + 1..];
    assert multiset(ys) == multiset(fewer) + multiset{ys[i]};
    forall g: nat | g > 0 ensures multiset(xs[1..])[g] <= multiset(fewer)[g] {
      assert multiset(xs)[g] <= multiset(ys)[g];
    }
  }

  lemma CountOfRemoved(ys: seq<nat>, i: nat, threshold: int)
    requires i < |ys|
    ensures CountAtLeast(ys, threshold)
         == CountAtLeast(ys[..i] + ys[i + 1..], threshold) + (if ys[i] >= threshold then 1 else 0)
  {
    var back := [ys[i]] + ys[i + 1..];
    CountAppend(ys[..i], back, threshold);
    CountAppend(ys[..i], ys[i + 1..], threshold);
    assert ys == ys[..i] + back;
    assert back[1..] == ys[i + 1..];
  }

  lemma {:induction false} CountOfMultiset(xs: seq<nat>, ys: seq<nat>, threshold: int)
    requires threshold >= 1 && Dominated(xs, ys)
    ensures CountAtLeast(xs, threshold) <= CountAtLeast(ys, threshold)
    decreases |xs|
  {
    if xs != [] {
      var x := xs[0];
      if x >= threshold {
        assert x in multiset(xs);
        assert x in multiset(ys);
        var i :| 0 <= i < |ys| && ys[i] == x;
        RemoveKeepsDominated(xs, ys, i);
        CountOfMultiset(xs[1..], ys[..i] + ys[i + 1..], threshold);
        CountOfRemoved(ys, i, threshold);
      } else {
        HeadSplits(xs);
        CountOfMultiset(xs[1..], ys, threshold);
      }
    }
  }

  lemma {:induction false} CountAppend(a: seq<nat>, b: seq<nat>, threshold: int)
    ensures CountAtLeast(a + b, threshold) == CountAtLeast(a, threshold) + CountAtLeast(b, threshold)
  {
    if a == [] {
      assert a + b == b;
    } else {
      assert (a + b)[1..] == a[1..] + b;
      CountAppend(a[1..], b, threshold);
    }
  }

  function RecallScore(js: seq<Judgement>, names: seq<string>, k: nat, threshold: int): Option<real> {
    Recall(RankedGrades(js, names), CountAtLeast(AllGrades(js), threshold), k, threshold)
  }

  /** A query with distinct results and something relevant. */
  ghost predicate IsScored(js: seq<Judgement>, names: seq<string>, k: nat, threshold: int) {
    IsRelevance(js) && DistinctNames(Take(names, k)) && RecallScore(js, names, k, threshold).Some?
  }

  /** Distinct names: recall@k is at most 1 for every query exactly when the relevance
      threshold is positive; otherwise unjudged results count as hits. */
  lemma RecallBoundedIffPositiveThreshold(threshold: int)
    ensures (forall js, names, k: nat :: IsScored(js, names, k, threshold) ==>
               RecallScore(js, names, k, threshold).value <= 1.0)
       <==> threshold >= 1
  {
    if threshold >= 1 {
      forall js, names, k: nat | IsScored(js, names, k, threshold)
        ensures RecallScore(js, names, k, threshold).value <= 1.0
      {
        TakeRanked(js, names, k);
        DistinctIsDominated(js, Take(names, k));
        CountOfMultiset(Take(RankedGrades(js, names), k), AllGrades(js), threshold);
        QuotientBounds(CountAtLeast(Take(RankedGrades(js, names), k), threshold) as real,
                       CountAtLeast(AllGrades(js), threshold) as real);
      }
    } else {
      UnjudgedCountsAsHit(threshold);
      assert IsScored([Judgement("a", 1)], ["a", "b"], 2, threshold);
    }
  }

  lemma {:induction false} CountAll(grades: seq<nat>, threshold: int)
    requires threshold <= 0
    ensures CountAtLeast(grades, threshold) == |grades|
  {
    if grades != [] {
      CountAll(grades[1..], threshold);
    }
  }

  lemma UnjudgedCountsAsHit(threshold: int)
    requires threshold <= 0
    ensures var js, names := [Judgement("a", 1)], ["a", "b"];
            IsRelevance(js) && DistinctNames(Take(names, 2)) && RecallScore(js, names, 2, threshold) == Some(2.0)
  {
    var js, names := [Judgement("a", 1)], ["a", "b"];
    var ranked := RankedGrades(js, names);
    assert AllGrades(js) == [1];
    CountAll(ranked, threshold);
    assert Take(ranked, 2) == ranked;
    assert [1][1..] == [];
    assert CountAtLeast([1], threshold) == 1;
    assert "a"[0] != "b"[0];
  }
}
