/** Discounted cumulative gain of benchmarks/memory/evaluate.py, with the base-2 logarithm abstract. */
module RankingMetrics {
  import opened Powers
  import opened StableSort
  import opened Text

  datatype Label = Label(id: string, grade: int)

  /** A dict from memory id to grade, in insertion order. */
  ghost predicate IsDict(labels: seq<Label>) {
    forall i, j :: 0 <= i < j < |labels| ==> labels[i].id != labels[j].id
  }

  /** `relevant.get(id, 0)` */
  function Grade(labels: seq<Label>, id: string): int {
    if labels == [] then 0
    else if labels[0].id == id then labels[0].grade
    else Grade(labels[1..], id)
  }

  function Values(labels: seq<Label>): (grades: seq<int>)
    ensures |grades| == |labels|
    ensures forall i :: 0 <= i < |labels| ==> grades[i] == labels[i].grade
  {
    if labels == [] then [] else [labels[0].grade] + Values(labels[1..])
  }

  /** What is used of the base-2 logarithm: positive from 2 on, and strictly increasing. */
  ghost predicate IsLog(lg: nat -> real) {
    && (forall n: nat :: n >= 2 ==> lg(n) > 0.0)
    && (forall m: nat, n: nat :: 2 <= m < n ==> lg(m) < lg(n))
  }

  /** 2**grade - 1 */
  function Gain(grade: int): real {
    if grade >= 0 then (Pow2(grade) - 1) as real else 1.0 / Pow2(-grade) as real - 1.0
  }

  function Grades(ids: seq<string>, labels: seq<Label>): (grades: seq<int>)
    ensures |grades| == |ids|
    ensures forall i :: 0 <= i < |ids| ==> grades[i] == Grade(labels, ids[i])
  {
    if ids == [] then [] else [Grade(labels, ids[0])] + Grades(ids[1..], labels)
  }

  /** The grades' gains, each divided by the logarithm at its rank, from position `i` on. */
  function Score(grades: seq<int>, i: nat, lg: nat -> real): real
    requires forall n: nat :: n >= 2 ==> lg(n) > 0.0
  {
    if grades == [] then 0.0 else Gain(grades[0]) / lg(i + 2) + Score(grades[1..], i + 1, lg)
  }

  function Descending(): (le: (int, int) -> bool) {
    (x, y) => x >= y
  }

  function Ideal(labels: seq<Label>): (grades: seq<int>)
    ensures |grades| == |labels|
  {
    Sort(Descending(), Values(labels))
  }

  function Dcg(ranked: seq<string>, labels: seq<Label>, k: int, lg: nat -> real): real
    requires forall n: nat :: n >= 2 ==> lg(n) > 0.0
  {
    Score(Grades(Upto(ranked, k), labels), 0, lg)
  }

  function IdealDcg(labels: seq<Label>, k: int, lg: nat -> real): real
    requires forall n: nat :: n >= 2 ==> lg(n) > 0.0
  {
    Score(Upto(Ideal(labels), k), 0, lg)
  }

  function Ndcg(ranked: seq<string>, labels: seq<Label>, k: int, lg: nat -> real): real
    requires forall n: nat :: n >= 2 ==> lg(n) > 0.0
  {
    if labels == [] then (if ranked == [] then 1.0 else 0.0)
    else if IdealDcg(labels, k, lg) == 0.0 then 0.0
    else Dcg(ranked, labels, k, lg) / IdealDcg(labels, k, lg)
  }

  method DcgAtK(ranked: seq<string>, labels: seq<Label>, k: int, lg: nat -> real) returns (score: real)
    requires forall n: nat :: n >= 2 ==> lg(n) > 0.0
    ensures score == Dcg(ranked, labels, k, lg)
  {
    score := 0.0;
    var top := Upto(ranked, k);
    var grades := Grades(top, labels);
    for i := 0 to |top|
      invariant score + Score(grades[i..], i, lg) == Score(grades, 0, lg)
    {
      assert grades[i..][1..] == grades[i + 1..];
      var grade := Grade(labels, top[i]);
      if grade != 0 {
        score := score + Gain(grade) / lg(i + 2);
      }
    }
  }

  // ---------- Gains ----------

  lemma GainOrder(g: nat, h: nat)
    ensures Gain(g) >= 0.0
    ensures Gain(g) <= Gain(h) <==> g <= h
    ensures Gain(g) == Gain(h) <==> g == h
  {
    if g <= h {
      Pow2Grows(g, h);
    } else {
      Pow2Grows(h, g);
    }
  }

  function Total(grades: seq<int>): real {
    if grades == [] then 0.0 else Gain(grades[0]) + Total(grades[1..])
  }

  predicate NonNegative(grades: seq<int>) {
    forall i :: 0 <= i < |grades| ==> grades[i] >= 0
  }

  lemma {:induction false} TotalNonNegative(grades: seq<int>)
    requires NonNegative(grades)
    ensures Total(grades) >= 0.0
  {
    if grades != [] {
      GainOrder(grades[0], 0);
      TotalNonNegative(grades[1..]);
    }
  }

  lemma {:induction false} TotalConcat(a: seq<int>, b: seq<int>)
    ensures Total(a + b) == Total(a) + Total(b)
  {
    if a == [] {
      assert a + b == b;
    } else {
      assert (a + b)[1..] == a[1..] + b;
      TotalConcat(a[1..], b);
    }
  }

  /** Taking one grade out of a list takes its gain out of the total. */
  lemma TotalWithout(grades: seq<int>, i: nat)
    requires i < |grades|
    ensures var rest := grades[..i] + grades[i + 1..];
            && Total(grades) == Gain(grades[i]) + Total(rest)
            && multiset(grades) == multiset{grades[i]} + multiset(rest)
  {
    assert grades == grades[..i] + ([grades[i]] + grades[i + 1..]);
    TotalConcat(grades[..i], [grades[i]] + grades[i + 1..]);
    assert ([grades[i]] + grades[i + 1..])[1..] == grades[i + 1..];
    TotalConcat(grades[..i], grades[i + 1..]);
  }

  lemma WithoutOne(chosen: seq<int>, x: int, rest: seq<int>, best: int, tail: seq<int>, sorted: seq<int>)
    requires multiset(chosen) == multiset{x} + multiset(rest)
    requires sorted == [best] + tail
    requires multiset(chosen) <= multiset(sorted)
    requires best in chosen ==> x == best
    ensures multiset(rest) <= multiset(tail)
  {
    assert multiset(sorted) == multiset{best} + multiset(tail);
    forall y ensures multiset(rest)[y] <= multiset(tail)[y] {
      assert multiset(chosen)[y] <= multiset(sorted)[y];
      if y == best && best !in chosen {
        assert y !in multiset(chosen);
      }
    }
  }

  /** One of the chosen grades can be traded for the best of all. */
  lemma TradeForBest(chosen: seq<int>, sorted: seq<int>) returns (i: nat)
    requires Ordered(Descending(), sorted) && NonNegative(sorted)
    requires chosen != [] && multiset(chosen) <= multiset(sorted)
    ensures sorted != [] && i < |chosen| && 0 <= chosen[i] <= sorted[0]
    ensures multiset(chosen[..i] + chosen[i + 1..]) <= multiset(sorted[1..])
  {
    assert chosen[0] in multiset(sorted);
    var best := sorted[0];
    if best in chosen {
      i :| 0 <= i < |chosen| && chosen[i] == best;
    } else {
      i := 0;
    }
    assert chosen[i] in multiset(sorted);
    var p :| 0 <= p < |sorted| && sorted[p] == chosen[i];
    assert p > 0 ==> Descending()(sorted[0], sorted[p]);
    TotalWithout(chosen, i);
    assert sorted == [best] + sorted[1..];
    WithoutOne(chosen, chosen[i], chosen[..i] + chosen[i + 1..], best, sorted[1..], sorted);
  }

  /** No choice of at most `n` of the grades gains more than the `n` best ones. */
  lemma {:induction false} BestOf(chosen: seq<int>, sorted: seq<int>, n: nat)
    requires Ordered(Descending(), sorted) && NonNegative(sorted)
    requires multiset(chosen) <= multiset(sorted)
    requires |chosen| <= n <= |sorted|
    ensures Total(chosen) <= Total(sorted[..n])
    decreases sorted
  {
    if chosen == [] {
      TotalNonNegative(sorted[..n]);
    } else {
      var i := TradeForBest(chosen, sorted);
      GainOrder(chosen[i], sorted[0]);
      TotalWithout(chosen, i);
      BestOf(chosen[..i] + chosen[i + 1..], sorted[1..], n - 1);
      assert sorted[..n][1..] == sorted[1..][..n - 1];
    }
  }

  predicate HasLabel(labels: seq<Label>, id: string) {
    exists i :: 0 <= i < |labels| && labels[i].id == id
  }

  /** The grades of the labelled ids among `ids`. */
  function Labelled(ids: seq<string>, labels: seq<Label>): seq<int> {
    if ids == [] then []
    else if HasLabel(labels, ids[0]) then [Grade(labels, ids[0])] + Labelled(ids[1..], labels)
    else Labelled(ids[1..], labels)
  }

  ghost predicate Distinct(ids: seq<string>) {
    forall i, j :: 0 <= i < j < |ids| ==> ids[i] != ids[j]
  }

  lemma {:induction false} GradeAt(labels: seq<Label>, p: nat)
    requires IsDict(labels) && p < |labels|
    ensures Grade(labels, labels[p].id) == labels[p].grade
  {
    if p > 0 {
      GradeAt(labels[1..], p - 1);
    }
  }

  lemma {:induction false} GradeMissing(labels: seq<Label>, id: string)
    requires forall i :: 0 <= i < |labels| ==> labels[i].id != id
    ensures Grade(labels, id) == 0
  {
    if labels != [] {
      GradeMissing(labels[1..], id);
    }
  }

  lemma {:induction false} GradeWithout(labels: seq<Label>, p: nat, id: string)
    requires p < |labels| && labels[p].id != id
    ensures Grade(labels[..p] + labels[p + 1..], id) == Grade(labels, id)
  {
    var rest := labels[..p] + labels[p + 1..];
    if p == 0 {
      assert rest == labels[1..];
    } else {
      GradeWithout(labels[1..], p - 1, id);
      assert rest[1..] == labels[1..][..p - 1] + labels[1..][p..];
      assert rest[0] == labels[0];
    }
  }

  lemma HasLabelWithout(labels: seq<Label>, p: nat, id: string)
    requires p < |labels| && labels[p].id != id
    ensures HasLabel(labels[..p] + labels[p + 1..], id) == HasLabel(labels, id)
  {
    var rest := labels[..p] + labels[p + 1..];
    if i :| 0 <= i < |labels| && labels[i].id == id {
      assert rest[if i < p then i else i - 1].id == id;
    }
  }

  lemma {:induction false} LabelledWithout(ids: seq<string>, labels: seq<Label>, p: nat)
    requires p < |labels| && labels[p].id !in ids
    ensures Labelled(ids, labels[..p] + labels[p + 1..]) == Labelled(ids, labels)
  {
    hide HasLabel, Grade;
    if ids != [] {
      GradeWithout(labels, p, ids[0]);
      HasLabelWithout(labels, p, ids[0]);
      LabelledWithout(ids[1..], labels, p);
    }
  }

  lemma ValuesDropped(labels: seq<Label>, p: nat)
    requires p < |labels|
    ensures Values(labels[..p] + labels[p + 1..]) == Values(labels)[..p] + Values(labels)[p + 1..]
  {
    hide Values;
    var rest, grades := labels[..p] + labels[p + 1..], Values(labels);
    var kept := grades[..p] + grades[p + 1..];
    forall i | 0 <= i < |rest| ensures Values(rest)[i] == kept[i] {
      KeptAt(labels, p, i);
      KeptAt(grades, p, i);
    }
    assert |Values(rest)| == |kept|;
  }

  /** What is left at a position after one entry was dropped. */
  lemma KeptAt<T>(xs: seq<T>, p: nat, i: nat)
    requires p < |xs| && i < |xs| - 1
    ensures (xs[..p] + xs[p + 1..])[i] == if i < p then xs[i] else xs[i + 1]
  {
  }

  lemma ValuesWithout(labels: seq<Label>, p: nat)
    requires p < |labels|
    ensures multiset(Values(labels)) == multiset{labels[p].grade} + multiset(Values(labels[..p] + labels[p + 1..]))
  {
    ValuesDropped(labels, p);
    MultisetWithout(Values(labels), p);
  }

  /** Distinct ids draw each label's grade at most once. */
  lemma {:induction false} LabelledFromValues(ids: seq<string>, labels: seq<Label>)
    requires Distinct(ids) && IsDict(labels)
    ensures multiset(Labelled(ids, labels)) <= multiset(Values(labels))
    ensures |Labelled(ids, labels)| <= |ids|
  {
    if ids == [] {
    } else if HasLabel(labels, ids[0]) {
      var p :| 0 <= p < |labels| && labels[p].id == ids[0];
      var rest := labels[..p] + labels[p + 1..];
      GradeAt(labels, p);
      LabelledWithout(ids[1..], labels, p);
      LabelledFromValues(ids[1..], rest);
      ValuesWithout(labels, p);
    } else {
      LabelledFromValues(ids[1..], labels);
    }
  }

  lemma {:induction false} LabelledTotal(ids: seq<string>, labels: seq<Label>)
    ensures Total(Labelled(ids, labels)) == Total(Grades(ids, labels))
  {
    if ids != [] {
      LabelledTotal(ids[1..], labels);
      assert Grades(ids, labels)[1..] == Grades(ids[1..], labels);
      if !HasLabel(labels, ids[0]) {
        GradeMissing(labels, ids[0]);
      }
    }
  }

  // ---------- Weighted sums against prefix sums ----------

  function At(grades: seq<int>, j: nat): int {
    if j < |grades| then grades[j] else 0
  }

  /** The gain of the first `j` positions. */
  function Head(grades: seq<int>, j: nat): real {
    Total(Upto(grades, j))
  }

  lemma HeadNext(grades: seq<int>, j: nat)
    ensures Head(grades, j + 1) == Head(grades, j) + Gain(At(grades, j))
  {
    if j < |grades| {
      assert grades[..j + 1] == grades[..j] + [grades[j]];
      TotalConcat(grades[..j], [grades[j]]);
      assert Upto(grades, j + 1) == grades[..j + 1] && Upto(grades, j) == grades[..j];
    }
  }

  /** The weighted gains of positions i to n - 1. */
  function Weighted(grades: seq<int>, i: nat, n: nat, lg: nat -> real): real
    requires forall n: nat :: n >= 2 ==> lg(n) > 0.0
    decreases n - i
  {
    if i >= n then 0.0 else Gain(At(grades, i)) / lg(i + 2) + Weighted(grades, i + 1, n, lg)
  }

  lemma {:induction false} WeightedNothing(grades: seq<int>, i: nat, n: nat, lg: nat -> real)
    requires IsLog(lg) && |grades| <= i
    ensures Weighted(grades, i, n, lg) == 0.0
    decreases n - i
  {
    if i < n {
      WeightedNothing(grades, i + 1, n, lg);
    }
  }

  lemma {:induction false} ScoreIsWeighted(grades: seq<int>, i: nat, n: nat, lg: nat -> real)
    requires IsLog(lg) && i <= |grades| <= n
    ensures Score(grades[i..], i, lg) == Weighted(grades, i, n, lg)
    decreases |grades| - i
  {
    if i < |grades| {
      ScoreIsWeighted(grades, i + 1, n, lg);
      assert grades[i..][1..] == grades[i + 1..];
    } else {
      WeightedNothing(grades, i, n, lg);
    }
  }

  /** One step of summation by parts: a lead of `lead` is worth less at the next, smaller weight. */
  lemma LeadShrinks(lead: real, ga: real, gs: real, w: real, w': real, rest: real)
    requires 0.0 < w < w'
    requires lead + gs - ga >= 0.0
    requires (lead + gs - ga) / w' + rest >= 0.0
    ensures lead / w + gs / w - ga / w + rest >= 0.0
    ensures lead / w + gs / w - ga / w + rest == 0.0 ==>
              lead + gs - ga == 0.0 && (lead + gs - ga) / w' + rest == 0.0
  {
    var d := lead + gs - ga;
    assert lead / w + gs / w - ga / w == d / w;
    assert d / w - d / w' == d * (w' - w) / (w * w');
    assert w * w' > 0.0;
    assert d > 0.0 ==> d * (w' - w) > 0.0;
  }

  /** The lead of `best` over `grades` on the first `i` positions, at the weight of position i, plus the weighted
      difference of the remaining ones. */
  function Gap(grades: seq<int>, best: seq<int>, i: nat, n: nat, lg: nat -> real): real
    requires forall n: nat :: n >= 2 ==> lg(n) > 0.0
  {
    (Head(best, i) - Head(grades, i)) / lg(i + 2) + Weighted(best, i, n, lg) - Weighted(grades, i, n, lg)
  }

  lemma GapAtEnd(grades: seq<int>, best: seq<int>, n: nat, lg: nat -> real)
    requires IsLog(lg)
    requires Head(grades, n) <= Head(best, n)
    ensures Gap(grades, best, n, n, lg) >= 0.0
  {
    hide Head;
    var lead := Head(best, n) - Head(grades, n);
    assert lead / lg(n + 2) >= 0.0;
  }

  lemma GapStep(grades: seq<int>, best: seq<int>, i: nat, n: nat, lg: nat -> real)
    requires IsLog(lg) && i < n
    requires Head(grades, i + 1) <= Head(best, i + 1)
    requires Gap(grades, best, i + 1, n, lg) >= 0.0
    ensures Gap(grades, best, i, n, lg) >= 0.0
    ensures Gap(grades, best, i, n, lg) == 0.0 ==>
              Head(grades, i + 1) == Head(best, i + 1) && Gap(grades, best, i + 1, n, lg) == 0.0
  {
    HeadNext(grades, i);
    HeadNext(best, i);
    var w, w', rest := lg(i + 2), lg(i + 3), Weighted(best, i + 1, n, lg) - Weighted(grades, i + 1, n, lg);
    var ga, gs, lead := Gain(At(grades, i)), Gain(At(best, i)), Head(best, i) - Head(grades, i);
    assert Weighted(best, i, n, lg) - Weighted(grades, i, n, lg) == gs / w - ga / w + rest;
    hide Head, Weighted, At, Gain;
    assert Gap(grades, best, i + 1, n, lg) == (lead + gs - ga) / w' + rest;
    assert Gap(grades, best, i, n, lg) == lead / w + gs / w - ga / w + rest;
    LeadShrinks(lead, ga, gs, w, w', rest);
  }

  /** Abel summation: if every prefix of `best` gains at least as much as that of `grades`, so does the
      weighted sum, and the sums are equal only if all the prefixes are. */
  lemma {:induction false} Abel(grades: seq<int>, best: seq<int>, i: nat, n: nat, lg: nat -> real)
    requires IsLog(lg) && i <= n
    requires forall j: nat :: i <= j <= n ==> Head(grades, j) <= Head(best, j)
    ensures Gap(grades, best, i, n, lg) >= 0.0
    ensures Gap(grades, best, i, n, lg) == 0.0 ==>
              forall j: nat :: i < j <= n ==> Head(grades, j) == Head(best, j)
    decreases n - i
  {
    hide Head, Gap;
    if i == n {
      GapAtEnd(grades, best, n, lg);
    } else {
      Abel(grades, best, i + 1, n, lg);
      GapStep(grades, best, i, n, lg);
    }
  }

  // ---------- nDCG lies in [0, 1] ----------

  ghost predicate NonNegativeLabels(labels: seq<Label>) {
    forall i :: 0 <= i < |labels| ==> labels[i].grade >= 0
  }

  lemma DescendingIsPreorder()
    ensures TotalPreorder(Descending())
  {
  }

  lemma IdealShape(labels: seq<Label>)
    ensures Ordered(Descending(), Ideal(labels))
    ensures multiset(Ideal(labels)) == multiset(Values(labels))
    ensures NonNegativeLabels(labels) ==> NonNegative(Ideal(labels))
  {
    DescendingIsPreorder();
    SortOrdered(Descending(), Values(labels));
    SortPermutes(Descending(), Values(labels));
    if NonNegativeLabels(labels) {
      forall i | 0 <= i < |Ideal(labels)| ensures Ideal(labels)[i] >= 0 {
        SortKeepsMembers(Descending(), Values(labels), Ideal(labels)[i]);
      }
    }
  }

  lemma {:induction false} GradeNonNegative(labels: seq<Label>, id: string)
    requires NonNegativeLabels(labels)
    ensures Grade(labels, id) >= 0
  {
    if labels != [] {
      GradeNonNegative(labels[1..], id);
    }
  }

  lemma GradesNonNegative(ids: seq<string>, labels: seq<Label>)
    requires NonNegativeLabels(labels)
    ensures NonNegative(Grades(ids, labels))
  {
    forall i | 0 <= i < |ids| ensures Grades(ids, labels)[i] >= 0 {
      GradeNonNegative(labels, ids[i]);
    }
  }

  lemma {:induction false} ScoreNonNegative(grades: seq<int>, i: nat, lg: nat -> real)
    requires IsLog(lg) && NonNegative(grades)
    ensures Score(grades, i, lg) >= 0.0
    ensures Score(grades, i, lg) > 0.0 <==> exists j :: 0 <= j < |grades| && grades[j] > 0
  {
    if grades != [] {
      var tail := grades[1..];
      GainOrder(grades[0], 0);
      GainOrder(0, grades[0]);
      ScoreNonNegative(tail, i + 1, lg);
      assert Gain(grades[0]) / lg(i + 2) >= 0.0;
      assert grades[0] > 0 ==> Gain(grades[0]) / lg(i + 2) > 0.0;
      assert grades == [grades[0]] + tail;
      if j :| 0 <= j < |tail| && tail[j] > 0 {
        assert grades[j + 1] > 0;
      }
    }
  }

  lemma {:induction false} GradesPrefix(ids: seq<string>, labels: seq<Label>, j: nat)
    requires j <= |ids|
    ensures Grades(ids[..j], labels) == Grades(ids, labels)[..j]
  {
  }

  /** At every depth up to k the ranking has gained no more than the ideal order. */
  lemma HeadsDominated(ranked: seq<string>, labels: seq<Label>, k: nat, j: nat)
    requires IsDict(labels) && NonNegativeLabels(labels) && Distinct(Upto(ranked, k)) && j <= k
    ensures Head(Grades(Upto(ranked, k), labels), j) <= Head(Upto(Ideal(labels), k), j)
  {
    hide Ideal, Labelled, Values, Total, Grade;
    var top := Upto(ranked, j);
    assert top <= Upto(ranked, k);
    assert Upto(Grades(Upto(ranked, k), labels), j) == Grades(top, labels) by {
      GradesPrefix(Upto(ranked, k), labels, |top|);
      assert Upto(ranked, k)[..|top|] == top;
    }
    assert Upto(Upto(Ideal(labels), k), j) == Upto(Ideal(labels), j);
    var n := if j <= |labels| then j else |labels|;
    assert Upto(Ideal(labels), j) == Ideal(labels)[..n];
    IdealShape(labels);
    LabelledTotal(top, labels);
    LabelledFromValues(top, labels);
    MultisetSize(Labelled(top, labels), Values(labels));
    BestOf(Labelled(top, labels), Ideal(labels), n);
  }

  lemma MultisetSize<T>(a: seq<T>, b: seq<T>)
    requires multiset(a) <= multiset(b)
    ensures |a| <= |b|
    ensures |a| == |b| ==> multiset(a) == multiset(b)
  {
    var rest := multiset(b) - multiset(a);
    assert multiset(b) == multiset(a) + rest;
    assert |multiset(b)| == |multiset(a)| + |rest|;
    assert |multiset(a)| == |a| && |multiset(b)| == |b|;
  }

  /** How far the two score sheets reach. */
  function Depth(ranked: seq<string>, labels: seq<Label>, k: nat): nat {
    var a, b := |Upto(ranked, k)|, |Upto(Ideal(labels), k)|;
    if a <= b then b else a
  }

  lemma ScoresApart(ranked: seq<string>, labels: seq<Label>, k: nat, lg: nat -> real)
    requires IsDict(labels) && NonNegativeLabels(labels) && Distinct(Upto(ranked, k)) && IsLog(lg)
    ensures Dcg(ranked, labels, k, lg) <= IdealDcg(labels, k, lg)
    ensures Dcg(ranked, labels, k, lg) == IdealDcg(labels, k, lg) ==>
              forall j: nat :: j <= Depth(ranked, labels, k) ==>
                Head(Grades(Upto(ranked, k), labels), j) == Head(Upto(Ideal(labels), k), j)
  {
    var grades, best, n := Grades(Upto(ranked, k), labels), Upto(Ideal(labels), k), Depth(ranked, labels, k);
    forall j: nat | j <= n ensures Head(grades, j) <= Head(best, j) {
      HeadsDominated(ranked, labels, k, j);
    }
    assert Head(grades, 0) == 0.0 && Head(best, 0) == 0.0;
    assert grades[0..] == grades && best[0..] == best;
    ScoreIsWeighted(grades, 0, n, lg);
    ScoreIsWeighted(best, 0, n, lg);
    assert Gap(grades, best, 0, n, lg) == IdealDcg(labels, k, lg) - Dcg(ranked, labels, k, lg);
    hide Gap, Weighted, Head, Score;
    Abel(grades, best, 0, n, lg);
  }

  lemma IdealPositive(labels: seq<Label>, k: nat, lg: nat -> real)
    requires NonNegativeLabels(labels) && IsLog(lg)
    ensures IdealDcg(labels, k, lg) >= 0.0
    ensures IdealDcg(labels, k, lg) > 0.0 <==> k > 0 && exists i :: 0 <= i < |labels| && labels[i].grade > 0
  {
    hide Score;
    var ideal, best := Ideal(labels), Upto(Ideal(labels), k);
    IdealShape(labels);
    assert NonNegative(best);
    ScoreNonNegative(best, 0, lg);
    if i :| 0 <= i < |labels| && labels[i].grade > 0 {
      SortKeepsMembers(Descending(), Values(labels), labels[i].grade);
      assert Values(labels)[i] == labels[i].grade;
      var p :| 0 <= p < |ideal| && ideal[p] == labels[i].grade;
      assert p > 0 ==> Descending()(ideal[0], ideal[p]);
      if k > 0 {
        assert best[0] > 0;
      }
    }
    if j :| 0 <= j < |best| && best[j] > 0 {
      SortKeepsMembers(Descending(), Values(labels), ideal[j]);
      var i :| 0 <= i < |labels| && Values(labels)[i] == ideal[j];
      assert labels[i].grade > 0;
    }
  }

  lemma Share(x: real, y: real)
    requires 0.0 <= x <= y && y > 0.0
    ensures 0.0 <= x / y <= 1.0
    ensures x / y == 1.0 <==> x == y
  {
    assert x / y * y == x;
  }

  /** nDCG is a share of the ideal: for a ranking without duplicates in its first k places, non-negative grades and
      k >= 0. */
  lemma NdcgBounds(ranked: seq<string>, labels: seq<Label>, k: nat, lg: nat -> real)
    requires IsDict(labels) && NonNegativeLabels(labels) && Distinct(Upto(ranked, k)) && IsLog(lg)
    ensures 0.0 <= Ndcg(ranked, labels, k, lg) <= 1.0
  {
    hide Score;
    if labels != [] && IdealDcg(labels, k, lg) != 0.0 {
      IdealPositive(labels, k, lg);
      ScoresApart(ranked, labels, k, lg);
      GradesNonNegative(Upto(ranked, k), labels);
      ScoreNonNegative(Grades(Upto(ranked, k), labels), 0, lg);
      Share(Dcg(ranked, labels, k, lg), IdealDcg(labels, k, lg));
    }
  }

  // ---------- nDCG is 1 only for an ideal order ----------

  lemma {:induction false} WeightedAgree(a: seq<int>, b: seq<int>, i: nat, n: nat, lg: nat -> real)
    requires IsLog(lg)
    requires forall j: nat :: i <= j < n ==> At(a, j) == At(b, j)
    ensures Weighted(a, i, n, lg) == Weighted(b, i, n, lg)
    decreases n - i
  {
    if i < n {
      WeightedAgree(a, b, i + 1, n, lg);
    }
  }

  /** The ranking puts the ideal grade at every one of the first k positions. */
  ghost predicate IdealOrder(ranked: seq<string>, labels: seq<Label>, k: nat) {
    forall j: nat :: j < k ==> At(Grades(ranked, labels), j) == At(Ideal(labels), j)
  }

  lemma AtUpto(xs: seq<int>, k: nat, j: nat)
    ensures At(Upto(xs, k), j) == if j < k then At(xs, j) else 0
  {
  }

  lemma TopGrades(ranked: seq<string>, labels: seq<Label>, k: nat, j: nat)
    ensures At(Grades(Upto(ranked, k), labels), j) == if j < k then At(Grades(ranked, labels), j) else 0
  {
    GradesPrefix(ranked, labels, |Upto(ranked, k)|);
  }

  lemma EqualScoresMeanIdealOrder(ranked: seq<string>, labels: seq<Label>, k: nat, lg: nat -> real)
    requires IsDict(labels) && NonNegativeLabels(labels) && Distinct(Upto(ranked, k)) && IsLog(lg)
    ensures Dcg(ranked, labels, k, lg) == IdealDcg(labels, k, lg) <==> IdealOrder(ranked, labels, k)
  {
    hide Score, Head, Dcg, IdealDcg;
    var grades, best, n := Grades(Upto(ranked, k), labels), Upto(Ideal(labels), k), Depth(ranked, labels, k);
    ScoresApart(ranked, labels, k, lg);
    if Dcg(ranked, labels, k, lg) == IdealDcg(labels, k, lg) {
      forall j: nat | j < k ensures At(Grades(ranked, labels), j) == At(Ideal(labels), j) {
        TopGrades(ranked, labels, k, j);
        AtUpto(Ideal(labels), k, j);
        if j < n {
          HeadNext(grades, j);
          HeadNext(best, j);
          GradesNonNegative(Upto(ranked, k), labels);
          IdealShape(labels);
          GainOrder(At(grades, j), At(best, j));
        }
      }
    }
    if IdealOrder(ranked, labels, k) {
      IdealOrderScores(ranked, labels, k, lg);
    }
  }

  lemma IdealOrderScores(ranked: seq<string>, labels: seq<Label>, k: nat, lg: nat -> real)
    requires IsLog(lg) && IdealOrder(ranked, labels, k)
    ensures Dcg(ranked, labels, k, lg) == IdealDcg(labels, k, lg)
  {
    hide Score;
    var grades, best, n := Grades(Upto(ranked, k), labels), Upto(Ideal(labels), k), Depth(ranked, labels, k);
    forall j: nat | j < n ensures At(grades, j) == At(best, j) {
      TopGrades(ranked, labels, k, j);
      AtUpto(Ideal(labels), k, j);
    }
    WeightedAgree(grades, best, 0, n, lg);
    assert grades[0..] == grades && best[0..] == best;
    ScoreIsWeighted(grades, 0, n, lg);
    ScoreIsWeighted(best, 0, n, lg);
  }

  /** The equality case: full marks mean exactly that every one of the first k positions holds the grade that the
      ideal order puts there (or that there was nothing to find and nothing was returned). */
  lemma NdcgIsOneIff(ranked: seq<string>, labels: seq<Label>, k: nat, lg: nat -> real)
    requires IsDict(labels) && NonNegativeLabels(labels) && Distinct(Upto(ranked, k)) && IsLog(lg)
    ensures Ndcg(ranked, labels, k, lg) == 1.0 <==>
            if labels == [] then ranked == []
            else k > 0 && (exists i :: 0 <= i < |labels| && labels[i].grade > 0) && IdealOrder(ranked, labels, k)
  {
    hide Score, IdealOrder;
    if labels != [] {
      IdealPositive(labels, k, lg);
      ScoresApart(ranked, labels, k, lg);
      EqualScoresMeanIdealOrder(ranked, labels, k, lg);
      GradesNonNegative(Upto(ranked, k), labels);
      ScoreNonNegative(Grades(Upto(ranked, k), labels), 0, lg);
      if IdealDcg(labels, k, lg) > 0.0 {
        Share(Dcg(ranked, labels, k, lg), IdealDcg(labels, k, lg));
      }
    }
  }

  /** Every labelled id comes before every other one, in non-increasing grade. */
  ghost predicate RelevantFirst(ranked: seq<string>, labels: seq<Label>) {
    && |labels| <= |ranked|
    && (forall j :: 0 <= j < |labels| ==> HasLabel(labels, ranked[j]))
    && (forall i, j :: 0 <= i < j < |labels| ==> Grade(labels, ranked[i]) >= Grade(labels, ranked[j]))
  }

  lemma {:induction false} LabelledAll(ids: seq<string>, labels: seq<Label>)
    requires forall id :: id in ids ==> HasLabel(labels, id)
    ensures Labelled(ids, labels) == Grades(ids, labels)
  {
    if ids != [] {
      LabelledAll(ids[1..], labels);
    }
  }

  lemma {:induction false} LabelledConcat(a: seq<string>, b: seq<string>, labels: seq<Label>)
    ensures Labelled(a + b, labels) == Labelled(a, labels) + Labelled(b, labels)
  {
    if a == [] {
      assert a + b == b;
    } else {
      assert (a + b)[1..] == a[1..] + b;
      LabelledConcat(a[1..], b, labels);
    }
  }

  lemma {:induction false} NoneLabelled(ids: seq<string>, labels: seq<Label>, j: nat)
    requires Labelled(ids, labels) == [] && j < |ids|
    ensures Grade(labels, ids[j]) == 0
  {
    if j == 0 {
      GradeMissing(labels, ids[0]);
    } else {
      NoneLabelled(ids[1..], labels, j - 1);
    }
  }

  /** The first block of such a ranking holds the ideal grades. */
  lemma FrontIsIdeal(front: seq<string>, labels: seq<Label>)
    requires IsDict(labels) && Distinct(front) && RelevantFirst(front, labels) && |front| == |labels|
    ensures Grades(front, labels) == Ideal(labels)
    ensures |Labelled(front, labels)| == |labels|
  {
    hide HasLabel, Grade, Labelled, Grades, Values;
    var grades := Grades(front, labels);
    LabelledAll(front, labels);
    LabelledFromValues(front, labels);
    MultisetSize(grades, Values(labels));
    IdealShape(labels);
    assert Ordered(Descending(), grades);
    OrderedUnique(Descending(), grades, Ideal(labels));
  }

  lemma FrontShape(ranked: seq<string>, labels: seq<Label>)
    requires Distinct(ranked) && RelevantFirst(ranked, labels)
    ensures Distinct(ranked[..|labels|]) && RelevantFirst(ranked[..|labels|], labels)
  {
    hide HasLabel, Grade;
    var front := ranked[..|labels|];
    assert forall j :: 0 <= j < |front| ==> front[j] == ranked[j];
  }

  /** Once the labels are used up, nothing behind is labelled. */
  lemma BackUnlabelled(ranked: seq<string>, labels: seq<Label>, n: nat)
    requires IsDict(labels) && Distinct(ranked) && n <= |ranked|
    requires |Labelled(ranked[..n], labels)| == |labels|
    ensures Labelled(ranked[n..], labels) == []
  {
    hide Labelled, Values;
    assert ranked[..n] + ranked[n..] == ranked;
    LabelledConcat(ranked[..n], ranked[n..], labels);
    LabelledFromValues(ranked, labels);
    MultisetSize(Labelled(ranked, labels), Values(labels));
  }

  lemma FirstBlock(ranked: seq<string>, labels: seq<Label>)
    requires IsDict(labels) && Distinct(ranked) && RelevantFirst(ranked, labels)
    ensures Grades(ranked[..|labels|], labels) == Ideal(labels)
    ensures Labelled(ranked[|labels|..], labels) == []
  {
    FrontShape(ranked, labels);
    hide *;
    FrontIsIdeal(ranked[..|labels|], labels);
    BackUnlabelled(ranked, labels, |labels|);
  }

  /** Returning all relevant ids first, best grades first, scores exactly 1. */
  lemma PerfectRanking(ranked: seq<string>, labels: seq<Label>, k: nat, lg: nat -> real)
    requires IsDict(labels) && NonNegativeLabels(labels) && Distinct(ranked) && IsLog(lg)
    requires RelevantFirst(ranked, labels)
    requires k > 0 && exists i :: 0 <= i < |labels| && labels[i].grade > 0
    ensures Ndcg(ranked, labels, k, lg) == 1.0
  {
    FirstBlock(ranked, labels);
    forall j: nat | j < k ensures At(Grades(ranked, labels), j) == At(Ideal(labels), j) {
      GradesPrefix(ranked, labels, |labels|);
      if |labels| <= j < |ranked| {
        NoneLabelled(ranked[|labels|..], labels, j - |labels|);
      }
    }
    NdcgIsOneIff(ranked, labels, k, lg);
  }

  // ---------- The value of DCG and nDCG ----------

  lemma {:induction false} ScoreNext(grades: seq<int>, g: int, i: nat, lg: nat -> real)
    requires IsLog(lg)
    ensures Score(grades + [g], i, lg) == Score(grades, i, lg) + Gain(g) / lg(i + |grades| + 2)
  {
    hide Gain;
    if grades == [] {
      assert [] + [g] == [g] && [g][1..] == [];
    } else {
      ScoreNext(grades[1..], g, i + 1, lg);
      assert (grades + [g])[1..] == grades[1..] + [g];
    }
  }

  /** The contribution of grade `g` at the place `i`, counted from 0: (2**g - 1) / log2(i + 2). */
  function Worth(g: int, i: nat, lg: nat -> real): real
    requires lg(i + 2) > 0.0
  {
    if g >= 0 then (Pow2(g) - 1) as real / lg(i + 2) else (1.0 / Pow2(-g) as real - 1.0) / lg(i + 2)
  }

  lemma PlaceWorth(grades: seq<int>, g: int, lg: nat -> real)
    requires IsLog(lg)
    ensures Score(grades + [g], 0, lg) == Score(grades, 0, lg) + Worth(g, |grades|, lg)
  {
    ScoreNext(grades, g, 0, lg);
  }

  lemma PrefixWorth(grades: seq<int>, k: nat, lg: nat -> real)
    requires IsLog(lg) && k < |grades|
    ensures Score(grades[..k + 1], 0, lg) == Score(grades[..k], 0, lg) + Worth(grades[k], k, lg)
  {
    hide Score, Worth;
    assert grades[..k + 1] == grades[..k] + [grades[k]];
    PlaceWorth(grades[..k], grades[k], lg);
  }

  lemma UptoPrefix<T>(xs: seq<T>, k: nat)
    requires k <= |xs|
    ensures Upto(xs, k) == xs[..k]
  {
  }

  /** DCG adds up: nothing at depth 0, and (2**g - 1) / log2(k + 2) for the grade g of the id at place k. */
  lemma DcgAdds(ranked: seq<string>, labels: seq<Label>, k: nat, lg: nat -> real)
    requires IsLog(lg)
    ensures Dcg(ranked, labels, 0, lg) == 0.0
    ensures Dcg(ranked, labels, k + 1, lg)
            == Dcg(ranked, labels, k, lg) + if k < |ranked| then Worth(Grade(labels, ranked[k]), k, lg) else 0.0
  {
    hide Score, Worth, Grades, Grade;
    EmptyScore(lg);
    assert Grades(Upto(ranked, 0), labels) == [];
    if k < |ranked| {
      GradesPrefix(ranked, labels, k);
      GradesPrefix(ranked, labels, k + 1);
      UptoPrefix(ranked, k);
      UptoPrefix(ranked, k + 1);
      PrefixWorth(Grades(ranked, labels), k, lg);
    }
  }

  /** The ideal DCG adds up the sorted grades in the same way. */
  lemma IdealAdds(labels: seq<Label>, k: nat, lg: nat -> real)
    requires IsLog(lg)
    ensures IdealDcg(labels, 0, lg) == 0.0
    ensures IdealDcg(labels, k + 1, lg)
            == IdealDcg(labels, k, lg) + if k < |labels| then Worth(Ideal(labels)[k], k, lg) else 0.0
  {
    hide Score, Worth, Ideal;
    EmptyScore(lg);
    if k < |labels| {
      UptoPrefix(Ideal(labels), k);
      UptoPrefix(Ideal(labels), k + 1);
      PrefixWorth(Ideal(labels), k, lg);
    }
  }

  lemma EmptyScore(lg: nat -> real)
    requires IsLog(lg)
    ensures Score([], 0, lg) == 0.0
  {
  }

  /** A ranking whose only id with a grade stands at place j < k scores that grade, discounted by its place. */
  lemma {:induction false} SingleRelevantDcg(ranked: seq<string>, labels: seq<Label>, j: nat, k: nat, lg: nat -> real)
    requires IsLog(lg) && j < |ranked| && Grade(labels, ranked[j]) >= 0
    requires forall i :: 0 <= i < |ranked| && i != j ==> Grade(labels, ranked[i]) == 0
    ensures Dcg(ranked, labels, k, lg)
            == if j < k then (Pow2(Grade(labels, ranked[j])) - 1) as real / lg(j + 2) else 0.0
  {
    hide Dcg, Grade;
    if k == 0 {
      DcgAdds(ranked, labels, 0, lg);
    } else {
      SingleRelevantDcg(ranked, labels, j, k - 1, lg);
      DcgAdds(ranked, labels, k - 1, lg);
      NoGain(lg(k + 1));
    }
  }

  lemma NoGain(d: real)
    requires d > 0.0
    ensures (Pow2(0) - 1) as real / d == 0.0
  {
  }

  /** With one relevant id, found at place j < k, nDCG is log2(2) / log2(j + 2), whatever its grade. */
  lemma SingleRelevantNdcg(ranked: seq<string>, id: string, g: nat, j: nat, k: nat, lg: nat -> real)
    requires IsLog(lg) && g > 0 && j < |ranked| && j < k && Distinct(ranked) && ranked[j] == id
    ensures Ndcg(ranked, [Label(id, g)], k, lg) == lg(2) / lg(j + 2)
  {
    var labels := [Label(id, g)];
    SingleRelevantDcg(ranked, labels, j, k, lg);
    SingleIdeal(id, g, k, lg);
    GainOrder(0, g);
    Pow2Grows(1, g);
    assert Pow2(1) == 2 * Pow2(0);
    hide Dcg, IdealDcg, Pow2;
    var gain := (Pow2(g) - 1) as real;
    ShareOfFirst(gain, lg(2), lg(j + 2));
  }

  lemma ShareOfFirst(gain: real, first: real, place: real)
    requires gain > 0.0 && first > 0.0 && place > 0.0
    ensures gain / first > 0.0 && gain / place / (gain / first) == first / place
  {
    var x, y := gain / place, gain / first;
    assert x * place == gain && y * first == gain;
    assert y > 0.0;
    assert first / place * place == first;
    assert first / place * y * place == first * y == gain;
    SameQuotient(x, first / place * y, place);
    SameShare(x, first / place, y);
  }

  lemma SameQuotient(a: real, b: real, d: real)
    requires d > 0.0 && a * d == b * d
    ensures a == b
  {
    assert (a - b) * d == 0.0;
  }

  lemma SameShare(x: real, q: real, y: real)
    requires y > 0.0 && x == q * y
    ensures x / y == q
  {
  }

  lemma SingleIdeal(id: string, g: nat, k: nat, lg: nat -> real)
    requires IsLog(lg) && k > 0
    ensures IdealDcg([Label(id, g)], k, lg) == (Pow2(g) - 1) as real / lg(2)
  {
    var labels := [Label(id, g)];
    assert Values(labels) == [g];
    assert Ideal(labels) == [g] by {
      assert [g][1..] == [] && Sort(Descending(), []) == [];
    }
    EmptyScore(lg);
    PlaceWorth([], g, lg);
    assert [] + [g] == [g] && Upto([g], k) == [g];
  }

  // ---------- Exactly when nDCG is bounded ----------

  function Ones(n: nat): (grades: seq<int>)
    ensures |grades| == n
    ensures forall i :: 0 <= i < n ==> grades[i] == 1
  {
    seq(n, _ => 1)
  }

  /** Every id with grade 1. */
  function LabelAll(ids: seq<string>): (labels: seq<Label>)
    ensures |labels| == |ids|
    ensures forall i :: 0 <= i < |ids| ==> labels[i] == Label(ids[i], 1)
  {
    seq(|ids|, i requires 0 <= i < |ids| => Label(ids[i], 1))
  }

  lemma LabelAllIsDict(ids: seq<string>)
    requires Distinct(ids)
    ensures IsDict(LabelAll(ids)) && NonNegativeLabels(LabelAll(ids))
  {
  }

  lemma IdealOnes(ids: seq<string>)
    ensures Ideal(LabelAll(ids)) == Ones(|ids|)
  {
    var labels := LabelAll(ids);
    forall i | 0 <= i < |ids| ensures Ideal(labels)[i] == 1 {
      SortKeepsMembers(Descending(), Values(labels), Ideal(labels)[i]);
    }
  }

  lemma GradesOnes(top: seq<string>, ids: seq<string>)
    requires Distinct(ids) && forall id :: id in top ==> id in ids
    ensures Grades(top, LabelAll(ids)) == Ones(|top|)
  {
    LabelAllIsDict(ids);
    forall j | 0 <= j < |top| ensures Grade(LabelAll(ids), top[j]) == 1 {
      assert top[j] in ids;
      var p :| 0 <= p < |ids| && ids[p] == top[j];
      GradeAt(LabelAll(ids), p);
    }
  }

  /** More ones score more. */
  lemma {:induction false} OnesGrow(m: nat, n: nat, i: nat, lg: nat -> real)
    requires IsLog(lg) && m < n
    ensures 0.0 <= Score(Ones(m), i, lg) < Score(Ones(n), i, lg)
  {
    GainOrder(0, 1);
    assert Gain(1) / lg(i + 2) > 0.0;
    assert Ones(n)[1..] == Ones(n - 1);
    if m == 0 {
      ScoreNonNegative(Ones(n - 1), i + 1, lg);
    } else {
      assert Ones(m)[1..] == Ones(m - 1);
      OnesGrow(m - 1, n - 1, i + 1, lg);
    }
  }

  lemma Above(x: real, y: real)
    requires 0.0 < y < x
    ensures x / y > 1.0
  {
    assert x / y * y == x;
  }

  /** If all that is returned is relevant with grade 1, and the ideal order is cut to fewer places, the share exceeds
      1. */
  lemma MoreOnesThanIdeal(ranked: seq<string>, ids: seq<string>, k: int, lg: nat -> real)
    requires IsLog(lg) && Distinct(ids) && forall id :: id in Upto(ranked, k) ==> id in ids
    requires 0 < |Upto(ids, k)| < |Upto(ranked, k)|
    ensures Ndcg(ranked, LabelAll(ids), k, lg) > 1.0
  {
    var top, m := Upto(ranked, k), |Upto(ids, k)|;
    GradesOnes(top, ids);
    IdealOnes(ids);
    assert Upto(Ones(|ids|), k) == Ones(m);
    hide Score, Grades, Ideal, Ones;
    OnesGrow(0, m, 0, lg);
    OnesGrow(m, |top|, 0, lg);
    Above(Score(Ones(|top|), 0, lg), Score(Ones(m), 0, lg));
  }

  /** The distinct ids of a list. */
  function Deduplicated(ids: seq<string>): (r: seq<string>)
    ensures |r| <= |ids|
  {
    if ids == [] then []
    else
      var rest := Deduplicated(ids[1..]);
      if ids[0] in rest then rest else [ids[0]] + rest
  }

  lemma {:induction false} DeduplicatedShape(ids: seq<string>)
    ensures Distinct(Deduplicated(ids))
    ensures forall id :: id in Deduplicated(ids) <==> id in ids
    ensures !Distinct(ids) ==> |Deduplicated(ids)| < |ids|
  {
    if ids != [] {
      var rest := Deduplicated(ids[1..]);
      DeduplicatedShape(ids[1..]);
      assert ids == [ids[0]] + ids[1..];
    }
  }

  function Longest(ids: seq<string>): (n: nat)
    ensures forall id :: id in ids ==> |id| <= n
  {
    if ids == [] then 0
    else
      var n := Longest(ids[1..]);
      assert ids == [ids[0]] + ids[1..];
      if |ids[0]| <= n then n else |ids[0]|
  }

  /** A list of distinct ids extended to `n` of them. */
  lemma {:induction false} Padded(ids: seq<string>, n: nat) returns (more: seq<string>)
    requires Distinct(ids) && |ids| <= n
    ensures Distinct(more) && |more| == n && ids <= more
    decreases n - |ids|
  {
    more := ids;
    if |ids| < n {
      var id := seq(Longest(ids) + 1, _ => 'x');
      assert id !in ids;
      more := Padded(ids + [id], n);
    }
  }

  /** No repeated id in the first k places; for a negative k, at most one place left. */
  predicate Bounding(ranked: seq<string>, k: int) {
    if k >= 0 then forall i, j :: 0 <= i < j < |Upto(ranked, k)| ==> Upto(ranked, k)[i] != Upto(ranked, k)[j]
    else |Upto(ranked, k)| <= 1
  }

  /** Labels under which a ranking outside the condition scores above 1. */
  lemma UnboundedExceeds(ranked: seq<string>, k: int, lg: nat -> real) returns (labels: seq<Label>)
    requires IsLog(lg) && !Bounding(ranked, k)
    ensures IsDict(labels) && NonNegativeLabels(labels) && Ndcg(ranked, labels, k, lg) > 1.0
  {
    var top := Upto(ranked, k);
    var ids := Deduplicated(top);
    DeduplicatedShape(top);
    assert top[0] in ids;
    if k < 0 && |ids| < 1 - k {
      ids := Padded(ids, 1 - k);
    }
    LabelAllIsDict(ids);
    MoreOnesThanIdeal(ranked, ids, k, lg);
    labels := LabelAll(ids);
  }

  /** One place scores no more than a list that starts with as good a grade. */
  lemma OnePlace(grade: nat, best: seq<int>, lg: nat -> real)
    requires IsLog(lg) && NonNegative(best) && best != [] && grade <= best[0]
    ensures Score([grade], 0, lg) <= Score(best, 0, lg)
  {
    assert [grade][1..] == [];
    ScoreNonNegative(best[1..], 1, lg);
    GainOrder(grade, best[0]);
    DividedOrder(Gain(grade), Gain(best[0]), lg(2));
  }

  /** A cut that leaves at most one place: the ideal order is at least as good, unless it is cut to nothing. */
  lemma OnePlaceIsBounded(ranked: seq<string>, labels: seq<Label>, k: int, lg: nat -> real)
    requires IsDict(labels) && NonNegativeLabels(labels) && IsLog(lg) && |Upto(ranked, k)| <= 1
    ensures IdealDcg(labels, k, lg) >= 0.0
    ensures IdealDcg(labels, k, lg) > 0.0 ==> Dcg(ranked, labels, k, lg) <= IdealDcg(labels, k, lg)
  {
    hide Gain, Ideal;
    var top, best := Upto(ranked, k), Upto(Ideal(labels), k);
    IdealShape(labels);
    ScoreNonNegative(best, 0, lg);
    if best != [] && top != [] {
      assert Grades(top, labels) == [Grade(labels, top[0])];
      GradeNonNegative(labels, top[0]);
      AtMostBest(labels, top[0]);
      hide Score, Grade;
      OnePlace(Grade(labels, top[0]), best, lg);
    }
  }

  lemma DividedOrder(x: real, y: real, d: real)
    requires d > 0.0 && x <= y
    ensures x / d <= y / d
  {
  }

  lemma AtMostBest(labels: seq<Label>, id: string)
    requires IsDict(labels) && NonNegativeLabels(labels) && labels != []
    ensures Grade(labels, id) <= Ideal(labels)[0]
  {
    IdealShape(labels);
    if HasLabel(labels, id) {
      var p :| 0 <= p < |labels| && labels[p].id == id;
      GradeAt(labels, p);
      assert Values(labels)[p] in Values(labels);
      SortKeepsMembers(Descending(), Values(labels), labels[p].grade);
      var q :| 0 <= q < |labels| && Ideal(labels)[q] == labels[p].grade;
      assert q > 0 ==> Descending()(Ideal(labels)[0], Ideal(labels)[q]);
    } else {
      GradeMissing(labels, id);
    }
  }

  /** The exact condition, at every depth and for every ranking: no labels let nDCG exceed 1 if and only if the ranking
      has no repeated id in its first k places, or, for a negative k, at most one place is left. */
  lemma BoundedIff(ranked: seq<string>, k: int, lg: nat -> real)
    requires IsLog(lg)
    ensures (forall labels :: IsDict(labels) && NonNegativeLabels(labels) ==> Ndcg(ranked, labels, k, lg) <= 1.0)
            <==> Bounding(ranked, k)
  {
    hide Dcg, IdealDcg;
    if Bounding(ranked, k) {
      forall labels | IsDict(labels) && NonNegativeLabels(labels) ensures Ndcg(ranked, labels, k, lg) <= 1.0 {
        if k >= 0 {
          NdcgBounds(ranked, labels, k, lg);
        } else {
          OnePlaceIsBounded(ranked, labels, k, lg);
          if IdealDcg(labels, k, lg) > 0.0 {
            AtMostWhole(Dcg(ranked, labels, k, lg), IdealDcg(labels, k, lg));
          }
        }
      }
    } else {
      var labels := UnboundedExceeds(ranked, k, lg);
      assert !(Ndcg(ranked, labels, k, lg) <= 1.0);
    }
  }

  lemma AtMostWhole(x: real, y: real)
    requires x <= y && y > 0.0
    ensures x / y <= 1.0
  {
    assert x / y * y == x;
  }

  /** The smallest repetition: one relevant id returned twice. */
  lemma DuplicatesExceedOne(lg: nat -> real)
    requires IsLog(lg)
    ensures Ndcg(["a", "a"], [Label("a", 1)], 2, lg) > 1.0
  {
    assert LabelAll(["a"]) == [Label("a", 1)];
    MoreOnesThanIdeal(["a", "a"], ["a"], 2, lg);
  }

  /** For every negative k a ranking without duplicates that scores above 1: the two lists are cut at different
      depths. */
  lemma NegativeDepthExceedsOne(k: int, lg: nat -> real) returns (ranked: seq<string>, labels: seq<Label>)
    requires k < 0 && IsLog(lg)
    ensures IsDict(labels) && NonNegativeLabels(labels) && Distinct(ranked)
    ensures Ndcg(ranked, labels, k, lg) > 1.0
  {
    ranked := Padded([], 2 - k);
    labels := UnboundedExceeds(ranked, k, lg);
  }

  /** The bound holds for every duplicate-free ranking exactly when k is not negative. */
  lemma NdcgBoundedIff(k: int, lg: nat -> real)
    requires IsLog(lg)
    ensures (forall ranked: seq<string>, labels: seq<Label> |
               IsDict(labels) && NonNegativeLabels(labels) && Distinct(ranked) ::
               Ndcg(ranked, labels, k, lg) <= 1.0)
            <==> k >= 0
  {
    if k >= 0 {
      forall ranked: seq<string>, labels: seq<Label> |
        IsDict(labels) && NonNegativeLabels(labels) && Distinct(ranked)
        ensures Ndcg(ranked, labels, k, lg) <= 1.0
      {
        NdcgBounds(ranked, labels, k, lg);
      }
    } else {
      var ranked, labels := NegativeDepthExceedsOne(k, lg);
      assert !(Ndcg(ranked, labels, k, lg) <= 1.0);
    }
  }
}
