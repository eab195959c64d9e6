/** Kaplan-Meier survival and the restricted mean of experiments/evo3/stats_analysis.py, over exact reals. */
module Survival {
  import opened StableSort
  import opened Wrappers
  import opened Arithmetic

  datatype Sample = Sample(time: real, event: bool)

  datatype Point = Point(time: real, survival: real, atRisk: nat)

  predicate ByTime(x: Sample, y: Sample) {
    x.time <= y.time
  }

  lemma ByTimeIsPreorder()
    ensures TotalPreorder(ByTime)
  {
  }

  // ---------- Specification: the estimator as a product ----------

  /** The fraction of the sessions at risk that get past one sample. */
  function Factor(event: bool, atRisk: nat): real
    requires atRisk > 0
  {
    if event then (atRisk - 1) as real / atRisk as real else 1.0
  }

  /** The survival estimate after the first `k` of the ordered samples. */
  function Estimate(order: seq<Sample>, k: nat): real
    requires k <= |order|
  {
    if k == 0 then 1.0 else Estimate(order, k - 1) * Factor(order[k - 1].event, |order| - (k - 1))
  }

  function PointAt(order: seq<Sample>, k: nat): Point
    requires k < |order|
  {
    Point(order[k].time, Estimate(order, k + 1), |order| - k)
  }

  /** The curve's first `k` points. */
  function Points(order: seq<Sample>, k: nat): (curve: seq<Point>)
    requires k <= |order|
    ensures |curve| == k
    ensures forall i :: 0 <= i < k ==> curve[i] == PointAt(order, i)
  {
    if k == 0 then [] else Points(order, k - 1) + [PointAt(order, k - 1)]
  }

  function Ordering(samples: seq<Sample>): (order: seq<Sample>)
    ensures |order| == |samples|
  {
    Sort(ByTime, samples)
  }

  function Curve(samples: seq<Sample>): (curve: seq<Point>) {
    Points(Ordering(samples), |samples|)
  }

  lemma EstimateNext(order: seq<Sample>, k: nat)
    requires k < |order|
    ensures Estimate(order, k + 1) ==
            if order[k].event
            then Estimate(order, k) * ((|order| - k - 1) as real / (|order| - k) as real)
            else Estimate(order, k)
  {
  }

  method KaplanMeier(samples: seq<Sample>) returns (curve: seq<Point>)
    ensures curve == Curve(samples)
  {
    var order := Ordering(samples);
    curve := [];
    var survival := 1.0;
    var atRisk := |order|;
    for i := 0 to |order|
      invariant atRisk == |order| - i
      invariant survival == Estimate(order, i)
      invariant curve == Points(order, i)
    {
      EstimateNext(order, i);
      if order[i].event {
        survival := survival * (if atRisk > 0 then (atRisk - 1) as real / atRisk as real else 1.0);
      }
      curve := curve + [Point(order[i].time, survival, atRisk)];
      atRisk := atRisk - 1;
    }
  }

  // ---------- The curve on any input ----------

  lemma FactorBounds(event: bool, atRisk: nat)
    requires atRisk > 0
    ensures 0.0 <= Factor(event, atRisk) <= 1.0
    ensures Factor(event, atRisk) == 0.0 <==> event && atRisk == 1
  {
  }

  lemma ProductBounds(s: real, f: real)
    requires 0.0 <= s <= 1.0 && 0.0 <= f <= 1.0
    ensures 0.0 <= s * f <= s
    ensures s * f == 0.0 <==> s == 0.0 || f == 0.0
  {
  }

  lemma EstimateStep(order: seq<Sample>, k: nat)
    requires k < |order|
    requires 0.0 <= Estimate(order, k) <= 1.0
    ensures 0.0 <= Estimate(order, k + 1) <= Estimate(order, k)
    ensures Estimate(order, k + 1) == 0.0 <==> Estimate(order, k) == 0.0 || (order[k].event && k + 1 == |order|)
  {
    var s, f := Estimate(order, k), Factor(order[k].event, |order| - k);
    assert Estimate(order, k + 1) == s * f;
    hide Estimate, Factor;
    FactorBounds(order[k].event, |order| - k);
    ProductBounds(s, f);
  }

  lemma {:induction false} EstimateBounds(order: seq<Sample>, k: nat)
    requires k <= |order|
    ensures 0.0 <= Estimate(order, k) <= 1.0
    ensures Estimate(order, k) == 0.0 <==> 0 < k == |order| && order[k - 1].event
  {
    if k > 0 {
      EstimateBounds(order, k - 1);
      EstimateStep(order, k - 1);
    }
  }

  lemma {:induction false} EstimateFalls(order: seq<Sample>, j: nat, k: nat)
    requires j <= k <= |order|
    ensures Estimate(order, k) <= Estimate(order, j)
    decreases k - j
  {
    if j < k {
      EstimateFalls(order, j, k - 1);
      EstimateBounds(order, k - 1);
      EstimateStep(order, k - 1);
    }
  }

  /** Every point of every curve: the at-risk count runs from n down to 1, survival stays in [0, 1], and
      it is zero exactly at the last point when the last ordered sample is a failure. */
  lemma PointShape(samples: seq<Sample>, k: nat)
    requires k < |samples|
    ensures |Curve(samples)| == |samples|
    ensures Curve(samples)[k].atRisk == |samples| - k
    ensures 0.0 <= Curve(samples)[k].survival <= 1.0
    ensures Curve(samples)[k].survival == 0.0 <==> k == |samples| - 1 && Ordering(samples)[k].event
  {
    EstimateBounds(Ordering(samples), k + 1);
  }

  /** Along every curve times never fall and survival never rises. */
  lemma CurveMonotone(samples: seq<Sample>, j: nat, k: nat)
    requires j < k < |samples|
    ensures Curve(samples)[j].time <= Curve(samples)[k].time
    ensures Curve(samples)[k].survival <= Curve(samples)[j].survival
  {
    ByTimeIsPreorder();
    SortOrdered(ByTime, samples);
    assert ByTime(Ordering(samples)[j], Ordering(samples)[k]);
    EstimateFalls(Ordering(samples), j + 1, k + 1);
  }

  lemma NextFraction(n: real, r: real)
    requires n > 0.0 && r > 0.0
    ensures r / n * ((r - 1.0) / r) == (r - 1.0) / n
  {
  }

  /** While only failures have been seen, survival is the surviving fraction. */
  lemma {:induction false} EstimateOfFailures(order: seq<Sample>, k: nat)
    requires 0 < |order| && k <= |order|
    requires forall i :: 0 <= i < k ==> order[i].event
    ensures Estimate(order, k) == (|order| - k) as real / |order| as real
  {
    if k > 0 {
      EstimateOfFailures(order, k - 1);
      NextFraction(|order| as real, (|order| - (k - 1)) as real);
    }
  }

  // ---------- Median time to first failure ----------

  function Half(curve: seq<Point>, i: nat): (t: Option<real>)
    requires i <= |curve|
    decreases |curve| - i
  {
    if i == |curve| then None
    else if curve[i].survival <= 0.5 then Some(curve[i].time)
    else Half(curve, i + 1)
  }

  method MedianFirstFailure(samples: seq<Sample>) returns (median: Option<real>)
    ensures median == Half(Curve(samples), 0)
  {
    var curve := KaplanMeier(samples);
    for i := 0 to |curve|
      invariant Half(curve, 0) == Half(curve, i)
    {
      if curve[i].survival <= 0.5 {
        return Some(curve[i].time);
      }
    }
    return None;
  }

  lemma {:induction false} HalfIsFirst(curve: seq<Point>, i: nat, k: nat)
    requires i <= k < |curve|
    requires curve[k].survival <= 0.5
    requires forall j :: i <= j < k ==> curve[j].survival > 0.5
    ensures Half(curve, i) == Some(curve[k].time)
    decreases k - i
  {
    if i < k {
      HalfIsFirst(curve, i + 1, k);
    }
  }

  lemma HalfFraction(n: real, x: real)
    requires n > 0.0
    ensures x / n <= 0.5 <==> 2.0 * x <= n
  {
  }

  /** With no censoring the median is the ceil(n/2)-th smallest time. */
  lemma MedianIsOrderStatistic(samples: seq<Sample>)
    requires samples != [] && forall s :: s in samples ==> s.event
    ensures Half(Curve(samples), 0) == Some(Ordering(samples)[(|samples| + 1) / 2 - 1].time)
  {
    var order, n := Ordering(samples), |samples|;
    forall k | 0 <= k < n
      ensures Curve(samples)[k].survival <= 0.5 <==> 2 * (k + 1) >= n
    {
      forall i | 0 <= i < k + 1 ensures order[i].event {
        SortKeepsMembers(ByTime, samples, order[i]);
      }
      EstimateOfFailures(order, k + 1);
      HalfFraction(n as real, (n - (k + 1)) as real);
    }
    HalfIsFirst(Curve(samples), 0, (n + 1) / 2 - 1);
  }

  // ---------- Restricted mean survival ----------

  /** There is no median exactly if the curve stays above one half; else it is the time of the first point at or
      below. */
  lemma {:induction false} HalfIff(curve: seq<Point>, i: nat)
    requires i <= |curve|
    ensures Half(curve, i) == None <==> forall k :: i <= k < |curve| ==> curve[k].survival > 0.5
    ensures Half(curve, i).Some? ==>
              exists k :: i <= k < |curve| && curve[k].survival <= 0.5 && Half(curve, i) == Some(curve[k].time)
                          && forall j :: i <= j < k ==> curve[j].survival > 0.5
    decreases |curve| - i
  {
    if i < |curve| && curve[i].survival > 0.5 {
      HalfIff(curve, i + 1);
    }
  }

  function Area(curve: seq<Point>, k: nat, lastT: real, lastS: real, horizon: real): real
    requires k <= |curve|
    decreases |curve| - k
  {
    if k == |curve| || curve[k].time > horizon then
      (horizon - lastT) * lastS
    else
      (curve[k].time - lastT) * lastS + Area(curve, k + 1, curve[k].time, curve[k].survival, horizon)
  }

  function Rmst(samples: seq<Sample>, horizon: real): real {
    Area(Curve(samples), 0, 0.0, 1.0, horizon)
  }

  method RestrictedMeanSurvival(samples: seq<Sample>, horizon: real) returns (area: real)
    ensures area == Rmst(samples, horizon)
  {
    var curve := KaplanMeier(samples);
    area := 0.0;
    var lastT, lastS := 0.0, 1.0;
    var k := 0;
    while k < |curve|
      invariant k <= |curve|
      invariant area + Area(curve, k, lastT, lastS, horizon) == Rmst(samples, horizon)
    {
      if curve[k].time > horizon {
        break;
      }
      area := area + (curve[k].time - lastT) * lastS;
      lastT := curve[k].time;
      lastS := curve[k].survival;
      k := k + 1;
    }
    area := area + (horizon - lastT) * lastS;
  }

  /** The failure-free rounds of every sample within the horizon, added up. */
  function SumMin(samples: seq<Sample>, horizon: real): real {
    if samples == [] then 0.0 else Min(samples[0].time, horizon) + SumMin(samples[1..], horizon)
  }

  lemma {:induction false} SumMinInsert(x: Sample, xs: seq<Sample>, horizon: real)
    ensures SumMin(Insert(ByTime, x, xs), horizon) == Min(x.time, horizon) + SumMin(xs, horizon)
  {
    if xs == [] || ByTime(x, xs[0]) {
      assert ([x] + xs)[1..] == xs;
    } else {
      SumMinInsert(x, xs[1..], horizon);
      assert Insert(ByTime, x, xs)[1..] == Insert(ByTime, x, xs[1..]);
    }
  }

  lemma {:induction false} SumMinOrdering(samples: seq<Sample>, horizon: real)
    ensures SumMin(Ordering(samples), horizon) == SumMin(samples, horizon)
  {
    if samples != [] {
      SumMinOrdering(samples[1..], horizon);
      SumMinInsert(samples[0], Ordering(samples[1..]), horizon);
    }
  }

  lemma {:induction false} SumMinBeyond(samples: seq<Sample>, horizon: real)
    requires forall s :: s in samples ==> s.time >= horizon
    ensures SumMin(samples, horizon) == |samples| as real * horizon
  {
    if samples != [] {
      assert samples[0] in samples;
      SumMinBeyond(samples[1..], horizon);
    }
  }

  /** Where the area loop stands after `k` samples: survival is still the surviving fraction, or the horizon
      has been reached and nothing more can be added. */
  ghost predicate OnTrack(order: seq<Sample>, k: nat, lastT: real, lastS: real, horizon: real)
    requires 0 < |order| && k <= |order|
  {
    || ((forall i :: 0 <= i < k ==> order[i].event) && lastS == (|order| - k) as real / |order| as real)
    || (lastT == horizon && forall i :: k <= i < |order| ==> order[i].time >= horizon)
  }

  /** The area of one slice, scaled by n, when survival is the fraction r / n or the slice is empty. */
  lemma ScaledSlice(width: real, s: real, n: real, r: real)
    requires n > 0.0
    requires width == 0.0 || s == r / n
    ensures width * s * n == width * r
  {
    if width != 0.0 {
      assert r / n * n == r;
    }
  }

  lemma Regroup(slice: real, rest: real, n: real, width: real, r: real, sum: real, t: real, lastT: real)
    requires slice * n == width * r && width == t - lastT
    requires rest * n == sum - (r - 1.0) * t
    ensures (slice + rest) * n == t + sum - r * lastT
  {
    assert (slice + rest) * n == slice * n + rest * n;
  }

  lemma Stretch(width: real, s: real, n: real, r: real, lastT: real, horizon: real)
    requires width * s * n == width * r && width == horizon - lastT
    ensures (horizon - lastT) * s * n == r * horizon - r * lastT
  {
  }

  ghost predicate CensoredAtHorizon(samples: seq<Sample>, horizon: real) {
    forall s :: s in samples ==> s.event || s.time == horizon
  }

  lemma TrackStarts(order: seq<Sample>, horizon: real)
    requires order != []
    ensures OnTrack(order, 0, 0.0, 1.0, horizon)
  {
  }

  lemma TrackAdvances(order: seq<Sample>, k: nat, lastT: real, lastS: real, horizon: real)
    requires k < |order|
    requires Ordered(ByTime, order) && CensoredAtHorizon(order, horizon)
    requires OnTrack(order, k, lastT, lastS, horizon) && order[k].time <= horizon
    ensures OnTrack(order, k + 1, order[k].time, Estimate(order, k + 1), horizon)
  {
    assert order[k] in order;
    forall i | k + 1 <= i < |order| ensures order[i].time >= order[k].time {
      assert ByTime(order[k], order[i]);
    }
    if forall i :: 0 <= i < k + 1 ==> order[i].event {
      EstimateOfFailures(order, k + 1);
    }
  }

  lemma LaterBeyond(order: seq<Sample>, k: nat, horizon: real)
    requires k <= |order| && Ordered(ByTime, order)
    requires k == |order| || order[k].time > horizon
    ensures SumMin(order[k..], horizon) == (|order| - k) as real * horizon
  {
    forall s | s in order[k..] ensures s.time >= horizon {
      var i :| 0 <= i < |order[k..]| && order[k..][i] == s;
      assert i > 0 ==> ByTime(order[k], order[k + i]);
    }
    SumMinBeyond(order[k..], horizon);
  }

  /** What is left of the area, scaled by n, is what is left of the sum, less what was credited already. */
  ghost predicate Accounts(area: real, n: real, r: real, sum: real, lastT: real) {
    area * n == sum - r * lastT
  }

  lemma AccountsAtEnd(n: real, r: real, lastT: real, lastS: real, horizon: real)
    requires n > 0.0
    requires horizon == lastT || lastS == r / n
    ensures Accounts((horizon - lastT) * lastS, n, r, r * horizon, lastT)
  {
    ScaledSlice(horizon - lastT, lastS, n, r);
    Stretch(horizon - lastT, lastS, n, r, lastT, horizon);
  }

  lemma AccountsOnwards(area: real, n: real, r: real, sum: real, lastT: real, lastS: real, t: real)
    requires n > 0.0
    requires t == lastT || lastS == r / n
    requires Accounts(area, n, r - 1.0, sum, t)
    ensures Accounts((t - lastT) * lastS + area, n, r, t + sum, lastT)
  {
    ScaledSlice(t - lastT, lastS, n, r);
    Regroup((t - lastT) * lastS, area, n, t - lastT, r, sum, t, lastT);
  }

  /** The loop has passed its last sample within the horizon: the final slice closes the account. */
  lemma TrackCloses(order: seq<Sample>, k: nat, lastT: real, lastS: real, horizon: real)
    requires 0 < |order| && k <= |order|
    requires Ordered(ByTime, order) && OnTrack(order, k, lastT, lastS, horizon)
    requires k == |order| || order[k].time > horizon
    ensures Accounts((horizon - lastT) * lastS,
                     |order| as real, (|order| - k) as real, SumMin(order[k..], horizon), lastT)
  {
    LaterBeyond(order, k, horizon);
    AccountsAtEnd(|order| as real, (|order| - k) as real, lastT, lastS, horizon);
  }

  /** One more slice: the account for sample `k` follows from the account for what comes after it. */
  lemma TrackContinues(order: seq<Sample>, k: nat, lastT: real, lastS: real, horizon: real, area: real)
    requires k < |order| && order[k].time <= horizon
    requires OnTrack(order, k, lastT, lastS, horizon)
    requires Accounts(area, |order| as real, (|order| - (k + 1)) as real, SumMin(order[k + 1..], horizon),
                      order[k].time)
    ensures Accounts((order[k].time - lastT) * lastS + area,
                     |order| as real, (|order| - k) as real, SumMin(order[k..], horizon), lastT)
  {
    assert order[k..] == [order[k]] + order[k + 1..];
    AccountsOnwards(area, |order| as real, (|order| - k) as real, SumMin(order[k + 1..], horizon),
                    lastT, lastS, order[k].time);
  }

  lemma {:induction false} AreaFromTrack(order: seq<Sample>, k: nat, lastT: real, lastS: real, horizon: real)
    requires 0 < |order| && k <= |order|
    requires Ordered(ByTime, order) && CensoredAtHorizon(order, horizon)
    requires OnTrack(order, k, lastT, lastS, horizon)
    ensures Accounts(Area(Points(order, |order|), k, lastT, lastS, horizon),
                     |order| as real, (|order| - k) as real, SumMin(order[k..], horizon), lastT)
    decreases |order| - k
  {
    hide Accounts, OnTrack, Estimate, SumMin, Ordered, CensoredAtHorizon;
    var curve := Points(order, |order|);
    assert k < |order| ==> curve[k] == PointAt(order, k);
    if k == |order| || order[k].time > horizon {
      TrackCloses(order, k, lastT, lastS, horizon);
    } else {
      var t, next := order[k].time, Estimate(order, k + 1);
      TrackAdvances(order, k, lastT, lastS, horizon);
      AreaFromTrack(order, k + 1, t, next, horizon);
      TrackContinues(order, k, lastT, lastS, horizon, Area(curve, k + 1, t, next, horizon));
    }
  }

  lemma MeanOf(area: real, n: real, sum: real)
    requires n > 0.0 && Accounts(area, n, n, sum, 0.0)
    ensures area == sum / n
  {
  }

  /** The main identity: when every censored sample sits at the horizon, the area under the Kaplan-Meier curve
      is the plain mean of the failure-free rounds within the horizon. */
  lemma RmstIsMean(samples: seq<Sample>, horizon: real)
    requires samples != [] && CensoredAtHorizon(samples, horizon)
    ensures Rmst(samples, horizon) == SumMin(samples, horizon) / |samples| as real
  {
    hide Accounts, Area, Estimate, SumMin, OnTrack;
    var order := Ordering(samples);
    ByTimeIsPreorder();
    SortOrdered(ByTime, samples);
    forall s | s in order ensures s.event || s.time == horizon {
      SortKeepsMembers(ByTime, samples, s);
    }
    TrackStarts(order, horizon);
    AreaFromTrack(order, 0, 0.0, 1.0, horizon);
    assert order[0..] == order;
    SumMinOrdering(samples, horizon);
    MeanOf(Rmst(samples, horizon), |samples| as real, SumMin(samples, horizon));
  }

  // ---------- Does the order of the input matter? ----------

  // ---------- The area for any samples ----------

  /** What the drops of the curve from sample `k` on contribute to the expected failure-free rounds. */
  function FromDrops(order: seq<Sample>, k: nat, horizon: real): real
    requires k <= |order|
    decreases |order| - k
  {
    if k == |order| then 0.0
    else (Estimate(order, k) - Estimate(order, k + 1)) * Min(order[k].time, horizon) + FromDrops(order, k + 1, horizon)
  }

  /** Beyond the horizon the drops add up to one drop at the horizon. */
  lemma {:induction false} DropsBeyond(order: seq<Sample>, k: nat, horizon: real)
    requires k <= |order| && forall i :: k <= i < |order| ==> order[i].time >= horizon
    ensures FromDrops(order, k, horizon) == (Estimate(order, k) - Estimate(order, |order|)) * horizon
    decreases |order| - k
  {
    hide Estimate;
    if k < |order| {
      DropsBeyond(order, k + 1, horizon);
      Telescope(Estimate(order, k), Estimate(order, k + 1), Estimate(order, |order|), horizon);
    }
  }

  lemma Telescope(a: real, b: real, c: real, h: real)
    ensures (a - b) * h + (b - c) * h == (a - c) * h
  {
  }

  lemma SliceAndDrop(t: real, lastT: real, before: real, after: real, rest: real, end: real)
    ensures (t - lastT) * before + (rest + end - after * t) == (before - after) * t + rest + end - before * lastT
  {
  }

  lemma LastSlice(lastT: real, s: real, end: real, horizon: real)
    ensures (horizon - lastT) * s == (s - end) * horizon + end * horizon - s * lastT
  {
  }

  lemma {:induction false} AreaIsExpectation(order: seq<Sample>, k: nat, lastT: real, horizon: real)
    requires k <= |order| && Ordered(ByTime, order)
    ensures Area(Points(order, |order|), k, lastT, Estimate(order, k), horizon)
            == FromDrops(order, k, horizon) + Estimate(order, |order|) * horizon - Estimate(order, k) * lastT
    decreases |order| - k
  {
    hide Estimate, Ordered;
    var curve, end := Points(order, |order|), Estimate(order, |order|);
    if k == |order| || order[k].time > horizon {
      LaterTimes(order, k, horizon);
      DropsBeyond(order, k, horizon);
      LastSlice(lastT, Estimate(order, k), end, horizon);
    } else {
      assert curve[k] == PointAt(order, k);
      AreaIsExpectation(order, k + 1, order[k].time, horizon);
      SliceAndDrop(order[k].time, lastT, Estimate(order, k), Estimate(order, k + 1), FromDrops(order, k + 1, horizon),
                   end * horizon);
    }
  }

  lemma LaterTimes(order: seq<Sample>, k: nat, horizon: real)
    requires k <= |order| && Ordered(ByTime, order) && (k < |order| ==> order[k].time > horizon)
    ensures forall i :: k <= i < |order| ==> order[i].time >= horizon
  {
    forall i | k <= i < |order| ensures order[i].time >= horizon {
      assert k < i ==> ByTime(order[k], order[i]);
    }
  }

  lemma EstimateStarts(order: seq<Sample>)
    ensures Estimate(order, 0) == 1.0
  {
  }

  /** For any samples, any censoring and any horizon, the area is the expected number of failure-free rounds under the
      curve: each drop counts up to its time, or to the horizon if that comes first, and what never drops counts the
      whole horizon. */
  lemma RmstIsExpectation(samples: seq<Sample>, horizon: real)
    ensures var order := Ordering(samples);
            Rmst(samples, horizon) == FromDrops(order, 0, horizon) + Estimate(order, |order|) * horizon
  {
    hide Estimate, FromDrops, Area, Points, Ordered, Sort;
    ByTimeIsPreorder();
    SortOrdered(ByTime, samples);
    EstimateStarts(Ordering(samples));
    AreaIsExpectation(Ordering(samples), 0, 0.0, horizon);
  }

  /** No failure and censored session share a time. */
  ghost predicate NoMixedTies(samples: seq<Sample>) {
    forall x, y :: x in samples && y in samples && x.time == y.time ==> x.event == y.event
  }

  lemma CurveIgnoresOrder(samples: seq<Sample>, other: seq<Sample>)
    requires multiset(samples) == multiset(other)
    requires NoMixedTies(samples)
    ensures Curve(samples) == Curve(other)
  {
    assert |multiset(samples)| == |samples| && |multiset(other)| == |other|;
    forall x | x in other ensures x in samples {
      assert x in multiset(samples);
    }
    ByTimeIsPreorder();
    SortCanonical(ByTime, samples, other);
  }

  lemma {:induction false} EstimatePrefix(a: seq<Sample>, b: seq<Sample>, k: nat)
    requires |a| == |b| && k <= |a|
    requires a[..k] == b[..k]
    ensures Estimate(a, k) == Estimate(b, k)
  {
    if k > 0 {
      assert a[..k - 1] == a[..k][..k - 1] && b[..k - 1] == b[..k][..k - 1];
      assert a[k - 1] == a[..k][k - 1] && b[k - 1] == b[..k][k - 1];
      EstimatePrefix(a, b, k - 1);
    }
  }

  /** How many of the samples come strictly before time `t`. */
  function Before(order: seq<Sample>, t: real): (p: nat)
    ensures p <= |order|
    ensures forall i :: 0 <= i < p ==> order[i].time < t
    ensures p < |order| ==> order[p].time >= t
  {
    if order == [] || order[0].time >= t then 0 else 1 + Before(order[1..], t)
  }

  /** Two tied samples in front of the input come out next to each other, in input order. */
  lemma TiedPairPosition(x: Sample, y: Sample, rest: seq<Sample>)
    requires x.time == y.time
    ensures var sorted, p := Ordering(rest), Before(Ordering(rest), x.time);
            Ordering([x, y] + rest) == sorted[..p] + [x, y] + sorted[p..]
  {
    hide Insert, Sort;
    var sorted, p := Ordering(rest), Before(Ordering(rest), x.time);
    SortCons(ByTime, x, [y] + rest);
    SortCons(ByTime, y, rest);
    var inner := Insert(ByTime, y, sorted);
    InsertAt(ByTime, y, sorted, p);
    InsertAt(ByTime, x, inner, p);
    assert [x, y] + rest == [x] + ([y] + rest);
    assert inner[..p] == sorted[..p] && inner[p..] == [y] + sorted[p..];
    assert inner[..p] + [x] + inner[p..] == sorted[..p] + [x, y] + sorted[p..];
  }

  lemma FailureLowers(s: real, atRisk: real)
    requires s > 0.0 && atRisk > 0.0
    ensures s * ((atRisk - 1.0) / atRisk) < s
  {
    assert (atRisk - 1.0) / atRisk < 1.0;
  }

  /** Orders that agree up to a failure in one and a censored session in the other have different curves. */
  lemma EstimatesPart(a: seq<Sample>, b: seq<Sample>, p: nat)
    requires |a| == |b| && p < |a| && a[..p] == b[..p]
    requires a[p].event && !b[p].event
    ensures Estimate(a, p + 1) < Estimate(b, p + 1)
  {
    hide Estimate;
    EstimatePrefix(a, b, p);
    EstimateBounds(a, p);
    EstimateNext(a, p);
    EstimateNext(b, p);
    FailureLowers(Estimate(a, p), (|a| - p) as real);
  }

  /** Putting a censored session before or after a failure with the same time gives two different curves. */
  lemma MixedTieMatters(x: Sample, y: Sample, rest: seq<Sample>)
    requires x.time == y.time && x.event && !y.event
    ensures Curve([x, y] + rest) != Curve([y, x] + rest)
  {
    hide Estimate, Sort;
    var p := Before(Ordering(rest), x.time);
    TiedPairPosition(x, y, rest);
    TiedPairPosition(y, x, rest);
    var a, b := Ordering([x, y] + rest), Ordering([y, x] + rest);
    assert a[..p] == Ordering(rest)[..p] == b[..p];
    EstimatesPart(a, b, p);
    assert Curve([x, y] + rest)[p] == PointAt(a, p);
    assert Curve([y, x] + rest)[p] == PointAt(b, p);
  }

  lemma ToFront(samples: seq<Sample>, x: Sample) returns (rest: seq<Sample>)
    requires x in samples
    ensures multiset(samples) == multiset{x} + multiset(rest)
  {
    var i :| 0 <= i < |samples| && samples[i] == x;
    rest := samples[..i] + samples[i + 1..];
    assert samples == samples[..i] + [x] + samples[i + 1..];
  }

  lemma PairToFront(samples: seq<Sample>, x: Sample, y: Sample) returns (rest: seq<Sample>)
    requires x in samples && y in samples && x != y
    ensures multiset([x, y] + rest) == multiset(samples)
  {
    var without := ToFront(samples, x);
    assert y in multiset(samples);
    assert y in multiset(without);
    rest := ToFront(without, y);
  }

  /** The curve is a function of the set of sessions alone exactly when no time carries both a failure and a
      censored session. */
  lemma CurveOrderFreeIff(samples: seq<Sample>)
    ensures (forall other: seq<Sample> | multiset(other) == multiset(samples) :: Curve(other) == Curve(samples))
            <==> NoMixedTies(samples)
  {
    if NoMixedTies(samples) {
      forall other: seq<Sample> | multiset(other) == multiset(samples) ensures Curve(other) == Curve(samples) {
        CurveIgnoresOrder(samples, other);
      }
    } else {
      var x, y :| x in samples && y in samples && x.time == y.time && x.event && !y.event;
      var rest := PairToFront(samples, x, y);
      MixedTieMatters(x, y, rest);
      assert multiset([x, y] + rest) == multiset(samples) && multiset([y, x] + rest) == multiset(samples);
    }
  }
}
