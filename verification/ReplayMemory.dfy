/** The replay memory of experiments/maniskill_fullstack_benchmark.py: what it keeps, how it samples, and
    what the counters and the replay ratio say after any run.

    Random draws are parameters; an action is a vector of reals, of the length of the action space.
 */
module ReplayMemory {
  import opened Arithmetic
  import opened Wrappers

  type Action = seq<real>

  const CAPACITY := 1000

  datatype Entry = Entry(action: Action, reward: real)

  // ---------- Sampling weights ----------

  function Lowest(rewards: seq<real>): (r: real)
    requires rewards != []
    ensures r in rewards
    ensures forall x :: x in rewards ==> r <= x
  {
    if |rewards| == 1 then rewards[0]
    else
      var rest := Lowest(rewards[1..]);
      assert rewards == [rewards[0]] + rewards[1..];
      if rewards[0] <= rest then rewards[0] else rest
  }

  function Sum(xs: seq<real>): real {
    if xs == [] then 0.0 else xs[0] + Sum(xs[1..])
  }

  /** The rewards shifted to be positive. */
  function Shifted(rewards: seq<real>): (r: seq<real>)
    requires rewards != []
    ensures |r| == |rewards|
    ensures forall i :: 0 <= i < |r| ==> r[i] == rewards[i] - Lowest(rewards) + 0.01
  {
    seq(|rewards|, i requires 0 <= i < |rewards| => rewards[i] - Lowest(rewards) + 0.01)
  }

  lemma ShiftedPositive(rewards: seq<real>)
    requires rewards != []
    ensures forall i :: 0 <= i < |rewards| ==> Shifted(rewards)[i] > 0.0
    ensures Sum(Shifted(rewards)) > 0.0
  {
    forall i | 0 <= i < |rewards| ensures Shifted(rewards)[i] > 0.0 {
      assert rewards[i] in rewards;
    }
    SumPositive(Shifted(rewards));
  }

  function Weights(rewards: seq<real>): (r: seq<real>)
    requires rewards != []
    ensures |r| == |rewards|
  {
    var shifted := Shifted(rewards);
    ShiftedPositive(rewards);
    seq(|rewards|, i requires 0 <= i < |rewards| => shifted[i] / Sum(shifted))
  }

  lemma {:induction false} SumPositive(xs: seq<real>)
    requires xs != [] && forall i :: 0 <= i < |xs| ==> xs[i] > 0.0
    ensures Sum(xs) > 0.0
  {
    if |xs| > 1 {
      SumPositive(xs[1..]);
    }
  }

  lemma {:induction false} SumOfShares(xs: seq<real>, shares: seq<real>, total: real)
    requires total > 0.0 && |shares| == |xs|
    requires forall i :: 0 <= i < |xs| ==> shares[i] == xs[i] / total
    ensures Sum(shares) == Sum(xs) / total
  {
    if xs != [] {
      SumOfShares(xs[1..], shares[1..], total);
    }
  }

  lemma ShareOrder(x: real, y: real, total: real)
    requires total > 0.0
    ensures x / total < y / total <==> x < y
    ensures x > 0.0 ==> x / total > 0.0
  {
  }

  /** The weights are a distribution in which every remembered action can be drawn, and a higher reward is
      drawn more often. */
  lemma WeightsAreDistribution(rewards: seq<real>)
    requires rewards != []
    ensures Sum(Weights(rewards)) == 1.0
    ensures forall i :: 0 <= i < |rewards| ==> Weights(rewards)[i] > 0.0
    ensures forall i, j :: 0 <= i < |rewards| && 0 <= j < |rewards| ==>
              (Weights(rewards)[i] < Weights(rewards)[j] <==> rewards[i] < rewards[j])
  {
    ShiftedPositive(rewards);
    var shifted, weights := Shifted(rewards), Weights(rewards);
    var total := Sum(shifted);
    assert forall i :: 0 <= i < |rewards| ==> weights[i] == shifted[i] / total;
    hide Sum, Weights, Shifted;
    SumOfShares(shifted, weights, total);
    WholeShare(total);
    forall i, j | 0 <= i < |rewards| && 0 <= j < |rewards|
      ensures weights[i] > 0.0
      ensures weights[i] < weights[j] <==> rewards[i] < rewards[j] {
      ShareOrder(shifted[i], shifted[j], total);
    }
    forall i | 0 <= i < |rewards| ensures weights[i] > 0.0 {
      ShareOrder(shifted[i], shifted[i], total);
    }
  }

  lemma WholeShare(total: real)
    requires total > 0.0
    ensures total / total == 1.0
  {
  }

  lemma {:induction false} SumOfShifts(xs: seq<real>, ys: seq<real>, shift: real)
    requires |ys| == |xs| && forall i :: 0 <= i < |xs| ==> ys[i] == xs[i] + shift
    ensures Sum(ys) == Sum(xs) + |xs| as real * shift
  {
    if xs != [] {
      SumOfShifts(xs[1..], ys[1..], shift);
      assert |xs| as real * shift == |xs[1..]| as real * shift + shift;
    }
  }

  lemma WeightIsShare(rewards: seq<real>, i: nat)
    requires i < |rewards| && Sum(Shifted(rewards)) > 0.0
    ensures Weights(rewards)[i] == Shifted(rewards)[i] / Sum(Shifted(rewards))
  {
    hide Sum, Lowest, Shifted;
  }

  lemma WeightAt(rewards: seq<real>, i: nat)
    requires i < |rewards|
    ensures Sum(Shifted(rewards)) > 0.0
    ensures Weights(rewards)[i] == (rewards[i] - Lowest(rewards) + 0.01) / Sum(Shifted(rewards))
  {
    hide Sum, Lowest, Weights;
    ShiftedPositive(rewards);
    WeightIsShare(rewards, i);
    assert Shifted(rewards)[i] == rewards[i] - Lowest(rewards) + 0.01;
  }

  lemma ShiftedSum(rewards: seq<real>)
    requires rewards != []
    ensures Sum(Shifted(rewards)) == Sum(rewards) + |rewards| as real * (0.01 - Lowest(rewards))
  {
    hide Sum, Lowest;
    SumOfShifts(rewards, Shifted(rewards), 0.01 - Lowest(rewards));
  }

  /** A weight is the reward's lead over the lowest one, plus 0.01, as a share of all such leads. */
  lemma WeightIs(rewards: seq<real>, i: nat)
    requires i < |rewards|
    ensures var low, leads := Lowest(rewards), Sum(rewards) + |rewards| as real * (0.01 - Lowest(rewards));
            leads > 0.0 && Weights(rewards)[i] == (rewards[i] - low + 0.01) / leads
  {
    hide Sum, Lowest, Weights, Shifted;
    WeightAt(rewards, i);
    ShiftedSum(rewards);
  }

  /** The index that a uniform draw selects: the first whose cumulative weight exceeds it. */
  function Pick(weights: seq<real>, draw: real): (i: nat)
    requires weights != []
    ensures i < |weights|
  {
    if |weights| == 1 || draw < weights[0] then 0 else 1 + Pick(weights[1..], draw - weights[0])
  }

  /** Index `i` is selected exactly by the draws of an interval as long as its weight. */
  lemma {:induction false} PickIff(weights: seq<real>, draw: real, i: nat)
    requires i < |weights| && 0.0 <= draw < Sum(weights)
    requires forall j :: 0 <= j < |weights| ==> weights[j] > 0.0
    ensures Pick(weights, draw) == i <==> Sum(weights[..i]) <= draw < Sum(weights[..i]) + weights[i]
  {
    if i > 0 {
      assert weights[..i][1..] == weights[1..][..i - 1];
      SumNonNegative(weights[1..][..i - 1]);
      if draw >= weights[0] {
        PickIff(weights[1..], draw - weights[0], i - 1);
      }
    }
  }

  lemma {:induction false} SumNonNegative(xs: seq<real>)
    requires forall i :: 0 <= i < |xs| ==> xs[i] > 0.0
    ensures Sum(xs) >= 0.0
  {
    if xs != [] {
      SumNonNegative(xs[1..]);
    }
  }

  // ---------- Actions in the action space ----------

  datatype Space = Space(low: Action, high: Action)

  ghost predicate ValidSpace(space: Space) {
    |space.low| == |space.high| && forall i :: 0 <= i < |space.low| ==> space.low[i] <= space.high[i]
  }

  ghost predicate Within(space: Space, a: Action) {
    |a| == |space.low| == |space.high| && forall i :: 0 <= i < |a| ==> space.low[i] <= a[i] <= space.high[i]
  }

  function Clip(x: real, low: real, high: real): real {
    if x < low then low else if x > high then high else x
  }

  /** The random draws of one prediction. */
  datatype Draw = Draw(scale: real, coin: real, pick: real, blend: real)

  function Component(base: real, remembered: Option<real>, draw: Draw, low: real, high: real): real {
    var x := if remembered.Some? then remembered.value * draw.blend + base * (1.0 - draw.blend) else base;
    Clip(x * draw.scale, low, high)
  }

  /** The action that `predict` returns: a blend with a remembered action, or the base action, scaled and clipped. */
  function Predicted(space: Space, base: Action, remembered: Option<Action>, draw: Draw): (r: Action)
    requires |base| == |space.low| == |space.high|
    requires remembered.Some? ==> |remembered.value| == |base|
    ensures |r| == |base|
  {
    seq(|base|, i requires 0 <= i < |base| =>
      var memory := if remembered.Some? then Some(remembered.value[i]) else None;
      Component(base[i], memory, draw, space.low[i], space.high[i]))
  }

  lemma PredictedWithin(space: Space, base: Action, remembered: Option<Action>, draw: Draw)
    requires ValidSpace(space) && |base| == |space.low|
    requires remembered.Some? ==> |remembered.value| == |base|
    ensures Within(space, Predicted(space, base, remembered, draw))
  {
    var a := Predicted(space, base, remembered, draw);
    forall i | 0 <= i < |a| ensures space.low[i] <= a[i] <= space.high[i] {
      ClipBounds(space.low[i], space.high[i]);
    }
  }

  /** The action, component by component: `blend` of the way from the base action to the remembered one, or the base
      action itself, times the scale; unchanged within the action space, and the nearer bound outside. */
  lemma PredictedMeans(space: Space, base: Action, remembered: Option<Action>, draw: Draw, i: nat)
    requires ValidSpace(space) && |base| == |space.low| && i < |base|
    requires remembered.Some? ==> |remembered.value| == |base|
    ensures var away := if remembered.Some? then draw.blend * (remembered.value[i] - base[i]) else 0.0;
            var raw, a := draw.scale * (base[i] + away), Predicted(space, base, remembered, draw)[i];
            && (space.low[i] <= raw <= space.high[i] ==> a == raw)
            && (raw < space.low[i] ==> a == space.low[i])
            && (raw > space.high[i] ==> a == space.high[i])
  {
    hide Component;
    assert space.low[i] <= space.high[i];
    var memory := if remembered.Some? then Some(remembered.value[i]) else None;
    ComponentMeans(base[i], memory, draw, space.low[i], space.high[i]);
  }

  lemma ComponentMeans(base: real, remembered: Option<real>, draw: Draw, low: real, high: real)
    requires low <= high
    ensures var away := if remembered.Some? then draw.blend * (remembered.value - base) else 0.0;
            var raw, a := draw.scale * (base + away), Component(base, remembered, draw, low, high);
            && (low <= raw <= high ==> a == raw) && (raw < low ==> a == low) && (raw > high ==> a == high)
  {
    var x := if remembered.Some? then remembered.value * draw.blend + base * (1.0 - draw.blend) else base;
    var away := if remembered.Some? then draw.blend * (remembered.value - base) else 0.0;
    if remembered.Some? {
      Blended(remembered.value, base, draw.blend);
    }
    assert x == base + away;
    assert x * draw.scale == draw.scale * (base + away);
  }

  lemma Blended(memory: real, base: real, blend: real)
    ensures memory * blend + base * (1.0 - blend) == base + blend * (memory - base)
  {
  }

  lemma ClipBounds(low: real, high: real)
    requires low <= high
    ensures forall x :: low <= Clip(x, low, high) <= high
  {
  }

  // ---------- What a run leaves, as functions of its history ----------

  function Accepted(threshold: real, history: seq<Entry>): (r: seq<Entry>)
    ensures |r| <= |history|
  {
    if history == [] then []
    else
      var last := history[|history| - 1];
      Accepted(threshold, history[..|history| - 1]) + if last.reward >= threshold then [last] else []
  }

  /** What is accepted: every entry of the history whose reward is at least the threshold, in order. */
  lemma {:induction false} AcceptedIff(threshold: real, history: seq<Entry>, e: Entry)
    ensures e in Accepted(threshold, history) <==> e in history && e.reward >= threshold
  {
    if history != [] {
      var n := |history| - 1;
      AcceptedIff(threshold, history[..n], e);
      assert history == history[..n] + [history[n]];
    }
  }

  /** The last `n` entries. */
  function LastOf(entries: seq<Entry>, n: nat): (r: seq<Entry>)
    ensures |r| == if |entries| <= n then |entries| else n
    ensures forall i :: 0 <= i < |r| ==> r[i] == entries[|entries| - |r| + i]
  {
    if |entries| <= n then entries else entries[|entries| - n..]
  }

  function ActionsOf(entries: seq<Entry>): (r: seq<Action>)
    ensures |r| == |entries|
    ensures forall i :: 0 <= i < |r| ==> r[i] == entries[i].action
  {
    seq(|entries|, i requires 0 <= i < |entries| => entries[i].action)
  }

  function RewardsOf(entries: seq<Entry>): (r: seq<real>)
    ensures |r| == |entries|
    ensures forall i :: 0 <= i < |r| ==> r[i] == entries[i].reward
  {
    seq(|entries|, i requires 0 <= i < |entries| => entries[i].reward)
  }

  lemma AcceptedNext(threshold: real, history: seq<Entry>, e: Entry)
    ensures Accepted(threshold, history + [e])
            == Accepted(threshold, history) + if e.reward >= threshold then [e] else []
  {
    assert (history + [e])[..|history|] == history;
  }

  /** Dropping the oldest of one too many keeps the last `n`. */
  lemma LastOfNext(entries: seq<Entry>, n: nat, e: Entry)
    requires n > 0
    ensures LastOf(entries + [e], n) == Bounded(LastOf(entries, n) + [e], n)
  {
    var next, grown := LastOf(entries + [e], n), LastOf(entries, n) + [e];
    if |entries| >= n {
      assert |next| == n == |grown[1..]|;
      assert forall i :: 0 <= i < n ==> next[i] == grown[1..][i];
    }
  }

  /** Drop the oldest if there are more than `n`. */
  function Bounded<T>(xs: seq<T>, n: nat): seq<T> {
    if |xs| > n then xs[1..] else xs
  }

  /** What the memory holds after a history of updates: the last accepted entries, up to the capacity. */
  function Memory(threshold: real, history: seq<Entry>): seq<Entry> {
    LastOf(Accepted(threshold, history), CAPACITY)
  }

  /** All that was accepted if it was no more than 1000 entries, else the last 1000. */
  lemma MemoryIsRecent(threshold: real, history: seq<Entry>)
    ensures var accepted := Accepted(threshold, history);
            Memory(threshold, history) == if |accepted| <= 1000 then accepted else accepted[|accepted| - 1000..]
  {
    hide Accepted;
  }

  lemma MemoryNext(threshold: real, history: seq<Entry>, e: Entry)
    ensures Memory(threshold, history + [e])
            == if e.reward >= threshold then Bounded(Memory(threshold, history) + [e], CAPACITY)
               else Memory(threshold, history)
  {
    AcceptedNext(threshold, history, e);
    if e.reward >= threshold {
      LastOfNext(Accepted(threshold, history), CAPACITY, e);
    }
  }

  lemma FieldsNext(entries: seq<Entry>, e: Entry)
    ensures ActionsOf(Bounded(entries + [e], CAPACITY)) == Bounded(ActionsOf(entries) + [e.action], CAPACITY)
    ensures RewardsOf(Bounded(entries + [e], CAPACITY)) == Bounded(RewardsOf(entries) + [e.reward], CAPACITY)
  {
  }

  // ---------- The replay ratio ----------

  function Mean(xs: seq<real>): real {
    if xs == [] then 0.0 else Sum(xs) / |xs| as real
  }

  /** The replay ratio after a round. */
  function NextRatio(memorySize: nat, average: real, recent: real, threshold: real, ratio: real): real {
    if memorySize < 10 then Max(0.0, ratio - 0.1)
    else if average > 0.15 && ratio < 0.5 then Min(0.5, ratio + 0.1)
    else if recent < threshold && ratio > 0.0 then Max(0.0, ratio - 0.05)
    else ratio
  }

  /** Where a ratio can be that started at `initial`: from [0, 0.5] it never leaves [0, 0.5]. */
  predicate RatioInRange(initial: real, ratio: real) {
    Min(0.0, initial) <= ratio <= Max(0.5, initial)
  }

  lemma RatioStaysInRange(memorySize: nat, average: real, recent: real, threshold: real, initial: real, ratio: real)
    requires RatioInRange(initial, ratio)
    ensures RatioInRange(initial, NextRatio(memorySize, average, recent, threshold, ratio))
    ensures NextRatio(memorySize, average, recent, threshold, ratio) > ratio && ratio >= 0.0 ==>
            memorySize >= 10 && average > 0.15
  {
  }

  /** How a round moves a ratio between 0 and 0.5: down by at most 0.1 while there are fewer than ten remembered
      actions; else up by at most 0.1 after a good round, unless it is at the top; else down by at most 0.05 if
      recent rewards fall short of the threshold; else not at all. The bounds are reached only at 0 and 0.5. */
  lemma RatioMoves(memorySize: nat, average: real, recent: real, threshold: real, ratio: real)
    requires 0.0 <= ratio <= 0.5
    ensures var next := NextRatio(memorySize, average, recent, threshold, ratio);
            var rises := memorySize >= 10 && average > 0.15 && ratio < 0.5;
            var falls := memorySize < 10 || (!rises && recent < threshold);
            && (rises ==> next - ratio == 0.1 || (next == 0.5 && 0.0 < next - ratio < 0.1))
            && (falls ==> var step := if memorySize < 10 then 0.1 else 0.05;
                          ratio - next == step || (next == 0.0 && ratio - next < step))
            && (!rises && !falls ==> next == ratio)
  {
  }

  // ---------- The policy ----------

  class Policy {
    const space: Space
    const threshold: real
    const initialRatio: real
    var memoryActions: seq<Action>
    var memoryRewards: seq<real>
    var replayRatio: real
    var recentRewards: seq<real>
    var criticAccepts: nat
    var memoryReplays: nat
    var randomExplores: nat
    ghost var history: seq<Entry>
    ghost var predictions: nat

    /** What holds between any two calls. */
    ghost predicate Valid()
      reads this
    {
      && ValidSpace(space)
      && memoryActions == ActionsOf(Memory(threshold, history))
      && memoryRewards == RewardsOf(Memory(threshold, history))
      && criticAccepts == |Accepted(threshold, history)|
      && memoryReplays + randomExplores == predictions
      && (forall i :: 0 <= i < |memoryActions| ==> |memoryActions[i]| == |space.low|)
      && RatioInRange(initialRatio, replayRatio)
    }

    constructor (space: Space, threshold: real, initialRatio: real)
      requires ValidSpace(space)
      ensures Valid() && history == [] && predictions == 0
      ensures this.space == space && this.threshold == threshold && this.initialRatio == initialRatio
      ensures replayRatio == initialRatio && recentRewards == []
    {
      this.space, this.threshold, this.initialRatio := space, threshold, initialRatio;
      memoryActions, memoryRewards, replayRatio, recentRewards := [], [], initialRatio, [];
      criticAccepts, memoryReplays, randomExplores, history, predictions := 0, 0, 0, [], 0;
    }

    /** The remembered action that a draw selects, if there is one. */
    function Remembered(pick: real): (a: Option<Action>)
      requires |memoryActions| == |memoryRewards|
      reads this
      ensures a.None? <==> memoryActions == []
      ensures a.Some? ==> a.value in memoryActions
    {
      if memoryActions == [] then None
      else if |memoryActions| == 1 then Some(memoryActions[0])
      else Some(memoryActions[Pick(Weights(memoryRewards), pick)])
    }

    /** `predict`: the action is in the action space, and exactly one of the two counters goes up. */
    method Predict(base: Action, draw: Draw) returns (action: Action)
      requires Valid() && |base| == |space.low|
      modifies this`memoryReplays, this`randomExplores, this`predictions
      ensures Valid() && predictions == old(predictions) + 1
      ensures Within(space, action)
      ensures memoryReplays == old(memoryReplays) + if memoryActions != [] && draw.coin < replayRatio then 1 else 0
      ensures var remembered := if draw.coin < replayRatio then Remembered(draw.pick) else None;
              (remembered.Some? ==> |remembered.value| == |base|) && action == Predicted(space, base, remembered, draw)
    {
      hide Predicted, Memory, Accepted, Pick, Weights;
      var remembered: Option<Action> := None;
      if memoryActions != [] && draw.coin < replayRatio {
        remembered := Remembered(draw.pick);
        if remembered.Some? {
          memoryReplays := memoryReplays + 1;
        } else {
          assert false;
        }
      } else {
        randomExplores := randomExplores + 1;
      }
      action := Predicted(space, base, remembered, draw);
      PredictedWithin(space, base, remembered, draw);
      predictions := predictions + 1;
    }

    /** `update` */
    method Update(action: Action, reward: real)
      requires Valid() && |action| == |space.low|
      modifies this`memoryActions, this`memoryRewards, this`recentRewards, this`criticAccepts, this`history
      ensures Valid() && history == old(history) + [Entry(action, reward)]
      ensures recentRewards == old(recentRewards) + [reward]
    {
      hide Memory, Accepted, ActionsOf, RewardsOf, ValidSpace, RatioInRange;
      ghost var e := Entry(action, reward);
      AcceptedNext(threshold, history, e);
      MemoryNext(threshold, history, e);
      FieldsNext(Memory(threshold, history), e);
      recentRewards := recentRewards + [reward];
      if reward >= threshold {
        memoryActions := memoryActions + [action];
        memoryRewards := memoryRewards + [reward];
        criticAccepts := criticAccepts + 1;
        if |memoryActions| > CAPACITY {
          memoryActions := memoryActions[1..];
          memoryRewards := memoryRewards[1..];
        }
      }
      history := history + [e];
    }

    /** `how_analyze_round`, on the totals of a round of at least one episode. */
    method AnalyzeRound(totals: seq<real>)
      requires Valid() && totals != []
      modifies this`replayRatio, this`recentRewards
      ensures Valid() && recentRewards == []
      ensures replayRatio
              == NextRatio(|memoryActions|, Mean(totals), Mean(old(recentRewards)), threshold, old(replayRatio))
    {
      var average, recent := Mean(totals), Mean(recentRewards);
      RatioStaysInRange(|memoryActions|, average, recent, threshold, initialRatio, replayRatio);
      if |memoryActions| < 10 {
        replayRatio := Max(0.0, replayRatio - 0.1);
      } else if average > 0.15 && replayRatio < 0.5 {
        replayRatio := Min(0.5, replayRatio + 0.1);
      } else if recent < threshold && replayRatio > 0.0 {
        replayRatio := Max(0.0, replayRatio - 0.05);
      }
      recentRewards := [];
    }
  }

  // ---------- An episode ----------

  /** What one step of an episode meets: the base action, the draws, the reward, and whether the episode ends. */
  datatype Step = Step(base: Action, draw: Draw, reward: real, ends: bool)

  ghost predicate ValidSteps(space: Space, steps: seq<Step>) {
    forall i :: 0 <= i < |steps| ==> |steps[i].base| == |space.low|
  }

  /** The episode loop of `run_rosclaw`: each prediction is followed by one update, so the counters count updates. */
  method RunEpisode(policy: Policy, steps: seq<Step>) returns (taken: seq<Action>, total: real)
    requires policy.Valid() && ValidSteps(policy.space, steps)
    modifies policy
    ensures policy.Valid()
    ensures |policy.history| - old(|policy.history|) == policy.predictions - old(policy.predictions) == |taken|
    ensures policy.history[..|policy.history| - |taken|] == old(policy.history)
    ensures ActionsOf(policy.history[|policy.history| - |taken|..]) == taken
    ensures forall i :: 0 <= i < |taken| ==> Within(policy.space, taken[i])
  {
    hide Policy.Valid, Policy.Remembered, Within, Predicted;
    taken, total := [], 0.0;
    var i := 0;
    while i < |steps|
      invariant 0 <= i <= |steps| && policy.Valid()
      invariant |taken| == |policy.history| - old(|policy.history|) == policy.predictions - old(policy.predictions)
      invariant old(policy.history) <= policy.history
      invariant ActionsOf(policy.history[|old(policy.history)|..]) == taken
      invariant forall j :: 0 <= j < |taken| ==> Within(policy.space, taken[j])
    {
      var action := policy.Predict(steps[i].base, steps[i].draw);
      taken := taken + [action];
      total := total + steps[i].reward;
      policy.Update(action, steps[i].reward);
      if steps[i].ends {
        return;
      }
      i := i + 1;
    }
  }
}
