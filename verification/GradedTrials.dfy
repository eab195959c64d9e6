/** What it means that a trial, a level and the release gate pass (scripts/experiments/exp3_graded_execution.py), in
    terms of what the hand did between the readings. */
module GradedTrials {
  import opened Arithmetic
  import opened Wrappers
  import opened GradedModel
  import opened GradedSafety
  import opened GradedReports

  // ---------- The plans of a trial ----------

  /** Hold walks march by 10 until all six channels are there and heed no force; the approach marches by 10, stops on
      contact, and only asks the thumb to be there. Commands keep 5 below the permit's step. */
  lemma PlansAre(target: Pose, permit: Permit)
    ensures HoldPlan(target) == Plan(target, false, false, 10.0, None, [0, 1, 2, 3, 4, 5])
    ensures ApproachPlan(target) == Plan(target, true, true, 10.0, None, [4])
    ensures Window(Some(permit)) == permit.maxStepDelta - 5.0
  {
  }

  // ---------- Walks of a trial ----------

  /** The walk returns, and its last reading finds the hand at the plan's target. */
  ghost predicate WalkArrives(rig: Rig, plan: Plan, s: DriverState)
    requires WellFormed(plan)
  {
    var step := Walk(rig, plan, s);
    step.Returned? && Arrived(rig, plan, s, step.state)
  }

  /** The walk returns, and one of the forces it has scanned has reached 70 g. */
  ghost predicate WalkTouches(rig: Rig, plan: Plan, s: DriverState)
    requires WellFormed(plan)
  {
    var step := Walk(rig, plan, s);
    step.Returned? && Felt(rig, plan, 70.0, s, step.state)
  }

  lemma HoldWalk(rig: Rig, pose: Pose, s: DriverState)
    ensures var step := Walk(rig, HoldPlan(pose), s);
            step.Returned? ==>
              && (step.value.reached <==> WalkArrives(rig, HoldPlan(pose), s))
              && (step.value.problems == [] <==> step.value.reached)
  {
    hide Walk, Arrived;
    WalkReportMeans(rig, HoldPlan(pose), s);
  }

  /** The approach stops on contact before it could abort on over-contact: the abort is never reported, and a force far
      above 250 g counts as contact. */
  lemma ApproachWalk(rig: Rig, pose: Pose, s: DriverState)
    ensures var step := Walk(rig, ApproachPlan(pose), s);
            step.Returned? ==>
              && (step.value.contact <==> WalkTouches(rig, ApproachPlan(pose), s))
              && (step.value.contact ==> step.value.problems == [])
              && !step.value.overContactAbort
  {
    hide Walk, Arrived, Felt;
    WalkReportMeans(rig, ApproachPlan(pose), s);
  }

  /** Out to a pose and back to the base. */
  ghost predicate ThereAndBack(rig: Rig, s: DriverState, pose: Pose, base: Pose) {
    && WalkArrives(rig, HoldPlan(pose), s)
    && WalkArrives(rig, HoldPlan(base), Walk(rig, HoldPlan(pose), s).state)
  }

  // ---------- When a trial passes ----------

  ghost predicate Passing(step: Step<TrialResult>) {
    step.Returned? && step.value.passed
  }

  lemma OutAndBackPassesIff(rig: Rig, s: DriverState, index: nat, pose: Pose, base: Pose)
    ensures Passing(OutAndBack(rig, s, index, pose, base)) <==> ThereAndBack(rig, s, pose, base)
  {
    hide Walk;
    HoldWalk(rig, pose, s);
    HoldWalk(rig, base, Walk(rig, HoldPlan(pose), s).state);
    assert WalkArrives(rig, HoldPlan(pose), s) ==> Walk(rig, HoldPlan(pose), s).Returned?;
    hide WalkArrives;
  }

  /** The index finger closed by `delta`, but not beyond zero; the rest as it was. */
  predicate IsFlexed(base: Pose, pose: Pose, delta: real) {
    && pose[3] == (if base[3] >= delta then base[3] - delta else 0.0)
    && forall c: Channel :: c != 3 ==> pose[c] == base[c]
  }

  /** The four fingers closed by 450, but not below 450; the thumb as it was. */
  predicate IsHalfClosed(names: seq<string>, base: Pose, pose: Pose) {
    forall c: Channel ::
      pose[c] == if c < |names| && names[c] in {"little", "ring", "middle", "index"}
                 then (if base[c] >= 900.0 then base[c] - 450.0 else 450.0)
                 else base[c]
  }

  lemma SamePose(a: Pose, b: Pose)
    requires forall c: Channel :: a[c] == b[c]
    ensures a == b
  {
    forall i | 0 <= i < 6 ensures a[i] == b[i] {
      var c: Channel := i;
      assert a[c] == b[c];
    }
  }

  ghost predicate FingerSucceeds(rig: Rig, s: DriverState, delta: real) {
    && rig.read(s.readings).Observed?
    && var base := rig.read(s.readings).position;
       exists pose: Pose :: IsFlexed(base, pose, delta) && ThereAndBack(rig, s.(readings := s.readings + 1), pose, base)
  }

  /** A finger trial passes exactly if the hand is found with the finger flexed, and then back where it was. */
  lemma SingleFingerPassesIff(rig: Rig, s: DriverState, index: nat, delta: real)
    ensures Passing(TrialSingleFinger(rig, s, index, delta)) <==> FingerSucceeds(rig, s, delta)
  {
    hide OutAndBack, ThereAndBack;
    var reading, read := rig.read(s.readings), s.(readings := s.readings + 1);
    if reading.Observed? {
      var base := reading.position;
      var flexed := base[3 := Max(0.0, base[3] - delta)];
      OutAndBackPassesIff(rig, read, index, flexed, base);
      assert IsFlexed(base, flexed, delta);
      forall pose: Pose | IsFlexed(base, pose, delta) ensures pose == flexed {
        SamePose(pose, flexed);
      }
    }
  }

  ghost predicate GestureSucceeds(rig: Rig, s: DriverState) {
    && rig.read(s.readings).Observed?
    && var base := rig.read(s.readings).position;
       exists pose: Pose ::
         && IsHalfClosed(rig.calibration.names, base, pose)
         && ThereAndBack(rig, s.(readings := s.readings + 1), pose, base)
  }

  lemma HalfClosedMeans(calibration: Calibration, base: Pose, pose: Pose)
    ensures IsHalfClosed(calibration.names, base, pose) <==> pose == HalfClosed(calibration, base)
  {
    var closed := HalfClosed(calibration, base);
    forall c: Channel
      ensures closed[c] == if c < |calibration.names| && calibration.names[c] in {"little", "ring", "middle", "index"}
                           then (if base[c] >= 900.0 then base[c] - 450.0 else 450.0)
                           else base[c]
    {
    }
    if IsHalfClosed(calibration.names, base, pose) {
      hide HalfClosed;
      SamePose(pose, closed);
    }
  }

  /** A gesture trial passes exactly if the hand is found half-closed, and then back where it was. */
  lemma GesturePassesIff(rig: Rig, s: DriverState, index: nat)
    ensures Passing(TrialGesture(rig, s, index)) <==> GestureSucceeds(rig, s)
  {
    hide OutAndBack, ThereAndBack, HalfClosed, IsHalfClosed;
    var reading, read := rig.read(s.readings), s.(readings := s.readings + 1);
    if reading.Observed? {
      var base := reading.position;
      OutAndBackPassesIff(rig, read, index, HalfClosed(rig.calibration, base), base);
      forall pose: Pose
        ensures IsHalfClosed(rig.calibration.names, base, pose) <==> pose == HalfClosed(rig.calibration, base) {
        HalfClosedMeans(rig.calibration, base, pose);
      }
      assert IsHalfClosed(rig.calibration.names, base, HalfClosed(rig.calibration, base));
    }
  }

  ghost predicate ContactSucceeds(rig: Rig, s: DriverState) {
    && rig.read(s.readings).Observed?
    && var base, read := rig.read(s.readings).position, s.(readings := s.readings + 1);
       && WalkArrives(rig, HoldPlan(rig.coarse), read)
       && var near := Walk(rig, HoldPlan(rig.coarse), read).state;
          && WalkTouches(rig, ApproachPlan(rig.floor), near)
          && WalkArrives(rig, HoldPlan(base), Walk(rig, ApproachPlan(rig.floor), near).state)
  }

  /** A contact trial passes exactly if the hand comes near, then some force scanned on the way to the floor pose
      reaches 70 g, and then the hand is back where it was. Reaching the floor pose is neither needed nor enough. */
  lemma OkContactPassesIff(rig: Rig, s: DriverState, index: nat)
    ensures Passing(TrialOkContact(rig, s, index)) <==> ContactSucceeds(rig, s)
  {
    hide Walk, WalkArrives, WalkTouches;
    var reading, read := rig.read(s.readings), s.(readings := s.readings + 1);
    if reading.Observed? {
      var out := Walk(rig, HoldPlan(rig.coarse), read);
      HoldWalk(rig, rig.coarse, read);
      ArrivesReturned(rig, HoldPlan(rig.coarse), read);
      var approach := Walk(rig, ApproachPlan(rig.floor), out.state);
      ApproachWalk(rig, rig.floor, out.state);
      TouchesReturned(rig, ApproachPlan(rig.floor), out.state);
      HoldWalk(rig, reading.position, approach.state);
      ArrivesReturned(rig, HoldPlan(reading.position), approach.state);
    }
  }

  lemma ArrivesReturned(rig: Rig, plan: Plan, s: DriverState)
    requires WellFormed(plan)
    ensures WalkArrives(rig, plan, s) ==> Walk(rig, plan, s).Returned?
  {
    hide Walk;
  }

  lemma TouchesReturned(rig: Rig, plan: Plan, s: DriverState)
    requires WellFormed(plan)
    ensures WalkTouches(rig, plan, s) ==> Walk(rig, plan, s).Returned?
  {
    hide Walk;
  }

  ghost predicate NoopSucceeds(rig: Rig, s: DriverState) {
    && rig.read(s.readings).Observed? && rig.read(s.readings + 1).Observed? && s.permit.Some?
    && SandboxSafe(rig.calibration, [1000.0, 1000.0, 1000.0, 1000.0, 1000.0, 1000.0], rig.read(s.readings + 1).position,
                   Some(s.permit.value.maxStepDelta))
    && rig.submit(s.submissions).Answered? && rig.submit(s.submissions).receipt.completed
  }

  /** A no-op trial passes exactly if the open pose may be commanded and its receipt is completed. */
  lemma NoopPassesIff(rig: Rig, s: DriverState, index: nat)
    ensures Passing(TrialNoop(rig, s, index)) <==> NoopSucceeds(rig, s)
  {
    hide SandboxSafe;
  }

  ghost predicate Succeeds(rig: Rig, level: Level, s: DriverState) {
    match level
    case Noop => NoopSucceeds(rig, s)
    case Micro => FingerSucceeds(rig, s, 20.0)
    case Motion => FingerSucceeds(rig, s, 50.0)
    case Gesture => GestureSucceeds(rig, s)
    case OkContact => ContactSucceeds(rig, s)
  }

  /** The trials of the five levels. */
  lemma TrialPassesIff(rig: Rig, level: Level, s: DriverState, index: nat)
    ensures Passing(Trial(rig, level, s, index)) <==> Succeeds(rig, level, s)
  {
    hide TrialNoop, TrialSingleFinger, TrialGesture, TrialOkContact, NoopSucceeds, FingerSucceeds, GestureSucceeds,
         ContactSucceeds;
    match level
    case Noop => NoopPassesIff(rig, s, index);
    case Micro => SingleFingerPassesIff(rig, s, index, 20.0);
    case Motion => SingleFingerPassesIff(rig, s, index, 50.0);
    case Gesture => GesturePassesIff(rig, s, index);
    case OkContact => OkContactPassesIff(rig, s, index);
  }

  // ---------- No touch, no pass ----------

  ghost predicate ReadingTouches(rig: Rig, n: nat) {
    rig.read(n).Observed? && exists c: Channel :: rig.read(n).force[c] >= 70.0
  }

  ghost predicate ReceiptTouches(rig: Rig, k: nat) {
    rig.submit(k).Answered?
    && exists e :: e in rig.submit(k).receipt.observations && e.force.Some?
                   && exists c: Channel :: e.force.value[c] >= 70.0
  }

  /** No reading and no receipt of the rig shows a force of 70 g on any channel. */
  ghost predicate Untouched(rig: Rig) {
    (forall n: nat :: !ReadingTouches(rig, n)) && (forall k: nat :: !ReceiptTouches(rig, k))
  }

  lemma UntouchedNeverFeels(rig: Rig, pose: Pose, s: DriverState, t: DriverState)
    requires Untouched(rig)
    ensures !Felt(rig, ApproachPlan(pose), 70.0, s, t)
  {
    var plan := ApproachPlan(pose);
    forall n: nat ensures !ReadingFeels(rig, plan, 70.0, n) {
      assert !ReadingTouches(rig, n);
    }
    forall k: nat ensures !ReceiptFeels(rig, plan, 70.0, k) {
      assert !ReceiptTouches(rig, k);
    }
  }

  /** Without a touch no contact trial passes, whatever the hand does. */
  lemma UntouchedTrialFails(rig: Rig, s: DriverState, index: nat)
    requires Untouched(rig)
    ensures !Passing(Trial(rig, OkContact, s, index))
  {
    hide Walk, WalkArrives, Felt, Trial, Untouched;
    TrialPassesIff(rig, OkContact, s, index);
    if ContactSucceeds(rig, s) {
      var near := Walk(rig, HoldPlan(rig.coarse), s.(readings := s.readings + 1)).state;
      UntouchedNeverFeels(rig, rig.floor, near, Walk(rig, ApproachPlan(rig.floor), near).state);
    }
  }

  // ---------- Levels ----------

  /** The trials among the first `n` that passed. */
  function Passed(trials: seq<TrialResult>, n: nat): set<nat>
    requires n <= |trials|
  {
    set i: nat | i < n && trials[i].passed
  }

  lemma {:induction false} OneMorePass(trials: seq<TrialResult>, t: TrialResult)
    ensures Passes(trials + [t]) == Passes(trials) + if t.passed then 1 else 0
  {
    if trials == [] {
      assert [] + [t] == [t] && [t][1..] == [];
    } else {
      OneMorePass(trials[1..], t);
      assert (trials + [t])[1..] == trials[1..] + [t];
    }
  }

  lemma PassedNext(trials: seq<TrialResult>, n: nat)
    requires 0 < n <= |trials|
    ensures |Passed(trials, n)| == |Passed(trials, n - 1)| + if trials[n - 1].passed then 1 else 0
  {
    if trials[n - 1].passed {
      assert Passed(trials, n) == Passed(trials, n - 1) + {n - 1};
    } else {
      assert Passed(trials, n) == Passed(trials, n - 1);
    }
  }

  /** The number of trials that passed. */
  lemma {:induction false} PassesCounts(trials: seq<TrialResult>, n: nat)
    requires n <= |trials|
    ensures Passes(trials[..n]) == |Passed(trials, n)|
  {
    if n == 0 {
      assert Passed(trials, 0) == {};
    } else {
      PassesCounts(trials, n - 1);
      OneMorePass(trials[..n - 1], trials[n - 1]);
      PassedNext(trials, n);
      hide Passed;
      assert trials[..n] == trials[..n - 1] + [trials[n - 1]];
    }
  }

  /** A level is in order if all its trials were run and at most one of ten contact trials, or none of the others,
      failed. */
  lemma LevelOkIff(level: Level, trials: seq<TrialResult>)
    ensures var passed := |Passed(trials, |trials|)|;
            ReportLevel(level, trials).levelOk <==>
              match level
              case Noop => |trials| == 20 && passed == 20
              case OkContact => |trials| == 10 && passed >= 9
              case _ => |trials| == 10 && passed == 10
  {
    PassesCounts(trials, |trials|);
    assert trials[..|trials|] == trials;
    AtMostAll(trials);
  }

  lemma {:induction false} AtMostAll(trials: seq<TrialResult>)
    ensures Passes(trials) <= |trials|
  {
    if trials != [] {
      AtMostAll(trials[1..]);
    }
  }

  /** The results of a level are those of its trials, each started where the one before it ended. */
  ghost predicate Happened(rig: Rig, level: Level, s: DriverState, first: nat, results: seq<TrialResult>)
    decreases |results|
  {
    results == []
    || var step := Trial(rig, level, s.(journal := s.journal + [TrialStarted(level, first)]), first);
       step.Returned? && results[0] == step.value && Happened(rig, level, step.state, first + 1, results[1..])
  }

  lemma {:induction false} TrialsHappened(rig: Rig, level: Level, s: DriverState, done: seq<TrialResult>, i: nat)
    returns (results: seq<TrialResult>)
    requires i <= Trials(level) && TrialsFrom(rig, level, s, done, i).Returned?
    ensures TrialsFrom(rig, level, s, done, i).value == done + results
    ensures Happened(rig, level, s, i, results)
    decreases Trials(level) - i
  {
    hide Trial;
    results := [];
    if i < Trials(level) && !s.aborted {
      var step := Trial(rig, level, s.(journal := s.journal + [TrialStarted(level, i)]), i);
      var rest := TrialsHappened(rig, level, step.state, done + [step.value], i + 1);
      hide TrialsFrom;
      results := [step.value] + rest;
      assert done + [step.value] + rest == done + results;
      HappenedFirst(rig, level, s, i, step.value, rest);
    }
  }

  lemma HappenedFirst(rig: Rig, level: Level, s: DriverState, i: nat, result: TrialResult, rest: seq<TrialResult>)
    requires var step := Trial(rig, level, s.(journal := s.journal + [TrialStarted(level, i)]), i);
             step.Returned? && step.value == result && Happened(rig, level, step.state, i + 1, rest)
    ensures Happened(rig, level, s, i, [result] + rest)
  {
    hide Trial;
    assert ([result] + rest)[1..] == rest;
  }

  lemma {:induction false} UntouchedResultsFail(rig: Rig, s: DriverState, first: nat, results: seq<TrialResult>)
    requires Untouched(rig) && Happened(rig, OkContact, s, first, results)
    ensures Passes(results) == 0
    decreases |results|
  {
    hide Trial, Untouched;
    if results != [] {
      var started := s.(journal := s.journal + [TrialStarted(OkContact, first)]);
      UntouchedTrialFails(rig, started, first);
      UntouchedResultsFail(rig, Trial(rig, OkContact, started, first).state, first + 1, results[1..]);
    }
  }

  /** The report of a level is about trials that happened. */
  ghost predicate Reported(rig: Rig, level: Level, report: LevelReport) {
    exists s: DriverState :: Happened(rig, level, s, 0, report.trials) && report == ReportLevel(level, report.trials)
  }

  lemma LevelReported(rig: Rig, level: Level, s: DriverState)
    ensures var step := RunLevel(rig, level, s);
            step.Returned? ==> Reported(rig, level, step.value)
  {
    hide TrialsFrom, Happened;
    var step := RunLevel(rig, level, s);
    if step.Returned? {
      var armed := Arm(rig, s).state;
      var results := TrialsHappened(rig, level, armed, [], 0);
      assert [] + results == results;
      assert Happened(rig, level, armed, 0, step.value.trials);
    }
  }

  ghost predicate AllReported(rig: Rig, levels: seq<Level>, reports: seq<LevelReport>) {
    |reports| <= |levels| && forall i :: 0 <= i < |reports| ==> Reported(rig, levels[i], reports[i])
  }

  lemma {:induction false} LevelsReported(rig: Rig, levels: seq<Level>, s: DriverState, done: seq<LevelReport>, i: nat)
    requires i == |done| <= |levels| && AllReported(rig, levels, done)
    ensures AllReported(rig, levels, LevelsFrom(rig, levels, s, done, i).1)
    decreases |levels| - i
  {
    hide RunLevel, Reported;
    if i < |levels| {
      LevelReported(rig, levels[i], s);
      match RunLevel(rig, levels[i], s)
      case Raised(_, _) =>
      case Returned(next, report) =>
        if report.levelOk && !next.aborted {
          LevelsReported(rig, levels, next, done + [report], i + 1);
        }
    }
  }

  lemma BodyReported(rig: Rig, levels: seq<Level>)
    ensures AllReported(rig, levels, Body(rig, levels, INITIAL).1)
  {
    hide RestoreOpen, LevelsFrom, Reported;
    match RestoreOpen(rig, INITIAL)
    case Raised(_, _) =>
    case Returned(next, report) =>
      if report.reached && report.problems == [] {
        LevelsReported(rig, levels, next, [], 0);
      }
  }

  /** If the gate passes with a level requested, the trials of every level happened and enough of them passed. */
  lemma GateNeedsTrials(rig: Rig, levels: seq<Level>)
    ensures var (end, ending) := Run(rig, levels);
            ending.Finished? && GateOk(levels, ending.summary) && levels != [] ==>
              && |ending.summary.levels| == |levels|
              && forall i :: 0 <= i < |levels| ==>
                   Reported(rig, levels[i], ending.summary.levels[i]) && ending.summary.levels[i].levelOk
  {
    hide Body, Reported;
    BodyReported(rig, levels);
  }

  /** The contact level cannot be passed without a touch: if no reading and no receipt of the rig shows 70 g, no run
      that asks for the contact level passes the gate. */
  lemma GateNeedsContact(rig: Rig, levels: seq<Level>)
    requires Untouched(rig) && OkContact in levels
    ensures var (end, ending) := Run(rig, levels);
            !(ending.Finished? && GateOk(levels, ending.summary))
  {
    hide Run, Untouched, Happened;
    GateNeedsTrials(rig, levels);
    var i :| 0 <= i < |levels| && levels[i] == OkContact;
    var ending := Run(rig, levels).1;
    if ending.Finished? && GateOk(levels, ending.summary) {
      var report := ending.summary.levels[i];
      assert Reported(rig, OkContact, report) && report.levelOk;
      var s: DriverState :| Happened(rig, OkContact, s, 0, report.trials);
      UntouchedResultsFail(rig, s, 0, report.trials);
    }
  }
}
