/** What a run of the graded experiment may command (scripts/experiments/exp3_graded_execution.py, `submit_step`): every
    waypoint that reaches the gateway, on any run, lies in the calibrated range and was sent under a permit. */
module GradedCommands {
  import opened Wrappers
  import opened GradedModel

  /** A pose that the calibration admits on every channel. */
  predicate Admitted(calibration: Calibration, pose: Pose) {
    forall c: Channel ::
      && calibration.rangeLow <= pose[c] <= calibration.rangeHigh
      && calibration.safeMin[c] <= pose[c] <= calibration.safeMax[c]
  }

  /** No channel steps further than `step`. */
  predicate Within(pose: Pose, current: Pose, step: real) {
    forall c: Channel :: -step <= pose[c] - current[c] <= step
  }

  predicate Allowed(rig: Rig, event: Event) {
    event.Commanded? ==> Admitted(rig.calibration, event.waypoint) && event.permit == Permit(50.0)
  }

  /** All commands so far are allowed, and any permit in force is the one that levels are armed with. */
  predicate Fenced(rig: Rig, s: DriverState) {
    && (forall i :: 0 <= i < |s.journal| ==> Allowed(rig, s.journal[i]))
    && (s.permit.Some? ==> s.permit.value == Permit(50.0))
  }

  lemma Logged(rig: Rig, s: DriverState, event: Event)
    requires Fenced(rig, s) && Allowed(rig, event)
    ensures Fenced(rig, s.(journal := s.journal + [event]))
  {
    hide Allowed;
  }

  lemma ScanFenced(rig: Rig, s: DriverState, snapshot: Snapshot, walking: bool)
    requires Fenced(rig, s)
    ensures Fenced(rig, Scan(rig, s, snapshot, walking))
  {
    Logged(rig, s, Scanned(walking, Problems(rig, snapshot)));
    hide Allowed;
  }

  /** A command outside the range is refused before it reaches the gateway, and so is one that steps too far. */
  lemma SubmitIff(rig: Rig, s: DriverState, values: Pose, current: Pose)
    ensures Submit(rig, s, values, current).state.submissions == s.submissions + 1
            <==> && s.permit.Some? && Admitted(rig.calibration, values)
                 && Within(values, current, s.permit.value.maxStepDelta)
    ensures Submit(rig, s, values, current).state.submissions == s.submissions + 1
            || Submit(rig, s, values, current) == Raised(s, Runtime("sandbox_block"))
            || Submit(rig, s, values, current) == Raised(s, Other)
  {
    SandboxMeans(rig.calibration, values, current, StepLimit(s.permit));
    hide SandboxSafe, Admitted, Within;
  }

  lemma SandboxMeans(calibration: Calibration, values: Pose, current: Pose, limit: Option<real>)
    ensures SandboxSafe(calibration, values, current, limit)
            <==> && Admitted(calibration, values)
                 && (limit.Some? ==> Within(values, current, limit.value))
  {
    if SandboxSafe(calibration, values, current, limit) {
      forall c: Channel
        ensures calibration.rangeLow <= values[c] <= calibration.rangeHigh
        ensures calibration.safeMin[c] <= values[c] <= calibration.safeMax[c]
        ensures limit.Some? ==> -limit.value <= values[c] - current[c] <= limit.value
      {
      }
    }
    if Admitted(calibration, values) && (limit.Some? ==> Within(values, current, limit.value)) {
      forall i | 0 <= i < 6
        ensures calibration.rangeLow <= values[i] <= calibration.rangeHigh
        ensures calibration.safeMin[i] <= values[i] <= calibration.safeMax[i]
        ensures limit.Some? ==> -limit.value <= values[i] - current[i] <= limit.value
      {
        var c: Channel := i;
        assert calibration.rangeLow <= values[c] <= calibration.rangeHigh;
      }
    }
  }

  lemma SubmitFenced(rig: Rig, s: DriverState, values: Pose, current: Pose)
    requires Fenced(rig, s)
    ensures Fenced(rig, Submit(rig, s, values, current).state)
  {
    SandboxMeans(rig.calibration, values, current, StepLimit(s.permit));
    hide SandboxSafe, Admitted;
    if SandboxSafe(rig.calibration, values, current, StepLimit(s.permit)) && s.permit.Some? {
      Logged(rig, s, Commanded(values, s.permit.value));
    }
  }

  // ---------- Walks ----------

  lemma EchoFenced(rig: Rig, plan: Plan, s: DriverState, report: WalkReport, echo: Echo, current: Pose)
    requires WellFormed(plan) && Fenced(rig, s)
    ensures var flow := ScanEcho(rig, plan, s, report, echo, current);
            Fenced(rig, if flow.Leave? then flow.exit.state else flow.next.0)
  {
    hide Scan, Fenced, Stop, WatchedForce, RaiseForces;
    ScanFenced(rig, s, EchoSnapshot(echo), false);
  }

  lemma {:induction false} EchoesFenced(rig: Rig, plan: Plan, s: DriverState, report: WalkReport, echoes: seq<Echo>,
                                        current: Pose, i: nat)
    requires WellFormed(plan) && Fenced(rig, s) && i <= |echoes|
    ensures var flow := ScanEchoes(rig, plan, s, report, echoes, current, i);
            Fenced(rig, if flow.Leave? then flow.exit.state else flow.next.0)
    decreases |echoes| - i
  {
    hide ScanEcho, Fenced;
    if i < |echoes| {
      EchoFenced(rig, plan, s, report, echoes[i], current);
      match ScanEcho(rig, plan, s, report, echoes[i], current)
      case Leave(_) =>
      case Continue((next, seen)) => EchoesFenced(rig, plan, next, seen, echoes, current, i + 1);
    }
  }

  lemma DecideFenced(rig: Rig, plan: Plan, s: DriverState, report: WalkReport, reading: Reading)
    requires WellFormed(plan) && reading.Observed? && Fenced(rig, s)
    ensures var flow := Decide(rig, plan, s, report, reading);
            Fenced(rig, if flow.Leave? then flow.exit.state else flow.next.0)
  {
    hide Scan, Stop, WatchedForce, RaiseForces, Converged, Problems, Allowed;
    ScanFenced(rig, s, SnapshotOf(reading), true);
  }

  lemma DigestFenced(rig: Rig, plan: Plan, answer: Step<Receipt>, report: WalkReport, current: Pose)
    requires WellFormed(plan) && Fenced(rig, answer.state)
    ensures var flow := Digest(rig, plan, answer, report, current);
            Fenced(rig, if flow.Leave? then flow.exit.state else flow.next.0)
  {
    hide ScanEchoes, Fenced;
    if answer.Returned? && answer.value.completed {
      EchoesFenced(rig, plan, answer.state, report.(steps := report.steps + 1), answer.value.observations, current, 0);
    }
  }

  lemma TurnFenced(rig: Rig, plan: Plan, s: DriverState, last: Option<Pose>, report: WalkReport)
    requires WellFormed(plan) && Fenced(rig, s)
    ensures var flow := Turn(rig, plan, s, last, report);
            Fenced(rig, if flow.Leave? then flow.exit.state else flow.next.0)
  {
    var reading, read := rig.read(s.readings), s.(readings := s.readings + 1);
    assert Fenced(rig, read);
    hide Fenced, Decide, Submit, Digest, NextWaypoint;
    if reading.Observed? {
      DecideFenced(rig, plan, read, report, reading);
      match Decide(rig, plan, read, report, reading)
      case Leave(_) =>
      case Continue((scanned, seen)) =>
        var from := if last.Some? then last.value else reading.position;
        var waypoint := NextWaypoint(plan, from, reading.position, Window(scanned.permit));
        SubmitFenced(rig, scanned, waypoint, reading.position);
        DigestFenced(rig, plan, Submit(rig, scanned, waypoint, reading.position), seen, reading.position);
    }
  }

  lemma {:induction false} WalkFromFenced(rig: Rig, plan: Plan, s: DriverState, last: Option<Pose>, report: WalkReport,
                                          left: nat)
    requires WellFormed(plan) && Fenced(rig, s)
    ensures Fenced(rig, WalkFrom(rig, plan, s, last, report, left).state)
    decreases left
  {
    hide Fenced, Turn;
    if left > 0 {
      TurnFenced(rig, plan, s, last, report);
      match Turn(rig, plan, s, last, report)
      case Leave(_) =>
      case Continue((next, waypoint, stepped)) => WalkFromFenced(rig, plan, next, Some(waypoint), stepped, left - 1);
    }
  }

  lemma WalkFenced(rig: Rig, plan: Plan, s: DriverState)
    requires WellFormed(plan) && Fenced(rig, s)
    ensures Fenced(rig, Walk(rig, plan, s).state)
  {
    Logged(rig, s, WalkStarted);
    hide Fenced, WalkFrom;
    WalkFromFenced(rig, plan, s.(journal := s.journal + [WalkStarted]), None, EMPTY_REPORT, WALK_CAP);
  }

  // ---------- Trials, levels, runs ----------

  lemma ReadFenced(rig: Rig, s: DriverState)
    requires Fenced(rig, s)
    ensures Fenced(rig, s.(readings := s.readings + 1))
  {
  }

  lemma OutAndBackFenced(rig: Rig, s: DriverState, index: nat, pose: Pose, base: Pose)
    requires Fenced(rig, s)
    ensures Fenced(rig, OutAndBack(rig, s, index, pose, base).state)
  {
    hide Fenced, Walk;
    WalkFenced(rig, HoldPlan(pose), s);
    WalkFenced(rig, HoldPlan(base), Walk(rig, HoldPlan(pose), s).state);
  }

  lemma OkContactFenced(rig: Rig, s: DriverState, index: nat)
    requires Fenced(rig, s)
    ensures Fenced(rig, TrialOkContact(rig, s, index).state)
  {
    hide Fenced, Walk;
    ReadFenced(rig, s);
    if rig.read(s.readings).Observed? {
      var read := s.(readings := s.readings + 1);
      WalkFenced(rig, HoldPlan(rig.coarse), read);
      var near := Walk(rig, HoldPlan(rig.coarse), read).state;
      WalkFenced(rig, ApproachPlan(rig.floor), near);
      WalkFenced(rig, HoldPlan(rig.read(s.readings).position), Walk(rig, ApproachPlan(rig.floor), near).state);
    }
  }

  lemma NoopFenced(rig: Rig, s: DriverState, index: nat)
    requires Fenced(rig, s)
    ensures Fenced(rig, TrialNoop(rig, s, index).state)
  {
    hide Fenced, Submit;
    ReadFenced(rig, s);
    var read := s.(readings := s.readings + 1);
    ReadFenced(rig, read);
    if rig.read(read.readings).Observed? {
      SubmitFenced(rig, read.(readings := read.readings + 1), OPEN_POSE, rig.read(read.readings).position);
    }
  }

  lemma TrialFenced(rig: Rig, level: Level, s: DriverState, index: nat)
    requires Fenced(rig, s)
    ensures Fenced(rig, Trial(rig, level, s, index).state)
  {
    hide Fenced, OutAndBack, TrialOkContact, TrialNoop, HalfClosed;
    ReadFenced(rig, s);
    NoopFenced(rig, s, index);
    OkContactFenced(rig, s, index);
    if rig.read(s.readings).Observed? {
      var base, read := rig.read(s.readings).position, s.(readings := s.readings + 1);
      forall pose: Pose ensures Fenced(rig, OutAndBack(rig, read, index, pose, base).state) {
        OutAndBackFenced(rig, read, index, pose, base);
      }
    }
  }

  lemma StartFenced(rig: Rig, s: DriverState, level: Level, i: nat)
    requires Fenced(rig, s)
    ensures Fenced(rig, s.(journal := s.journal + [TrialStarted(level, i)]))
  {
    Logged(rig, s, TrialStarted(level, i));
  }

  lemma {:induction false} TrialsFenced(rig: Rig, level: Level, s: DriverState, done: seq<TrialResult>, i: nat)
    requires i <= Trials(level) && Fenced(rig, s)
    ensures Fenced(rig, TrialsFrom(rig, level, s, done, i).state)
    decreases Trials(level) - i
  {
    hide Fenced, Trial;
    if i < Trials(level) && !s.aborted {
      StartFenced(rig, s, level, i);
      var started := s.(journal := s.journal + [TrialStarted(level, i)]);
      TrialFenced(rig, level, started, i);
      match Trial(rig, level, started, i)
      case Raised(_, _) =>
      case Returned(next, result) => TrialsFenced(rig, level, next, done + [result], i + 1);
    }
  }

  lemma ArmFenced(rig: Rig, s: DriverState)
    requires Fenced(rig, s)
    ensures Fenced(rig, Arm(rig, s).state)
  {
    hide Allowed;
  }

  lemma DisarmFenced(rig: Rig, s: DriverState)
    requires Fenced(rig, s)
    ensures Fenced(rig, s.(permit := None))
  {
    hide Allowed;
  }

  lemma LevelFenced(rig: Rig, level: Level, s: DriverState)
    requires Fenced(rig, s)
    ensures Fenced(rig, RunLevel(rig, level, s).state)
  {
    hide Fenced, TrialsFrom, Arm;
    ArmFenced(rig, s);
    var armed := Arm(rig, s);
    if armed.Returned? {
      TrialsFenced(rig, level, armed.state, [], 0);
      DisarmFenced(rig, TrialsFrom(rig, level, armed.state, [], 0).state);
    }
  }

  lemma RestoreFenced(rig: Rig, s: DriverState)
    requires Fenced(rig, s)
    ensures Fenced(rig, RestoreOpen(rig, s).state)
  {
    hide Fenced, Walk, Arm;
    ArmFenced(rig, s);
    var armed := Arm(rig, s);
    if armed.Returned? {
      WalkFenced(rig, HoldPlan(OPEN_POSE), armed.state);
      DisarmFenced(rig, Walk(rig, HoldPlan(OPEN_POSE), armed.state).state);
    }
  }

  lemma {:induction false} LevelsFenced(rig: Rig, levels: seq<Level>, s: DriverState, done: seq<LevelReport>, i: nat)
    requires i <= |levels| && Fenced(rig, s)
    ensures Fenced(rig, LevelsFrom(rig, levels, s, done, i).0.state)
    decreases |levels| - i
  {
    hide Fenced, RunLevel;
    if i < |levels| {
      LevelFenced(rig, levels[i], s);
      match RunLevel(rig, levels[i], s)
      case Raised(_, _) =>
      case Returned(next, report) => LevelsFenced(rig, levels, next, done + [report], i + 1);
    }
  }

  lemma BodyFenced(rig: Rig, levels: seq<Level>)
    ensures Fenced(rig, Body(rig, levels, INITIAL).0.state)
  {
    assert Fenced(rig, INITIAL);
    hide Fenced, RestoreOpen, LevelsFrom;
    RestoreFenced(rig, INITIAL);
    match RestoreOpen(rig, INITIAL)
    case Raised(_, _) =>
    case Returned(next, _) => LevelsFenced(rig, levels, next, [], 0);
  }

  /** Every command that reaches the gateway, in every run of every rig, lies in the calibrated range and was sent
      under a permit of 50 units a step. */
  lemma EveryCommandAdmitted(rig: Rig, levels: seq<Level>, i: nat)
    requires var journal := Run(rig, levels).0.journal; i < |journal| && journal[i].Commanded?
    ensures var event := Run(rig, levels).0.journal[i];
            Admitted(rig.calibration, event.waypoint) && event.permit == Permit(50.0)
  {
    hide Body;
    BodyFenced(rig, levels);
    assert Allowed(rig, Run(rig, levels).0.journal[i]);
  }
}
