/** The `GradedDriver` object of scripts/experiments/exp3_graded_execution.py: fields updated in place, every method
    proved against the functions of `GradedModel`. */
module GradedDriver {
  import opened Arithmetic
  import opened Wrappers
  import opened GradedModel

  /** The outcome of a method: a value, or a raised failure. */
  datatype Outcome<+T> = Value(value: T) | Failed(error: Failure)

  function AsStep<T>(state: DriverState, outcome: Outcome<T>): Step<T> {
    match outcome
    case Value(value) => Returned(state, value)
    case Failed(error) => Raised(state, error)
  }

  class Driver {
    const rig: Rig
    var readings: nat
    var submissions: nat
    var armings: nat
    var permit: Option<Permit>
    var aborted: bool
    var protectionEvents: nat
    var emergencyOverContact: nat
    var journal: seq<Event>

    function State(): DriverState
      reads this
    {
      DriverState(readings, submissions, armings, permit, aborted, protectionEvents, emergencyOverContact, journal)
    }

    constructor (rig: Rig)
      ensures this.rig == rig
      ensures State() == INITIAL
    {
      this.rig := rig;
      readings, submissions, armings := 0, 0, 0;
      permit := None;
      aborted := false;
      protectionEvents, emergencyOverContact := 0, 0;
      journal := [];
    }

    method ReadObservation() returns (reading: Reading)
      modifies this
      ensures reading == rig.read(old(readings))
      ensures State() == old(State()).(readings := old(readings) + 1)
    {
      reading := rig.read(readings);
      readings := readings + 1;
    }

    method CheckStatus(status: seq<bv16>) returns (problems: seq<Problem>)
      modifies this
      ensures problems == StatusProblems(status, 0)
      ensures State() == old(State()).(protectionEvents := old(protectionEvents) + |problems|)
    {
      problems := [];
      for i := 0 to |status|
        invariant problems + StatusProblems(status, i) == StatusProblems(status, 0)
        invariant State() == old(State()).(protectionEvents := old(protectionEvents) + |problems|)
      {
        if IsProtecting(status[i]) {
          protectionEvents := protectionEvents + 1;
          problems := problems + [StatusProtection(i, status[i])];
        }
      }
    }

    method CheckForce(force: seq<real>) returns (problems: seq<Problem>)
      modifies this
      ensures problems == ForceProblems(force, 0)
      ensures State() == old(State()).(emergencyOverContact := old(emergencyOverContact) + |problems|)
    {
      problems := [];
      for i := 0 to |force|
        invariant problems + ForceProblems(force, i) == ForceProblems(force, 0)
        invariant State() == old(State()).(emergencyOverContact := old(emergencyOverContact) + |problems|)
      {
        if force[i] >= FORCE_HARD_LIMIT_G {
          emergencyOverContact := emergencyOverContact + 1;
          problems := problems + [ForceHardLimit(i, force[i])];
        }
      }
    }

    method CheckTemperature(temperature: seq<real>) returns (problems: seq<Problem>)
      modifies this
      ensures problems == TemperatureProblems(temperature, rig.calibration.temperatureStop, 0)
      ensures State() == old(State()).(protectionEvents := old(protectionEvents) + |problems|)
    {
      problems := [];
      var stop := rig.calibration.temperatureStop;
      for i := 0 to |temperature|
        invariant problems + TemperatureProblems(temperature, stop, i) == TemperatureProblems(temperature, stop, 0)
        invariant State() == old(State()).(protectionEvents := old(protectionEvents) + |problems|)
      {
        if temperature[i] >= stop {
          protectionEvents := protectionEvents + 1;
          problems := problems + [TemperatureStop(i, temperature[i])];
        }
      }
    }

    /** `_check_feedback_safety`, one method for each of its loops. */
    method CheckFeedbackSafety(snapshot: Snapshot, walking: bool) returns (problems: seq<Problem>)
      modifies this
      ensures problems == Problems(rig, snapshot)
      ensures State() == Scan(rig, old(State()), snapshot, walking)
    {
      var status := CheckStatus(snapshot.status);
      var force := CheckForce(snapshot.force);
      var temperature := CheckTemperature(snapshot.temperature);
      problems := status + force + temperature;
      journal := journal + [Scanned(walking, problems)];
    }

    method SubmitStep(values: Pose, current: Pose) returns (outcome: Outcome<Receipt>)
      modifies this
      ensures AsStep(State(), outcome) == Submit(rig, old(State()), values, current)
    {
      if !SandboxSafe(rig.calibration, values, current, StepLimit(permit)) {
        return Failed(Runtime("sandbox_block"));
      }
      if permit.None? {
        return Failed(Other);
      }
      var answer := rig.submit(submissions);
      submissions := submissions + 1;
      journal := journal + [Commanded(values, permit.value)];
      match answer
      case Answered(receipt) => outcome := Value(receipt);
      case SubmitRaised(error) => outcome := Failed(error);
    }

    /** `submit_step` without a snapshot: the sandbox checks against a reading of its own. */
    method SubmitFreshStep(values: Pose) returns (outcome: Outcome<Receipt>)
      modifies this
      ensures AsStep(State(), outcome) == SubmitFresh(rig, old(State()), values)
    {
      hide Submit;
      var reading := ReadObservation();
      match reading
      case ReadRaised(error) => outcome := Failed(error);
      case Observed(position, _, _, _) => outcome := SubmitStep(values, position);
    }

    /** The receipt part of the walk's loop body; a report means that the walk ends. */
    method ScanReceipt(plan: Plan, report: WalkReport, echoes: seq<Echo>, current: Pose)
      returns (ended: bool, seen: WalkReport)
      requires WellFormed(plan)
      modifies this
      ensures (if ended then Leave(Returned(State(), seen)) else Continue((State(), seen)))
              == ScanEchoes(rig, plan, old(State()), report, echoes, current, 0)
    {
      hide Problems, Scan, Stop, WatchedForce, RaiseForces;
      seen := report;
      for i := 0 to |echoes|
        invariant ScanEchoes(rig, plan, State(), seen, echoes, current, i)
               == ScanEchoes(rig, plan, old(State()), report, echoes, current, 0)
      {
        var echo := echoes[i];
        if echo.force.Some? {
          seen := seen.(maxForce := RaiseForces(seen.maxForce, echo.force.value));
        }
        var _ := CheckFeedbackSafety(EchoSnapshot(echo), false);
        if echo.force.Some? {
          var position := if echo.position.Some? then echo.position.value else current;
          var stop := Stop(plan, WatchedForce(plan, echo.force.value), position, seen);
          if stop.Some? {
            return true, stop.value;
          }
        }
      }
      ended := false;
    }

    /** The first half of the loop body: scan the reading and decide whether the walk ends here. */
    method Judge(plan: Plan, report: WalkReport, reading: Reading) returns (ended: bool, seen: WalkReport)
      requires WellFormed(plan) && reading.Observed?
      modifies this
      ensures (if ended then Leave(Returned(State(), seen)) else Continue((State(), seen)))
              == Decide(rig, plan, old(State()), report, reading)
    {
      hide Problems, Stop, WatchedForce, RaiseForces, Converged;
      var problems := CheckFeedbackSafety(SnapshotOf(reading), true);
      seen := report.(problems := report.problems + problems,
                      maxForce := RaiseForces(report.maxForce, reading.force));
      if problems != [] {
        aborted := true;
        return true, seen;
      }
      var stop := Stop(plan, WatchedForce(plan, reading.force), reading.position, seen);
      if stop.Some? {
        return true, stop.value;
      }
      if Converged(rig, plan, reading.position) {
        return true, seen.(reached := true, finalPosition := Some(reading.position));
      }
      ended := false;
    }

    /** One pass of the loop: read, judge, command the next waypoint, scan the receipt. */
    method Pass(plan: Plan, last: Option<Pose>, report: WalkReport)
      returns (ended: bool, outcome: Outcome<WalkReport>, waypoint: Pose, seen: WalkReport)
      requires WellFormed(plan)
      modifies this
      ensures (if ended then Leave(AsStep(State(), outcome)) else Continue((State(), waypoint, seen)))
              == Turn(rig, plan, old(State()), last, report)
    {
      hide Decide, NextWaypoint, Submit, ScanEchoes;
      ended, waypoint, seen := true, OPEN_POSE, report;
      var reading := ReadObservation();
      if reading.ReadRaised? {
        return true, Failed(reading.error), waypoint, seen;
      }
      var current := reading.position;
      var stop: bool;
      stop, seen := Judge(plan, report, reading);
      outcome := Value(seen);
      if !stop {
        waypoint := NextWaypoint(plan, if last.Some? then last.value else current, current, Window(permit));
        var submitted := SubmitStep(waypoint, current);
        if submitted.Failed? {
          outcome := Failed(submitted.error);
        } else {
          var receipt := submitted.value;
          seen := seen.(steps := seen.steps + 1);
          if !receipt.completed {
            seen := seen.(problems := seen.problems + [ReceiptNotCompleted(receipt.finalState, receipt.code)]);
          } else {
            ended, seen := ScanReceipt(plan, seen, receipt.observations, current);
          }
          outcome := Value(seen);
        }
      }
    }

    method WalkTo(plan: Plan) returns (outcome: Outcome<WalkReport>)
      requires WellFormed(plan)
      modifies this
      ensures AsStep(State(), outcome) == Walk(rig, plan, old(State()))
    {
      hide Turn;
      var report := EMPTY_REPORT;
      var last: Option<Pose> := None;
      journal := journal + [WalkStarted];
      for pass := 0 to WALK_CAP
        invariant WalkFrom(rig, plan, State(), last, report, WALK_CAP - pass) == Walk(rig, plan, old(State()))
      {
        var ended, result, waypoint, seen := Pass(plan, last, report);
        if ended {
          return result;
        }
        last, report := Some(waypoint), seen;
      }
      outcome := Value(report.(problems := report.problems + [WaypointCapExceeded]));
    }

    // ---------- Trials ----------

    method RunTrialNoop(index: nat) returns (outcome: Outcome<TrialResult>)
      modifies this
      ensures AsStep(State(), outcome) == TrialNoop(rig, old(State()), index)
    {
      hide Submit;
      var reading := ReadObservation();
      if reading.ReadRaised? {
        return Failed(reading.error);
      }
      var submitted := SubmitFreshStep(OPEN_POSE);
      if submitted.Failed? {
        return Failed(submitted.error);
      }
      outcome := Value(TrialResult(index, submitted.value.completed, []));
    }

    method WalkOutAndBack(index: nat, pose: Pose, base: Pose) returns (outcome: Outcome<TrialResult>)
      modifies this
      ensures AsStep(State(), outcome) == OutAndBack(rig, old(State()), index, pose, base)
    {
      hide Walk;
      var out := WalkTo(HoldPlan(pose));
      if out.Failed? {
        return Failed(out.error);
      }
      var back := WalkTo(HoldPlan(base));
      if back.Failed? {
        return Failed(back.error);
      }
      outcome := Value(TrialResult(index,
                                   out.value.reached && back.value.reached
                                   && out.value.problems == [] && back.value.problems == [],
                                   [out.value, back.value]));
    }

    method RunTrialSingleFinger(index: nat, delta: real) returns (outcome: Outcome<TrialResult>)
      modifies this
      ensures AsStep(State(), outcome) == TrialSingleFinger(rig, old(State()), index, delta)
    {
      hide OutAndBack;
      var reading := ReadObservation();
      if reading.ReadRaised? {
        return Failed(reading.error);
      }
      var base := reading.position;
      outcome := WalkOutAndBack(index, base[3 := Max(0.0, base[3] - delta)], base);
    }

    method RunTrialGesture(index: nat) returns (outcome: Outcome<TrialResult>)
      modifies this
      ensures AsStep(State(), outcome) == TrialGesture(rig, old(State()), index)
    {
      hide OutAndBack, HalfClosed;
      var reading := ReadObservation();
      if reading.ReadRaised? {
        return Failed(reading.error);
      }
      outcome := WalkOutAndBack(index, HalfClosed(rig.calibration, reading.position), reading.position);
    }

    method RunTrialOkContact(index: nat) returns (outcome: Outcome<TrialResult>)
      modifies this
      ensures AsStep(State(), outcome) == TrialOkContact(rig, old(State()), index)
    {
      hide Walk;
      var reading := ReadObservation();
      if reading.ReadRaised? {
        return Failed(reading.error);
      }
      var coarse := WalkTo(HoldPlan(rig.coarse));
      if coarse.Failed? {
        return Failed(coarse.error);
      }
      if !coarse.value.reached {
        return Value(TrialResult(index, false, [coarse.value]));
      }
      var approach := WalkTo(ApproachPlan(rig.floor));
      if approach.Failed? {
        return Failed(approach.error);
      }
      var back := WalkTo(HoldPlan(reading.position));
      if back.Failed? {
        return Failed(back.error);
      }
      outcome := Value(TrialResult(index,
                                   approach.value.contact && back.value.reached && !approach.value.overContactAbort
                                   && coarse.value.problems == [] && approach.value.problems == []
                                   && back.value.problems == [],
                                   [coarse.value, approach.value, back.value]));
    }

    method RunTrial(level: Level, index: nat) returns (outcome: Outcome<TrialResult>)
      modifies this
      ensures AsStep(State(), outcome) == Trial(rig, level, old(State()), index)
    {
      hide TrialNoop, TrialSingleFinger, TrialGesture, TrialOkContact;
      match level
      case Noop => outcome := RunTrialNoop(index);
      case Micro => outcome := RunTrialSingleFinger(index, 20.0);
      case Motion => outcome := RunTrialSingleFinger(index, 50.0);
      case Gesture => outcome := RunTrialGesture(index);
      case OkContact => outcome := RunTrialOkContact(index);
    }

    // ---------- Levels ----------

    method ArmLevel() returns (outcome: Outcome<()>)
      modifies this
      ensures AsStep(State(), outcome) == Arm(rig, old(State()))
    {
      var arming := rig.arm(armings);
      armings := armings + 1;
      if arming.IssueRaised? {
        return Failed(arming.error);
      }
      permit := Some(Permit(PERMIT_STEP));
      if arming.ArmRaised? {
        return Failed(arming.error);
      }
      outcome := Value(());
    }

    method Disarm()
      modifies this
      ensures State() == old(State()).(permit := None)
    {
      permit := None;
    }

    method RunTrials(level: Level) returns (outcome: Outcome<seq<TrialResult>>)
      modifies this
      ensures AsStep(State(), outcome) == TrialsFrom(rig, level, old(State()), [], 0)
    {
      hide Trial;
      var done: seq<TrialResult> := [];
      var i := 0;
      while i < Trials(level)
        invariant i <= Trials(level)
        invariant TrialsFrom(rig, level, State(), done, i) == TrialsFrom(rig, level, old(State()), [], 0)
        decreases Trials(level) - i
      {
        if aborted {
          return Value(done);
        }
        journal := journal + [TrialStarted(level, i)];
        var result := RunTrial(level, i);
        if result.Failed? {
          return Failed(result.error);
        }
        done := done + [result.value];
        i := i + 1;
      }
      outcome := Value(done);
    }

    method RunOneLevel(level: Level) returns (outcome: Outcome<LevelReport>)
      modifies this
      ensures AsStep(State(), outcome) == RunLevel(rig, level, old(State()))
    {
      hide TrialsFrom;
      var armed := ArmLevel();
      if armed.Failed? {
        return Failed(armed.error);
      }
      var trials := RunTrials(level);
      Disarm();
      outcome := if trials.Failed? then Failed(trials.error) else Value(ReportLevel(level, trials.value));
    }

    method RestoreOpenPose() returns (outcome: Outcome<WalkReport>)
      modifies this
      ensures AsStep(State(), outcome) == RestoreOpen(rig, old(State()))
    {
      hide Walk;
      var armed := ArmLevel();
      if armed.Failed? {
        return Failed(armed.error);
      }
      outcome := WalkTo(HoldPlan(OPEN_POSE));
      Disarm();
    }

    // ---------- main ----------

    method RunLevels(levels: seq<Level>) returns (outcome: Outcome<()>, reports: seq<LevelReport>)
      modifies this
      ensures (AsStep(State(), outcome), reports) == LevelsFrom(rig, levels, old(State()), [], 0)
    {
      hide RunLevel;
      reports := [];
      for i := 0 to |levels|
        invariant LevelsFrom(rig, levels, State(), reports, i) == LevelsFrom(rig, levels, old(State()), [], 0)
      {
        var result := RunOneLevel(levels[i]);
        if result.Failed? {
          return Failed(result.error), reports;
        }
        reports := reports + [result.value];
        if !result.value.levelOk || aborted {
          return Value(()), reports;
        }
      }
      outcome := Value(());
    }

    method RunExperiment(levels: seq<Level>) returns (ending: Ending)
      requires State() == INITIAL
      modifies this
      ensures (State(), ending) == Run(rig, levels)
    {
      hide RestoreOpen, LevelsFrom;
      var outcome: Outcome<()>;
      var reports: seq<LevelReport> := [];
      var restored := RestoreOpenPose();
      if restored.Failed? {
        outcome := Failed(restored.error);
      } else if !restored.value.reached || restored.value.problems != [] {
        outcome := Failed(Runtime("restore_open failed"));
      } else {
        outcome, reports := RunLevels(levels);
      }
      var summary := Summary(reports, protectionEvents, emergencyOverContact, false, None);
      Disarm();
      match outcome
      case Value(_) => ending := Finished(summary);
      case Failed(Interrupt) => ending := Finished(summary.(interrupted := true));
      case Failed(Transport(message)) => ending := Finished(summary.(fatal := Some(message)));
      case Failed(Runtime(message)) => ending := Finished(summary.(fatal := Some(message)));
      case Failed(Other) => ending := Crashed;
    }
  }
}
