/** A run in which a receipt reports a hard-limit force and the next trial starts all the same. */
module GradedReceiptTrip {
  import opened Arithmetic
  import opened Wrappers
  import opened GradedModel
  import opened GradedSafety
  import opened GradedReports
  import opened March

  function Zero(): Pose {
    [0.0, 0.0, 0.0, 0.0, 0.0, 0.0]
  }

  /** The open pose with the index finger at `x`. */
  function IndexAt(x: real): Pose {
    OPEN_POSE[3 := x]
  }

  function Pressed(): Echo {
    Echo(None, Some(Zero()[3 := 300.0]), [], [])
  }

  /** The hand is open for three readings and follows the one command of the first trial afterwards; the gateway
      completes every command, and its receipt shows 300 g on the index finger. */
  function Bench(): Rig {
    Rig(Calibration([], seq(6, _ => 15.0), 60.0, 0.0, 1000.0, Zero(), OPEN_POSE),
        OPEN_POSE, OPEN_POSE,
        (n: nat) => Observed(if n < 3 then OPEN_POSE else IndexAt(990.0), Zero(), [], []),
        (n: nat) => Answered(Receipt(true, "COMPLETED", "", [Pressed()])),
        (n: nat) => Armed)
  }

  lemma {:induction false} EvenTolerance(calibration: Calibration, channels: seq<Channel>, x: real)
    requires channels != [] && calibration.tolerance == seq(6, _ => x)
    ensures Tolerance(calibration, channels) == x
  {
    if |channels| > 1 {
      EvenTolerance(calibration, channels[1..], x);
    }
  }

  /** A clean reading within tolerance ends a plain walk. */
  lemma TurnArrives(rig: Rig, target: Pose, s: DriverState, last: Option<Pose>, report: WalkReport)
    requires Clean(rig, rig.read(s.readings)) && report.problems == []
    requires Converged(rig, HoldPlan(target), rig.read(s.readings).position)
    ensures var turn := Turn(rig, HoldPlan(target), s, last, report);
            && turn.Leave? && turn.exit.Returned?
            && turn.exit.value.reached && turn.exit.value.problems == []
            && turn.exit.state == s.(readings := s.readings + 1, journal := s.journal + [Scanned(true, [])],
                                     protectionEvents := turn.exit.state.protectionEvents,
                                     emergencyOverContact := turn.exit.state.emergencyOverContact)
  {
    hide Problems, Tolerance, Converged;
  }

  /** A clean reading out of tolerance leads to one command, and the receipt is scanned whatever it shows. */
  lemma TurnCommands(rig: Rig, target: Pose, s: DriverState, waypoint: Pose, echo: Echo)
    returns (next: DriverState, seen: WalkReport)
    requires Clean(rig, rig.read(s.readings)) && s.permit.Some?
    requires !Converged(rig, HoldPlan(target), rig.read(s.readings).position)
    requires var position := rig.read(s.readings).position;
             waypoint == NextWaypoint(HoldPlan(target), position, position, Window(s.permit))
             && SandboxSafe(rig.calibration, waypoint, position, StepLimit(s.permit))
    requires rig.submit(s.submissions) == Answered(Receipt(true, "COMPLETED", "", [echo])) && echo.force.Some?
    ensures Turn(rig, HoldPlan(target), s, None, EMPTY_REPORT) == Continue((next, waypoint, seen))
    ensures !seen.reached && seen.problems == []
    ensures next.readings == s.readings + 1 && next.permit == s.permit && next.aborted == s.aborted
    ensures next.journal == s.journal + [Scanned(true, [])] + [Commanded(waypoint, s.permit.value)]
                                      + [Scanned(false, Problems(rig, EchoSnapshot(echo)))]
  {
    hide Problems, Tolerance, Converged, NextWaypoint, SandboxSafe, RaiseForces;
    var plan, reading := HoldPlan(target), rig.read(s.readings);
    var decision := Decide(rig, plan, s.(readings := s.readings + 1), EMPTY_REPORT, reading);
    assert decision.Continue?;
    var (scanned, report) := decision.next;
    var stepped := report.(steps := report.steps + 1);
    var answer := Submit(rig, scanned, waypoint, reading.position);
    assert answer == Returned(scanned.(submissions := scanned.submissions + 1,
                                       journal := scanned.journal + [Commanded(waypoint, s.permit.value)]),
                              rig.submit(s.submissions).receipt);
    var look := ScanEcho(rig, plan, answer.state, stepped, echo, reading.position);
    assert look.Continue?;
    next, seen := look.next.0, look.next.1;
    assert ScanEchoes(rig, plan, next, seen, [echo], reading.position, 1) == Continue((next, seen));
    assert Digest(rig, plan, answer, report, reading.position) == Continue((next, seen));
  }

  // ---------- The bench ----------

  lemma BenchReads(n: nat)
    ensures Clean(Bench(), Bench().read(n))
    ensures Bench().read(n).position == if n < 3 then OPEN_POSE else IndexAt(990.0)
  {
    SnapshotTrips(Bench(), SnapshotOf(Bench().read(n)));
  }

  lemma BenchPresses(n: nat)
    ensures Bench().submit(n) == Answered(Receipt(true, "COMPLETED", "", [Pressed()]))
    ensures Problems(Bench(), EchoSnapshot(Pressed())) != []
  {
    SnapshotTrips(Bench(), EchoSnapshot(Pressed()));
    assert EchoSnapshot(Pressed()).force[3] == 300.0;
  }

  /** On the bench, being within 15 on the index finger is being there. */
  lemma BenchConverges(x: real, y: real)
    ensures Converged(Bench(), HoldPlan(IndexAt(x)), IndexAt(y)) <==> Abs(x - y) <= 15.0
  {
    hide Tolerance;
    EvenTolerance(Bench().calibration, ALL_CHANNELS, 15.0);
    var plan := HoldPlan(IndexAt(x));
    assert plan.converging[3] == 3;
    assert IndexAt(x)[3] == x && IndexAt(y)[3] == y;
    if Abs(x - y) <= 15.0 {
      forall c: Channel | c in plan.converging ensures Abs(plan.target[c] - IndexAt(y)[c]) <= 15.0 {
        assert c != 3 ==> IndexAt(x)[c] == OPEN_POSE[c] == IndexAt(y)[c];
      }
    }
  }

  lemma OpenIsIndexAt()
    ensures IndexAt(1000.0) == OPEN_POSE
  {
  }

  lemma IndexAtEach(x: real, i: nat)
    requires i < 6
    ensures IndexAt(x)[i] == if i == 3 then x else 1000.0
    ensures OPEN_POSE[i] == 1000.0 && Zero()[i] == 0.0
  {
  }

  lemma BenchStep()
    ensures Waypoint(1000.0, 1000.0, Gait(980.0, WAYPOINT_DELTA, 45.0)) == 990.0
    ensures Waypoint(1000.0, 1000.0, Gait(1000.0, WAYPOINT_DELTA, 45.0)) == 1000.0
  {
  }

  lemma BenchWaypoint()
    ensures NextWaypoint(HoldPlan(IndexAt(980.0)), OPEN_POSE, OPEN_POSE, 45.0) == IndexAt(990.0)
  {
    hide IndexAt, Waypoint;
    BenchStep();
    var waypoint := NextWaypoint(HoldPlan(IndexAt(980.0)), OPEN_POSE, OPEN_POSE, 45.0);
    forall i | 0 <= i < 6 ensures waypoint[i] == IndexAt(990.0)[i] {
      IndexAtEach(980.0, i);
      IndexAtEach(990.0, i);
    }
  }

  lemma BenchSandbox()
    ensures SandboxSafe(Bench().calibration, IndexAt(990.0), OPEN_POSE, Some(50.0))
  {
    hide IndexAt, Zero;
    var calibration := Bench().calibration;
    forall i | 0 <= i < 6
      ensures calibration.rangeLow <= IndexAt(990.0)[i] <= calibration.rangeHigh
      ensures calibration.safeMin[i] <= IndexAt(990.0)[i] <= calibration.safeMax[i]
      ensures Abs(IndexAt(990.0)[i] - OPEN_POSE[i]) <= 50.0
    {
      IndexAtEach(990.0, i);
    }
  }

  ghost predicate Fit(s: DriverState) {
    s.permit == Some(Permit(PERMIT_STEP)) && !s.aborted
  }

  /** The outward walk of the first trial: one command, a tripping receipt, and arrival. */
  lemma OutwardWalk(s: DriverState)
    requires Fit(s) && s.readings == 2
    ensures var step := Walk(Bench(), HoldPlan(IndexAt(980.0)), s);
            && step.Returned? && step.value.reached && step.value.problems == []
            && Fit(step.state) && step.state.readings == 4
            && s.journal <= step.state.journal && |step.state.journal| == |s.journal| + 5
            && step.state.journal[|s.journal| + 3] == Scanned(false, Problems(Bench(), EchoSnapshot(Pressed())))
  {
    hide Bench, NextWaypoint, SandboxSafe, Converged, Problems, Turn, IndexAt, Pressed;
    var started := s.(journal := s.journal + [WalkStarted]);
    BenchReads(2);
    BenchReads(3);
    BenchPresses(s.submissions);
    BenchConverges(980.0, 1000.0);
    BenchConverges(980.0, 990.0);
    OpenIsIndexAt();
    BenchWaypoint();
    BenchSandbox();
    assert Pressed().force.Some? by { PressedHasForce(); }
    var next, seen := TurnCommands(Bench(), IndexAt(980.0), started, IndexAt(990.0), Pressed());
    TurnArrives(Bench(), IndexAt(980.0), next, Some(IndexAt(990.0)), seen);
  }

  lemma PressedHasForce()
    ensures Pressed().force.Some?
  {
  }

  lemma HomewardWalk(s: DriverState)
    requires Fit(s) && s.readings == 4
    ensures var step := Walk(Bench(), HoldPlan(OPEN_POSE), s);
            && step.Returned? && step.value.reached && step.value.problems == []
            && Fit(step.state) && s.journal <= step.state.journal
  {
    hide Bench, Converged, Problems, Turn, IndexAt;
    BenchReads(4);
    BenchConverges(1000.0, 990.0);
    OpenIsIndexAt();
    TurnArrives(Bench(), OPEN_POSE, s.(journal := s.journal + [WalkStarted]), None, EMPTY_REPORT);
  }

  /** The first trial of the micro level passes although a receipt tripped on the way. */
  lemma FirstTrial(s: DriverState)
    requires Fit(s) && s.readings == 1
    ensures var step := Trial(Bench(), Micro, s, 0);
            && step.Returned? && step.value.passed && Fit(step.state)
            && s.journal <= step.state.journal && |step.state.journal| > |s.journal| + 3
            && step.state.journal[|s.journal| + 3] == Scanned(false, Problems(Bench(), EchoSnapshot(Pressed())))
  {
    hide Walk, Problems, Bench, Pressed;
    BenchReads(1);
    var read := s.(readings := 2);
    assert OPEN_POSE[3 := Max(0.0, OPEN_POSE[3] - 20.0)] == IndexAt(980.0);
    OutwardWalk(read);
    HomewardWalk(Walk(Bench(), HoldPlan(IndexAt(980.0)), read).state);
  }

  /** The run starts with a walk to the open pose, which the hand already has. */
  lemma Restoring() returns (restored: DriverState, report: WalkReport)
    ensures RestoreOpen(Bench(), INITIAL) == Returned(restored, report)
    ensures report.reached && report.problems == []
    ensures Ready(restored) && restored.readings == 1
  {
    hide Problems, Turn, IndexAt, Pressed, Converged, Accounted, WalksAfterTrip, Ready;
    var armed := Arm(Bench(), INITIAL).state;
    BenchReads(0);
    BenchConverges(1000.0, 1000.0);
    OpenIsIndexAt();
    TurnArrives(Bench(), OPEN_POSE, armed.(journal := armed.journal + [WalkStarted]), None, EMPTY_REPORT);
    InitialReady();
    RestoreKeepsBooks(Bench(), INITIAL);
    restored, report := RestoreOpen(Bench(), INITIAL).state, RestoreOpen(Bench(), INITIAL).value;
  }

  predicate Tripped(event: Event) {
    event.Scanned? && event.problems != []
  }

  ghost predicate TrialAfterTrip(journal: seq<Event>) {
    exists i, j :: 0 <= i < j < |journal| && Tripped(journal[i]) && journal[j].TrialStarted?
  }

  /** The first trial of the level, armed before the first trip: it passes, and its fourth event is a trip. */
  lemma AfterFirstTrial(armed: DriverState) returns (s: DriverState, first: TrialResult)
    requires Ready(armed) && Fit(armed) && armed.readings == 1
    ensures Trial(Bench(), Micro, armed.(journal := armed.journal + [TrialStarted(Micro, 0)]), 0) == Returned(s, first)
    ensures Accounted(s) && WalksAfterTrip(s.journal) <= 1 && !WalkTripped(s.journal)
    ensures exists i :: 0 <= i < |s.journal| && Tripped(s.journal[i])
  {
    hide Trial, Bench, Pressed, Problems, Accounted, WalksAfterTrip, WalkTripped;
    var started := armed.(journal := armed.journal + [TrialStarted(Micro, 0)]);
    StartTrial(Micro, armed, 0);
    FirstTrial(started);
    TrialKeepsBooks(Bench(), Micro, started, 0);
    BenchPresses(0);
    var step := Trial(Bench(), Micro, started, 0);
    s, first := step.state, step.value;
    ReadyUntripped(s);
    assert Tripped(s.journal[|started.journal| + 3]);
  }

  /** In the micro level the second trial starts after a receipt of the first one showed a force at the hard limit. */
  lemma SecondTrialStarts(armed: DriverState)
    requires Ready(armed) && Fit(armed) && armed.readings == 1
    ensures TrialAfterTrip(TrialsFrom(Bench(), Micro, armed, [], 0).state.journal)
  {
    hide Trial, Bench, Accounted, WalksAfterTrip, WalkTripped, Tripped, Ready;
    var s, first := AfterFirstTrial(armed);
    NextTrialStartsIff(Bench(), Micro, s, [first], 1);
    var t := TrialsFrom(Bench(), Micro, s, [first], 1).state;
    NotAborted(armed);
    assert TrialsFrom(Bench(), Micro, armed, [], 0).state == t;
    hide TrialsFrom;
    var i :| 0 <= i < |s.journal| && Tripped(s.journal[i]);
    assert t.journal[i] == s.journal[i] && t.journal[|s.journal|] == TrialStarted(Micro, 1);
  }

  lemma NotAborted(s: DriverState)
    requires Ready(s)
    ensures !s.aborted
  {
  }

  /** What a run of one level leaves is what its trials leave. */
  lemma JournalOfOneLevel(restored: DriverState, report: WalkReport)
    requires RestoreOpen(Bench(), INITIAL) == Returned(restored, report) && report.reached && report.problems == []
    ensures Run(Bench(), [Micro]).0.journal
            == TrialsFrom(Bench(), Micro, Arm(Bench(), restored).state, [], 0).state.journal
  {
    hide TrialsFrom, RestoreOpen;
    var step := RunLevel(Bench(), Micro, restored);
    if step.Returned? {
      var reports := [step.value];
      assert LevelsFrom(Bench(), [Micro], step.state, reports, 1) == (Returned(step.state, ()), reports);
    }
  }

  /** "No trial starts after a trip" is false of receipts: in this run the second trial of the level starts after a
      receipt of the first one showed a force at the hard limit. The release gate fails all the same. */
  lemma ReceiptTripDoesNotStop()
    ensures var (end, ending) := Run(Bench(), [Micro]);
            TrialAfterTrip(end.journal) && !(ending.Finished? && GateOk([Micro], ending.summary))
  {
    hide Run, RestoreOpen, TrialsFrom, Bench, Ready, Body, GateOk;
    var restored, report := Restoring();
    BenchArms(restored);
    JournalOfOneLevel(restored, report);
    SecondTrialStarts(Arm(Bench(), restored).state);
    GatePassesIff(Bench(), [Micro]);
  }

  lemma BenchArms(s: DriverState)
    requires Ready(s)
    ensures var armed := Arm(Bench(), s).state;
            Ready(armed) && Fit(armed) && armed.readings == s.readings
  {
    ArmKeepsBooks(Bench(), s);
  }
}
