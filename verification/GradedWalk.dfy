/** What one walk commands and how it ends, against lagging, closing and perfect hands. */
module GradedWalk {
  import opened Arithmetic
  import opened Wrappers
  import opened March
  import opened GradedModel

  // ---------- The walk as six marches ----------

  /** The position read by the n-th reading. */
  function PositionAt(rig: Rig, n: nat): Pose {
    if rig.read(n).Observed? then rig.read(n).position else [0.0, 0.0, 0.0, 0.0, 0.0, 0.0]
  }

  /** Joint i as observed from the reading `first` on. */
  function Path(rig: Rig, first: nat, i: Channel): nat -> real {
    (k: nat) => PositionAt(rig, first + k)[i]
  }

  function GaitOf(plan: Plan, window: real, i: Channel): Gait {
    Gait(plan.target[i], plan.delta, window)
  }

  /** The last commanded pose after `k` commands. */
  function LastPose(rig: Rig, plan: Plan, first: nat, window: real, k: nat): Pose {
    seq(6, i requires 0 <= i < 6 => Last(Path(rig, first, i), GaitOf(plan, window, i), k))
  }

  lemma NextIsLastPose(rig: Rig, plan: Plan, first: nat, window: real, k: nat)
    ensures NextWaypoint(plan, LastPose(rig, plan, first, window, k), PositionAt(rig, first + k), window)
            == LastPose(rig, plan, first, window, k + 1)
    ensures LastPose(rig, plan, first, window, 0) == PositionAt(rig, first)
  {
    hide Waypoint;
  }

  /** The poses commanded, in order. */
  function Commands(journal: seq<Event>): seq<Pose> {
    if journal == [] then []
    else Commands(journal[..|journal| - 1])
         + (if journal[|journal| - 1].Commanded? then [journal[|journal| - 1].waypoint] else [])
  }

  lemma CommandsAppend(journal: seq<Event>, event: Event)
    ensures Commands(journal + [event])
            == Commands(journal) + (if event.Commanded? then [event.waypoint] else [])
  {
    assert (journal + [event])[..|journal|] == journal;
  }

  lemma ScanCommandsNothing(rig: Rig, s: DriverState, snapshot: Snapshot, walking: bool)
    ensures Commands(Scan(rig, s, snapshot, walking).journal) == Commands(s.journal)
  {
    hide Commands, Problems;
    CommandsAppend(s.journal, Scanned(walking, Problems(rig, snapshot)));
  }

  lemma {:induction false} EchoesCommandNothing(rig: Rig, plan: Plan, s: DriverState, report: WalkReport,
                                                echoes: seq<Echo>, current: Pose, i: nat)
    requires WellFormed(plan) && i <= |echoes|
    ensures var flow := ScanEchoes(rig, plan, s, report, echoes, current, i);
            var t := if flow.Leave? then flow.exit.state else flow.next.0;
            Commands(t.journal) == Commands(s.journal) && t.permit == s.permit && t.readings == s.readings
            && t.submissions == s.submissions
    decreases |echoes| - i
  {
    hide Commands, Problems, Stop, WatchedForce, RaiseForces;
    if i < |echoes| {
      ScanCommandsNothing(rig, s, EchoSnapshot(echoes[i]), false);
      match ScanEcho(rig, plan, s, report, echoes[i], current)
      case Leave(_) =>
      case Continue((next, peaked)) => EchoesCommandNothing(rig, plan, next, peaked, echoes, current, i + 1);
    }
  }

  /** The state before pass k of a walk whose first reading is `first`. */
  ghost predicate AtPass(rig: Rig, plan: Plan, first: nat, window: real, k: nat, s: DriverState, last: Option<Pose>) {
    && s.readings == first + k
    && Window(s.permit) == window
    && (last.None? ==> k == 0)
    && (last.Some? ==> last.value == LastPose(rig, plan, first, window, k))
  }

  /** One pass commands nothing, or the next pose of the march; in the latter case its reading was observed. */
  lemma TurnMarches(rig: Rig, plan: Plan, first: nat, window: real, k: nat,
                    s: DriverState, last: Option<Pose>, report: WalkReport)
    requires WellFormed(plan) && AtPass(rig, plan, first, window, k, s, last)
    ensures match Turn(rig, plan, s, last, report)
            case Leave(exit) =>
              && exit.state.permit == s.permit
              && (|| Commands(exit.state.journal) == Commands(s.journal)
                  || (rig.read(first + k).Observed?
                      && Commands(exit.state.journal) ==
                         Commands(s.journal) + [LastPose(rig, plan, first, window, k + 1)]))
            case Continue((next, waypoint, _)) =>
              && rig.read(first + k).Observed?
              && waypoint == LastPose(rig, plan, first, window, k + 1)
              && AtPass(rig, plan, first, window, k + 1, next, Some(waypoint))
              && Commands(next.journal) == Commands(s.journal) + [waypoint]
              && next.submissions == s.submissions + 1
              && next.permit == s.permit
  {
    hide Commands, Problems, Stop, WatchedForce, RaiseForces, Converged, LastPose, NextWaypoint, SandboxSafe,
         ScanEchoes;
    NextIsLastPose(rig, plan, first, window, k);
    var reading := rig.read(s.readings);
    var read := s.(readings := s.readings + 1);
    if reading.Observed? {
      ScanCommandsNothing(rig, read, SnapshotOf(reading), true);
      var decision := Decide(rig, plan, read, report, reading);
      if decision.Continue? {
        var (scanned, seen) := decision.next;
        var from := if last.Some? then last.value else reading.position;
        var waypoint := NextWaypoint(plan, from, reading.position, Window(scanned.permit));
        assert waypoint == LastPose(rig, plan, first, window, k + 1);
        if scanned.permit.Some? {
          CommandsAppend(scanned.journal, Commanded(waypoint, scanned.permit.value));
        }
        var answer := Submit(rig, scanned, waypoint, reading.position);
        if answer.Returned? && answer.value.completed {
          EchoesCommandNothing(rig, plan, answer.state, seen.(steps := seen.steps + 1), answer.value.observations,
                               reading.position, 0);
        }
      }
    }
  }

  /** The poses of the march from pass k on. */
  function MarchPoses(rig: Rig, plan: Plan, first: nat, window: real, k: nat, m: nat): (poses: seq<Pose>)
    ensures |poses| == m
    ensures forall j :: 0 <= j < m ==> poses[j] == LastPose(rig, plan, first, window, k + 1 + j)
  {
    seq<Pose>(m, (j: nat) => LastPose(rig, plan, first, window, k + 1 + j))
  }

  /** The m readings from `from` on were all observed. */
  ghost predicate ObservedFor(rig: Rig, from: nat, m: nat) {
    forall n: nat :: from <= n < from + m ==> rig.read(n).Observed?
  }

  lemma {:induction false} WalkFromMarches(rig: Rig, plan: Plan, first: nat, window: real, k: nat,
                                           s: DriverState, last: Option<Pose>, report: WalkReport, left: nat)
    returns (m: nat)
    requires WellFormed(plan) && AtPass(rig, plan, first, window, k, s, last)
    ensures m <= left && ObservedFor(rig, first + k, m)
    ensures Commands(WalkFrom(rig, plan, s, last, report, left).state.journal)
            == Commands(s.journal) + MarchPoses(rig, plan, first, window, k, m)
    decreases left
  {
    hide Commands, Turn, LastPose;
    if left == 0 {
      m := 0;
    } else {
      TurnMarches(rig, plan, first, window, k, s, last, report);
      match Turn(rig, plan, s, last, report)
      case Leave(exit) =>
        m := if Commands(exit.state.journal) == Commands(s.journal) then 0 else 1;
        assert m == 1 ==> MarchPoses(rig, plan, first, window, k, 1) == [LastPose(rig, plan, first, window, k + 1)];
      case Continue((next, waypoint, stepped)) =>
        var rest := WalkFromMarches(rig, plan, first, window, k + 1, next, Some(waypoint), stepped, left - 1);
        m := rest + 1;
        assert MarchPoses(rig, plan, first, window, k, m)
            == [waypoint] + MarchPoses(rig, plan, first, window, k + 1, rest);
    }
  }

  /** Every walk commands the first poses of six marches over what it observes. */
  lemma WalkMarches(rig: Rig, plan: Plan, s: DriverState) returns (m: nat)
    requires WellFormed(plan)
    ensures m <= WALK_CAP && ObservedFor(rig, s.readings, m)
    ensures Commands(Walk(rig, plan, s).state.journal)
            == Commands(s.journal) + MarchPoses(rig, plan, s.readings, Window(s.permit), 0, m)
  {
    hide Commands, WalkFrom;
    var started := s.(journal := s.journal + [WalkStarted]);
    CommandsAppend(s.journal, WalkStarted);
    m := WalkFromMarches(rig, plan, s.readings, Window(s.permit), 0, started, None, EMPTY_REPORT, WALK_CAP);
  }

  // ---------- Safety of the commands against any lagging hand ----------

  ghost predicate HandLags(rig: Rig, plan: Plan, first: nat, window: real, n: nat) {
    forall i: Channel :: Lags(Path(rig, first, i), GaitOf(plan, window, i), n)
  }

  /** The commands of a walk, seen joint by joint: `commands[j]` was sent on the position `PositionAt(first + j)`. */
  ghost predicate SafeCommands(rig: Rig, plan: Plan, first: nat, window: real, commands: seq<Pose>) {
    forall j: nat, i: Channel :: j < |commands| ==>
      SafeCommand(PositionAt(rig, first)[i], plan.target[i], window, PositionAt(rig, first + j)[i],
                  if j == 0 then PositionAt(rig, first)[i] else commands[j - 1][i], commands[j][i])
  }

  /** One joint's command: on the stretch from start to target, not behind the previous command, within the window. */
  predicate SafeCommand(start: real, target: real, window: real, current: real, previous: real, command: real) {
    && Between(command, start, target)
    && (start <= target ==> previous <= command)
    && (start >= target ==> previous >= command)
    && Abs(command - current) <= window
  }

  /** Whatever a lagging hand does, and however the walk ends: all the commands of the walk are safe. */
  lemma WalkIsSafe(rig: Rig, plan: Plan, s: DriverState) returns (commands: seq<Pose>)
    requires WellFormed(plan) && plan.delta > 0.0 && Window(s.permit) >= 0.0
    ensures Commands(Walk(rig, plan, s).state.journal) == Commands(s.journal) + commands
    ensures |commands| <= WALK_CAP && ObservedFor(rig, s.readings, |commands|)
    ensures HandLags(rig, plan, s.readings, Window(s.permit), if |commands| == 0 then 0 else |commands| - 1) ==>
              SafeCommands(rig, plan, s.readings, Window(s.permit), commands)
  {
    hide Commands, Walk, Last;
    var first, window := s.readings, Window(s.permit);
    var m := WalkMarches(rig, plan, s);
    commands := MarchPoses(rig, plan, first, window, 0, m);
    var n := if m == 0 then 0 else m - 1;
    if HandLags(rig, plan, first, window, n) {
      forall j: nat, i: Channel | j < |commands|
        ensures SafeCommand(PositionAt(rig, first)[i], plan.target[i], window, PositionAt(rig, first + j)[i],
                            if j == 0 then PositionAt(rig, first)[i] else commands[j - 1][i], commands[j][i])
      {
        CommandsAreSafe(Path(rig, first, i), GaitOf(plan, window, i), n, j);
        NextIsLastPose(rig, plan, first, window, 0);
      }
    }
  }

  // ---------- How a walk ends ----------

  /** No force threshold of the plan is met. */
  predicate Unstopped(plan: Plan, force: Pose)
    requires WellFormed(plan)
  {
    && (plan.stopOnContact ==> WatchedForce(plan, force) < CONTACT_FORCE_G)
    && (plan.abortOnOverContact ==> WatchedForce(plan, force) < OVER_CONTACT_ABORT_G)
  }

  ghost predicate CalmReading(rig: Rig, plan: Plan, n: nat)
    requires WellFormed(plan)
  {
    && rig.read(n).Observed?
    && Problems(rig, SnapshotOf(rig.read(n))) == []
    && Unstopped(plan, rig.read(n).force)
  }

  ghost predicate CalmAnswer(rig: Rig, plan: Plan, n: nat)
    requires WellFormed(plan)
  {
    && rig.submit(n).Answered?
    && rig.submit(n).receipt.completed
    && forall e :: e in rig.submit(n).receipt.observations && e.force.Some? ==> Unstopped(plan, e.force.value)
  }

  /** No failure, no trip and no force stop during `n` commands and the reading after the last of them (a walk makes
      no reading after its 96th command). Receipt trips are allowed: they do not end a walk. */
  ghost predicate Calm(rig: Rig, plan: Plan, s: DriverState, n: nat)
    requires WellFormed(plan)
  {
    && s.permit.Some?
    && (forall k: nat :: s.readings <= k <= s.readings + n && k < s.readings + WALK_CAP ==> CalmReading(rig, plan, k))
    && (forall k: nat :: s.submissions <= k < s.submissions + n ==> CalmAnswer(rig, plan, k))
  }

  lemma {:induction false} CalmEchoes(rig: Rig, plan: Plan, s: DriverState, report: WalkReport,
                                      echoes: seq<Echo>, current: Pose, i: nat)
    requires WellFormed(plan) && i <= |echoes|
    requires forall e :: e in echoes && e.force.Some? ==> Unstopped(plan, e.force.value)
    ensures var flow := ScanEchoes(rig, plan, s, report, echoes, current, i);
            flow.Continue? && flow.next.1 == report.(maxForce := flow.next.1.maxForce)
            && flow.next.0.submissions == s.submissions
    decreases |echoes| - i
  {
    hide Problems, WatchedForce, RaiseForces;
    if i < |echoes| {
      assert echoes[i] in echoes;
      assert ScanEcho(rig, plan, s, report, echoes[i], current).Continue?;
      var (next, peaked) := ScanEcho(rig, plan, s, report, echoes[i], current).next;
      CalmEchoes(rig, plan, next, peaked, echoes, current, i + 1);
    }
  }

  /** One calm pass: arrive if converged, otherwise go on with one more step and nothing to report. */
  lemma CalmTurn(rig: Rig, plan: Plan, s: DriverState, last: Option<Pose>, report: WalkReport)
    requires WellFormed(plan) && s.permit.Some?
    requires CalmReading(rig, plan, s.readings)
    requires report.problems == [] && !report.reached
    requires Converged(rig, plan, rig.read(s.readings).position) || CalmAnswer(rig, plan, s.submissions)
    requires var position := rig.read(s.readings).position;
             Converged(rig, plan, position) ||
             SandboxSafe(rig.calibration,
                         NextWaypoint(plan, if last.Some? then last.value else position, position, Window(s.permit)),
                         position, StepLimit(s.permit))
    ensures var position := rig.read(s.readings).position;
            match Turn(rig, plan, s, last, report)
            case Leave(exit) =>
              Converged(rig, plan, position) && exit.Returned? && exit.value.reached
              && exit.value.finalPosition == Some(position)
              && exit.value.steps == report.steps && exit.value.problems == []
            case Continue((next, _, stepped)) =>
              !Converged(rig, plan, position) && !stepped.reached
              && stepped.steps == report.steps + 1 && stepped.problems == []
              && next.submissions == s.submissions + 1
  {
    hide Problems, WatchedForce, RaiseForces, Converged, NextWaypoint, SandboxSafe, ScanEchoes;
    var reading := rig.read(s.readings);
    var decision := Decide(rig, plan, s.(readings := s.readings + 1), report, reading);
    if decision.Continue? {
      var (scanned, seen) := decision.next;
      var from := if last.Some? then last.value else reading.position;
      var waypoint := NextWaypoint(plan, from, reading.position, Window(scanned.permit));
      var answer := Submit(rig, scanned, waypoint, reading.position);
      assert answer.Returned? && answer.value == rig.submit(s.submissions).receipt;
      CalmEchoes(rig, plan, answer.state, seen.(steps := seen.steps + 1), answer.value.observations,
                 reading.position, 0);
    }
  }

  ghost predicate ConvergedAt(rig: Rig, plan: Plan, first: nat, k: nat)
    requires WellFormed(plan)
  {
    Converged(rig, plan, PositionAt(rig, first + k))
  }

  /** Command k passes the sandbox. */
  ghost predicate Fits(rig: Rig, plan: Plan, s: DriverState, k: nat) {
    SandboxSafe(rig.calibration, LastPose(rig, plan, s.readings, Window(s.permit), k + 1),
                PositionAt(rig, s.readings + k), StepLimit(s.permit))
  }

  /** The verdict of a calm walk: it arrives with `n` commands, or uses all its commands and reports the cap. */
  ghost predicate EndsAfter(rig: Rig, plan: Plan, first: nat, n: nat, step: Step<WalkReport>) {
    step.Returned? && step.value.steps == n
    && if n < WALK_CAP
       then step.value.reached && step.value.problems == []
            && step.value.finalPosition == Some(PositionAt(rig, first + n))
       else !step.value.reached && step.value.problems == [WaypointCapExceeded]
  }

  lemma {:induction false} CalmWalkFrom(rig: Rig, plan: Plan, start: DriverState, n: nat, k: nat,
                                        s: DriverState, last: Option<Pose>, report: WalkReport)
    requires WellFormed(plan) && Calm(rig, plan, start, n) && k <= n <= WALK_CAP
    requires forall j: nat :: j < n ==> !ConvergedAt(rig, plan, start.readings, j)
    requires n < WALK_CAP ==> ConvergedAt(rig, plan, start.readings, n)
    requires forall j: nat :: j < n ==> Fits(rig, plan, start, j)
    requires AtPass(rig, plan, start.readings, Window(start.permit), k, s, last)
    requires s.permit == start.permit && s.submissions == start.submissions + k
    requires report.problems == [] && !report.reached && report.steps == k
    ensures EndsAfter(rig, plan, start.readings, n, WalkFrom(rig, plan, s, last, report, WALK_CAP - k))
    decreases n - k
  {
    hide Turn, LastPose, Converged, SandboxSafe, NextWaypoint, CalmReading, CalmAnswer, Commands;
    if k < WALK_CAP {
      var first, window := start.readings, Window(start.permit);
      CalmObserved(rig, plan, s.readings);
      if k < n {
        PassFits(rig, plan, start, k, s, last);
      } else {
        assert ConvergedAt(rig, plan, first, n);
      }
      CalmTurn(rig, plan, s, last, report);
      TurnMarches(rig, plan, first, window, k, s, last, report);
      match Turn(rig, plan, s, last, report)
      case Leave(exit) => assert ConvergedAt(rig, plan, first, k);
      case Continue((next, waypoint, stepped)) =>
        assert !ConvergedAt(rig, plan, first, k);
        CalmWalkFrom(rig, plan, start, n, k + 1, next, Some(waypoint), stepped);
    }
  }

  lemma CalmObserved(rig: Rig, plan: Plan, n: nat)
    requires WellFormed(plan) && CalmReading(rig, plan, n)
    ensures rig.read(n).Observed? && PositionAt(rig, n) == rig.read(n).position
  {
  }

  lemma PassFits(rig: Rig, plan: Plan, start: DriverState, k: nat, s: DriverState, last: Option<Pose>)
    requires WellFormed(plan) && Fits(rig, plan, start, k) && CalmReading(rig, plan, s.readings)
    requires AtPass(rig, plan, start.readings, Window(start.permit), k, s, last) && s.permit == start.permit
    ensures var position := rig.read(s.readings).position;
            SandboxSafe(rig.calibration,
                        NextWaypoint(plan, if last.Some? then last.value else position, position, Window(s.permit)),
                        position, StepLimit(s.permit))
  {
    hide LastPose, SandboxSafe, NextWaypoint;
    NextIsLastPose(rig, plan, start.readings, Window(start.permit), k);
  }

  /** A calm walk ends at the first observation that is within tolerance, if one of the first 96 is. */
  lemma CalmWalk(rig: Rig, plan: Plan, s: DriverState, n: nat)
    requires WellFormed(plan) && Calm(rig, plan, s, n) && n <= WALK_CAP
    requires forall j: nat :: j < n ==> !ConvergedAt(rig, plan, s.readings, j)
    requires n < WALK_CAP ==> ConvergedAt(rig, plan, s.readings, n)
    requires forall j: nat :: j < n ==> Fits(rig, plan, s, j)
    ensures EndsAfter(rig, plan, s.readings, n, Walk(rig, plan, s))
  {
    hide WalkFrom, Calm, Fits, ConvergedAt, LastPose;
    var started := s.(journal := s.journal + [WalkStarted]);
    CalmWalkFrom(rig, plan, s, n, 0, started, None, EMPTY_REPORT);
  }

  // ---------- Convergence against closing and perfect hands ----------

  /** The largest distance a converging channel has to go. */
  function Distance(target: Pose, from: Pose, converging: seq<Channel>): real
    requires converging != []
  {
    var d := Abs(target[converging[0]] - from[converging[0]]);
    if |converging| == 1 then d else Max(d, Distance(target, from, converging[1..]))
  }

  lemma {:induction false} DistanceIsGreatest(target: Pose, from: Pose, converging: seq<Channel>)
    requires converging != []
    ensures forall c :: c in converging ==> Abs(target[c] - from[c]) <= Distance(target, from, converging)
    ensures exists c :: c in converging && Abs(target[c] - from[c]) == Distance(target, from, converging)
  {
    if |converging| > 1 {
      DistanceIsGreatest(target, from, converging[1..]);
      assert converging == [converging[0]] + converging[1..];
    }
  }

  /** The channels that have to converge close at least `r` per command; the others may be held where they are. */
  ghost predicate HandCloses(rig: Rig, plan: Plan, first: nat, window: real, r: real, n: nat) {
    forall i: Channel :: i in plan.converging ==> Closes(Path(rig, first, i), GaitOf(plan, window, i), r, n)
  }

  /** The channels that have to converge arrive at every waypoint; the others may be held where they are. */
  ghost predicate HandArrives(rig: Rig, plan: Plan, first: nat, window: real, n: nat) {
    forall i: Channel :: i in plan.converging ==> Arrives(Path(rig, first, i), GaitOf(plan, window, i), n)
  }

  predicate Admitted(calibration: Calibration, i: Channel, x: real) {
    calibration.rangeLow <= x <= calibration.rangeHigh && calibration.safeMin[i] <= x <= calibration.safeMax[i]
  }

  /** Start and target lie in the calibrated range. */
  ghost predicate Reachable(rig: Rig, plan: Plan, first: nat) {
    forall i: Channel ::
      Admitted(rig.calibration, i, PositionAt(rig, first)[i]) && Admitted(rig.calibration, i, plan.target[i])
  }

  /** The sandbox never blocks a walk of a lagging hand between two admitted poses. */
  lemma LaggingHandFits(rig: Rig, plan: Plan, s: DriverState, n: nat, k: nat)
    requires s.permit.Some? && plan.delta > 0.0 && Window(s.permit) >= 0.0
    requires Reachable(rig, plan, s.readings)
    requires HandLags(rig, plan, s.readings, Window(s.permit), n) && k <= n
    ensures Fits(rig, plan, s, k)
  {
    hide Last;
    var first, window := s.readings, Window(s.permit);
    var command, current := LastPose(rig, plan, first, window, k + 1), PositionAt(rig, first + k);
    forall i: nat | i < 6
      ensures Admitted(rig.calibration, i, command[i]) && Abs(command[i] - current[i]) <= s.permit.value.maxStepDelta
    {
      CommandsAreSafe(Path(rig, first, i), GaitOf(plan, window, i), n, k);
      assert Admitted(rig.calibration, i, PositionAt(rig, first)[i]) && Admitted(rig.calibration, i, plan.target[i]);
    }
  }

  lemma RemainingGrows(d: real, d': real, r: real, k: nat)
    requires d <= d'
    ensures Remaining(d, r, k) <= Remaining(d', r, k)
  {
  }

  /** After k commands a perfect hand is within tolerance exactly when k steps were enough for the farthest channel. */
  lemma ArrivingHandConverges(rig: Rig, plan: Plan, first: nat, window: real, n: nat, k: nat)
    requires WellFormed(plan) && 0.0 < plan.delta <= window && k <= n
    requires HandArrives(rig, plan, first, window, n)
    requires Tolerance(rig.calibration, plan.converging) >= 0.0
    ensures ConvergedAt(rig, plan, first, k) <==>
            k >= StepsNeeded(Distance(plan.target, PositionAt(rig, first), plan.converging),
                             Tolerance(rig.calibration, plan.converging), plan.delta)
  {
    hide Last, Remaining, Tolerance, StepsNeeded, Distance;
    var start, now := PositionAt(rig, first), PositionAt(rig, first + k);
    var tolerance := Tolerance(rig.calibration, plan.converging);
    var distance := Distance(plan.target, start, plan.converging);
    StepsNeededIsLeast(distance, tolerance, plan.delta, k);
    DistanceIsGreatest(plan.target, start, plan.converging);
    forall c | c in plan.converging
      ensures Abs(plan.target[c] - now[c]) == Remaining(Abs(plan.target[c] - start[c]), plan.delta, k)
      ensures Abs(plan.target[c] - now[c]) <= Remaining(distance, plan.delta, k)
    {
      ArrivingDistance(Path(rig, first, c), GaitOf(plan, window, c), n, k);
      RemainingGrows(Abs(plan.target[c] - start[c]), distance, plan.delta, k);
    }
  }

  /** The number of commands a walk has for `n` steps. */
  function Capped(n: nat): nat {
    if n < WALK_CAP then n else WALK_CAP
  }

  /** The readings a walk takes after commands: none after its 96th. */
  function Followed(n: nat): nat {
    if n < WALK_CAP then n else WALK_CAP - 1
  }

  /** max(0, ceil((distance - tolerance) / r)) for the farthest converging channel at the start of the walk. */
  function PlannedSteps(rig: Rig, plan: Plan, first: nat, r: real): nat
    requires WellFormed(plan) && r > 0.0
  {
    StepsNeeded(Distance(plan.target, PositionAt(rig, first), plan.converging),
                Tolerance(rig.calibration, plan.converging), r)
  }

  /** The convergence bound is exact for a lagging hand whose converging channels are perfect: a calm walk reports
      `reached` if and only if the farthest converging channel is at most 95 steps plus the tolerance away, and then it
      has used exactly max(0, ceil((distance - tolerance) / delta)) commands. The hand has to be calm and perfect only
      for as long as the walk lasts. */
  lemma PerfectHandWalk(rig: Rig, plan: Plan, s: DriverState)
    requires WellFormed(plan) && 0.0 < plan.delta <= Window(s.permit)
    requires Calm(rig, plan, s, Capped(PlannedSteps(rig, plan, s.readings, plan.delta)))
    requires HandLags(rig, plan, s.readings, Window(s.permit),
                      Followed(PlannedSteps(rig, plan, s.readings, plan.delta)))
    requires HandArrives(rig, plan, s.readings, Window(s.permit),
                         Followed(PlannedSteps(rig, plan, s.readings, plan.delta)))
    requires Reachable(rig, plan, s.readings) && Tolerance(rig.calibration, plan.converging) >= 0.0
    ensures EndsAfter(rig, plan, s.readings, Capped(PlannedSteps(rig, plan, s.readings, plan.delta)),
                      Walk(rig, plan, s))
    ensures Walk(rig, plan, s).value.reached <==>
            Distance(plan.target, PositionAt(rig, s.readings), plan.converging)
            <= 95.0 * plan.delta + Tolerance(rig.calibration, plan.converging)
  {
    hide Walk, Calm, Fits, ConvergedAt, Tolerance, Distance, StepsNeeded, Reachable, HandArrives, HandLags;
    var first, window := s.readings, Window(s.permit);
    var n := PlannedSteps(rig, plan, first, plan.delta);
    CalmHasPermit(rig, plan, s, Capped(n));
    forall j: nat | j <= Followed(n)
      ensures Fits(rig, plan, s, j) && (ConvergedAt(rig, plan, first, j) <==> j >= n)
    {
      LaggingHandFits(rig, plan, s, Followed(n), j);
      ArrivingHandConverges(rig, plan, first, window, Followed(n), j);
    }
    CalmWalk(rig, plan, s, Capped(n));
    var distance := Distance(plan.target, PositionAt(rig, first), plan.converging);
    var tolerance := Tolerance(rig.calibration, plan.converging);
    StepsNeededIsLeast(distance, tolerance, plan.delta, WALK_CAP - 1);
    RemainingWithin(distance, tolerance, plan.delta, WALK_CAP - 1);
  }

  lemma CalmHasPermit(rig: Rig, plan: Plan, s: DriverState, n: nat)
    requires WellFormed(plan) && Calm(rig, plan, s, n)
    ensures s.permit.Some?
  {
  }

  lemma ClosingHandConverges(rig: Rig, plan: Plan, first: nat, window: real, r: real, n: nat, k: nat)
    requires WellFormed(plan) && 0.0 < r <= plan.delta <= window && k <= n
    requires HandLags(rig, plan, first, window, n) && HandCloses(rig, plan, first, window, r, n)
    requires Tolerance(rig.calibration, plan.converging) >= 0.0
    requires k >= StepsNeeded(Distance(plan.target, PositionAt(rig, first), plan.converging),
                              Tolerance(rig.calibration, plan.converging), r)
    ensures ConvergedAt(rig, plan, first, k)
  {
    hide Last, Remaining, Tolerance, StepsNeeded, Distance;
    var start, now := PositionAt(rig, first), PositionAt(rig, first + k);
    var tolerance := Tolerance(rig.calibration, plan.converging);
    var distance := Distance(plan.target, start, plan.converging);
    StepsNeededIsLeast(distance, tolerance, r, k);
    DistanceIsGreatest(plan.target, start, plan.converging);
    forall c | c in plan.converging ensures Abs(plan.target[c] - now[c]) <= Remaining(distance, r, k) {
      ClosingDistance(Path(rig, first, c), GaitOf(plan, window, c), r, n, k);
      RemainingGrows(Abs(plan.target[c] - start[c]), distance, r, k);
    }
  }

  lemma FirstConverged(rig: Rig, plan: Plan, first: nat, bound: nat) returns (n: nat)
    requires WellFormed(plan) && ConvergedAt(rig, plan, first, bound)
    ensures n <= bound && ConvergedAt(rig, plan, first, n)
    ensures forall j: nat :: j < n ==> !ConvergedAt(rig, plan, first, j)
  {
    hide ConvergedAt;
    n := 0;
    while !ConvergedAt(rig, plan, first, n)
      invariant n <= bound
      invariant forall j: nat :: j < n ==> !ConvergedAt(rig, plan, first, j)
      decreases bound - n
    {
      n := n + 1;
    }
  }

  lemma CalmSooner(rig: Rig, plan: Plan, s: DriverState, n: nat, m: nat)
    requires WellFormed(plan) && Calm(rig, plan, s, n) && m <= n
    ensures Calm(rig, plan, s, m)
  {
  }

  /** A lagging hand whose converging channels close at least `r` per command arrives within
      max(0, ceil((distance - tolerance) / r)) commands, when that is at most 95. It has to behave for `n` commands:
      that many, or until it has arrived. */
  lemma ClosingHandWalk(rig: Rig, plan: Plan, s: DriverState, r: real, n: nat) returns (m: nat)
    requires WellFormed(plan) && 0.0 < r <= plan.delta <= Window(s.permit)
    requires Reachable(rig, plan, s.readings) && Tolerance(rig.calibration, plan.converging) >= 0.0
    requires n <= PlannedSteps(rig, plan, s.readings, r) < WALK_CAP
    requires n < PlannedSteps(rig, plan, s.readings, r) ==> ConvergedAt(rig, plan, s.readings, n)
    requires Calm(rig, plan, s, n)
    requires HandLags(rig, plan, s.readings, Window(s.permit), n)
    requires HandCloses(rig, plan, s.readings, Window(s.permit), r, n)
    ensures m <= n && EndsAfter(rig, plan, s.readings, m, Walk(rig, plan, s)) && Walk(rig, plan, s).value.reached
  {
    hide Walk, Calm, Fits, ConvergedAt, Tolerance, Distance, StepsNeeded, Reachable, HandLags, HandCloses;
    var first, window := s.readings, Window(s.permit);
    CalmHasPermit(rig, plan, s, n);
    if n == PlannedSteps(rig, plan, first, r) {
      ClosingHandConverges(rig, plan, first, window, r, n, n);
    }
    m := FirstConverged(rig, plan, first, n);
    forall j: nat | j < m ensures Fits(rig, plan, s, j) {
      LaggingHandFits(rig, plan, s, n, j);
    }
    CalmSooner(rig, plan, s, n, m);
    CalmWalk(rig, plan, s, m);
  }
}
