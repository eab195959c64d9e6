/** What the report of a walk means: its fields against the readings and receipts that the walk has scanned
    (scripts/experiments/exp3_graded_execution.py, `walk_to`). */
module GradedReports {
  import opened Arithmetic
  import opened Wrappers
  import opened GradedModel
  import opened GradedSafety

  // ---------- Observations ----------

  /** A reading without protection, hard-limit force or temperature stop. */
  ghost predicate Clean(rig: Rig, reading: Reading) {
    reading.Observed? && Problems(rig, SnapshotOf(reading)) == []
  }

  /** Some channel, or the contact channel of the plan, shows at least `x`. */
  predicate Feels(plan: Plan, force: Pose, x: real) {
    if plan.contactChannel.Some? then force[plan.contactChannel.value] >= x
    else exists c: Channel :: force[c] >= x
  }

  lemma {:induction false} GreatestReaches(xs: seq<real>, x: real)
    requires xs != []
    ensures Greatest(xs) >= x <==> exists c :: 0 <= c < |xs| && xs[c] >= x
  {
    if |xs| > 1 {
      GreatestReaches(xs[1..], x);
      if c :| 0 <= c < |xs| && xs[c] >= x {
        assert c > 0 ==> xs[1..][c - 1] == xs[c];
      }
      if c :| 0 <= c < |xs| - 1 && xs[1..][c] >= x {
        assert xs[c + 1] >= x;
      }
    }
  }

  lemma WatchedFeels(plan: Plan, force: Pose, x: real)
    requires WellFormed(plan)
    ensures WatchedForce(plan, force) >= x <==> Feels(plan, force, x)
  {
    if plan.contactChannel.None? {
      GreatestReaches(force, x);
      if c :| 0 <= c < |force| && force[c] >= x {
        var channel: Channel := c;
        assert force[channel] >= x;
      }
    }
  }

  ghost predicate ReadingFeels(rig: Rig, plan: Plan, x: real, n: nat) {
    Clean(rig, rig.read(n)) && Feels(plan, rig.read(n).force, x)
  }

  predicate EchoFeels(plan: Plan, x: real, echo: Echo) {
    echo.force.Some? && Feels(plan, echo.force.value, x)
  }

  ghost predicate ReceiptFeels(rig: Rig, plan: Plan, x: real, k: nat) {
    && rig.submit(k).Answered? && rig.submit(k).receipt.completed
    && exists e :: e in rig.submit(k).receipt.observations && EchoFeels(plan, x, e)
  }

  /** Between two states, a clean reading or the receipt of a completed command has shown at least `x`. */
  ghost predicate Felt(rig: Rig, plan: Plan, x: real, s: DriverState, t: DriverState) {
    || (exists n: nat :: s.readings <= n < t.readings && ReadingFeels(rig, plan, x, n))
    || (exists k: nat :: s.submissions <= k < t.submissions && ReceiptFeels(rig, plan, x, k))
  }

  /** The force at which a walk ends early: 70 g if it stops on contact, else 250 g if it aborts on over-contact. */
  function Limit(plan: Plan): Option<real> {
    if plan.stopOnContact then Some(70.0) else if plan.abortOnOverContact then Some(250.0) else None
  }

  ghost predicate Forced(rig: Rig, plan: Plan, s: DriverState, t: DriverState) {
    Limit(plan).Some? && Felt(rig, plan, Limit(plan).value, s, t)
  }

  ghost predicate ReadingForces(rig: Rig, plan: Plan, n: nat) {
    Limit(plan).Some? && ReadingFeels(rig, plan, Limit(plan).value, n)
  }

  predicate EchoForces(plan: Plan, echo: Echo) {
    Limit(plan).Some? && EchoFeels(plan, Limit(plan).value, echo)
  }

  ghost predicate ReceiptForces(rig: Rig, plan: Plan, k: nat) {
    Limit(plan).Some? && ReceiptFeels(rig, plan, Limit(plan).value, k)
  }

  /** The widest tolerance is the tolerance of a converging channel, and no less than that of any other. */
  lemma {:induction false} ToleranceIsGreatest(calibration: Calibration, converging: seq<Channel>)
    requires converging != []
    ensures forall c :: c in converging ==> calibration.tolerance[c] <= Tolerance(calibration, converging)
    ensures exists i ::
              0 <= i < |converging| && calibration.tolerance[converging[i]] == Tolerance(calibration, converging)
  {
    if |converging| == 1 {
      assert calibration.tolerance[converging[0]] == Tolerance(calibration, converging);
    } else {
      var rest := converging[1..];
      ToleranceIsGreatest(calibration, rest);
      assert converging == [converging[0]] + rest;
      var i :| 0 <= i < |rest| && calibration.tolerance[rest[i]] == Tolerance(calibration, rest);
      assert converging[i + 1] == rest[i] && converging[0] == converging[0];
    }
  }

  /** The n-th reading finds the hand, untroubled, within tolerance of the plan's target. */
  ghost predicate Arrives(rig: Rig, plan: Plan, n: nat)
    requires WellFormed(plan)
  {
    && Clean(rig, rig.read(n))
    && forall c :: c in plan.converging ==>
         Abs(plan.target[c] - rig.read(n).position[c]) <= Tolerance(rig.calibration, plan.converging)
  }

  /** The last reading of a walk is one that finds the hand at the target. */
  ghost predicate Arrived(rig: Rig, plan: Plan, s: DriverState, t: DriverState)
    requires WellFormed(plan)
  {
    s.readings < t.readings && Arrives(rig, plan, t.readings - 1)
  }

  // ---------- One pass ----------

  /** A report with nothing in it yet but steps and forces. */
  predicate Blank(report: WalkReport) {
    && !report.reached && !report.contact && !report.overContactAbort
    && report.problems == [] && report.finalPosition.None?
  }

  /** A report that a force has ended. */
  predicate EndedByForce(plan: Plan, report: WalkReport) {
    && report.reached && report.problems == [] && report.finalPosition.Some?
    && report.contact == plan.stopOnContact && report.overContactAbort == !plan.stopOnContact
  }

  predicate EndedAtTarget(report: WalkReport) {
    report.reached && report.problems == [] && report.finalPosition.Some? && !report.contact && !report.overContactAbort
  }

  predicate EndedInTrouble(report: WalkReport) {
    && !report.reached && report.problems != [] && report.finalPosition.None?
    && !report.contact && !report.overContactAbort
  }

  lemma StopMeans(plan: Plan, force: Pose, position: Pose, report: WalkReport)
    requires WellFormed(plan) && Blank(report)
    ensures var stop := Stop(plan, WatchedForce(plan, force), position, report);
            && (stop.Some? <==> Limit(plan).Some? && Feels(plan, force, Limit(plan).value))
            && (stop.Some? ==> EndedByForce(plan, stop.value) && stop.value.steps == report.steps
                               && stop.value.finalPosition == Some(position))
  {
    hide WatchedForce, Feels;
    WatchedFeels(plan, force, CONTACT_FORCE_G);
    WatchedFeels(plan, force, OVER_CONTACT_ABORT_G);
  }

  /** What a reading decides. */
  lemma DecideMeans(rig: Rig, plan: Plan, s: DriverState, report: WalkReport, reading: Reading, n: nat)
    requires WellFormed(plan) && Blank(report) && reading.Observed? && reading == rig.read(n)
    ensures match Decide(rig, plan, s, report, reading)
            case Leave(exit) =>
              && exit.Returned? && exit.value.steps == report.steps
              && exit.state.readings == s.readings && exit.state.submissions == s.submissions
              && (if ReadingForces(rig, plan, n) then EndedByForce(plan, exit.value)
                  else if Arrives(rig, plan, n)
                  then EndedAtTarget(exit.value) && exit.value.finalPosition == Some(reading.position)
                  else EndedInTrouble(exit.value))
            case Continue((next, seen)) =>
              && !ReadingForces(rig, plan, n) && !Arrives(rig, plan, n)
              && Blank(seen) && seen.steps == report.steps && next.permit == s.permit
              && next.readings == s.readings && next.submissions == s.submissions
  {
    hide Problems, WatchedForce, Feels, Stop, RaiseForces, Tolerance;
    var seen := report.(maxForce := RaiseForces(report.maxForce, reading.force));
    if Problems(rig, SnapshotOf(reading)) == [] {
      assert report.problems + [] == [];
      StopMeans(plan, reading.force, reading.position, seen);
    }
  }

  /** What the observations of a receipt decide. */
  lemma {:induction false} EchoesMean(rig: Rig, plan: Plan, s: DriverState, report: WalkReport, echoes: seq<Echo>,
                                      current: Pose, i: nat)
    requires WellFormed(plan) && Blank(report) && i <= |echoes|
    ensures match ScanEchoes(rig, plan, s, report, echoes, current, i)
            case Leave(exit) =>
              && exit.Returned? && EndedByForce(plan, exit.value) && exit.value.steps == report.steps
              && exit.state.readings == s.readings && exit.state.submissions == s.submissions
              && exists j :: i <= j < |echoes| && EchoForces(plan, echoes[j])
            case Continue((next, seen)) =>
              && Blank(seen) && seen.steps == report.steps && next.permit == s.permit
              && next.readings == s.readings && next.submissions == s.submissions
              && forall j :: i <= j < |echoes| ==> !EchoForces(plan, echoes[j])
    decreases |echoes| - i
  {
    hide Problems, WatchedForce, Feels, Stop, RaiseForces, Blank, EndedByForce;
    if i < |echoes| {
      EchoMeans(rig, plan, s, report, echoes[i], current);
      hide ScanEcho, EchoForces;
      match ScanEcho(rig, plan, s, report, echoes[i], current)
      case Leave(_) =>
      case Continue((next, seen)) => EchoesMean(rig, plan, next, seen, echoes, current, i + 1);
    }
  }

  lemma EchoMeans(rig: Rig, plan: Plan, s: DriverState, report: WalkReport, echo: Echo, current: Pose)
    requires WellFormed(plan) && Blank(report)
    ensures match ScanEcho(rig, plan, s, report, echo, current)
            case Leave(exit) =>
              && exit.Returned? && EndedByForce(plan, exit.value) && exit.value.steps == report.steps
              && exit.state.readings == s.readings && exit.state.submissions == s.submissions
              && EchoForces(plan, echo)
            case Continue((next, seen)) =>
              && Blank(seen) && seen.steps == report.steps && next.permit == s.permit
              && next.readings == s.readings && next.submissions == s.submissions
              && !EchoForces(plan, echo)
  {
    hide Problems, WatchedForce, Feels, Stop, RaiseForces;
    if echo.force.Some? {
      var peaked := report.(maxForce := RaiseForces(report.maxForce, echo.force.value));
      var position := if echo.position.Some? then echo.position.value else current;
      StopMeans(plan, echo.force.value, position, peaked);
    }
  }

  /** What the answer to the k-th submission decides. */
  lemma DigestMeans(rig: Rig, plan: Plan, s: DriverState, report: WalkReport, receipt: Receipt, current: Pose, k: nat)
    requires WellFormed(plan) && Blank(report) && rig.submit(k) == Answered(receipt)
    ensures match Digest(rig, plan, Returned(s, receipt), report, current)
            case Leave(exit) =>
              && exit.Returned? && exit.value.steps == report.steps + 1
              && exit.state.readings == s.readings && exit.state.submissions == s.submissions
              && (if ReceiptForces(rig, plan, k) then EndedByForce(plan, exit.value) else EndedInTrouble(exit.value))
            case Continue((next, seen)) =>
              && !ReceiptForces(rig, plan, k)
              && Blank(seen) && seen.steps == report.steps + 1 && next.permit == s.permit
              && next.readings == s.readings && next.submissions == s.submissions
  {
    hide ScanEchoes, EchoFeels;
    if receipt.completed {
      EchoesMean(rig, plan, s, report.(steps := report.steps + 1), receipt.observations, current, 0);
    }
  }

  /** What one pass decides: the walk ends by force, at the target or in trouble, or goes on with one more step. */
  ghost predicate PassMeans(rig: Rig, plan: Plan, s: DriverState, report: WalkReport,
                            turn: Flow<Step<WalkReport>, (DriverState, Pose, WalkReport)>)
    requires WellFormed(plan)
  {
    match turn
    case Leave(exit) => exit.Returned? ==> Verdict(rig, plan, s, report.steps, exit.state, exit.value)
    case Continue((next, _, seen)) =>
      && !Forced(rig, plan, s, next) && !Arrives(rig, plan, s.readings)
      && Blank(seen) && seen.steps == report.steps + 1
      && next.readings == s.readings + 1 && next.submissions == s.submissions + 1
  }

  /** The report of a walk from `s` to `t`, which had `steps` steps before. */
  ghost predicate Verdict(rig: Rig, plan: Plan, s: DriverState, steps: nat, t: DriverState, report: WalkReport)
    requires WellFormed(plan)
  {
    && s.readings <= t.readings && s.submissions <= t.submissions
    && report.steps == steps + t.submissions - s.submissions
    && (if Forced(rig, plan, s, t) then EndedByForce(plan, report)
        else if Arrived(rig, plan, s, t)
        then EndedAtTarget(report) && report.finalPosition == Some(rig.read(t.readings - 1).position)
        else EndedInTrouble(report))
  }

  /** One reading and no command. */
  lemma FeltByReading(rig: Rig, plan: Plan, s: DriverState, t: DriverState)
    requires t.readings == s.readings + 1 && t.submissions == s.submissions
    ensures Forced(rig, plan, s, t) <==> ReadingForces(rig, plan, s.readings)
  {
    hide ReadingFeels, ReceiptFeels;
  }

  /** One reading and one command. */
  lemma FeltByCommand(rig: Rig, plan: Plan, s: DriverState, t: DriverState)
    requires t.readings == s.readings + 1 && t.submissions == s.submissions + 1
    ensures Forced(rig, plan, s, t)
            <==> ReadingForces(rig, plan, s.readings) || ReceiptForces(rig, plan, s.submissions)
  {
    hide ReadingFeels, ReceiptFeels;
  }

  lemma SubmitMeans(rig: Rig, s: DriverState, values: Pose, current: Pose)
    ensures match Submit(rig, s, values, current)
            case Raised(_, _) => true
            case Returned(next, receipt) =>
              && rig.submit(s.submissions) == Answered(receipt) && next.permit == s.permit
              && next.readings == s.readings && next.submissions == s.submissions + 1
  {
    hide SandboxSafe;
  }

  lemma TurnMeans(rig: Rig, plan: Plan, s: DriverState, last: Option<Pose>, report: WalkReport)
    requires WellFormed(plan) && Blank(report)
    ensures PassMeans(rig, plan, s, report, Turn(rig, plan, s, last, report))
  {
    hide Decide, Submit, Digest, NextWaypoint, Blank, EndedByForce, EndedAtTarget, EndedInTrouble, Forced,
         ReadingForces, ReceiptForces, Arrives;
    var reading := rig.read(s.readings);
    if reading.Observed? {
      var read := s.(readings := s.readings + 1);
      DecideMeans(rig, plan, read, report, reading, s.readings);
      match Decide(rig, plan, read, report, reading)
      case Leave(exit) => FeltByReading(rig, plan, s, exit.state);
      case Continue((scanned, seen)) =>
        var from := if last.Some? then last.value else reading.position;
        var waypoint := NextWaypoint(plan, from, reading.position, Window(scanned.permit));
        AnswerMeans(rig, plan, s, scanned, seen, waypoint, reading.position);
    }
  }

  lemma AnswerMeans(rig: Rig, plan: Plan, s: DriverState, scanned: DriverState, seen: WalkReport, waypoint: Pose,
                    current: Pose)
    requires WellFormed(plan) && Blank(seen)
    requires scanned.readings == s.readings + 1 && scanned.submissions == s.submissions
    requires !ReadingForces(rig, plan, s.readings) && !Arrives(rig, plan, s.readings)
    ensures match Digest(rig, plan, Submit(rig, scanned, waypoint, current), seen, current)
            case Leave(exit) => exit.Returned? ==> Verdict(rig, plan, s, seen.steps, exit.state, exit.value)
            case Continue((next, stepped)) =>
              && !Forced(rig, plan, s, next)
              && Blank(stepped) && stepped.steps == seen.steps + 1
              && next.readings == s.readings + 1 && next.submissions == s.submissions + 1
  {
    SubmitMeans(rig, scanned, waypoint, current);
    hide Submit, Blank, EndedByForce, EndedAtTarget, EndedInTrouble, Forced, ReadingForces, ReceiptForces, Arrives;
    match Submit(rig, scanned, waypoint, current)
    case Raised(_, _) =>
    case Returned(sent, receipt) =>
      DigestMeans(rig, plan, sent, seen, receipt, current, s.submissions);
      hide Digest;
      var flow := Digest(rig, plan, Returned(sent, receipt), seen, current);
      FeltByCommand(rig, plan, s, if flow.Leave? then flow.exit.state else flow.next.0);
  }

  // ---------- The whole walk ----------

  lemma FeltOnwards(rig: Rig, plan: Plan, s: DriverState, t: DriverState, u: DriverState)
    requires s.readings <= t.readings <= u.readings && s.submissions <= t.submissions <= u.submissions
    ensures Forced(rig, plan, s, u) <==> Forced(rig, plan, s, t) || Forced(rig, plan, t, u)
  {
    hide ReadingFeels, ReceiptFeels;
  }

  /** After a pass that found nothing, the verdict on the rest is the verdict on the whole. */
  lemma VerdictOnwards(rig: Rig, plan: Plan, s: DriverState, steps: nat, t: DriverState, u: DriverState,
                       report: WalkReport)
    requires WellFormed(plan) && Verdict(rig, plan, t, steps + 1, u, report)
    requires t.readings == s.readings + 1 && t.submissions == s.submissions + 1
    requires !Forced(rig, plan, s, t) && !Arrives(rig, plan, s.readings)
    ensures Verdict(rig, plan, s, steps, u, report)
  {
    hide Forced, Arrives, EndedByForce, EndedAtTarget, EndedInTrouble;
    FeltOnwards(rig, plan, s, t, u);
  }

  lemma NothingFelt(rig: Rig, plan: Plan, s: DriverState)
    ensures !Forced(rig, plan, s, s)
  {
  }

  lemma CapMeans(rig: Rig, plan: Plan, s: DriverState, report: WalkReport)
    requires WellFormed(plan) && Blank(report)
    ensures Verdict(rig, plan, s, report.steps, s, report.(problems := report.problems + [WaypointCapExceeded]))
  {
    NothingFelt(rig, plan, s);
    hide Forced;
  }

  lemma {:induction false} WalkFromMeans(rig: Rig, plan: Plan, s: DriverState, last: Option<Pose>, report: WalkReport,
                                         left: nat)
    requires WellFormed(plan) && Blank(report)
    ensures var step := WalkFrom(rig, plan, s, last, report, left);
            step.Returned? ==> Verdict(rig, plan, s, report.steps, step.state, step.value)
    decreases left
  {
    hide Turn, Blank, Verdict, Forced, Arrives;
    if left == 0 {
      CapMeans(rig, plan, s, report);
    } else {
      TurnMeans(rig, plan, s, last, report);
      match Turn(rig, plan, s, last, report)
      case Leave(_) =>
      case Continue((next, waypoint, stepped)) =>
        WalkFromMeans(rig, plan, next, Some(waypoint), stepped, left - 1);
        var step := WalkFrom(rig, plan, next, Some(waypoint), stepped, left - 1);
        if step.Returned? {
          VerdictOnwards(rig, plan, s, report.steps, next, step.state, step.value);
        }
    }
  }

  /** What the report of every walk that returns means. It ends by force exactly if a scanned force has reached the
      limit: with `contact` set if the walk stops on contact, with `overContactAbort` set otherwise. Else it has
      reached the target exactly if its last reading says so, and then reports that position. In every other case it
      reports problems. Its steps are the commands it has submitted. */
  lemma WalkReportMeans(rig: Rig, plan: Plan, s: DriverState)
    requires WellFormed(plan)
    ensures var step := Walk(rig, plan, s);
            step.Returned? ==> Verdict(rig, plan, s, 0, step.state, step.value)
  {
    hide WalkFrom, Verdict, Forced, Arrived;
    var started := s.(journal := s.journal + [WalkStarted]);
    WalkFromMeans(rig, plan, started, None, EMPTY_REPORT, WALK_CAP);
    var step := WalkFrom(rig, plan, started, None, EMPTY_REPORT, WALK_CAP);
    if step.Returned? {
      SameStart(rig, plan, started, s, step.state, step.value);
    }
  }

  lemma SameStart(rig: Rig, plan: Plan, s: DriverState, other: DriverState, t: DriverState, report: WalkReport)
    requires WellFormed(plan) && s.readings == other.readings && s.submissions == other.submissions
    requires Verdict(rig, plan, s, 0, t, report)
    ensures Verdict(rig, plan, other, 0, t, report)
  {
    hide ReadingFeels, ReceiptFeels, Arrives, EndedByForce, EndedAtTarget, EndedInTrouble;
  }

  // ---------- The greatest forces ----------

  /** The report's greatest forces are no less than those of a pose of forces. */
  predicate Covers(report: WalkReport, force: Pose) {
    forall c: Channel :: Abs(force[c]) <= report.maxForce[c]
  }

  predicate Grows(report: WalkReport, seen: WalkReport) {
    forall c: Channel :: report.maxForce[c] <= seen.maxForce[c]
  }

  lemma GrowsOnwards(a: WalkReport, b: WalkReport, c: WalkReport)
    requires Grows(a, b) && Grows(b, c)
    ensures Grows(a, c)
    ensures forall force: Pose :: Covers(b, force) ==> Covers(c, force)
  {
  }

  lemma RaiseCovers(report: WalkReport, force: Pose, seen: WalkReport)
    requires seen.maxForce == RaiseForces(report.maxForce, force)
    ensures Grows(report, seen) && Covers(seen, force)
  {
  }

  lemma DecideCovers(rig: Rig, plan: Plan, s: DriverState, report: WalkReport, reading: Reading)
    requires WellFormed(plan) && reading.Observed?
    ensures var flow := Decide(rig, plan, s, report, reading);
            var seen := if flow.Leave? then flow.exit.value else flow.next.1;
            Grows(report, seen) && Covers(seen, reading.force)
  {
    hide Problems, WatchedForce, Converged, RaiseForces;
    var seen := report.(maxForce := RaiseForces(report.maxForce, reading.force));
    RaiseCovers(report, reading.force, seen);
    hide Grows, Covers;
    var flow := Decide(rig, plan, s, report, reading);
    RaiseCovers(report, reading.force, if flow.Leave? then flow.exit.value else flow.next.1);
  }

  lemma EchoGrows(rig: Rig, plan: Plan, s: DriverState, report: WalkReport, echo: Echo, current: Pose)
    requires WellFormed(plan)
    ensures var flow := ScanEcho(rig, plan, s, report, echo, current);
            var seen := if flow.Leave? then flow.exit.value else flow.next.1;
            flow.Leave? ==> flow.exit.Returned?
    ensures var flow := ScanEcho(rig, plan, s, report, echo, current);
            Grows(report, if flow.Leave? then flow.exit.value else flow.next.1)
  {
    hide Problems, WatchedForce, RaiseForces, Grows, Covers, Scan;
    var flow := ScanEcho(rig, plan, s, report, echo, current);
    var seen := if flow.Leave? then flow.exit.value else flow.next.1;
    if echo.force.Some? {
      RaiseCovers(report, echo.force.value, seen);
    } else {
      SameForces(report, seen);
    }
  }

  lemma SameForces(report: WalkReport, seen: WalkReport)
    requires seen.maxForce == report.maxForce
    ensures Grows(report, seen)
  {
  }

  lemma {:induction false} EchoesGrow(rig: Rig, plan: Plan, s: DriverState, report: WalkReport, echoes: seq<Echo>,
                                      current: Pose, i: nat)
    requires WellFormed(plan) && i <= |echoes|
    ensures var flow := ScanEchoes(rig, plan, s, report, echoes, current, i);
            && (flow.Leave? ==> flow.exit.Returned?)
            && Grows(report, if flow.Leave? then flow.exit.value else flow.next.1)
    decreases |echoes| - i
  {
    hide ScanEcho, Grows, Covers;
    if i == |echoes| {
      SameForces(report, report);
    } else {
      EchoGrows(rig, plan, s, report, echoes[i], current);
      match ScanEcho(rig, plan, s, report, echoes[i], current)
      case Leave(_) =>
      case Continue((next, seen)) =>
        EchoesGrow(rig, plan, next, seen, echoes, current, i + 1);
        var flow := ScanEchoes(rig, plan, next, seen, echoes, current, i + 1);
        GrowsOnwards(report, seen, if flow.Leave? then flow.exit.value else flow.next.1);
    }
  }

  lemma DigestGrows(rig: Rig, plan: Plan, answer: Step<Receipt>, report: WalkReport, current: Pose)
    requires WellFormed(plan)
    ensures var flow := Digest(rig, plan, answer, report, current);
            && (flow.Leave? && flow.exit.Returned? ==> Grows(report, flow.exit.value))
            && (flow.Continue? ==> Grows(report, flow.next.1))
  {
    hide ScanEchoes, Grows, Covers;
    if answer.Returned? {
      var stepped := report.(steps := report.steps + 1);
      SameForces(report, stepped);
      if answer.value.completed {
        EchoesGrow(rig, plan, answer.state, stepped, answer.value.observations, current, 0);
        var flow := ScanEchoes(rig, plan, answer.state, stepped, answer.value.observations, current, 0);
        GrowsOnwards(report, stepped, if flow.Leave? then flow.exit.value else flow.next.1);
      } else {
        SameForces(report, Digest(rig, plan, answer, report, current).exit.value);
      }
    }
  }

  /** The report after a pass covers the reading of the pass. */
  ghost predicate PassCovers(rig: Rig, s: DriverState, report: WalkReport, seen: WalkReport) {
    Grows(report, seen) && (rig.read(s.readings).Observed? ==> Covers(seen, rig.read(s.readings).force))
  }

  lemma TurnCovers(rig: Rig, plan: Plan, s: DriverState, last: Option<Pose>, report: WalkReport)
    requires WellFormed(plan)
    ensures match Turn(rig, plan, s, last, report)
            case Leave(exit) => exit.Returned? ==> PassCovers(rig, s, report, exit.value)
            case Continue((_, _, seen)) => PassCovers(rig, s, report, seen)
  {
    hide Decide, Submit, Digest, NextWaypoint, Grows, Covers;
    var reading := rig.read(s.readings);
    if reading.Observed? {
      var read := s.(readings := s.readings + 1);
      DecideCovers(rig, plan, read, report, reading);
      match Decide(rig, plan, read, report, reading)
      case Leave(_) =>
      case Continue((scanned, seen)) =>
        var from := if last.Some? then last.value else reading.position;
        var waypoint := NextWaypoint(plan, from, reading.position, Window(scanned.permit));
        var answer := Submit(rig, scanned, waypoint, reading.position);
        DigestGrows(rig, plan, answer, seen, reading.position);
        var flow := Digest(rig, plan, answer, seen, reading.position);
        if flow.Continue? {
          GrowsOnwards(report, seen, flow.next.1);
        } else if flow.exit.Returned? {
          GrowsOnwards(report, seen, flow.exit.value);
        }
    }
  }

  /** The report covers every reading between two states. */
  ghost predicate CoversAll(rig: Rig, s: DriverState, t: DriverState, report: WalkReport) {
    forall n: nat :: s.readings <= n < t.readings && rig.read(n).Observed? ==> Covers(report, rig.read(n).force)
  }

  lemma {:induction false} WalkFromCovers(rig: Rig, plan: Plan, s: DriverState, last: Option<Pose>, report: WalkReport,
                                          left: nat)
    requires WellFormed(plan) && Blank(report)
    ensures var step := WalkFrom(rig, plan, s, last, report, left);
            step.Returned? ==> Grows(report, step.value) && CoversAll(rig, s, step.state, step.value)
    decreases left
  {
    hide Turn, Grows, Covers, Verdict, Blank, Forced, Arrives;
    if left == 0 {
      SameForces(report, report.(problems := report.problems + [WaypointCapExceeded]));
    } else {
      TurnCovers(rig, plan, s, last, report);
      TurnMeans(rig, plan, s, last, report);
      OneReading(rig, plan, s, last, report);
      match Turn(rig, plan, s, last, report)
      case Leave(_) =>
      case Continue((next, waypoint, stepped)) =>
        WalkFromCovers(rig, plan, next, Some(waypoint), stepped, left - 1);
        var step := WalkFrom(rig, plan, next, Some(waypoint), stepped, left - 1);
        if step.Returned? {
          GrowsOnwards(report, stepped, step.value);
        }
    }
  }

  /** A pass takes one reading. */
  lemma OneReading(rig: Rig, plan: Plan, s: DriverState, last: Option<Pose>, report: WalkReport)
    requires WellFormed(plan) && Blank(report)
    ensures match Turn(rig, plan, s, last, report)
            case Leave(exit) => exit.Returned? ==> exit.state.readings == s.readings + 1
            case Continue((next, _, _)) => next.readings == s.readings + 1
  {
    hide Decide, Submit, Digest, NextWaypoint, Blank, EndedByForce, EndedAtTarget, EndedInTrouble, Forced,
         ReadingForces, ReceiptForces, Arrives;
    var reading := rig.read(s.readings);
    if reading.Observed? {
      var read := s.(readings := s.readings + 1);
      DecideMeans(rig, plan, read, report, reading, s.readings);
      match Decide(rig, plan, read, report, reading)
      case Leave(_) =>
      case Continue((scanned, seen)) =>
        var from := if last.Some? then last.value else reading.position;
        var waypoint := NextWaypoint(plan, from, reading.position, Window(scanned.permit));
        SubmitMeans(rig, scanned, waypoint, reading.position);
        DigestRaised(rig, plan, Submit(rig, scanned, waypoint, reading.position), seen, reading.position);
        match Submit(rig, scanned, waypoint, reading.position)
        case Raised(_, _) =>
        case Returned(sent, receipt) =>
          DigestMeans(rig, plan, sent, seen, receipt, reading.position, scanned.submissions);
    }
  }

  lemma DigestRaised(rig: Rig, plan: Plan, answer: Step<Receipt>, report: WalkReport, current: Pose)
    requires WellFormed(plan)
    ensures answer.Raised? ==>
              Digest(rig, plan, answer, report, current) == Leave(Raised(answer.state, answer.error))
  {
    hide ScanEchoes;
  }

  /** No reading of a walk shows more force than its report. */
  lemma WalkCovers(rig: Rig, plan: Plan, s: DriverState)
    requires WellFormed(plan)
    ensures var step := Walk(rig, plan, s);
            step.Returned? ==> CoversAll(rig, s, step.state, step.value)
  {
    hide WalkFrom, Covers, Grows;
    var started := s.(journal := s.journal + [WalkStarted]);
    WalkFromCovers(rig, plan, started, None, EMPTY_REPORT, WALK_CAP);
  }
}
