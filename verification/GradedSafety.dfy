/** Whole-run safety accounting of the graded-execution driver, over every rig. */
module GradedSafety {
  import opened Arithmetic
  import opened Wrappers
  import opened GradedModel

  // ---------- What the journal says ----------

  predicate IsProtection(p: Problem) {
    p.StatusProtection? || p.TemperatureStop?
  }

  function CountProtection(problems: seq<Problem>): nat {
    if problems == [] then 0 else (if IsProtection(problems[0]) then 1 else 0) + CountProtection(problems[1..])
  }

  function CountForce(problems: seq<Problem>): nat {
    if problems == [] then 0 else (if problems[0].ForceHardLimit? then 1 else 0) + CountForce(problems[1..])
  }

  function Init(journal: seq<Event>): seq<Event>
    requires journal != []
  {
    journal[..|journal| - 1]
  }

  function Final(journal: seq<Event>): Event
    requires journal != []
  {
    journal[|journal| - 1]
  }

  /** Protection trips in all observations scanned so far. */
  function ProtectionTrips(journal: seq<Event>): nat {
    if journal == [] then 0
    else ProtectionTrips(Init(journal))
         + (if Final(journal).Scanned? then CountProtection(Final(journal).problems) else 0)
  }

  /** Hard-limit force trips in all observations scanned so far. */
  function ForceTrips(journal: seq<Event>): nat {
    if journal == [] then 0
    else ForceTrips(Init(journal)) + (if Final(journal).Scanned? then CountForce(Final(journal).problems) else 0)
  }

  /** All trips in all observations scanned so far. */
  function TripCount(journal: seq<Event>): nat {
    if journal == [] then 0
    else TripCount(Init(journal)) + (if Final(journal).Scanned? then |Final(journal).problems| else 0)
  }

  predicate WalkTrip(event: Event) {
    event.Scanned? && event.walking && event.problems != []
  }

  /** Some observation scanned by a walk has tripped. */
  predicate WalkTripped(journal: seq<Event>) {
    exists i :: 0 <= i < |journal| && WalkTrip(journal[i])
  }

  /** No observation at all, of a walk or of a receipt, has tripped. */
  predicate NoTrips(journal: seq<Event>) {
    forall i :: 0 <= i < |journal| && journal[i].Scanned? ==> journal[i].problems == []
  }

  /** No trial starts after a tripped walk observation. */
  predicate NoTrialAfterTrip(journal: seq<Event>) {
    forall i, j :: 0 <= i < j < |journal| && WalkTrip(journal[i]) ==> !journal[j].TrialStarted?
  }

  /** The walks started after the first tripped walk observation. */
  function WalksAfterTrip(journal: seq<Event>): nat {
    if journal == [] then 0
    else WalksAfterTrip(Init(journal)) + (if Final(journal).WalkStarted? && WalkTripped(Init(journal)) then 1 else 0)
  }

  /** The driver's safety fields say exactly what has been scanned. */
  predicate Accounted(s: DriverState) {
    && s.protectionEvents == ProtectionTrips(s.journal)
    && s.emergencyOverContact == ForceTrips(s.journal)
    && s.protectionEvents + s.emergencyOverContact == TripCount(s.journal)
    && (s.aborted <==> WalkTripped(s.journal))
    && NoTrialAfterTrip(s.journal)
  }

  // ---------- Counting one observation ----------

  lemma {:induction false} CountsConcat(a: seq<Problem>, b: seq<Problem>)
    ensures CountProtection(a + b) == CountProtection(a) + CountProtection(b)
    ensures CountForce(a + b) == CountForce(a) + CountForce(b)
  {
    if a == [] {
      assert a + b == b;
    } else {
      assert (a + b)[1..] == a[1..] + b;
      CountsConcat(a[1..], b);
    }
  }

  lemma {:induction false} StatusCounts(status: seq<bv16>, i: nat)
    requires i <= |status|
    ensures CountProtection(StatusProblems(status, i)) == |StatusProblems(status, i)|
    ensures CountForce(StatusProblems(status, i)) == 0
    decreases |status| - i
  {
    hide IsProtecting;
    if i < |status| {
      StatusCounts(status, i + 1);
      var tail := StatusProblems(status, i + 1);
      CountsConcat([StatusProtection(i, status[i])], tail);
      assert [] + tail == tail;
      assert [StatusProtection(i, status[i])][1..] == [];
    }
  }

  lemma {:induction false} ForceCounts(force: seq<real>, i: nat)
    requires i <= |force|
    ensures CountForce(ForceProblems(force, i)) == |ForceProblems(force, i)|
    ensures CountProtection(ForceProblems(force, i)) == 0
    decreases |force| - i
  {
    if i < |force| {
      ForceCounts(force, i + 1);
      var tail := ForceProblems(force, i + 1);
      CountsConcat([ForceHardLimit(i, force[i])], tail);
      assert [] + tail == tail;
      assert [ForceHardLimit(i, force[i])][1..] == [];
    }
  }

  lemma {:induction false} TemperatureCounts(temperature: seq<real>, stop: real, i: nat)
    requires i <= |temperature|
    ensures CountProtection(TemperatureProblems(temperature, stop, i)) == |TemperatureProblems(temperature, stop, i)|
    ensures CountForce(TemperatureProblems(temperature, stop, i)) == 0
    decreases |temperature| - i
  {
    if i < |temperature| {
      TemperatureCounts(temperature, stop, i + 1);
      var tail := TemperatureProblems(temperature, stop, i + 1);
      CountsConcat([TemperatureStop(i, temperature[i])], tail);
      assert [] + tail == tail;
      assert [TemperatureStop(i, temperature[i])][1..] == [];
    }
  }

  lemma ProblemCounts(rig: Rig, snapshot: Snapshot)
    ensures CountProtection(Problems(rig, snapshot)) ==
            |StatusProblems(snapshot.status, 0)|
            + |TemperatureProblems(snapshot.temperature, rig.calibration.temperatureStop, 0)|
    ensures CountForce(Problems(rig, snapshot)) == |ForceProblems(snapshot.force, 0)|
    ensures |Problems(rig, snapshot)| == CountProtection(Problems(rig, snapshot)) + CountForce(Problems(rig, snapshot))
  {
    var a, b := StatusProblems(snapshot.status, 0), ForceProblems(snapshot.force, 0);
    var c := TemperatureProblems(snapshot.temperature, rig.calibration.temperatureStop, 0);
    StatusCounts(snapshot.status, 0);
    ForceCounts(snapshot.force, 0);
    TemperatureCounts(snapshot.temperature, rig.calibration.temperatureStop, 0);
    hide StatusProblems, ForceProblems, TemperatureProblems, CountProtection, CountForce;
    CountsConcat(a, b);
    CountsConcat(a + b, c);
  }

  lemma {:induction false} StatusTrips(status: seq<bv16>, i: nat)
    requires i <= |status|
    ensures StatusProblems(status, i) != [] <==> exists c :: i <= c < |status| && IsProtecting(status[c])
    decreases |status| - i
  {
    hide IsProtecting;
    if i < |status| {
      StatusTrips(status, i + 1);
    }
  }

  lemma {:induction false} ForceTripsAt(force: seq<real>, i: nat)
    requires i <= |force|
    ensures ForceProblems(force, i) != [] <==> exists c :: i <= c < |force| && force[c] >= FORCE_HARD_LIMIT_G
    decreases |force| - i
  {
    if i < |force| {
      ForceTripsAt(force, i + 1);
    }
  }

  lemma {:induction false} TemperatureTrips(temperature: seq<real>, stop: real, i: nat)
    requires i <= |temperature|
    ensures TemperatureProblems(temperature, stop, i) != [] <==>
            exists c :: i <= c < |temperature| && temperature[c] >= stop
    decreases |temperature| - i
  {
    if i < |temperature| {
      TemperatureTrips(temperature, stop, i + 1);
    }
  }

  /** The protection bits: over-current 0x04, force 0x08, temperature 0x10. Running and in-position bits do not
      count. */
  lemma ProtectingBits(bits: bv16)
    ensures IsProtecting(bits) <==> bits & 0x4 != 0 || bits & 0x8 != 0 || bits & 0x10 != 0
  {
  }

  /** An observation trips exactly when some channel has a protection bit set, its force at the hard limit, or its
      temperature at the stop. */
  lemma SnapshotTrips(rig: Rig, snapshot: Snapshot)
    ensures Problems(rig, snapshot) != [] <==>
            || (exists c :: 0 <= c < |snapshot.status| && IsProtecting(snapshot.status[c]))
            || (exists c :: 0 <= c < |snapshot.force| && snapshot.force[c] >= 300.0)
            || (exists c :: 0 <= c < |snapshot.temperature|
                            && snapshot.temperature[c] >= rig.calibration.temperatureStop)
  {
    StatusTrips(snapshot.status, 0);
    ForceTripsAt(snapshot.force, 0);
    TemperatureTrips(snapshot.temperature, rig.calibration.temperatureStop, 0);
  }

  // ---------- Appending one event ----------

  lemma Appended(journal: seq<Event>, event: Event)
    ensures var next := journal + [event];
            && Init(next) == journal && Final(next) == event
            && (WalkTripped(next) <==> WalkTripped(journal) || WalkTrip(event))
            && (NoTrialAfterTrip(next) <==>
                  NoTrialAfterTrip(journal) && (event.TrialStarted? ==> !WalkTripped(journal)))
            && (NoTrips(next) <==> NoTrips(journal) && (event.Scanned? ==> event.problems == []))
  {
    var next := journal + [event];
    assert Init(next) == journal;
    if i :| 0 <= i < |journal| && WalkTrip(journal[i]) {
      assert next[i] == journal[i];
    }
    assert next[|journal|] == event;
    assert forall i :: 0 <= i < |journal| ==> next[i] == journal[i];
  }

  /** What a step of a walk may do to the state: scan and command, keeping the books. */
  ghost predicate Continues(s: DriverState, t: DriverState) {
    && t.permit == s.permit
    && s.journal <= t.journal
    && (s.aborted ==> t.aborted)
    && (Accounted(s) ==> Accounted(t))
    && (Accounted(s) ==> WalksAfterTrip(t.journal) == WalksAfterTrip(s.journal))
  }

  lemma ContinuesReflexive(s: DriverState)
    ensures Continues(s, s)
  {
  }

  lemma ContinuesTransitive(s: DriverState, t: DriverState, u: DriverState)
    requires Continues(s, t) && Continues(t, u)
    ensures Continues(s, u)
  {
  }

  /** A receipt observation: the counters move, `aborted` does not. */
  lemma ReceiptScanContinues(rig: Rig, s: DriverState, snapshot: Snapshot)
    ensures Continues(s, Scan(rig, s, snapshot, false))
    ensures Scan(rig, s, snapshot, false).aborted == s.aborted
  {
    ProblemCounts(rig, snapshot);
    Appended(s.journal, Scanned(false, Problems(rig, snapshot)));
    hide Problems;
  }

  /** A walk observation keeps the books provided `aborted` is set when it trips. */
  lemma WalkScanContinues(rig: Rig, s: DriverState, snapshot: Snapshot)
    ensures var next := Scan(rig, s, snapshot, true);
            && (Problems(rig, snapshot) == [] ==> Continues(s, next))
            && (Problems(rig, snapshot) != [] ==> Continues(s, next.(aborted := true)))
  {
    ProblemCounts(rig, snapshot);
    Appended(s.journal, Scanned(true, Problems(rig, snapshot)));
    hide Problems;
  }

  lemma SubmitContinues(rig: Rig, s: DriverState, values: Pose, current: Pose)
    ensures Continues(s, Submit(rig, s, values, current).state)
    ensures Submit(rig, s, values, current).state.aborted == s.aborted
  {
    if s.permit.Some? {
      Appended(s.journal, Commanded(values, s.permit.value));
    }
  }

  // ---------- A walk ----------

  ghost predicate FlowContinues(s: DriverState, flow: Flow<Step<WalkReport>, (DriverState, WalkReport)>) {
    match flow
    case Leave(exit) => Continues(s, exit.state)
    case Continue((next, _)) => Continues(s, next)
  }

  /** A report that is already marked reached leaves the walk without touching `aborted`. */
  ghost predicate ReachedUntripped(s: DriverState, step: Step<WalkReport>) {
    step.Returned? && step.value.reached ==> step.state.aborted == s.aborted
  }

  ghost predicate FlowUntripped(s: DriverState, flow: Flow<Step<WalkReport>, (DriverState, WalkReport)>) {
    match flow
    case Leave(exit) => ReachedUntripped(s, exit)
    case Continue((next, report)) => next.aborted == s.aborted && !report.reached
  }

  lemma EchoContinues(rig: Rig, plan: Plan, s: DriverState, report: WalkReport, echo: Echo, current: Pose)
    requires WellFormed(plan)
    ensures FlowContinues(s, ScanEcho(rig, plan, s, report, echo, current))
    ensures !report.reached ==> FlowUntripped(s, ScanEcho(rig, plan, s, report, echo, current))
  {
    ReceiptScanContinues(rig, s, EchoSnapshot(echo));
    hide Continues, Scan;
  }

  lemma {:induction false} EchoesContinue(rig: Rig, plan: Plan, s: DriverState, report: WalkReport,
                                          echoes: seq<Echo>, current: Pose, i: nat)
    requires WellFormed(plan) && i <= |echoes|
    ensures FlowContinues(s, ScanEchoes(rig, plan, s, report, echoes, current, i))
    ensures !report.reached ==> FlowUntripped(s, ScanEchoes(rig, plan, s, report, echoes, current, i))
    decreases |echoes| - i
  {
    if i < |echoes| {
      EchoContinues(rig, plan, s, report, echoes[i], current);
      match ScanEcho(rig, plan, s, report, echoes[i], current)
      case Leave(_) =>
      case Continue((next, peaked)) =>
        EchoesContinue(rig, plan, next, peaked, echoes, current, i + 1);
        match ScanEchoes(rig, plan, next, peaked, echoes, current, i + 1)
        case Leave(exit) => ContinuesTransitive(s, next, exit.state);
        case Continue((last, _)) => ContinuesTransitive(s, next, last);
    }
  }

  lemma DecideContinues(rig: Rig, plan: Plan, s: DriverState, report: WalkReport, reading: Reading)
    requires WellFormed(plan) && reading.Observed? && !report.reached
    ensures FlowContinues(s, Decide(rig, plan, s, report, reading))
    ensures FlowUntripped(s, Decide(rig, plan, s, report, reading))
  {
    WalkScanContinues(rig, s, SnapshotOf(reading));
    hide Continues, Problems, WatchedForce, Converged;
  }

  lemma DigestContinues(rig: Rig, plan: Plan, s: DriverState, answer: Step<Receipt>, report: WalkReport, current: Pose)
    requires WellFormed(plan) && !report.reached
    requires Continues(s, answer.state) && answer.state.aborted == s.aborted
    ensures FlowContinues(s, Digest(rig, plan, answer, report, current))
    ensures FlowUntripped(s, Digest(rig, plan, answer, report, current))
  {
    hide Continues;
    if answer.Returned? && answer.value.completed {
      var stepped := report.(steps := report.steps + 1);
      var echoes := answer.value.observations;
      EchoesContinue(rig, plan, answer.state, stepped, echoes, current, 0);
      match ScanEchoes(rig, plan, answer.state, stepped, echoes, current, 0)
      case Leave(exit) => ContinuesTransitive(s, answer.state, exit.state);
      case Continue((last, _)) => ContinuesTransitive(s, answer.state, last);
    }
  }

  ghost predicate TurnContinues(s: DriverState, turn: Flow<Step<WalkReport>, (DriverState, Pose, WalkReport)>) {
    match turn
    case Leave(exit) => Continues(s, exit.state) && ReachedUntripped(s, exit)
    case Continue((next, _, report)) => Continues(s, next) && next.aborted == s.aborted && !report.reached
  }

  lemma ReadContinues(s: DriverState)
    ensures Continues(s, s.(readings := s.readings + 1))
  {
  }

  lemma TurnKeepsBooks(rig: Rig, plan: Plan, s: DriverState, last: Option<Pose>, report: WalkReport)
    requires WellFormed(plan) && !report.reached
    ensures TurnContinues(s, Turn(rig, plan, s, last, report))
  {
    hide Continues, Decide, Submit, Digest, NextWaypoint;
    var reading := rig.read(s.readings);
    var read := s.(readings := s.readings + 1);
    ReadContinues(s);
    if reading.Observed? {
      DecideContinues(rig, plan, read, report, reading);
      match Decide(rig, plan, read, report, reading)
      case Leave(exit) => ContinuesTransitive(s, read, exit.state);
      case Continue((scanned, seen)) =>
        var from := if last.Some? then last.value else reading.position;
        var waypoint := NextWaypoint(plan, from, reading.position, Window(scanned.permit));
        var answer := Submit(rig, scanned, waypoint, reading.position);
        ContinuesTransitive(s, read, scanned);
        SubmitContinues(rig, scanned, waypoint, reading.position);
        DigestContinues(rig, plan, scanned, answer, seen, reading.position);
        match Digest(rig, plan, answer, seen, reading.position)
        case Leave(exit) => ContinuesTransitive(s, scanned, exit.state);
        case Continue((next, _)) => ContinuesTransitive(s, scanned, next);
    }
  }

  lemma {:induction false} WalkFromContinues(rig: Rig, plan: Plan, s: DriverState, last: Option<Pose>,
                                             report: WalkReport, left: nat)
    requires WellFormed(plan) && !report.reached
    ensures Continues(s, WalkFrom(rig, plan, s, last, report, left).state)
    ensures ReachedUntripped(s, WalkFrom(rig, plan, s, last, report, left))
    decreases left
  {
    hide Continues, Turn;
    if left == 0 {
      ContinuesReflexive(s);
    } else {
      TurnKeepsBooks(rig, plan, s, last, report);
      match Turn(rig, plan, s, last, report)
      case Leave(_) =>
      case Continue((next, waypoint, stepped)) =>
        WalkFromContinues(rig, plan, next, Some(waypoint), stepped, left - 1);
        ContinuesTransitive(s, next, WalkFrom(rig, plan, next, Some(waypoint), stepped, left - 1).state);
    }
  }

  /** One walk: it may be started at any time, but a walk started after a trip is counted. */
  lemma WalkKeepsBooks(rig: Rig, plan: Plan, s: DriverState)
    requires WellFormed(plan) && Accounted(s)
    ensures var step := Walk(rig, plan, s);
            && Accounted(step.state) && step.state.permit == s.permit && s.journal <= step.state.journal
            && (s.aborted ==> step.state.aborted)
            && WalksAfterTrip(step.state.journal) == WalksAfterTrip(s.journal) + (if s.aborted then 1 else 0)
            && ReachedUntripped(s, step)
  {
    var started := s.(journal := s.journal + [WalkStarted]);
    Appended(s.journal, WalkStarted);
    WalkFromContinues(rig, plan, started, None, EMPTY_REPORT, WALK_CAP);
    hide WalkFrom;
  }

  // ---------- Trials ----------

  /** What a trial that starts untripped leaves behind: kept books and at most one walk after the first trip. */
  ghost predicate TrialDone(s: DriverState, t: DriverState) {
    && Accounted(t) && t.permit == s.permit && s.journal <= t.journal
    && WalksAfterTrip(t.journal) <= 1
    && (!t.aborted ==> WalksAfterTrip(t.journal) == 0)
  }

  /** Before any trip no walk is counted. */
  lemma {:induction false} UntrippedCountsNone(journal: seq<Event>)
    requires !WalkTripped(journal)
    ensures WalksAfterTrip(journal) == 0
  {
    if journal != [] {
      assert forall i :: 0 <= i < |Init(journal)| ==> Init(journal)[i] == journal[i];
      UntrippedCountsNone(Init(journal));
    }
  }

  ghost predicate Ready(s: DriverState) {
    Accounted(s) && !s.aborted
  }

  lemma ReadyUntripped(s: DriverState)
    requires Accounted(s)
    ensures Ready(s) <==> !WalkTripped(s.journal)
  {
  }

  lemma ReadyCountsNone(s: DriverState)
    requires Ready(s)
    ensures WalksAfterTrip(s.journal) == 0
  {
    UntrippedCountsNone(s.journal);
  }

  /** Reading alone changes nothing the books record. */
  lemma ReadingKeepsReady(s: DriverState, readings: nat)
    requires Ready(s)
    ensures Ready(s.(readings := readings))
  {
  }

  lemma OutAndBackDone(rig: Rig, s: DriverState, index: nat, pose: Pose, base: Pose)
    requires Ready(s)
    ensures TrialDone(s, OutAndBack(rig, s, index, pose, base).state)
  {
    hide Walk, WalksAfterTrip, Accounted;
    ReadyCountsNone(s);
    WalkKeepsBooks(rig, HoldPlan(pose), s);
    var out := Walk(rig, HoldPlan(pose), s);
    if out.Returned? {
      WalkKeepsBooks(rig, HoldPlan(base), out.state);
    }
  }

  lemma OkContactDone(rig: Rig, s: DriverState, index: nat)
    requires Ready(s)
    ensures TrialDone(s, TrialOkContact(rig, s, index).state)
  {
    hide Walk, WalksAfterTrip, Accounted;
    ReadyCountsNone(s);
    var read := s.(readings := s.readings + 1);
    ReadingKeepsReady(s, s.readings + 1);
    if rig.read(s.readings).Observed? {
      WalkKeepsBooks(rig, HoldPlan(rig.coarse), read);
      var coarse := Walk(rig, HoldPlan(rig.coarse), read);
      if coarse.Returned? && coarse.value.reached {
        WalkKeepsBooks(rig, ApproachPlan(rig.floor), coarse.state);
        var approach := Walk(rig, ApproachPlan(rig.floor), coarse.state);
        if approach.Returned? {
          WalkKeepsBooks(rig, HoldPlan(rig.read(s.readings).position), approach.state);
        }
      }
    }
  }

  lemma NoopDone(rig: Rig, s: DriverState, index: nat)
    requires Ready(s)
    ensures TrialDone(s, TrialNoop(rig, s, index).state)
  {
    hide Accounted, WalksAfterTrip, Submit;
    var read := s.(readings := s.readings + 1);
    var again := s.(readings := s.readings + 2);
    ReadyCountsNone(s);
    ReadingKeepsReady(s, s.readings + 1);
    ReadingKeepsReady(s, s.readings + 2);
    if rig.read(s.readings).Observed? && rig.read(read.readings).Observed? {
      SubmitContinues(rig, again, OPEN_POSE, rig.read(read.readings).position);
      assert TrialNoop(rig, s, index).state == Submit(rig, again, OPEN_POSE, rig.read(read.readings).position).state;
    }
  }

  lemma SingleFingerDone(rig: Rig, s: DriverState, index: nat, delta: real)
    requires Ready(s)
    ensures TrialDone(s, TrialSingleFinger(rig, s, index, delta).state)
  {
    hide Accounted, WalksAfterTrip, OutAndBack;
    var read := s.(readings := s.readings + 1);
    ReadyCountsNone(s);
    ReadingKeepsReady(s, s.readings + 1);
    if rig.read(s.readings).Observed? {
      var base := rig.read(s.readings).position;
      OutAndBackDone(rig, read, index, base[3 := Max(0.0, base[3] - delta)], base);
    }
  }

  lemma GestureDone(rig: Rig, s: DriverState, index: nat)
    requires Ready(s)
    ensures TrialDone(s, TrialGesture(rig, s, index).state)
  {
    hide Accounted, WalksAfterTrip, OutAndBack, HalfClosed;
    var read := s.(readings := s.readings + 1);
    ReadyCountsNone(s);
    ReadingKeepsReady(s, s.readings + 1);
    if rig.read(s.readings).Observed? {
      var base := rig.read(s.readings).position;
      OutAndBackDone(rig, read, index, HalfClosed(rig.calibration, base), base);
    }
  }

  /** Every trial, whatever the rig does. */
  lemma TrialKeepsBooks(rig: Rig, level: Level, s: DriverState, index: nat)
    requires Ready(s)
    ensures TrialDone(s, Trial(rig, level, s, index).state)
  {
    hide TrialDone, Accounted;
    match level
    case Noop => NoopDone(rig, s, index);
    case Micro => SingleFingerDone(rig, s, index, 20.0);
    case Motion => SingleFingerDone(rig, s, index, 50.0);
    case Gesture => GestureDone(rig, s, index);
    case OkContact => OkContactDone(rig, s, index);
  }

  lemma StartTrial(level: Level, s: DriverState, i: nat)
    requires Ready(s)
    ensures Ready(s.(journal := s.journal + [TrialStarted(level, i)]))
  {
    Appended(s.journal, TrialStarted(level, i));
  }

  lemma {:induction false} TrialsKeepBooks(rig: Rig, level: Level, s: DriverState, done: seq<TrialResult>, i: nat)
    requires i <= Trials(level)
    requires Accounted(s) && WalksAfterTrip(s.journal) <= 1
    ensures var t := TrialsFrom(rig, level, s, done, i).state;
            Accounted(t) && t.permit == s.permit && s.journal <= t.journal && WalksAfterTrip(t.journal) <= 1
    decreases Trials(level) - i
  {
    hide Trial, WalksAfterTrip;
    if i < Trials(level) && !s.aborted {
      StartTrial(level, s, i);
      var started := s.(journal := s.journal + [TrialStarted(level, i)]);
      TrialKeepsBooks(rig, level, started, i);
      hide Accounted;
      match Trial(rig, level, started, i)
      case Raised(_, _) =>
      case Returned(next, result) => TrialsKeepBooks(rig, level, next, done + [result], i + 1);
    }
  }

  /** In a level, a further trial starts exactly when no walk observation has tripped so far: trips that were seen
      only in receipts do not count. */
  lemma NextTrialStartsIff(rig: Rig, level: Level, s: DriverState, done: seq<TrialResult>, i: nat)
    requires i < Trials(level) && Accounted(s) && WalksAfterTrip(s.journal) <= 1
    ensures var t := TrialsFrom(rig, level, s, done, i).state;
            s.journal + [TrialStarted(level, i)] <= t.journal <==> !WalkTripped(s.journal)
  {
    hide Trial, WalksAfterTrip, WalkTripped, NoTrialAfterTrip, ProtectionTrips, ForceTrips;
    if !s.aborted {
      StartTrial(level, s, i);
      var started := s.(journal := s.journal + [TrialStarted(level, i)]);
      TrialKeepsBooks(rig, level, started, i);
      match Trial(rig, level, started, i)
      case Raised(_, _) =>
      case Returned(next, result) => TrialsKeepBooks(rig, level, next, done + [result], i + 1);
    }
  }

  // ---------- Levels and the whole run ----------

  lemma {:induction false} NoTripsIffNoneCounted(journal: seq<Event>)
    ensures NoTrips(journal) <==> TripCount(journal) == 0
  {
    if journal != [] {
      NoTripsIffNoneCounted(Init(journal));
      assert journal == Init(journal) + [Final(journal)];
      Appended(Init(journal), Final(journal));
    }
  }

  ghost predicate Kept(t: DriverState) {
    Accounted(t) && WalksAfterTrip(t.journal) <= 1
  }

  lemma ArmKeepsBooks(rig: Rig, s: DriverState)
    requires Ready(s)
    ensures Ready(Arm(rig, s).state) && Kept(Arm(rig, s).state)
    ensures Arm(rig, s).state.journal == s.journal
  {
    ReadyCountsNone(s);
  }

  lemma DisarmKeepsBooks(s: DriverState)
    requires Kept(s)
    ensures Kept(s.(permit := None))
  {
  }

  /** A level keeps the books, and leaves the driver disarmed unless arming itself failed half-way. */
  lemma LevelKeepsBooks(rig: Rig, level: Level, s: DriverState)
    requires Ready(s)
    ensures var t := RunLevel(rig, level, s).state;
            Kept(t) && s.journal <= t.journal
            && t.permit == match rig.arm(s.armings)
                           case Armed => None
                           case IssueRaised(_) => s.permit
                           case ArmRaised(_) => Some(Permit(PERMIT_STEP))
  {
    hide Accounted, WalksAfterTrip, TrialsFrom;
    ArmKeepsBooks(rig, s);
    var armed := Arm(rig, s);
    if armed.Returned? {
      TrialsKeepBooks(rig, level, armed.state, [], 0);
      DisarmKeepsBooks(TrialsFrom(rig, level, armed.state, [], 0).state);
    }
  }

  lemma RestoreKeepsBooks(rig: Rig, s: DriverState)
    requires Ready(s)
    ensures var step := RestoreOpen(rig, s);
            Kept(step.state) && (step.Returned? && step.value.reached ==> Ready(step.state))
  {
    hide Accounted, WalksAfterTrip, Walk;
    ReadyCountsNone(s);
    ArmKeepsBooks(rig, s);
    var armed := Arm(rig, s);
    if armed.Returned? {
      ReadyCountsNone(armed.state);
      WalkKeepsBooks(rig, HoldPlan(OPEN_POSE), armed.state);
      DisarmKeepsBooks(Walk(rig, HoldPlan(OPEN_POSE), armed.state).state);
    }
  }

  /** The reports so far belong to the first levels, in order; all but perhaps the last are in order. */
  ghost predicate InOrder(levels: seq<Level>, reports: seq<LevelReport>) {
    && |reports| <= |levels|
    && forall i :: 0 <= i < |reports| ==>
         reports[i].level == levels[i]
         && reports[i].passed == Passes(reports[i].trials)
         && (reports[i].levelOk <==>
               reports[i].passed >= Required(levels[i]) && |reports[i].trials| == Trials(levels[i]))
  }

  lemma ReportShape(rig: Rig, level: Level, s: DriverState)
    ensures var step := RunLevel(rig, level, s);
            step.Returned? ==> exists trials :: step.value == ReportLevel(level, trials)
  {
  }

  lemma {:induction false} LevelsKeepBooks(rig: Rig, levels: seq<Level>, s: DriverState, done: seq<LevelReport>, i: nat)
    requires i == |done| <= |levels| && Ready(s) && InOrder(levels, done)
    ensures var (step, reports) := LevelsFrom(rig, levels, s, done, i);
            Kept(step.state) && InOrder(levels, reports) && (step.Raised? ==> |reports| < |levels|)
    decreases |levels| - i
  {
    hide Accounted, WalksAfterTrip, RunLevel;
    ReadyCountsNone(s);
    if i < |levels| {
      LevelKeepsBooks(rig, levels[i], s);
      ReportShape(rig, levels[i], s);
      match RunLevel(rig, levels[i], s)
      case Raised(_, _) =>
      case Returned(next, report) =>
        assert InOrder(levels, done + [report]);
        if report.levelOk && !next.aborted {
          LevelsKeepBooks(rig, levels, next, done + [report], i + 1);
        }
    }
  }

  lemma InitialReady()
    ensures Ready(INITIAL)
  {
  }

  lemma BodyKeepsBooks(rig: Rig, levels: seq<Level>)
    ensures var (step, reports) := Body(rig, levels, INITIAL);
            Kept(step.state) && InOrder(levels, reports) && (step.Raised? && levels != [] ==> |reports| < |levels|)
  {
    hide Kept, Ready, RestoreOpen, LevelsFrom;
    InitialReady();
    RestoreKeepsBooks(rig, INITIAL);
    match RestoreOpen(rig, INITIAL)
    case Raised(_, _) =>
    case Returned(next, report) =>
      if report.reached && report.problems == [] {
        LevelsKeepBooks(rig, levels, next, [], 0);
      }
  }

  /** The whole run, over every rig and every choice of levels: the counters in the summary are the trips in all
      scanned observations, no trial starts after a tripped walk observation, at most one more walk (the way back)
      is started after one, and the driver ends disarmed. */
  lemma RunIsAccounted(rig: Rig, levels: seq<Level>)
    ensures var (end, ending) := Run(rig, levels);
            && end.permit.None?
            && NoTrialAfterTrip(end.journal)
            && WalksAfterTrip(end.journal) <= 1
            && (end.aborted <==> WalkTripped(end.journal))
            && (ending.Finished? ==>
                  && ending.summary.protectionEvents == ProtectionTrips(end.journal)
                  && ending.summary.emergencyOverContact == ForceTrips(end.journal)
                  && ending.summary.protectionEvents + ending.summary.emergencyOverContact == TripCount(end.journal)
                  && InOrder(levels, ending.summary.levels))
  {
    hide Body, WalksAfterTrip;
    BodyKeepsBooks(rig, levels);
  }

  ghost predicate AllLevelsOk(levels: seq<Level>, reports: seq<LevelReport>) {
    && |reports| == |levels|
    && forall i :: 0 <= i < |reports| ==> reports[i].levelOk
  }

  /** A failure whose message is empty, which the gate takes for no failure. */
  predicate Unnoticed(error: Failure) {
    (error.Transport? || error.Runtime?) && error.message == ""
  }

  lemma NoMoreReportsThanLevels(levels: seq<Level>, reports: seq<LevelReport>)
    requires InOrder(levels, reports)
    ensures |reports| <= |levels|
  {
  }

  /** Exactly when the release gate passes: no scanned observation tripped, and either the run went through and every
      requested level is in order, or no level was requested and the run failed with an empty message. */
  lemma GatePassesIff(rig: Rig, levels: seq<Level>)
    ensures var (end, ending) := Run(rig, levels);
            var (step, reports) := Body(rig, levels, INITIAL);
            ending.Finished? && GateOk(levels, ending.summary) <==>
            && NoTrips(end.journal)
            && (|| (step.Returned? && AllLevelsOk(levels, reports))
                || (levels == [] && step.Raised? && Unnoticed(step.error)))
  {
    hide Body, WalksAfterTrip, NoTrips, TripCount, InOrder;
    BodyKeepsBooks(rig, levels);
    NoTripsIffNoneCounted(Run(rig, levels).0.journal);
    NoMoreReportsThanLevels(levels, Body(rig, levels, INITIAL).1);
  }

  /** The second case does occur: with no level requested, a run in which arming fails with an empty message passes. */
  lemma EmptyFailurePasses(rig: Rig)
    requires rig.arm(0).IssueRaised? || rig.arm(0).ArmRaised?
    requires Unnoticed(rig.arm(0).error)
    ensures var (end, ending) := Run(rig, []);
            ending.Finished? && GateOk([], ending.summary)
  {
  }
}
