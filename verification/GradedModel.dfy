/** The graded-execution driver of scripts/experiments/exp3_graded_execution.py as a function of its environment.

    Everything outside the driver (transport, gateway, permit and arming controllers) is a `Rig`: a tape of
    readings, a tape of gateway answers and a tape of arming outcomes, all arbitrary. `DriverState` holds the
    driver's own fields, the three tape positions, and a journal of what the driver did.
 */
module GradedModel {
  import opened Arithmetic
  import opened Wrappers
  import opened March

  const PROTECTION_MASK: bv16 := 0x1C
  const WAYPOINT_DELTA := 10.0
  const CONTACT_FORCE_G := 70.0
  const OVER_CONTACT_ABORT_G := 250.0
  const FORCE_HARD_LIMIT_G := 300.0
  const PERMIT_STEP := 50.0
  const WINDOW_MARGIN := 5.0
  const WALK_CAP: nat := 96

  // ---------- What the driver sees ----------

  /** One value per actuator. */
  type Pose = p: seq<real> | |p| == 6 witness [0.0, 0.0, 0.0, 0.0, 0.0, 0.0]

  type Channel = c: nat | c < 6

  /** What `_check_feedback_safety` looks at. */
  datatype Snapshot = Snapshot(status: seq<bv16>, force: seq<real>, temperature: seq<real>)

  datatype Failure = Transport(message: string) | Runtime(message: string) | Interrupt | Other

  datatype Reading = Observed(position: Pose, force: Pose, status: seq<bv16>, temperature: seq<real>)
                   | ReadRaised(error: Failure)

  /** One observation of a receipt; the force and position entries may be missing. */
  datatype Echo = Echo(position: Option<Pose>, force: Option<Pose>, status: seq<bv16>, temperature: seq<real>)

  datatype Receipt = Receipt(completed: bool, finalState: string, code: string, observations: seq<Echo>)

  datatype Answer = Answered(receipt: Receipt) | SubmitRaised(error: Failure)

  /** `arm_level` can fail before the permit is stored or when the stored permit is armed. */
  datatype Arming = Armed | IssueRaised(error: Failure) | ArmRaised(error: Failure)

  datatype Calibration = Calibration(
    names: seq<string>,
    tolerance: Pose,
    temperatureStop: real,
    rangeLow: real,
    rangeHigh: real,
    safeMin: Pose,
    safeMax: Pose
  )

  datatype Rig = Rig(
    calibration: Calibration,
    coarse: Pose,
    floor: Pose,
    read: nat -> Reading,
    submit: nat -> Answer,
    arm: nat -> Arming
  )

  // ---------- The driver's state ----------

  datatype Permit = Permit(maxStepDelta: real)

  datatype Level = Noop | Micro | Motion | Gesture | OkContact

  datatype Event = TrialStarted(level: Level, index: nat)
                 | WalkStarted
                 | Scanned(walking: bool, problems: seq<Problem>)
                 | Commanded(waypoint: Pose, permit: Permit)

  datatype DriverState = DriverState(
    readings: nat,
    submissions: nat,
    armings: nat,
    permit: Option<Permit>,
    aborted: bool,
    protectionEvents: nat,
    emergencyOverContact: nat,
    journal: seq<Event>
  )

  /** A call either returns or raises; both leave a state behind. */
  datatype Step<+T> = Returned(state: DriverState, value: T) | Raised(state: DriverState, error: Failure)

  // ---------- Feedback safety ----------

  datatype Problem = StatusProtection(channel: nat, bits: bv16)
                   | ForceHardLimit(channel: nat, force: real)
                   | TemperatureStop(channel: nat, temperature: real)
                   | ReceiptNotCompleted(finalState: string, code: string)
                   | WaypointCapExceeded

  predicate IsProtecting(bits: bv16) {
    bits & PROTECTION_MASK != 0
  }

  function StatusProblems(status: seq<bv16>, i: nat): (r: seq<Problem>)
    requires i <= |status|
    decreases |status| - i
  {
    if i == |status| then []
    else (if IsProtecting(status[i]) then [StatusProtection(i, status[i])] else [])
         + StatusProblems(status, i + 1)
  }

  function ForceProblems(force: seq<real>, i: nat): (r: seq<Problem>)
    requires i <= |force|
    decreases |force| - i
  {
    if i == |force| then []
    else (if force[i] >= FORCE_HARD_LIMIT_G then [ForceHardLimit(i, force[i])] else [])
         + ForceProblems(force, i + 1)
  }

  function TemperatureProblems(temperature: seq<real>, stop: real, i: nat): (r: seq<Problem>)
    requires i <= |temperature|
    decreases |temperature| - i
  {
    if i == |temperature| then []
    else (if temperature[i] >= stop then [TemperatureStop(i, temperature[i])] else [])
         + TemperatureProblems(temperature, stop, i + 1)
  }

  function Problems(rig: Rig, snapshot: Snapshot): seq<Problem> {
    StatusProblems(snapshot.status, 0) + ForceProblems(snapshot.force, 0)
    + TemperatureProblems(snapshot.temperature, rig.calibration.temperatureStop, 0)
  }

  /** `_check_feedback_safety` */
  function Scan(rig: Rig, s: DriverState, snapshot: Snapshot, walking: bool): DriverState {
    s.(protectionEvents := s.protectionEvents + |StatusProblems(snapshot.status, 0)|
         + |TemperatureProblems(snapshot.temperature, rig.calibration.temperatureStop, 0)|,
       emergencyOverContact := s.emergencyOverContact + |ForceProblems(snapshot.force, 0)|,
       journal := s.journal + [Scanned(walking, Problems(rig, snapshot))])
  }

  // ---------- One command ----------

  /** The sandbox preflight (src/rosclaw/body/rh56/sandbox.py). */
  predicate SandboxSafe(calibration: Calibration, values: Pose, current: Pose, maxStep: Option<real>) {
    forall i :: 0 <= i < 6 ==>
      && calibration.rangeLow <= values[i] <= calibration.rangeHigh
      && calibration.safeMin[i] <= values[i] <= calibration.safeMax[i]
      && (maxStep.Some? ==> Abs(values[i] - current[i]) <= maxStep.value)
  }

  function StepLimit(permit: Option<Permit>): Option<real> {
    if permit.Some? then Some(permit.value.maxStepDelta) else None
  }

  /** The guarded part of `submit_step`: preflight against `current`, then the gateway. */
  function Submit(rig: Rig, s: DriverState, values: Pose, current: Pose): Step<Receipt> {
    if !SandboxSafe(rig.calibration, values, current, StepLimit(s.permit)) then
      Raised(s, Runtime("sandbox_block"))
    else if s.permit.None? then
      Raised(s, Other)
    else
      var next := s.(submissions := s.submissions + 1, journal := s.journal + [Commanded(values, s.permit.value)]);
      match rig.submit(s.submissions)
      case Answered(receipt) => Returned(next, receipt)
      case SubmitRaised(error) => Raised(next, error)
  }

  /** `submit_step` without a snapshot reads the transport itself; that reading is not scanned. */
  function SubmitFresh(rig: Rig, s: DriverState, values: Pose): Step<Receipt> {
    match rig.read(s.readings)
    case ReadRaised(error) => Raised(s.(readings := s.readings + 1), error)
    case Observed(position, _, _, _) => Submit(rig, s.(readings := s.readings + 1), values, position)
  }

  // ---------- One walk ----------

  datatype Plan = Plan(
    target: Pose,
    stopOnContact: bool,
    abortOnOverContact: bool,
    delta: real,
    contactChannel: Option<Channel>,
    converging: seq<Channel>
  )

  const ALL_CHANNELS: seq<Channel> := [0, 1, 2, 3, 4, 5]

  /** A walk needs a channel that has to converge; without one the source raises an error. */
  predicate WellFormed(plan: Plan) {
    plan.converging != []
  }

  function HoldPlan(target: Pose): (plan: Plan)
    ensures WellFormed(plan)
  {
    Plan(target, false, false, WAYPOINT_DELTA, None, ALL_CHANNELS)
  }

  /** The contact approach of the ok level: only the thumb has to converge. */
  function ApproachPlan(target: Pose): (plan: Plan)
    ensures WellFormed(plan)
  {
    Plan(target, true, true, 10.0, None, [4])
  }

  datatype WalkReport = WalkReport(
    reached: bool,
    contact: bool,
    overContactAbort: bool,
    steps: nat,
    problems: seq<Problem>,
    finalPosition: Option<Pose>,
    maxForce: Pose
  )

  const EMPTY_REPORT := WalkReport(false, false, false, 0, [], None, [0.0, 0.0, 0.0, 0.0, 0.0, 0.0])

  function Greatest(xs: seq<real>): real
    requires xs != []
  {
    if |xs| == 1 then xs[0] else Max(xs[0], Greatest(xs[1..]))
  }

  function WatchedForce(plan: Plan, force: Pose): real
    requires WellFormed(plan)
  {
    if plan.contactChannel.Some? then force[plan.contactChannel.value] else Greatest(force)
  }

  function RaiseForces(peaks: Pose, force: Pose): Pose {
    seq(6, i requires 0 <= i < 6 => Max(peaks[i], Abs(force[i])))
  }

  /** The widest tolerance among the channels that have to converge. */
  function Tolerance(calibration: Calibration, converging: seq<Channel>): real
    requires converging != []
  {
    if |converging| == 1 then calibration.tolerance[converging[0]]
    else Max(calibration.tolerance[converging[0]], Tolerance(calibration, converging[1..]))
  }

  predicate Converged(rig: Rig, plan: Plan, current: Pose)
    requires WellFormed(plan)
  {
    forall c :: c in plan.converging ==>
      Abs(plan.target[c] - current[c]) <= Tolerance(rig.calibration, plan.converging)
  }

  function Window(permit: Option<Permit>): real {
    (if permit.Some? then permit.value.maxStepDelta else 50.0) - WINDOW_MARGIN
  }

  function NextWaypoint(plan: Plan, last: Pose, current: Pose, window: real): Pose {
    seq(6, i requires 0 <= i < 6 => Waypoint(last[i], current[i], Gait(plan.target[i], plan.delta, window)))
  }

  /** What a loop body decides: leave the loop, or go on with an updated value. */
  datatype Flow<+A, +B> = Leave(exit: A) | Continue(next: B)

  function SnapshotOf(reading: Reading): Snapshot
    requires reading.Observed?
  {
    Snapshot(reading.status, reading.force, reading.temperature)
  }

  function EchoSnapshot(echo: Echo): Snapshot {
    Snapshot(echo.status, if echo.force.Some? then echo.force.value else [], echo.temperature)
  }

  /** The force thresholds that end a walk. */
  function Stop(plan: Plan, watched: real, position: Pose, report: WalkReport): Option<WalkReport> {
    if plan.stopOnContact && watched >= CONTACT_FORCE_G then
      Some(report.(contact := true, reached := true, finalPosition := Some(position)))
    else if plan.abortOnOverContact && watched >= OVER_CONTACT_ABORT_G then
      Some(report.(overContactAbort := true, reached := true, finalPosition := Some(position)))
    else None
  }

  /** One observation of a receipt. */
  function ScanEcho(rig: Rig, plan: Plan, s: DriverState, report: WalkReport, echo: Echo, current: Pose)
    : Flow<Step<WalkReport>, (DriverState, WalkReport)>
    requires WellFormed(plan)
  {
    var peaked :=
      if echo.force.Some? then report.(maxForce := RaiseForces(report.maxForce, echo.force.value)) else report;
    var next := Scan(rig, s, EchoSnapshot(echo), false);
    var position := if echo.position.Some? then echo.position.value else current;
    if echo.force.None? then Continue((next, peaked))
    else match Stop(plan, WatchedForce(plan, echo.force.value), position, peaked)
      case Some(stopped) => Leave(Returned(next, stopped))
      case None => Continue((next, peaked))
  }

  /** The observations of a receipt from the i-th on. */
  function ScanEchoes(rig: Rig, plan: Plan, s: DriverState, report: WalkReport, echoes: seq<Echo>, current: Pose,
                      i: nat)
    : Flow<Step<WalkReport>, (DriverState, WalkReport)>
    requires WellFormed(plan) && i <= |echoes|
    decreases |echoes| - i
  {
    if i == |echoes| then Continue((s, report))
    else match ScanEcho(rig, plan, s, report, echoes[i], current)
      case Leave(exit) => Leave(exit)
      case Continue((next, peaked)) => ScanEchoes(rig, plan, next, peaked, echoes, current, i + 1)
  }

  /** What the walk does with a reading: stop, or command the next waypoint. */
  function Decide(rig: Rig, plan: Plan, s: DriverState, report: WalkReport, reading: Reading)
    : Flow<Step<WalkReport>, (DriverState, WalkReport)>
    requires WellFormed(plan) && reading.Observed?
  {
    var problems := Problems(rig, SnapshotOf(reading));
    var next := Scan(rig, s, SnapshotOf(reading), true);
    var seen := report.(problems := report.problems + problems,
                        maxForce := RaiseForces(report.maxForce, reading.force));
    if problems != [] then Leave(Returned(next.(aborted := true), seen))
    else match Stop(plan, WatchedForce(plan, reading.force), reading.position, seen)
      case Some(stopped) => Leave(Returned(next, stopped))
      case None =>
        if Converged(rig, plan, reading.position) then
          Leave(Returned(next, seen.(reached := true, finalPosition := Some(reading.position))))
        else Continue((next, seen))
  }

  /** What the walk does with the gateway's answer to a waypoint. */
  function Digest(rig: Rig, plan: Plan, answer: Step<Receipt>, report: WalkReport, current: Pose)
    : Flow<Step<WalkReport>, (DriverState, WalkReport)>
    requires WellFormed(plan)
  {
    match answer
    case Raised(s, error) => Leave(Raised(s, error))
    case Returned(s, receipt) =>
      var stepped := report.(steps := report.steps + 1);
      if !receipt.completed then
        var problem := ReceiptNotCompleted(receipt.finalState, receipt.code);
        Leave(Returned(s, stepped.(problems := stepped.problems + [problem])))
      else ScanEchoes(rig, plan, s, stepped, receipt.observations, current, 0)
  }

  /** One pass of the walk's loop; it goes on with the new state, the commanded waypoint and the report. */
  function Turn(rig: Rig, plan: Plan, s: DriverState, last: Option<Pose>, report: WalkReport)
    : Flow<Step<WalkReport>, (DriverState, Pose, WalkReport)>
    requires WellFormed(plan)
  {
    var reading := rig.read(s.readings);
    var read := s.(readings := s.readings + 1);
    if reading.ReadRaised? then Leave(Raised(read, reading.error))
    else match Decide(rig, plan, read, report, reading)
      case Leave(exit) => Leave(exit)
      case Continue((scanned, seen)) =>
        var from := if last.Some? then last.value else reading.position;
        var waypoint := NextWaypoint(plan, from, reading.position, Window(scanned.permit));
        match Digest(rig, plan, Submit(rig, scanned, waypoint, reading.position), seen, reading.position)
        case Leave(exit) => Leave(exit)
        case Continue((next, stepped)) => Continue((next, waypoint, stepped))
  }

  /** The walk's loop with `left` passes to go. */
  function WalkFrom(rig: Rig, plan: Plan, s: DriverState, last: Option<Pose>, report: WalkReport, left: nat)
    : Step<WalkReport>
    requires WellFormed(plan)
    decreases left
  {
    if left == 0 then
      Returned(s, report.(problems := report.problems + [WaypointCapExceeded]))
    else match Turn(rig, plan, s, last, report)
      case Leave(exit) => exit
      case Continue((next, waypoint, stepped)) => WalkFrom(rig, plan, next, Some(waypoint), stepped, left - 1)
  }

  function Walk(rig: Rig, plan: Plan, s: DriverState): Step<WalkReport>
    requires WellFormed(plan)
  {
    WalkFrom(rig, plan, s.(journal := s.journal + [WalkStarted]), None, EMPTY_REPORT, WALK_CAP)
  }

  // ---------- Trials ----------

  datatype TrialResult = TrialResult(index: nat, passed: bool, walks: seq<WalkReport>)

  function TrialNoop(rig: Rig, s: DriverState, index: nat): Step<TrialResult> {
    var read := s.(readings := s.readings + 1);
    match rig.read(s.readings)
    case ReadRaised(error) => Raised(read, error)
    case Observed(_, _, _, _) =>
      match SubmitFresh(rig, read, OPEN_POSE)
      case Raised(next, error) => Raised(next, error)
      case Returned(next, receipt) => Returned(next, TrialResult(index, receipt.completed, []))
  }

  const OPEN_POSE: Pose := [1000.0, 1000.0, 1000.0, 1000.0, 1000.0, 1000.0]

  /** Walk to a pose and back to where the hand was. */
  function OutAndBack(rig: Rig, s: DriverState, index: nat, pose: Pose, base: Pose): Step<TrialResult> {
    match Walk(rig, HoldPlan(pose), s)
    case Raised(next, error) => Raised(next, error)
    case Returned(there, out) =>
      match Walk(rig, HoldPlan(base), there)
      case Raised(next, error) => Raised(next, error)
      case Returned(home, back) =>
        Returned(home, TrialResult(index,
                                   out.reached && back.reached && out.problems == [] && back.problems == [],
                                   [out, back]))
  }

  function TrialSingleFinger(rig: Rig, s: DriverState, index: nat, delta: real): Step<TrialResult> {
    var read := s.(readings := s.readings + 1);
    match rig.read(s.readings)
    case ReadRaised(error) => Raised(read, error)
    case Observed(base, _, _, _) =>
      OutAndBack(rig, read, index, base[3 := Max(0.0, base[3] - delta)], base)
  }

  /** The half-closed pose: four fingers move, the thumb stays. */
  function HalfClosed(calibration: Calibration, base: Pose): Pose {
    seq(6, i requires 0 <= i < 6 =>
      if i < |calibration.names| && calibration.names[i] in ["little", "ring", "middle", "index"]
      then Max(450.0, base[i] - 450.0) else base[i])
  }

  function TrialGesture(rig: Rig, s: DriverState, index: nat): Step<TrialResult> {
    var read := s.(readings := s.readings + 1);
    match rig.read(s.readings)
    case ReadRaised(error) => Raised(read, error)
    case Observed(base, _, _, _) => OutAndBack(rig, read, index, HalfClosed(rig.calibration, base), base)
  }

  function TrialOkContact(rig: Rig, s: DriverState, index: nat): Step<TrialResult> {
    var read := s.(readings := s.readings + 1);
    match rig.read(s.readings)
    case ReadRaised(error) => Raised(read, error)
    case Observed(base, _, _, _) =>
      match Walk(rig, HoldPlan(rig.coarse), read)
      case Raised(next, error) => Raised(next, error)
      case Returned(near, coarse) =>
        if !coarse.reached then Returned(near, TrialResult(index, false, [coarse]))
        else match Walk(rig, ApproachPlan(rig.floor), near)
          case Raised(next, error) => Raised(next, error)
          case Returned(touching, approach) =>
            match Walk(rig, HoldPlan(base), touching)
            case Raised(next, error) => Raised(next, error)
            case Returned(home, back) =>
              Returned(home, TrialResult(index,
                                         approach.contact && back.reached && !approach.overContactAbort
                                         && coarse.problems == [] && approach.problems == [] && back.problems == [],
                                         [coarse, approach, back]))
  }

  function Trial(rig: Rig, level: Level, s: DriverState, index: nat): Step<TrialResult> {
    match level
    case Noop => TrialNoop(rig, s, index)
    case Micro => TrialSingleFinger(rig, s, index, 20.0)
    case Motion => TrialSingleFinger(rig, s, index, 50.0)
    case Gesture => TrialGesture(rig, s, index)
    case OkContact => TrialOkContact(rig, s, index)
  }

  // ---------- Levels ----------

  function Trials(level: Level): nat {
    if level == Noop then 20 else 10
  }

  function Required(level: Level): nat {
    match level
    case Noop => 20
    case OkContact => 9
    case _ => 10
  }

  function Arm(rig: Rig, s: DriverState): Step<()> {
    var next := s.(armings := s.armings + 1);
    match rig.arm(s.armings)
    case Armed => Returned(next.(permit := Some(Permit(PERMIT_STEP))), ())
    case IssueRaised(error) => Raised(next, error)
    case ArmRaised(error) => Raised(next.(permit := Some(Permit(PERMIT_STEP))), error)
  }

  /** The trials of a level from the i-th on. */
  function TrialsFrom(rig: Rig, level: Level, s: DriverState, done: seq<TrialResult>, i: nat): Step<seq<TrialResult>>
    requires i <= Trials(level)
    decreases Trials(level) - i
  {
    if i == Trials(level) || s.aborted then Returned(s, done)
    else match Trial(rig, level, s.(journal := s.journal + [TrialStarted(level, i)]), i)
      case Raised(next, error) => Raised(next, error)
      case Returned(next, result) => TrialsFrom(rig, level, next, done + [result], i + 1)
  }

  function Passes(trials: seq<TrialResult>): nat {
    if trials == [] then 0 else (if trials[0].passed then 1 else 0) + Passes(trials[1..])
  }

  datatype LevelReport = LevelReport(level: Level, trials: seq<TrialResult>, passed: nat, levelOk: bool)

  function ReportLevel(level: Level, trials: seq<TrialResult>): LevelReport {
    LevelReport(level, trials, Passes(trials), Passes(trials) >= Required(level) && |trials| == Trials(level))
  }

  /** `run_level`: whatever the trials do, the level ends disarmed. */
  function RunLevel(rig: Rig, level: Level, s: DriverState): Step<LevelReport> {
    match Arm(rig, s)
    case Raised(next, error) => Raised(next, error)
    case Returned(armed, _) =>
      match TrialsFrom(rig, level, armed, [], 0)
      case Raised(next, error) => Raised(next.(permit := None), error)
      case Returned(next, trials) => Returned(next.(permit := None), ReportLevel(level, trials))
  }

  function RestoreOpen(rig: Rig, s: DriverState): Step<WalkReport> {
    match Arm(rig, s)
    case Raised(next, error) => Raised(next, error)
    case Returned(armed, _) =>
      match Walk(rig, HoldPlan(OPEN_POSE), armed)
      case Raised(next, error) => Raised(next.(permit := None), error)
      case Returned(next, report) => Returned(next.(permit := None), report)
  }

  // ---------- The whole run ----------

  /** The level loop: stops after a level that is not ok, or after an abort. */
  function LevelsFrom(rig: Rig, levels: seq<Level>, s: DriverState, done: seq<LevelReport>, i: nat)
    : (Step<()>, seq<LevelReport>)
    requires i <= |levels|
    decreases |levels| - i
  {
    if i == |levels| then (Returned(s, ()), done)
    else match RunLevel(rig, levels[i], s)
      case Raised(next, error) => (Raised(next, error), done)
      case Returned(next, report) =>
        if !report.levelOk || next.aborted then (Returned(next, ()), done + [report])
        else LevelsFrom(rig, levels, next, done + [report], i + 1)
  }

  function Body(rig: Rig, levels: seq<Level>, s: DriverState): (Step<()>, seq<LevelReport>) {
    match RestoreOpen(rig, s)
    case Raised(next, error) => (Raised(next, error), [])
    case Returned(next, report) =>
      if !report.reached || report.problems != [] then (Raised(next, Runtime("restore_open failed")), [])
      else LevelsFrom(rig, levels, next, [], 0)
  }

  datatype Summary = Summary(
    levels: seq<LevelReport>,
    protectionEvents: nat,
    emergencyOverContact: nat,
    interrupted: bool,
    fatal: Option<string>
  )

  /** The release gate; an empty fatal message counts as no message, as in the source. */
  predicate GateOk(levels: seq<Level>, summary: Summary) {
    && (forall i :: 0 <= i < |summary.levels| ==> summary.levels[i].levelOk)
    && |summary.levels| == |levels|
    && summary.protectionEvents == 0
    && summary.emergencyOverContact == 0
    && !summary.interrupted
    && (summary.fatal.None? || summary.fatal.value == "")
  }

  /** How `main` ends: with a summary, or by letting an unexpected error through. */
  datatype Ending = Finished(summary: Summary) | Crashed

  const INITIAL := DriverState(0, 0, 0, None, false, 0, 0, [])

  function Run(rig: Rig, levels: seq<Level>): (DriverState, Ending) {
    var (step, reports) := Body(rig, levels, INITIAL);
    var end := step.state;
    var summary := Summary(reports, end.protectionEvents, end.emergencyOverContact, false, None);
    var closed := end.(permit := None);
    match step
    case Returned(_, _) => (closed, Finished(summary))
    case Raised(_, Interrupt) => (closed, Finished(summary.(interrupted := true)))
    case Raised(_, Transport(message)) => (closed, Finished(summary.(fatal := Some(message))))
    case Raised(_, Runtime(message)) => (closed, Finished(summary.(fatal := Some(message))))
    case Raised(_, Other) => (closed, Crashed)
  }
}
