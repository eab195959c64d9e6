/** The deadman relay when its callbacks may overlap: the lock-protected sections of
    scripts/simforge/gazebo_guarded_base_node.py under every interleaving.

    `rclpy.spin` runs one callback at a time and ends before `safe_shutdown` begins; `SpinNeverOverlaps` covers that
    case. The other theorems say what the lock alone guarantees.
 */
module DeadmanThreads {
  import opened Deadman

  /** An expiry check and the stop that it leads to are two sections; `TimeoutStop(c)` is the stop of the check at
      position c. The two messages that a shutdown publishes after its stop are not protected by the lock. */
  datatype Section = CommandSection(at: real, message: Twist)
                   | CheckSection(at: real)
                   | TimeoutStop(check: nat)
                   | RejectStop
                   | ShutdownStop
                   | UnlockedZero

  /** The shared fields; for every check that found expiry and has not stopped yet, the `lastFresh` that it found
      overdue; whether the shutdown has begun, and how many unlocked messages it still owes. */
  datatype Shared = Shared(lastFresh: real, motionActive: bool, published: seq<Twist>,
                           pending: map<nat, real>, shutdown: bool, owed: nat)

  const UNSHARED := Shared(0.0, false, [], map[], false, 0)

  predicate Enabled(s: Shared, section: Section) {
    match section
    case CommandSection(_, m) => Accepted(m)
    case TimeoutStop(check) => check in s.pending
    case ShutdownStop => !s.shutdown
    case UnlockedZero => s.owed > 0
    case _ => true
  }

  function Stopped(s: Shared): Shared {
    s.(motionActive := false, published := s.published + [ZERO_TWIST])
  }

  predicate Overdue(s: Shared, at: real, timeout: real) {
    s.motionActive && at - s.lastFresh >= timeout
  }

  /** The section at position `i`. */
  function Step(s: Shared, i: nat, section: Section, timeout: real): Shared {
    match section
    case CommandSection(at, m) =>
      s.(lastFresh := at, motionActive := IsNonzero(m), published := s.published + [m])
    case CheckSection(at) => if Overdue(s, at, timeout) then s.(pending := s.pending[i := s.lastFresh]) else s
    case TimeoutStop(check) => Stopped(s).(pending := s.pending - {check})
    case RejectStop => Stopped(s)
    case ShutdownStop => Stopped(s).(shutdown := true, owed := 2)
    case UnlockedZero => s.(published := s.published + [ZERO_TWIST], owed := if s.owed > 0 then s.owed - 1 else 0)
  }

  /** The shared state after the first `n` sections. */
  function Reached(sections: seq<Section>, n: nat, timeout: real): Shared
    requires n <= |sections|
  {
    if n == 0 then UNSHARED
    else Step(Reached(sections, n - 1, timeout), n - 1, sections[n - 1], timeout)
  }

  /** A schedule that the threads can follow. */
  ghost predicate Possible(sections: seq<Section>, timeout: real) {
    forall i :: 0 <= i < |sections| ==> Enabled(Reached(sections, i, timeout), sections[i])
  }

  predicate LastMoves(s: Shared) {
    s.published != [] && IsNonzero(s.published[|s.published| - 1])
  }

  // ---------- What is published ----------

  /** What a section publishes: a command unchanged, and zero for every stop. */
  function Sent(section: Section): seq<Twist> {
    match section
    case CommandSection(_, m) => [m]
    case CheckSection(_) => []
    case _ => [ZERO_TWIST]
  }

  function Output(sections: seq<Section>, n: nat): seq<Twist>
    requires n <= |sections|
  {
    if n == 0 then [] else Output(sections, n - 1) + Sent(sections[n - 1])
  }

  /** Under every interleaving the output is the commands in the order of their sections, with a zero for every stop. */
  lemma {:induction false} OutputIs(sections: seq<Section>, n: nat, timeout: real)
    requires n <= |sections|
    ensures Reached(sections, n, timeout).published == Output(sections, n)
  {
    if n > 0 {
      OutputIs(sections, n - 1, timeout);
    }
  }

  // ---------- The flag and the output ----------

  predicate MovingCommand(section: Section) {
    section.CommandSection? && IsNonzero(section.message)
  }

  predicate Calming(section: Section) {
    section.TimeoutStop? || section.RejectStop? || section.ShutdownStop?
    || (section.CommandSection? && !IsNonzero(section.message))
  }

  /** A moving command before position `n`, with nothing in between that clears the flag. */
  ghost predicate StillMoving(sections: seq<Section>, n: nat) {
    exists c :: 0 <= c < n <= |sections| && MovingCommand(sections[c]) && NothingCalms(sections, c, n)
  }

  ghost predicate NothingCalms(sections: seq<Section>, c: nat, n: nat) {
    n <= |sections| && forall k :: c < k < n ==> !Calming(sections[k])
  }

  /** The flag is set exactly while a moving command has not been followed by a stop or a still command. */
  lemma {:induction false} FlagSince(sections: seq<Section>, n: nat, timeout: real)
    requires n <= |sections|
    ensures Reached(sections, n, timeout).motionActive <==> StillMoving(sections, n)
  {
    hide IsNonzero;
    if n > 0 {
      FlagSince(sections, n - 1, timeout);
      if MovingCommand(sections[n - 1]) {
        assert NothingCalms(sections, n - 1, n);
      } else if !Calming(sections[n - 1]) && StillMoving(sections, n - 1) {
        var c :| 0 <= c < n - 1 && MovingCommand(sections[c]) && NothingCalms(sections, c, n - 1);
        assert NothingCalms(sections, c, n);
      }
    }
  }

  predicate Exact(s: Shared) {
    s.motionActive <==> LastMoves(s)
  }

  /** What one section does to flag and output. */
  lemma OneSection(s: Shared, i: nat, section: Section, timeout: real)
    ensures var next := Step(s, i, section, timeout);
            && (section.UnlockedZero? ==> next.motionActive == s.motionActive && !LastMoves(next))
            && (section.CheckSection? ==> next.motionActive == s.motionActive && LastMoves(next) == LastMoves(s))
            && (!section.UnlockedZero? && !section.CheckSection? ==> Exact(next))
  {
  }

  /** Under every interleaving a moving output is flagged. */
  lemma {:induction false} MovingIsFlagged(sections: seq<Section>, n: nat, timeout: real)
    requires n <= |sections|
    ensures LastMoves(Reached(sections, n, timeout)) ==> Reached(sections, n, timeout).motionActive
  {
    hide Step;
    if n > 0 {
      hide LastMoves;
      MovingIsFlagged(sections, n - 1, timeout);
      OneSection(Reached(sections, n - 1, timeout), n - 1, sections[n - 1], timeout);
    }
  }

  lemma {:induction false} ExactUpTo(sections: seq<Section>, n: nat, timeout: real)
    requires n <= |sections|
    requires forall j :: 0 <= j < n && sections[j].UnlockedZero? ==> !Reached(sections, j, timeout).motionActive
    ensures Exact(Reached(sections, n, timeout))
  {
    hide Step;
    if n > 0 {
      hide LastMoves;
      ExactUpTo(sections, n - 1, timeout);
      OneSection(Reached(sections, n - 1, timeout), n - 1, sections[n - 1], timeout);
    }
  }

  /** Under every interleaving, flag and output agree at every point if and only if no unlocked zero message comes while
      a moving command has not been followed by a stop or a still command. */
  lemma FlagExactIff(sections: seq<Section>, timeout: real)
    ensures (forall n :: 0 <= n <= |sections| ==> Exact(Reached(sections, n, timeout)))
            <==> (forall j :: 0 <= j < |sections| && sections[j].UnlockedZero? ==> !StillMoving(sections, j))
  {
    hide StillMoving, Step, LastMoves;
    forall j | 0 <= j <= |sections| ensures Reached(sections, j, timeout).motionActive <==> StillMoving(sections, j) {
      FlagSince(sections, j, timeout);
    }
    if j :| 0 <= j < |sections| && sections[j].UnlockedZero? && StillMoving(sections, j) {
      OneSection(Reached(sections, j, timeout), j, sections[j], timeout);
      assert !Exact(Reached(sections, j + 1, timeout));
    } else {
      forall n | 0 <= n <= |sections| ensures Exact(Reached(sections, n, timeout)) {
        ExactUpTo(sections, n, timeout);
      }
    }
  }

  // ---------- Stops that come too late ----------

  lemma OneFresh(s: Shared, i: nat, section: Section, timeout: real)
    ensures Step(s, i, section, timeout).lastFresh == if section.CommandSection? then section.at else s.lastFresh
  {
  }

  /** A pending stop is an old one, or that of the check at `i`, which found expiry. */
  lemma OnePending(s: Shared, i: nat, section: Section, c: nat, timeout: real)
    requires c in Step(s, i, section, timeout).pending
    ensures var next := Step(s, i, section, timeout);
            || (c in s.pending && next.pending[c] == s.pending[c])
            || (c == i && section.CheckSection? && Overdue(s, section.at, timeout) && next.pending[c] == s.lastFresh)
  {
  }

  predicate Timed(section: Section) {
    section.CommandSection? || section.CheckSection?
  }

  /** Commands and checks read the clock under the lock, so their times are in order. */
  ghost predicate ClockInOrder(sections: seq<Section>) {
    forall i, j :: 0 <= i < j < |sections| && Timed(sections[i]) && Timed(sections[j]) ==>
      sections[i].at <= sections[j].at
  }

  /** Without a command `lastFresh` stays; after a command it is not before any earlier time. */
  lemma {:induction false} FreshSince(sections: seq<Section>, i: nat, j: nat, timeout: real)
    requires ClockInOrder(sections) && i < j <= |sections| && sections[i].CheckSection?
    ensures if forall k :: i < k < j ==> !sections[k].CommandSection?
            then Reached(sections, j, timeout).lastFresh == Reached(sections, i, timeout).lastFresh
            else Reached(sections, j, timeout).lastFresh >= sections[i].at
    decreases j - i
  {
    hide Step;
    OneFresh(Reached(sections, j - 1, timeout), j - 1, sections[j - 1], timeout);
    if i < j - 1 {
      FreshSince(sections, i, j - 1, timeout);
    }
  }

  /** What a pending stop records: an earlier check, and the `lastFresh` that it found overdue. */
  lemma {:induction false} PendingRecords(sections: seq<Section>, n: nat, c: nat, timeout: real)
    requires n <= |sections| && c in Reached(sections, n, timeout).pending
    ensures c < n && sections[c].CheckSection?
    ensures Overdue(Reached(sections, c, timeout), sections[c].at, timeout)
    ensures Reached(sections, n, timeout).pending[c] == Reached(sections, c, timeout).lastFresh
  {
    if n > 0 {
      var before := Reached(sections, n - 1, timeout);
      OnePending(before, n - 1, sections[n - 1], c, timeout);
      hide Step;
      if c in before.pending {
        PendingRecords(sections, n - 1, c, timeout);
      }
    }
  }

  /** The timeout stop at position `j`, if there is one, finds the `lastFresh` that its check found overdue. */
  ghost predicate StopsItsOwn(sections: seq<Section>, j: nat, timeout: real)
    requires j < |sections|
  {
    var s := Reached(sections, j, timeout);
    sections[j].TimeoutStop? ==> sections[j].check in s.pending && s.pending[sections[j].check] == s.lastFresh
  }

  /** A command came between the check and its stop at position `j`. */
  ghost predicate Overtaken(sections: seq<Section>, j: nat)
    requires j < |sections|
  {
    sections[j].TimeoutStop? && exists k :: sections[j].check < k < j && sections[k].CommandSection?
  }

  lemma OneStop(sections: seq<Section>, j: nat, timeout: real)
    requires Possible(sections, timeout) && ClockInOrder(sections) && timeout > 0.0 && j < |sections|
    ensures StopsItsOwn(sections, j, timeout) <==> !Overtaken(sections, j)
  {
    hide Reached;
    if sections[j].TimeoutStop? {
      var c := sections[j].check;
      assert Enabled(Reached(sections, j, timeout), sections[j]);
      PendingRecords(sections, j, c, timeout);
      FreshSince(sections, c, j, timeout);
    }
  }

  /** In every schedule that the threads can follow, every timeout stop stops the command that its check found
      expired if and only if no command comes between a check and its stop. */
  lemma StopsAreTimelyIff(sections: seq<Section>, timeout: real)
    requires Possible(sections, timeout) && ClockInOrder(sections) && timeout > 0.0
    ensures (forall j :: 0 <= j < |sections| ==> StopsItsOwn(sections, j, timeout))
            <==> (forall j :: 0 <= j < |sections| ==> !Overtaken(sections, j))
  {
    hide StopsItsOwn, Overtaken;
    forall j | 0 <= j < |sections| ensures StopsItsOwn(sections, j, timeout) <==> !Overtaken(sections, j) {
      OneStop(sections, j, timeout);
    }
  }

  // ---------- One callback at a time ----------

  /** What `rclpy.spin` allows: every stop follows its check at once, and no command comes after the shutdown's stop. */
  ghost predicate OneAtATime(sections: seq<Section>) {
    && (forall j :: 0 <= j < |sections| && sections[j].TimeoutStop? ==> j == sections[j].check + 1)
    && (forall i, j :: 0 <= i < j < |sections| && sections[i].ShutdownStop? ==> !sections[j].CommandSection?)
  }

  lemma {:induction false} OwedAfterShutdown(sections: seq<Section>, n: nat, timeout: real)
    requires n <= |sections| && Reached(sections, n, timeout).owed > 0
    ensures exists i :: 0 <= i < n && sections[i].ShutdownStop?
  {
    if !sections[n - 1].ShutdownStop? {
      OwedAfterShutdown(sections, n - 1, timeout);
    }
  }

  /** With one callback at a time no stop is late and the flag is exact at every point, through the shutdown. */
  lemma SpinNeverOverlaps(sections: seq<Section>, timeout: real)
    requires Possible(sections, timeout) && OneAtATime(sections) && ClockInOrder(sections) && timeout > 0.0
    ensures forall j :: 0 <= j < |sections| ==> StopsItsOwn(sections, j, timeout)
    ensures forall n :: 0 <= n <= |sections| ==> Exact(Reached(sections, n, timeout))
  {
    hide Reached, Exact, StopsItsOwn;
    StopsAreTimelyIff(sections, timeout);
    forall j | 0 <= j < |sections| && sections[j].UnlockedZero? ensures !StillMoving(sections, j) {
      assert Enabled(Reached(sections, j, timeout), sections[j]);
      OwedAfterShutdown(sections, j, timeout);
      var i :| 0 <= i < j && sections[i].ShutdownStop?;
    }
    FlagExactIff(sections, timeout);
  }

  // ---------- Schedules that only overlapping callbacks produce ----------

  /** The check of an old command and its stop, with a new command in between: the new command is stopped at once. */
  lemma StaleStop(m: Twist, timeout: real)
    requires Accepted(m) && IsNonzero(m) && timeout > 0.0
    ensures var schedule := [CommandSection(0.0, m), CheckSection(timeout), CommandSection(timeout, m), TimeoutStop(1)];
            && Possible(schedule, timeout) && ClockInOrder(schedule) && !StopsItsOwn(schedule, 3, timeout)
            && Reached(schedule, 3, timeout).motionActive && Reached(schedule, 3, timeout).lastFresh == timeout
            && !Reached(schedule, 4, timeout).motionActive
  {
    hide IsNonzero, Accepted;
    var schedule := [CommandSection(0.0, m), CheckSection(timeout), CommandSection(timeout, m), TimeoutStop(1)];
    assert Reached(schedule, 1, timeout).motionActive && Reached(schedule, 1, timeout).lastFresh == 0.0;
    assert Reached(schedule, 2, timeout).pending == map[1 := 0.0];
  }

  /** A command between the stop and the unlocked messages of a shutdown: the output is still while the flag is set. */
  lemma UnlockedZeroSplits(m: Twist, timeout: real)
    requires Accepted(m) && IsNonzero(m)
    ensures var schedule := [ShutdownStop, CommandSection(0.0, m), UnlockedZero];
            && Possible(schedule, timeout) && Reached(schedule, 3, timeout).motionActive
            && !LastMoves(Reached(schedule, 3, timeout))
  {
    hide Accepted;
    var schedule := [ShutdownStop, CommandSection(0.0, m), UnlockedZero];
    assert Reached(schedule, 1, timeout).owed == 2;
    assert Reached(schedule, 2, timeout).owed == 2;
  }
}
