/** The deadman relay of scripts/simforge/gazebo_guarded_base_node.py: its state, its timing and its event log. */
module Deadman {

  // ---------- Messages ----------

  datatype Component = Finite(value: real) | Infinite | NaN

  datatype Twist = Twist(linearX: Component, linearY: Component, linearZ: Component,
                         angularX: Component, angularY: Component, angularZ: Component)

  const ZERO_TWIST := Twist(Finite(0.0), Finite(0.0), Finite(0.0), Finite(0.0), Finite(0.0), Finite(0.0))
  const EPSILON := 0.000000001

  /** abs(value) > 1e-9, which is false of NaN. */
  predicate Exceeds(c: Component) {
    match c
    case Finite(v) => v > EPSILON || v < -EPSILON
    case Infinite => true
    case NaN => false
  }

  predicate IsNonzero(m: Twist) {
    || Exceeds(m.linearX) || Exceeds(m.linearY) || Exceeds(m.linearZ)
    || Exceeds(m.angularX) || Exceeds(m.angularY) || Exceeds(m.angularZ)
  }

  /** The components that `_on_command` checks. */
  predicate Accepted(m: Twist) {
    m.linearX.Finite? && m.angularZ.Finite?
  }

  /** A component that certainly does not ask for motion. */
  predicate Still(c: Component) {
    c.Finite? && !Exceeds(c)
  }

  /** The message is not a standstill. */
  predicate Moving(m: Twist) {
    !(Still(m.linearX) && Still(m.linearY) && Still(m.linearZ)
      && Still(m.angularX) && Still(m.angularY) && Still(m.angularZ))
  }

  predicate HasNaN(m: Twist) {
    m.linearX.NaN? || m.linearY.NaN? || m.linearZ.NaN? || m.angularX.NaN? || m.angularY.NaN? || m.angularZ.NaN?
  }

  // ---------- State and callbacks ----------

  datatype Reason = NonFiniteCommand | FreshCommandTimeout | Shutdown

  datatype LogEvent = CommandForwarded(linearX: Component, angularZ: Component) | DeadmanStop(reason: Reason)

  datatype RelayState = RelayState(lastFresh: real, motionActive: bool, published: seq<Twist>, log: seq<LogEvent>)

  const INITIAL := RelayState(0.0, false, [], [])

  /** `_publish_stop` */
  function Stop(s: RelayState, reason: Reason): RelayState {
    s.(motionActive := false,
       published := s.published + [ZERO_TWIST],
       log := if s.motionActive || reason != Shutdown then s.log + [DeadmanStop(reason)] else s.log)
  }

  /** `_on_command` at time `now` */
  function Command(s: RelayState, m: Twist, now: real): RelayState {
    if !Accepted(m) then Stop(s, NonFiniteCommand)
    else
      s.(lastFresh := now,
         motionActive := IsNonzero(m),
         published := s.published + [m],
         log := if !s.motionActive || !IsNonzero(m) then s.log + [CommandForwarded(m.linearX, m.angularZ)] else s.log)
  }

  predicate Expired(s: RelayState, now: real, timeout: real) {
    s.motionActive && now - s.lastFresh >= timeout
  }

  /** `_check_deadman` at time `now` */
  function Check(s: RelayState, now: real, timeout: real): RelayState {
    if Expired(s, now, timeout) then Stop(s, FreshCommandTimeout) else s
  }

  class Relay {
    const timeout: real
    var lastFresh: real
    var motionActive: bool
    var published: seq<Twist>
    var log: seq<LogEvent>

    function State(): RelayState
      reads this
    {
      RelayState(lastFresh, motionActive, published, log)
    }

    constructor (timeout: real)
      ensures this.timeout == timeout && State() == INITIAL
    {
      this.timeout := timeout;
      lastFresh, motionActive, published, log := 0.0, false, [], [];
    }

    method PublishStop(reason: Reason)
      modifies this
      ensures State() == Stop(old(State()), reason)
    {
      var wasActive := motionActive;
      published := published + [ZERO_TWIST];
      motionActive := false;
      if wasActive || reason != Shutdown {
        log := log + [DeadmanStop(reason)];
      }
    }

    method OnCommand(message: Twist, now: real)
      modifies this
      ensures State() == Command(old(State()), message, now)
    {
      if !Accepted(message) {
        PublishStop(NonFiniteCommand);
        return;
      }
      var wasActive := motionActive;
      lastFresh := now;
      motionActive := IsNonzero(message);
      published := published + [message];
      if !wasActive || !motionActive {
        log := log + [CommandForwarded(message.linearX, message.angularZ)];
      }
    }

    method CheckDeadman(now: real)
      modifies this
      ensures State() == Check(old(State()), now, timeout)
    {
      var expired := motionActive && now - lastFresh >= timeout;
      if expired {
        PublishStop(FreshCommandTimeout);
      }
    }

    /** After the spin loop: a stop, and two more zero messages outside the lock. */
    method SafeShutdown()
      modifies this
      ensures State() == Stop(old(State()), Shutdown).(
                           published := old(published) + [ZERO_TWIST, ZERO_TWIST, ZERO_TWIST])
    {
      PublishStop(Shutdown);
      for i := 0 to 2
        invariant State() == Stop(old(State()), Shutdown).(published := old(published) + seq(i + 1, _ => ZERO_TWIST))
      {
        published := published + [ZERO_TWIST];
      }
    }
  }

  // ---------- Runs of the single-threaded executor ----------

  datatype Callback = OnCommand(at: real, message: Twist) | OnTimer(at: real)

  /** The state after the first `n` callbacks. */
  function After(run: seq<Callback>, n: nat, timeout: real): RelayState
    requires n <= |run|
  {
    if n == 0 then INITIAL
    else
      var before := After(run, n - 1, timeout);
      match run[n - 1]
      case OnCommand(at, message) => Command(before, message, at)
      case OnTimer(at) => Check(before, at, timeout)
  }

  /** The single-threaded executor: the callbacks of a run, one after the other, on one relay. */
  method Spin(run: seq<Callback>, timeout: real) returns (relay: Relay)
    ensures fresh(relay) && relay.timeout == timeout
    ensures relay.State() == After(run, |run|, timeout)
  {
    relay := new Relay(timeout);
    for n := 0 to |run|
      invariant fresh(relay) && relay.timeout == timeout
      invariant relay.State() == After(run, n, timeout)
    {
      match run[n]
      case OnCommand(at, message) => relay.OnCommand(message, at);
      case OnTimer(at) => relay.CheckDeadman(at);
    }
  }

  ghost predicate InTime(run: seq<Callback>) {
    forall i, j :: 0 <= i < j < |run| ==> run[i].at <= run[j].at
  }

  /** Callback c is the last command before callback n. */
  ghost predicate LastCommand(run: seq<Callback>, c: nat, n: nat) {
    && c < n <= |run| && run[c].OnCommand?
    && forall k :: c < k < n ==> run[k].OnTimer?
  }

  /** No timer between the command at c and callback n has come `timeout` or more after the command. */
  ghost predicate Unexpired(run: seq<Callback>, c: nat, n: nat, timeout: real) {
    c < n <= |run| && forall k :: c < k < n ==> run[k].at - run[c].at < timeout
  }

  /** Motion is active exactly while the last command is an accepted moving one that no timer has found expired. */
  ghost predicate ActiveSince(run: seq<Callback>, c: nat, n: nat, timeout: real) {
    LastCommand(run, c, n) && Accepted(run[c].message) && IsNonzero(run[c].message) && Unexpired(run, c, n, timeout)
  }

  lemma {:induction false} NeverCommanded(run: seq<Callback>, n: nat, timeout: real)
    requires n <= |run| && forall k :: 0 <= k < n ==> run[k].OnTimer?
    ensures After(run, n, timeout) == INITIAL
  {
    if n > 0 {
      NeverCommanded(run, n - 1, timeout);
    }
  }

  lemma {:induction false} ActivitySinceCommand(run: seq<Callback>, c: nat, n: nat, timeout: real)
    requires LastCommand(run, c, n)
    ensures After(run, n, timeout).motionActive <==> ActiveSince(run, c, n, timeout)
    ensures Accepted(run[c].message) ==> After(run, n, timeout).lastFresh == run[c].at
    decreases n
  {
    if n - 1 == c {
      assert Unexpired(run, c, n, timeout);
    } else {
      ActivitySinceCommand(run, c, n - 1, timeout);
      assert run[n - 1].OnTimer?;
      var before := After(run, n - 1, timeout);
      assert After(run, n, timeout) == Check(before, run[n - 1].at, timeout);
      hide After, Accepted, IsNonzero;
      assert Unexpired(run, c, n, timeout) <==>
             Unexpired(run, c, n - 1, timeout) && run[n - 1].at - run[c].at < timeout;
    }
  }

  lemma FindLastCommand(run: seq<Callback>, n: nat) returns (found: bool, c: nat)
    requires n <= |run|
    ensures found ==> LastCommand(run, c, n)
    ensures !found ==> forall k :: 0 <= k < n ==> run[k].OnTimer?
  {
    found, c := false, n;
    while c > 0
      invariant c <= n && forall k :: c <= k < n ==> run[k].OnTimer?
    {
      c := c - 1;
      if run[c].OnCommand? {
        found := true;
        return;
      }
    }
  }

  /** Exactly when a timer stops the base: the last command before it is an accepted moving one, and the timer is the
      first to come at least `timeout` after that command. */
  lemma TimerStopsIff(run: seq<Callback>, n: nat, timeout: real)
    requires n < |run| && run[n].OnTimer?
    ensures Expired(After(run, n, timeout), run[n].at, timeout) <==>
            exists c: nat :: ActiveSince(run, c, n, timeout) && run[n].at - run[c].at >= timeout
  {
    hide After, Accepted, IsNonzero;
    var found, c := FindLastCommand(run, n);
    if found {
      ActivitySinceCommand(run, c, n, timeout);
      forall d: nat | ActiveSince(run, d, n, timeout) ensures d == c {
        LastCommandUnique(run, c, d, n);
      }
    } else {
      NeverCommanded(run, n, timeout);
    }
  }

  lemma LastCommandUnique(run: seq<Callback>, c: nat, d: nat, n: nat)
    requires LastCommand(run, c, n) && LastCommand(run, d, n)
    ensures c == d
  {
  }

  // ---------- What is published and what is logged ----------

  /** The last command before callback n still stands: it moves and no timer has found it expired. */
  ghost predicate Standing(run: seq<Callback>, n: nat, timeout: real) {
    exists c: nat :: ActiveSince(run, c, n, timeout)
  }

  lemma ActiveIffStanding(run: seq<Callback>, n: nat, timeout: real)
    requires n <= |run|
    ensures After(run, n, timeout).motionActive <==> Standing(run, n, timeout)
  {
    hide After;
    var found, c := FindLastCommand(run, n);
    if found {
      ActivitySinceCommand(run, c, n, timeout);
      forall d: nat | ActiveSince(run, d, n, timeout) ensures d == c {
        LastCommandUnique(run, c, d, n);
      }
    } else {
      NeverCommanded(run, n, timeout);
    }
  }

  /** The timer at callback k finds a standing command that is a timeout old. */
  ghost predicate TimesOut(run: seq<Callback>, k: nat, timeout: real)
    requires k < |run|
  {
    exists c: nat :: ActiveSince(run, c, k, timeout) && run[k].at - run[c].at >= timeout
  }

  /** What callback k publishes: a command with finite checked components unchanged, and zero for any other and for a
      timeout. */
  ghost function Sent(run: seq<Callback>, k: nat, timeout: real): seq<Twist>
    requires k < |run|
  {
    match run[k]
    case OnCommand(_, m) => if m.linearX.Finite? && m.angularZ.Finite? then [m] else [ZERO_TWIST]
    case OnTimer(_) => if TimesOut(run, k, timeout) then [ZERO_TWIST] else []
  }

  ghost function Output(run: seq<Callback>, n: nat, timeout: real): seq<Twist>
    requires n <= |run|
  {
    if n == 0 then [] else Output(run, n - 1, timeout) + Sent(run, n - 1, timeout)
  }

  /** What callback k logs: every stop with its reason, and the two checked components of a command unless it only
      renews a standing one. */
  ghost function Line(run: seq<Callback>, k: nat, timeout: real): seq<LogEvent>
    requires k < |run|
  {
    match run[k]
    case OnCommand(_, m) =>
      if !(m.linearX.Finite? && m.angularZ.Finite?) then [DeadmanStop(NonFiniteCommand)]
      else if Standing(run, k, timeout) && IsNonzero(m) then []
      else [CommandForwarded(m.linearX, m.angularZ)]
    case OnTimer(_) => if TimesOut(run, k, timeout) then [DeadmanStop(FreshCommandTimeout)] else []
  }

  ghost function Lines(run: seq<Callback>, n: nat, timeout: real): seq<LogEvent>
    requires n <= |run|
  {
    if n == 0 then [] else Lines(run, n - 1, timeout) + Line(run, n - 1, timeout)
  }

  /** The relay publishes the accepted commands, in order and unchanged, with a zero message for every stop, and logs
      each of them. */
  lemma {:induction false} OutputIs(run: seq<Callback>, n: nat, timeout: real)
    requires n <= |run|
    ensures After(run, n, timeout).published == Output(run, n, timeout)
    ensures After(run, n, timeout).log == Lines(run, n, timeout)
  {
    hide IsNonzero, Standing, TimesOut, Expired;
    if n > 0 {
      OutputIs(run, n - 1, timeout);
      ActiveIffStanding(run, n - 1, timeout);
      if run[n - 1].OnTimer? {
        TimesOutIff(run, n - 1, timeout);
      }
    }
  }

  lemma TimesOutIff(run: seq<Callback>, n: nat, timeout: real)
    requires n < |run| && run[n].OnTimer?
    ensures Expired(After(run, n, timeout), run[n].at, timeout) <==> TimesOut(run, n, timeout)
  {
    hide After, Expired;
    TimerStopsIff(run, n, timeout);
  }

  /** After the last command at c, the relay's last message is that command as it came, or zero: if it was not accepted,
      or if it moves and a timer has found it a timeout old. */
  lemma {:induction false} LastMessageIs(run: seq<Callback>, c: nat, n: nat, timeout: real)
    requires LastCommand(run, c, n)
    ensures var published, m := After(run, n, timeout).published, run[c].message;
            && published != []
            && published[|published| - 1] ==
               if m.linearX.Finite? && m.angularZ.Finite? && (!IsNonzero(m) || Unexpired(run, c, n, timeout)) then m
               else ZERO_TWIST
    decreases n
  {
    hide IsNonzero;
    if c < n - 1 {
      LastMessageIs(run, c, n - 1, timeout);
      ActivitySinceCommand(run, c, n - 1, timeout);
    }
  }

  /** No timeout stop while accepted commands keep arriving less than `timeout` apart. */
  lemma NoStopWhileFresh(run: seq<Callback>, n: nat, timeout: real)
    requires n < |run| && run[n].OnTimer? && InTime(run)
    requires exists c :: 0 <= c < n && run[c].OnCommand? && run[n].at - run[c].at < timeout
    ensures After(run, n + 1, timeout) == After(run, n, timeout)
  {
    TimerStopsIff(run, n, timeout);
    if c: nat :| ActiveSince(run, c, n, timeout) && run[n].at - run[c].at >= timeout {
      assert false;
    }
  }

  predicate OutputStill(s: RelayState) {
    s.published == [] || !IsNonzero(s.published[|s.published| - 1])
  }

  /** The flag follows the last published message. */
  lemma {:induction false} FlagFollowsOutput(run: seq<Callback>, n: nat, timeout: real)
    requires n <= |run|
    ensures After(run, n, timeout).motionActive <==> !OutputStill(After(run, n, timeout))
  {
    if n > 0 {
      FlagFollowsOutput(run, n - 1, timeout);
    }
  }

  /** Timer callbacks come often enough: every window of length `period` from `from` up to `until` holds one. */
  ghost predicate Regular(run: seq<Callback>, from: real, until: real, period: real) {
    forall x: real :: from <= x <= until - period ==> TimerWithin(run, x, period)
  }

  ghost predicate TimerWithin(run: seq<Callback>, x: real, period: real) {
    exists k :: 0 <= k < |run| && run[k].OnTimer? && x <= run[k].at <= x + period
  }

  function TimerPeriod(timeout: real): real {
    if timeout / 4.0 <= 0.05 then timeout / 4.0 else 0.05
  }

  /** The stop latency: after the last command of a run at time t, the output is still from some callback at or before
      t + timeout + period on, that is, by t + 1.25 * timeout. */
  lemma StopLatency(run: seq<Callback>, c: nat, timeout: real) returns (k: nat)
    requires timeout > 0.0 && InTime(run) && LastCommand(run, c, |run|)
    requires Regular(run, run[c].at, run[c].at + timeout + TimerPeriod(timeout), TimerPeriod(timeout))
    ensures c < k < |run| && run[k].at <= run[c].at + timeout + TimerPeriod(timeout)
    ensures timeout + TimerPeriod(timeout) <= 1.25 * timeout && TimerPeriod(timeout) <= 0.05
    ensures forall n :: k < n <= |run| ==>
              !After(run, n, timeout).motionActive && OutputStill(After(run, n, timeout))
  {
    hide After, OutputStill, Accepted, IsNonzero;
    var due := run[c].at + timeout;
    assert TimerWithin(run, due, TimerPeriod(timeout));
    k :| 0 <= k < |run| && run[k].OnTimer? && due <= run[k].at <= due + TimerPeriod(timeout);
    assert c < k;
    forall n | k < n <= |run| ensures !After(run, n, timeout).motionActive && OutputStill(After(run, n, timeout)) {
      assert LastCommand(run, c, n);
      ActivitySinceCommand(run, c, n, timeout);
      FlagFollowsOutput(run, n, timeout);
    }
  }

  /** "Within timeout" alone is false: here the command at 0.005 still stands at 0.055, one timeout of 0.05 later, and
      is stopped at 0.0625, although the timer fires every 0.0125 as configured. */
  lemma TimeoutAloneIsTooShort(run: seq<Callback>, m: Twist)
    requires Accepted(m) && IsNonzero(m)
    requires run == [OnTimer(0.0), OnCommand(0.005, m), OnTimer(0.0125), OnTimer(0.025), OnTimer(0.0375), OnTimer(0.05),
                     OnTimer(0.0625)]
    ensures TimerPeriod(0.05) == 0.0125
    ensures run[5].at < 0.005 + 0.05 < run[6].at
    ensures After(run, 6, 0.05).motionActive && !After(run, 7, 0.05).motionActive
  {
    hide After;
    assert LastCommand(run, 1, 6) && LastCommand(run, 1, 7);
    assert Unexpired(run, 1, 6, 0.05);
    ActivitySinceCommand(run, 1, 6, 0.05);
    ActivitySinceCommand(run, 1, 7, 0.05);
    assert run[6].at - run[1].at >= 0.05;
  }

  /** When the stop does come within the timeout: exactly when a timer callback falls on the last possible moment. */
  lemma WithinTimeoutIff(run: seq<Callback>, c: nat, timeout: real)
    requires InTime(run) && LastCommand(run, c, |run|)
    requires Accepted(run[c].message) && IsNonzero(run[c].message)
    ensures (exists n :: c < n <= |run| && run[n - 1].at <= run[c].at + timeout && Inactive(run, n, timeout))
            <==> exists k :: c < k < |run| && run[k].at == run[c].at + timeout
  {
    hide After, IsNonzero, Accepted;
    if k :| c < k < |run| && run[k].at == run[c].at + timeout {
      ActivitySinceCommand(run, c, k + 1, timeout);
      assert !Unexpired(run, c, k + 1, timeout);
      assert Inactive(run, k + 1, timeout);
    }
    if n :| c < n <= |run| && run[n - 1].at <= run[c].at + timeout && Inactive(run, n, timeout) {
      ActivitySinceCommand(run, c, n, timeout);
      assert !Unexpired(run, c, n, timeout);
      var k :| c < k < n && run[k].at - run[c].at >= timeout;
      assert run[k].at <= run[n - 1].at;
    }
  }

  ghost predicate Inactive(run: seq<Callback>, n: nat, timeout: real)
    requires n <= |run|
  {
    !After(run, n, timeout).motionActive
  }

  // ---------- What "moving" means for messages with NaN ----------

  /** The flag's test misses a message exactly when it has a NaN and nothing else that moves. */
  lemma NonzeroMissesMoving(m: Twist)
    ensures IsNonzero(m) ==> Moving(m)
    ensures Moving(m) && !IsNonzero(m) <==> HasNaN(m) && !IsNonzero(m)
  {
  }

  predicate OutputMoving(s: RelayState) {
    s.published != [] && Moving(s.published[|s.published| - 1])
  }

  /** A forwarded message that moves without the flag noticing. */
  predicate Masked(m: Twist) {
    Accepted(m) && HasNaN(m) && !IsNonzero(m)
  }

  /** A standstill but for a NaN in a component that is not checked. */
  const NAN_SIDEWAYS := ZERO_TWIST.(linearY := NaN)

  lemma MaskedExists()
    ensures Masked(NAN_SIDEWAYS)
  {
  }

  lemma ForwardedOutput(run: seq<Callback>, n: nat, timeout: real)
    requires n < |run| && run[n].OnCommand? && Accepted(run[n].message)
    ensures var s := After(run, n + 1, timeout);
            OutputMoving(s) == Moving(run[n].message) && s.motionActive == IsNonzero(run[n].message)
  {
  }

  lemma {:induction false} UnmaskedFlag(run: seq<Callback>, n: nat, timeout: real)
    requires n <= |run|
    requires forall i :: 0 <= i < n && run[i].OnCommand? ==> !Masked(run[i].message)
    ensures After(run, n, timeout).motionActive <==> OutputMoving(After(run, n, timeout))
  {
    if n > 0 {
      UnmaskedFlag(run, n - 1, timeout);
      if run[n - 1].OnCommand? && Accepted(run[n - 1].message) {
        ForwardedOutput(run, n - 1, timeout);
        NonzeroMissesMoving(run[n - 1].message);
      }
    }
  }

  /** The flag says at every point whether the output is moving, exactly when no forwarded message hides a NaN in a
      component that is not checked. */
  lemma FlagIsMotionIff(run: seq<Callback>, timeout: real)
    ensures (forall n :: 0 <= n <= |run| ==>
               (After(run, n, timeout).motionActive <==> OutputMoving(After(run, n, timeout))))
            <==> (forall i :: 0 <= i < |run| && run[i].OnCommand? ==> !Masked(run[i].message))
  {
    if forall i :: 0 <= i < |run| && run[i].OnCommand? ==> !Masked(run[i].message) {
      forall n | 0 <= n <= |run|
        ensures After(run, n, timeout).motionActive <==> OutputMoving(After(run, n, timeout))
      {
        UnmaskedFlag(run, n, timeout);
      }
    } else {
      hide After, IsNonzero, Moving, HasNaN, OutputMoving;
      var i :| 0 <= i < |run| && run[i].OnCommand? && Masked(run[i].message);
      ForwardedOutput(run, i, timeout);
      NonzeroMissesMoving(run[i].message);
      assert 0 <= i + 1 <= |run|;
    }
  }

  // ---------- The event log ----------

  /** What a reader of the log takes the flag to be. */
  function Replay(log: seq<LogEvent>): bool {
    if log == [] then false
    else match log[|log| - 1]
      case CommandForwarded(x, z) => Exceeds(x) || Exceeds(z)
      case DeadmanStop(_) => false
  }

  /** The two logged components show whether the message moves. */
  predicate Faithful(m: Twist) {
    IsNonzero(m) <==> Exceeds(m.linearX) || Exceeds(m.angularZ)
  }

  /** Motion in a component that is not logged. */
  const SIDEWAYS := ZERO_TWIST.(linearY := Finite(1.0))

  lemma UnfaithfulExists()
    ensures Accepted(SIDEWAYS) && IsNonzero(SIDEWAYS) && !Faithful(SIDEWAYS)
  {
  }

  /** Callback i is a forwarded command that leaves a line in the log. */
  ghost predicate Logged(run: seq<Callback>, i: nat, timeout: real) {
    i < |run| && run[i].OnCommand? && Accepted(run[i].message)
    && (!After(run, i, timeout).motionActive || !IsNonzero(run[i].message))
  }

  lemma {:induction false} ReplayFollows(run: seq<Callback>, n: nat, timeout: real)
    requires n <= |run|
    requires forall i: nat :: i < n && Logged(run, i, timeout) ==> Faithful(run[i].message)
    ensures Replay(After(run, n, timeout).log) == After(run, n, timeout).motionActive
  {
    if n > 0 {
      ReplayFollows(run, n - 1, timeout);
      assert Logged(run, n - 1, timeout) ==> Faithful(run[n - 1].message);
    }
  }

  lemma UnfaithfulShows(run: seq<Callback>, i: nat, timeout: real)
    requires Logged(run, i, timeout) && !Faithful(run[i].message)
    ensures Replay(After(run, i + 1, timeout).log) != After(run, i + 1, timeout).motionActive
  {
  }

  /** Replaying the log gives the flag at every point, exactly when every logged command moves in its planar
      components if it moves at all. */
  lemma ReplayIff(run: seq<Callback>, timeout: real)
    ensures (forall n :: 0 <= n <= |run| ==>
               Replay(After(run, n, timeout).log) == After(run, n, timeout).motionActive)
            <==> (forall i: nat :: Logged(run, i, timeout) ==> Faithful(run[i].message))
  {
    hide After, Replay, Faithful;
    if forall i: nat :: Logged(run, i, timeout) ==> Faithful(run[i].message) {
      forall n | 0 <= n <= |run| ensures Replay(After(run, n, timeout).log) == After(run, n, timeout).motionActive {
        ReplayFollows(run, n, timeout);
      }
    } else {
      var i: nat :| Logged(run, i, timeout) && !Faithful(run[i].message);
      UnfaithfulShows(run, i, timeout);
      assert 0 <= i + 1 <= |run|;
    }
  }
}
