/** The marching waypoint of `walk_to` (scripts/experiments/exp3_graded_execution.py) on one joint.

    The controller advances from the last waypoint it commanded, but keeps every command within `window` of the
    position it has just observed. `p(k)` is the position observed before command k; `Last(p, g, k)` is the last
    commanded waypoint at that moment, so that command k is `Last(p, g, k + 1)`.
 */
module March {
  import opened Arithmetic

  datatype Gait = Gait(target: real, delta: real, window: real)

  /** One joint's next waypoint. */
  function Waypoint(last: real, current: real, g: Gait): real {
    var marched := last + Max(-g.delta, Min(g.delta, g.target - last));
    Max(current - g.window, Min(current + g.window, marched))
  }

  /** The last commanded waypoint after `k` commands; before the first one, the position first observed. */
  function Last(p: nat -> real, g: Gait, k: nat): real {
    if k == 0 then p(0) else Waypoint(Last(p, g, k - 1), p(k - 1), g)
  }

  predicate Between(x: real, a: real, b: real) {
    a <= x <= b || b <= x <= a
  }

  /** Command k finds the joint, one observation later, somewhere between where it was and the waypoint. */
  predicate LagsAt(p: nat -> real, g: Gait, k: nat) {
    Between(p(k + 1), p(k), Last(p, g, k + 1))
  }

  /** The joint closes at least `r` of the commanded distance, or all of it. */
  predicate ClosesAt(p: nat -> real, g: Gait, r: real, k: nat) {
    Abs(p(k + 1) - p(k)) >= Min(r, Abs(Last(p, g, k + 1) - p(k)))
  }

  predicate ArrivesAt(p: nat -> real, g: Gait, k: nat) {
    p(k + 1) == Last(p, g, k + 1)
  }

  /** A lagging joint, over the first `n` commands. */
  ghost predicate Lags(p: nat -> real, g: Gait, n: nat) {
    forall k: nat :: k < n ==> LagsAt(p, g, k)
  }

  ghost predicate Closes(p: nat -> real, g: Gait, r: real, n: nat) {
    forall k: nat :: k < n ==> ClosesAt(p, g, r, k)
  }

  /** A perfect joint arrives at every waypoint exactly. */
  ghost predicate Arrives(p: nat -> real, g: Gait, n: nat) {
    forall k: nat :: k < n ==> ArrivesAt(p, g, k)
  }

  ghost predicate Sound(g: Gait) {
    g.delta > 0.0 && g.window >= 0.0
  }

  // ---------- Mirror image: walking down is walking up with the signs changed ----------

  function Mirrored(g: Gait): Gait {
    g.(target := -g.target)
  }

  function MirroredPath(p: nat -> real): nat -> real {
    (k: nat) => -p(k)
  }

  lemma WaypointMirrored(last: real, current: real, g: Gait)
    requires g.window >= 0.0 && g.delta >= 0.0
    ensures Waypoint(-last, -current, Mirrored(g)) == -Waypoint(last, current, g)
  {
  }

  lemma {:induction false} LastMirrored(p: nat -> real, g: Gait, k: nat)
    requires g.window >= 0.0 && g.delta >= 0.0
    ensures Last(MirroredPath(p), Mirrored(g), k) == -Last(p, g, k)
  {
    hide Waypoint;
    if k > 0 {
      LastMirrored(p, g, k - 1);
      WaypointMirrored(Last(p, g, k - 1), p(k - 1), g);
    }
  }

  lemma LagsMirrored(p: nat -> real, g: Gait, n: nat)
    requires g.window >= 0.0 && g.delta >= 0.0 && Lags(p, g, n)
    ensures Lags(MirroredPath(p), Mirrored(g), n)
  {
    var q := MirroredPath(p);
    forall k: nat | k < n ensures LagsAt(q, Mirrored(g), k) {
      LastMirrored(p, g, k + 1);
      assert LagsAt(p, g, k);
    }
  }

  // ---------- Safety against any lagging joint ----------

  /** One command, from a joint that trails the last waypoint by at most the window. */
  lemma OneAscent(last: real, current: real, g: Gait)
    requires Sound(g) && current <= last <= g.target && last <= current + g.window
    ensures current <= last <= Waypoint(last, current, g) <= g.target
    ensures Waypoint(last, current, g) <= current + g.window
  {
  }

  /** The inductive fact: the joint trails the last waypoint, which trails the target and leads the joint by no
      more than the window. */
  lemma {:induction false} Ascending(p: nat -> real, g: Gait, n: nat, k: nat)
    requires Sound(g) && Lags(p, g, n) && k <= n
    requires p(0) <= g.target
    ensures p(0) <= p(k) <= Last(p, g, k) <= g.target
    ensures Last(p, g, k) <= p(k) + g.window
    ensures Last(p, g, k) <= Last(p, g, k + 1) <= g.target
  {
    hide Waypoint;
    if k > 0 {
      Ascending(p, g, n, k - 1);
      OneAscent(Last(p, g, k - 1), p(k - 1), g);
      assert LagsAt(p, g, k - 1);
    }
    OneAscent(Last(p, g, k), p(k), g);
  }

  /** Whatever the lagging joint does: commands never turn back, never leave the stretch from the start to the
      target, and stay within the window of the joint. */
  lemma CommandsAreSafe(p: nat -> real, g: Gait, n: nat, k: nat)
    requires Sound(g) && Lags(p, g, n) && k <= n
    ensures p(0) <= g.target ==> Last(p, g, k) <= Last(p, g, k + 1)
    ensures p(0) >= g.target ==> Last(p, g, k) >= Last(p, g, k + 1)
    ensures Between(Last(p, g, k + 1), p(0), g.target)
    ensures Between(p(k), p(0), g.target)
    ensures Abs(Last(p, g, k + 1) - p(k)) <= g.window
    ensures Abs(Last(p, g, k) - p(k)) <= g.window
  {
    hide Last;
    if p(0) <= g.target {
      Ascending(p, g, n, k);
      CommandWithinWindow(p, g, k);
    }
    if p(0) >= g.target {
      LagsMirrored(p, g, n);
      LastMirrored(p, g, k);
      LastMirrored(p, g, k + 1);
      Ascending(MirroredPath(p), Mirrored(g), n, k);
      CommandWithinWindow(p, g, k);
    }
  }

  lemma CommandWithinWindow(p: nat -> real, g: Gait, k: nat)
    requires g.window >= 0.0
    ensures Abs(Last(p, g, k + 1) - p(k)) <= g.window
  {
  }

  // ---------- Convergence ----------

  lemma ClosingStep(before: real, command: real, after: real, target: real, r: real, delta: real)
    requires before <= target && Between(after, before, command) && 0.0 < r <= delta
    requires command - before >= Min(delta, target - before)
    requires Abs(after - before) >= Min(r, Abs(command - before))
    ensures target - after <= Max(0.0, target - before - r)
  {
  }

  /** What is left of a distance after `k` steps of `r`. */
  function Remaining(distance: real, r: real, k: nat): real {
    Max(0.0, distance - k as real * r)
  }

  lemma OneMore(distance: real, r: real, k: nat)
    requires r > 0.0
    ensures Max(0.0, Remaining(distance, r, k) - r) == Remaining(distance, r, k + 1)
  {
    assert (k + 1) as real * r == k as real * r + r;
  }

  lemma NoneYet(distance: real, r: real)
    requires distance >= 0.0
    ensures Remaining(distance, r, 0) == distance
  {
  }

  lemma CommandReaches(p: nat -> real, g: Gait, n: nat, k: nat)
    requires Sound(g) && g.delta <= g.window && Lags(p, g, n) && k <= n
    requires p(0) <= g.target
    ensures Last(p, g, k + 1) - p(k) >= Min(g.delta, g.target - p(k))
  {
    Ascending(p, g, n, k);
  }

  lemma ClosingFacts(p: nat -> real, g: Gait, r: real, n: nat, k: nat)
    requires Lags(p, g, n) && Closes(p, g, r, n) && k < n
    ensures Between(p(k + 1), p(k), Last(p, g, k + 1))
    ensures Abs(p(k + 1) - p(k)) >= Min(r, Abs(Last(p, g, k + 1) - p(k)))
  {
    hide Last;
    assert LagsAt(p, g, k) && ClosesAt(p, g, r, k);
  }

  /** What a joint that closes at least `r` per command still has to go after `k` commands. */
  lemma {:induction false} ClosingAscent(p: nat -> real, g: Gait, r: real, n: nat, k: nat)
    requires Sound(g) && g.delta <= g.window && Lags(p, g, n) && Closes(p, g, r, n) && k <= n
    requires 0.0 < r <= g.delta
    requires p(0) <= g.target
    ensures g.target - p(k) <= Remaining(g.target - p(0), r, k)
  {
    hide Remaining, Last, Lags, Closes, Between, Abs, Min;
    if k == 0 {
      NoneYet(g.target - p(0), r);
    } else {
      ClosingAscent(p, g, r, n, k - 1);
      Ascending(p, g, n, k - 1);
      CommandReaches(p, g, n, k - 1);
      ClosingFacts(p, g, r, n, k - 1);
      ClosingStep(p(k - 1), Last(p, g, k), p(k), g.target, r, g.delta);
      OneMore(g.target - p(0), r, k - 1);
    }
  }

  /** The distance bound, in either direction. */
  lemma ClosingDistance(p: nat -> real, g: Gait, r: real, n: nat, k: nat)
    requires Sound(g) && g.delta <= g.window && Lags(p, g, n) && Closes(p, g, r, n) && k <= n
    requires 0.0 < r <= g.delta
    ensures Abs(g.target - p(k)) <= Remaining(Abs(g.target - p(0)), r, k)
  {
    hide Last, Remaining;
    if p(0) <= g.target {
      Ascending(p, g, n, k);
      ClosingAscent(p, g, r, n, k);
    } else {
      var q, m := MirroredPath(p), Mirrored(g);
      LagsMirrored(p, g, n);
      forall j: nat | j < n ensures ClosesAt(q, m, r, j) {
        LastMirrored(p, g, j + 1);
        assert ClosesAt(p, g, r, j);
      }
      Ascending(q, m, n, k);
      ClosingAscent(q, m, r, n, k);
    }
  }

  lemma ArrivingLags(p: nat -> real, g: Gait, n: nat)
    requires Arrives(p, g, n)
    ensures Lags(p, g, n)
  {
    forall k: nat | k < n ensures LagsAt(p, g, k) {
      assert ArrivesAt(p, g, k);
    }
  }

  lemma StepOfArrival(before: real, g: Gait)
    requires Sound(g) && g.delta <= g.window
    ensures Abs(g.target - Waypoint(before, before, g)) == Max(0.0, Abs(g.target - before) - g.delta)
  {
  }

  /** A perfect joint closes exactly `delta` per command until it is there. */
  lemma {:induction false} ArrivingDistance(p: nat -> real, g: Gait, n: nat, k: nat)
    requires Sound(g) && g.delta <= g.window && Arrives(p, g, n) && k <= n
    ensures Last(p, g, k) == p(k)
    ensures Abs(g.target - p(k)) == Remaining(Abs(g.target - p(0)), g.delta, k)
  {
    hide Remaining, Waypoint;
    if k == 0 {
      NoneYet(Abs(g.target - p(0)), g.delta);
    } else {
      ArrivingDistance(p, g, n, k - 1);
      assert ArrivesAt(p, g, k - 1);
      StepOfArrival(p(k - 1), g);
      OneMore(Abs(g.target - p(0)), g.delta, k - 1);
    }
  }

  /** The least whole number not below `x`. */
  function Ceil(x: real): int {
    -(-x).Floor
  }

  /** max(0, ceil((distance - tolerance) / r)) */
  function StepsNeeded(distance: real, tolerance: real, r: real): nat
    requires r > 0.0
  {
    if distance <= tolerance then 0
    else
      assert (distance - tolerance) / r >= 0.0;
      Ceil((distance - tolerance) / r)
  }

  lemma QuotientBound(x: real, r: real, y: real)
    requires r > 0.0
    ensures x / r <= y <==> x <= y * r
  {
    assert x / r * r == x;
  }

  /** `StepsNeeded` is the first number of steps after which the tolerance is met. */
  lemma StepsNeededIsLeast(distance: real, tolerance: real, r: real, k: nat)
    requires r > 0.0 && tolerance >= 0.0
    ensures Remaining(distance, r, k) <= tolerance <==> k >= StepsNeeded(distance, tolerance, r)
  {
    QuotientBound(distance - tolerance, r, k as real);
    if distance <= tolerance {
      assert k as real * r >= 0.0;
    } else {
      hide Remaining;
      RemainingWithin(distance, tolerance, r, k);
    }
  }

  lemma RemainingWithin(distance: real, tolerance: real, r: real, k: nat)
    requires tolerance >= 0.0
    ensures Remaining(distance, r, k) <= tolerance <==> distance - tolerance <= k as real * r
  {
  }
}
