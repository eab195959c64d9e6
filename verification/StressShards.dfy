/** The contact-push stress run: how scripts/simforge/contact_push_mjwarp_worker.py divides its worlds into groups
    and records them, and when scripts/simforge/run_contact_push_four_gpu.py calls four shards complete.

    Simulators and random streams are parameters.
 */
module StressShards {
  import opened Arithmetic
  import opened Wrappers

  datatype Scenario = Scenario(index: int, mass: real, friction: real, offset: real, target: real, delay: real,
                               noise: real)

  /** The `k`-th draw from the random stream of group `g`. */
  type Streams = (nat, nat) -> real

  // ---------- Groups ----------

  /** The scenario at position `p` of a shard: what it is, whatever the loops that build it. */
  function ScenarioAt(draw: Streams, groupSize: nat, worldOffset: int, p: nat): Scenario
    requires groupSize > 0
  {
    InGroup(draw, p / groupSize, worldOffset + p, p % groupSize)
  }

  function InGroup(draw: Streams, g: nat, index: int, local: nat): Scenario {
    Scenario(index, draw(g, 0), draw(g, 1), draw(g, 2), draw(g, 3 + 3 * local), draw(g, 4 + 3 * local),
             draw(g, 5 + 3 * local))
  }

  function Shard(draw: Streams, groupSize: nat, worldOffset: int, total: nat): (r: seq<Scenario>)
    requires groupSize > 0
    ensures |r| == total
    ensures forall p :: 0 <= p < total ==> r[p] == ScenarioAt(draw, groupSize, worldOffset, p)
  {
    seq(total, p requires 0 <= p < total => ScenarioAt(draw, groupSize, worldOffset, p))
  }

  /** Where the draws of a scenario come from: body and start from the first three draws of its group's stream, target,
      delay and noise from the three that are its own. */
  lemma ScenarioDraws(draw: Streams, groupSize: nat, worldOffset: int, g: nat, local: nat)
    requires local < groupSize
    ensures var s := ScenarioAt(draw, groupSize, worldOffset, g * groupSize + local);
            && s.index == worldOffset + g * groupSize + local
            && [s.mass, s.friction, s.offset] == [draw(g, 0), draw(g, 1), draw(g, 2)]
            && [s.target, s.delay, s.noise]
               == [draw(g, 3 + 3 * local), draw(g, 3 + 3 * local + 1), draw(g, 3 + 3 * local + 2)]
  {
    Position(g, local, groupSize);
  }

  function Flatten<T>(groups: seq<seq<T>>): seq<T> {
    if groups == [] then [] else Flatten(groups[..|groups| - 1]) + groups[|groups| - 1]
  }

  lemma FlattenNext<T>(groups: seq<seq<T>>, g: seq<T>)
    ensures Flatten(groups + [g]) == Flatten(groups) + g
  {
    assert (groups + [g])[..|groups|] == groups;
  }

  lemma Position(g: nat, local: nat, size: nat)
    requires local < size
    ensures (g * size + local) / size == g && (g * size + local) % size == local
  {
    var p := g * size + local;
    assert p == (p / size) * size + p % size;
    SameQuotient(p / size, g, p % size, local, size);
  }

  lemma SameQuotient(a: int, b: int, x: int, y: int, size: nat)
    requires 0 <= x < size && 0 <= y < size && a * size + x == b * size + y
    ensures a == b && x == y
  {
    var d := a - b;
    assert d * size == a * size - b * size;
    if d >= 1 {
      AtLeastOnce(d, size);
    } else if d <= -1 {
      AtLeastOnce(-d, size);
    }
  }

  /** Scenarios that one physical model can simulate together. */
  predicate SameBody(a: Scenario, b: Scenario) {
    a.mass == b.mass && a.friction == b.friction && a.offset == b.offset
  }

  lemma AtPosition(draw: Streams, g: nat, groupSize: nat, worldOffset: int, produced: nat, local: nat)
    requires local < groupSize && produced == g * groupSize
    ensures ScenarioAt(draw, groupSize, worldOffset, produced + local)
            == InGroup(draw, g, worldOffset + produced + local, local)
  {
    Position(g, local, groupSize);
  }

  /** One group: the draws of the body come first, then three for each scenario. */
  method StressGroup(draw: Streams, g: nat, size: nat, groupSize: nat, worldOffset: int, produced: nat)
    returns (scenarios: seq<Scenario>)
    requires 0 < size <= groupSize && produced == g * groupSize
    ensures |scenarios| == size
    ensures forall i :: 0 <= i < size ==> scenarios[i] == ScenarioAt(draw, groupSize, worldOffset, produced + i)
    ensures forall i :: 0 <= i < size ==> SameBody(scenarios[i], scenarios[0])
  {
    hide ScenarioAt;
    var mass, friction, offset := draw(g, 0), draw(g, 1), draw(g, 2);
    scenarios := [];
    var drawn := 3;
    for local := 0 to size
      invariant |scenarios| == local && drawn == 3 + 3 * local
      invariant forall i :: 0 <= i < local ==> scenarios[i] == ScenarioAt(draw, groupSize, worldOffset, produced + i)
      invariant forall i :: 0 <= i < local ==> SameBody(scenarios[i], scenarios[0])
      invariant local > 0 ==>
                  scenarios[0].mass == mass && scenarios[0].friction == friction && scenarios[0].offset == offset
    {
      AtPosition(draw, g, groupSize, worldOffset, produced, local);
      var index := worldOffset + produced + local;
      var scenario := Scenario(index, mass, friction, offset, draw(g, drawn), draw(g, drawn + 1), draw(g, drawn + 2));
      drawn := drawn + 3;
      scenarios := scenarios + [scenario];
    }
  }

  ghost predicate WellGrouped(groups: seq<seq<Scenario>>, groupSize: nat) {
    forall g :: 0 <= g < |groups| ==> WellSized(groups[g], groupSize)
  }

  ghost predicate WellSized(group: seq<Scenario>, groupSize: nat) {
    1 <= |group| <= groupSize && forall i :: 0 <= i < |group| ==> SameBody(group[i], group[0])
  }

  lemma EmptyShard(draw: Streams, groupSize: nat, worldOffset: int)
    requires groupSize > 0
    ensures Flatten<Scenario>([]) == Shard(draw, groupSize, worldOffset, 0)
    ensures WellGrouped([], groupSize)
  {
  }

  lemma ShardNext(draw: Streams, groupSize: nat, worldOffset: int, produced: nat, group: seq<Scenario>)
    requires groupSize > 0
    requires forall i :: 0 <= i < |group| ==> group[i] == ScenarioAt(draw, groupSize, worldOffset, produced + i)
    ensures Shard(draw, groupSize, worldOffset, produced) + group
            == Shard(draw, groupSize, worldOffset, produced + |group|)
  {
    hide ScenarioAt;
    var whole := Shard(draw, groupSize, worldOffset, produced) + group;
    forall p | 0 <= p < |whole| ensures whole[p] == ScenarioAt(draw, groupSize, worldOffset, p) {
      if p >= produced {
        assert whole[p] == group[p - produced];
      }
    }
  }

  lemma GroupedNext(groups: seq<seq<Scenario>>, groupSize: nat, group: seq<Scenario>)
    requires WellGrouped(groups, groupSize) && 0 < |group| <= groupSize
    requires forall i :: 0 <= i < |group| ==> SameBody(group[i], group[0])
    ensures WellGrouped(groups + [group], groupSize)
  {
    hide SameBody;
  }

  lemma OneGroupMore(g: nat, groupSize: nat)
    ensures (g + 1) * groupSize == g * groupSize + groupSize
  {
  }

  /** `_stress_groups`: non-empty groups within the size, each of one body, that together are the shard in order. */
  method StressGroups(draw: Streams, total: nat, groupSize: nat, worldOffset: int) returns (groups: seq<seq<Scenario>>)
    requires groupSize > 0
    ensures Flatten(groups) == Shard(draw, groupSize, worldOffset, total)
    ensures WellGrouped(groups, groupSize)
  {
    hide ScenarioAt, SameBody, Shard, Flatten, WellGrouped;
    EmptyShard(draw, groupSize, worldOffset);
    groups := [];
    var produced, groupIndex := 0, 0;
    while produced < total
      invariant produced <= total
      invariant produced < total ==> produced == groupIndex * groupSize
      invariant |groups| == groupIndex && WellGrouped(groups, groupSize)
      invariant Flatten(groups) == Shard(draw, groupSize, worldOffset, produced)
      decreases total - produced
    {
      var size := if groupSize <= total - produced then groupSize else total - produced;
      var scenarios := StressGroup(draw, groupIndex, size, groupSize, worldOffset, produced);
      FlattenNext(groups, scenarios);
      ShardNext(draw, groupSize, worldOffset, produced, scenarios);
      GroupedNext(groups, groupSize, scenarios);
      OneGroupMore(groupIndex, groupSize);
      groups := groups + [scenarios];
      produced := produced + size;
      groupIndex := groupIndex + 1;
    }
  }

  // ---------- Records ----------

  datatype Status = Success | NoContact | Overshot | Undershot | ForceLimit | DeadlineExceeded | NonFinite

  /** What the two simulators say about a scenario. */
  datatype Simulated = Simulated(cpu: Status, warpX: real)

  datatype Record = Record(worldIndex: int, scenario: Scenario, critical: bool, forceViolation: bool)

  function WarpStatus(finalX: real, error: real, tolerance: real): Status {
    if finalX <= 0.002 then NoContact
    else if error < -tolerance then Overshot
    else if error > tolerance then Undershot
    else Success
  }

  /** What the label says of an object that was to move `target`: it did not move, moved too far or not far enough, or
      came to rest within the tolerance. */
  lemma WarpStatusMeans(finalX: real, target: real, tolerance: real)
    requires tolerance >= 0.0
    ensures var status := WarpStatus(finalX, target - finalX, tolerance);
            && (status == NoContact <==> finalX <= 0.002)
            && (status == Success <==> finalX > 0.002 && Abs(target - finalX) <= tolerance)
            && (status == Overshot <==> finalX > 0.002 && finalX > target + tolerance)
            && (status == Undershot <==> finalX > 0.002 && finalX < target - tolerance)
  {
  }

  predicate Broken(status: Status) {
    status == ForceLimit || status == NonFinite
  }

  predicate Critical(s: Scenario, sim: Simulated, tolerance: real) {
    var error := s.target - sim.warpX;
    || (&& WarpStatus(sim.warpX, error, tolerance) != sim.cpu
        && Abs(Abs(error) - tolerance) > 0.008
        && !Broken(sim.cpu))
    || Broken(sim.cpu)
  }

  /** The record that belongs to position `i` of a shard. */
  predicate Records(r: Record, s: Scenario, sim: Simulated, tolerance: real, index: int) {
    && r.worldIndex == index && r.scenario == s
    && r.critical == Critical(s, sim, tolerance) && r.forceViolation == (sim.cpu == ForceLimit)
  }

  /** The record loop: one record a scenario, in order, numbered by its own position. */
  method RecordWorlds(groups: seq<seq<Scenario>>, simulate: Scenario -> Simulated, tolerance: real, worldOffset: int)
    returns (records: seq<Record>)
    ensures |records| == |Flatten(groups)|
    ensures forall i :: 0 <= i < |records| ==>
              Records(records[i], Flatten(groups)[i], simulate(Flatten(groups)[i]), tolerance, worldOffset + i)
  {
    hide Records, Critical;
    records := [];
    for g := 0 to |groups|
      invariant |records| == |Flatten(groups[..g])|
      invariant forall i :: 0 <= i < |records| ==>
                  Records(records[i], Flatten(groups[..g])[i], simulate(Flatten(groups[..g])[i]), tolerance,
                          worldOffset + i)
    {
      records := RecordGroup(groups[g], simulate, tolerance, worldOffset, records, Flatten(groups[..g]));
      assert groups[..g + 1] == groups[..g] + [groups[g]];
      FlattenNext(groups[..g], groups[g]);
    }
    assert groups[..|groups|] == groups;
  }

  method RecordGroup(group: seq<Scenario>, simulate: Scenario -> Simulated, tolerance: real, worldOffset: int,
                     records: seq<Record>, ghost before: seq<Scenario>)
    returns (more: seq<Record>)
    requires |records| == |before|
    requires forall i :: 0 <= i < |records| ==>
               Records(records[i], before[i], simulate(before[i]), tolerance, worldOffset + i)
    ensures |more| == |before + group|
    ensures forall i :: 0 <= i < |more| ==>
              Records(more[i], (before + group)[i], simulate((before + group)[i]), tolerance, worldOffset + i)
  {
    hide Critical;
    more := records;
    for local := 0 to |group|
      invariant |more| == |before| + local
      invariant forall i :: 0 <= i < |more| ==>
                  Records(more[i], (before + group)[i], simulate((before + group)[i]), tolerance, worldOffset + i)
    {
      var s := group[local];
      var sim := simulate(s);
      more := more + [Record(worldOffset + |more|, s, Critical(s, sim, tolerance), sim.cpu == ForceLimit)];
    }
  }

  function Count(records: seq<Record>, p: Record -> bool): (n: nat)
    ensures n == 0 <==> forall i :: 0 <= i < |records| ==> !p(records[i])
  {
    if records == [] then 0
    else Count(records[..|records| - 1], p) + if p(records[|records| - 1]) then 1 else 0
  }

  /** A world on which the two simulators do not contradict each other, beyond the boundary, and the reference ran
      clean. */
  predicate Tolerable(s: Scenario, sim: Simulated, tolerance: real) {
    !Broken(sim.cpu)
    && (WarpStatus(sim.warpX, s.target - sim.warpX, tolerance) == sim.cpu
        || Abs(Abs(s.target - sim.warpX) - tolerance) <= 0.008)
  }

  /** The worker: its records number the scenarios of its shard, and it succeeds exactly when every world is
      tolerable. */
  method RunWorker(draw: Streams, total: nat, groupSize: nat, worldOffset: int, simulate: Scenario -> Simulated,
                   tolerance: real, finite: bool)
    returns (records: seq<Record>, critical: nat, violations: nat, code: int)
    requires groupSize > 0
    ensures |records| == total
    ensures forall i :: 0 <= i < total ==> records[i].scenario == ScenarioAt(draw, groupSize, worldOffset, i)
    ensures forall i :: 0 <= i < total ==> records[i].worldIndex == records[i].scenario.index == worldOffset + i
    ensures critical == 0 <==>
            forall i :: 0 <= i < total ==> Tolerable(records[i].scenario, simulate(records[i].scenario), tolerance)
    ensures critical == 0 ==> violations == 0
    ensures code == 0 <==> finite && critical == 0
  {
    var groups := StressGroups(draw, total, groupSize, worldOffset);
    records := RecordWorlds(groups, simulate, tolerance, worldOffset);
    critical := Count(records, (r: Record) => r.critical);
    violations := Count(records, (r: Record) => r.forceViolation);
    code := if finite && critical == 0 && violations == 0 then 0 else 2;
    forall i | 0 <= i < total
      ensures records[i].scenario == ScenarioAt(draw, groupSize, worldOffset, i)
      ensures records[i].worldIndex == records[i].scenario.index
      ensures !records[i].critical <==> Tolerable(records[i].scenario, simulate(records[i].scenario), tolerance)
      ensures records[i].forceViolation ==> records[i].critical {
      assert Records(records[i], Flatten(groups)[i], simulate(Flatten(groups)[i]), tolerance, worldOffset + i);
    }
  }

  /** The worlds that four workers with the launcher's offsets simulate are 0, 1, ..., 4W - 1, once each and in
      order. */
  lemma FourShardsCover(draws: nat -> Streams, groupSize: nat, worlds: nat)
    requires groupSize > 0
    ensures var all := Flatten(seq(4, (k: nat) => Shard(draws(k), groupSize, k * worlds, worlds)));
            |all| == 4 * worlds && Numbered(all)
  {
    hide ScenarioAt;
    var shards := seq(4, (k: nat) => Shard(draws(k), groupSize, k * worlds, worlds));
    FirstShardsCover(shards, draws, groupSize, worlds, 4);
    assert shards[..4] == shards;
  }

  lemma ShardIndex(draw: Streams, groupSize: nat, worldOffset: int, total: nat, p: nat)
    requires groupSize > 0 && p < total
    ensures Shard(draw, groupSize, worldOffset, total)[p].index == worldOffset + p
  {
  }

  /** The scenarios are numbered by position. */
  ghost predicate Numbered(scenarios: seq<Scenario>) {
    forall i :: 0 <= i < |scenarios| ==> scenarios[i].index == i
  }

  lemma NumberedNext(front: seq<Scenario>, back: seq<Scenario>)
    requires Numbered(front) && forall p :: 0 <= p < |back| ==> back[p].index == |front| + p
    ensures Numbered(front + back)
  {
    var all := front + back;
    forall i | 0 <= i < |all| ensures all[i].index == i {
      assert i >= |front| ==> all[i] == back[i - |front|];
    }
  }

  lemma {:induction false} FirstShardsCover(shards: seq<seq<Scenario>>, draws: nat -> Streams, groupSize: nat,
                                            worlds: nat, n: nat)
    requires groupSize > 0 && n <= |shards|
    requires forall k: nat :: k < |shards| ==> shards[k] == Shard(draws(k), groupSize, k * worlds, worlds)
    ensures |Flatten(shards[..n])| == n * worlds
    ensures Numbered(Flatten(shards[..n]))
  {
    if n > 0 {
      hide Shard, Flatten, Numbered;
      FirstShardsCover(shards, draws, groupSize, worlds, n - 1);
      var front, back := Flatten(shards[..n - 1]), shards[n - 1];
      assert shards[..n] == shards[..n - 1] + [back];
      FlattenNext(shards[..n - 1], back);
      OneRangeMore(n, worlds);
      assert back == Shard(draws(n - 1), groupSize, (n - 1) * worlds, worlds);
      forall p | 0 <= p < |back| ensures back[p].index == |front| + p {
        ShardIndex(draws(n - 1), groupSize, (n - 1) * worlds, worlds, p);
      }
      NumberedNext(front, back);
    }
  }

  // ---------- The launcher ----------

  /** The evidence that a worker leaves: no file, text that is no JSON, JSON of another type, or a shard. */
  datatype Output = Absent | Garbled | NotMapping
                  | Evidence(schemaOk: bool, candidateHash: string, gpu: string, visible: string, worlds: int,
                             unique: int, finite: bool, disagreements: int, violations: int, indices: seq<int>)

  /** A worker process: whether it ends before the deadline, and after it was asked to; its exit code; its file. */
  datatype Worker = Worker(inTime: bool, quits: bool, code: int, output: Output)

  datatype ShardError = ContractMismatch | NonFiniteState | Disagreement | ForceViolation | NoMapping

  datatype Failure = Process(gpu: string, timedOut: bool)
                   | Unreadable(gpu: string)
                   | Invalid(gpu: string, error: ShardError)

  function ErrorOf(output: Output, gpu: string, worlds: int, hash: string): Option<ShardError>
    requires !output.Absent? && !output.Garbled?
  {
    match output
    case NotMapping => Some(NoMapping)
    case Evidence(schemaOk, candidateHash, physical, visible, found, unique, finite, disagreements, violations, _) =>
      if !schemaOk || candidateHash != hash || physical != gpu || visible != gpu || found != worlds || unique != worlds
      then Some(ContractMismatch)
      else if !finite then Some(NonFiniteState)
      else if disagreements != 0 then Some(Disagreement)
      else if violations != 0 then Some(ForceViolation)
      else None
    case _ => None
  }

  /** The worker at `i` is counted as timed out: it is the first past the deadline, or had to be killed. */
  predicate TimedOut(workers: seq<Worker>, i: nat)
    requires i < |workers|
  {
    !workers[i].quits || (!workers[i].inTime && forall j :: 0 <= j < i ==> workers[j].inTime)
  }

  /** What the launcher must find of the worker at `i`. */
  predicate Delivers(workers: seq<Worker>, gpus: seq<string>, worlds: int, hash: string, i: nat)
    requires i < |workers| == |gpus|
  {
    && workers[i].code == 0 && !TimedOut(workers, i)
    && workers[i].output.Evidence?
    && ErrorOf(workers[i].output, gpus[i], worlds, hash) == None
  }

  /** The devices that delivered, among the first `n`. */
  function Delivered(workers: seq<Worker>, gpus: seq<string>, worlds: int, hash: string, n: nat): (r: seq<Output>)
    requires n <= |workers| == |gpus|
    ensures |r| <= n
    ensures |r| == n <==> forall i :: 0 <= i < n ==> Delivers(workers, gpus, worlds, hash, i)
    ensures |r| == n ==> forall i :: 0 <= i < n ==> r[i] == workers[i].output
    ensures forall i :: 0 <= i < |r| ==> Passed(r[i], worlds)
  {
    if n == 0 then []
    else Delivered(workers, gpus, worlds, hash, n - 1)
         + if Delivers(workers, gpus, worlds, hash, n - 1) then [workers[n - 1].output] else []
  }

  predicate Passed(o: Output, worlds: int) {
    o.Evidence? && o.worlds == worlds && o.unique == worlds && o.finite && o.disagreements == 0 && o.violations == 0
  }

  function Total(shards: seq<Output>, field: Output -> int): int {
    if shards == [] then 0 else Total(shards[..|shards| - 1], field) + field(shards[|shards| - 1])
  }

  lemma {:induction false} TotalOfSame(shards: seq<Output>, field: Output -> int, each: int)
    requires forall i :: 0 <= i < |shards| ==> field(shards[i]) == each
    ensures Total(shards, field) == |shards| * each
  {
    if shards != [] {
      TotalOfSame(shards[..|shards| - 1], field, each);
    }
  }

  function WorldsOf(o: Output): int {
    if o.Evidence? then o.worlds else 0
  }

  function UniqueOf(o: Output): int {
    if o.Evidence? then o.unique else 0
  }

  function DisagreementsOf(o: Output): int {
    if o.Evidence? then o.disagreements else 0
  }

  function ViolationsOf(o: Output): int {
    if o.Evidence? then o.violations else 0
  }

  /** The wait for the workers: the first that is late ends it. */
  method Wait(workers: seq<Worker>) returns (late: Option<nat>)
    ensures late.Some? ==> late.value < |workers| && !workers[late.value].inTime
                           && forall j :: 0 <= j < late.value ==> workers[j].inTime
    ensures late.None? ==> forall j :: 0 <= j < |workers| ==> workers[j].inTime
  {
    for i := 0 to |workers|
      invariant forall j :: 0 <= j < i ==> workers[j].inTime
    {
      if !workers[i].inTime {
        return Some(i);
      }
    }
    late := None;
  }

  method Collect(workers: seq<Worker>, gpus: seq<string>, worlds: int, hash: string)
    returns (shards: seq<Output>, failures: seq<Failure>)
    requires |workers| == |gpus|
    ensures shards == Delivered(workers, gpus, worlds, hash, |workers|)
    ensures |shards| + |failures| == |workers|
  {
    hide ErrorOf;
    var late := Wait(workers);
    shards, failures := [], [];
    for i := 0 to |workers|
      invariant shards == Delivered(workers, gpus, worlds, hash, i)
      invariant |shards| + |failures| == i
    {
      var timedOut := late == Some(i) || !workers[i].quits;
      assert timedOut == TimedOut(workers, i);
      if workers[i].code != 0 || timedOut || workers[i].output.Absent? {
        failures := failures + [Process(gpus[i], timedOut)];
      } else if workers[i].output.Garbled? {
        failures := failures + [Unreadable(gpus[i])];
      } else {
        var error := ErrorOf(workers[i].output, gpus[i], worlds, hash);
        if error.Some? {
          failures := failures + [Invalid(gpus[i], error.value)];
        } else {
          NoErrorIsEvidence(workers[i].output, gpus[i], worlds, hash);
          shards := shards + [workers[i].output];
        }
      }
    }
  }

  lemma NoErrorIsEvidence(output: Output, gpu: string, worlds: int, hash: string)
    requires !output.Absent? && !output.Garbled?
    requires ErrorOf(output, gpu, worlds, hash) == None
    ensures output.Evidence? && Passed(output, worlds)
  {
  }

  /** The launcher's verdict: complete exactly when all four workers delivered, and then without failures. */
  method Launch(workers: seq<Worker>, gpus: seq<string>, worlds: int, hash: string)
    returns (shards: seq<Output>, failures: seq<Failure>, complete: bool)
    requires |workers| == |gpus| == 4
    ensures complete <==> Complete(workers, gpus, worlds, hash)
    ensures complete ==> failures == [] && shards == seq(4, (i: nat) requires i < 4 => workers[i].output)
  {
    hide Delivers;
    shards, failures := Collect(workers, gpus, worlds, hash);
    var total, unique := Total(shards, WorldsOf), Total(shards, UniqueOf);
    var critical, force := Total(shards, DisagreementsOf), Total(shards, ViolationsOf);
    TotalOfSame(shards, WorldsOf, worlds);
    TotalOfSame(shards, UniqueOf, worlds);
    TotalOfSame(shards, DisagreementsOf, 0);
    TotalOfSame(shards, ViolationsOf, 0);
    complete := |shards| == 4 && total == worlds * 4 && unique == total && critical == 0 && force == 0
                && forall s :: s in shards ==> s.finite;
  }

  // ---------- What a complete run has simulated ----------

  function IndicesOf(scenarios: seq<Scenario>): (r: seq<int>)
    ensures |r| == |scenarios|
    ensures forall i :: 0 <= i < |r| ==> r[i] == scenarios[i].index
  {
    seq(|scenarios|, i requires 0 <= i < |scenarios| => scenarios[i].index)
  }

  /** n, n + 1, ... */
  function Range(from: int, count: nat): (r: seq<int>)
    ensures |r| == count
    ensures forall i :: 0 <= i < count ==> r[i] == from + i
  {
    seq(count, i requires 0 <= i < count => from + i)
  }

  /** A process that succeeds has written the worlds of the shard it was launched for. */
  ghost predicate WroteShard(w: Worker, draw: Streams, groupSize: nat, worldOffset: int, worlds: nat)
    requires groupSize > 0
  {
    w.code == 0 && w.output.Evidence? ==> w.output.indices == IndicesOf(Shard(draw, groupSize, worldOffset, worlds))
  }

  /** The process of a worker that is not interrupted: what it leaves is the run of `RunWorker`. `unique` is the
      number of distinct commitments, and `written` whether the file arrives. */
  method RunProcess(draw: Streams, groupSize: nat, worldOffset: int, worlds: nat, simulate: Scenario -> Simulated,
                    tolerance: real, finite: bool, gpu: string, hash: string, unique: nat, inTime: bool, written: bool)
    returns (w: Worker)
    requires groupSize > 0
    ensures WroteShard(w, draw, groupSize, worldOffset, worlds)
    ensures w.code == 0 <==> finite && forall s :: s in Shard(draw, groupSize, worldOffset, worlds) ==>
                                                   Tolerable(s, simulate(s), tolerance)
    ensures w.code == 0 && written && unique == worlds ==>
              w.output.Evidence? && ErrorOf(w.output, gpu, worlds, hash) == None
  {
    hide ScenarioAt, Tolerable;
    var records, critical, violations, code :=
      RunWorker(draw, worlds, groupSize, worldOffset, simulate, tolerance, finite);
    var indices := seq(|records|, i requires 0 <= i < |records| => records[i].worldIndex);
    ghost var shard := Shard(draw, groupSize, worldOffset, worlds);
    assert indices == IndicesOf(shard);
    assert forall i :: 0 <= i < worlds ==> records[i].scenario == shard[i];
    var output :=
      if written then Evidence(true, hash, gpu, gpu, |records|, unique, finite, critical, violations, indices)
      else Absent;
    w := Worker(inTime, true, code, output);
  }

  /** The world indices in the shards of the first `n` workers, one shard after the other. */
  function Simulates(workers: seq<Worker>, n: nat): seq<int>
    requires n <= |workers|
  {
    if n == 0 then []
    else
      var output := workers[n - 1].output;
      Simulates(workers, n - 1) + if output.Evidence? then output.indices else []
  }

  ghost predicate ShardsOfSize(workers: seq<Worker>, worlds: nat) {
    forall k :: 0 <= k < |workers| ==> workers[k].output.Evidence? && |workers[k].output.indices| == worlds
  }

  ghost predicate OwnRanges(workers: seq<Worker>, worlds: nat, n: nat)
    requires n <= |workers| && ShardsOfSize(workers, worlds)
  {
    forall k: nat :: k < n ==> workers[k].output.indices == Range(k * worlds, worlds)
  }

  lemma RangesJoin(count: nat, more: nat, from: int)
    ensures Range(from, count) + Range(from + count, more) == Range(from, count + more)
  {
  }

  lemma JoinedRange(front: seq<int>, back: seq<int>, from: int)
    ensures front + back == Range(from, |front| + |back|)
            <==> front == Range(from, |front|) && back == Range(from + |front|, |back|)
  {
    var all := Range(from, |front| + |back|);
    RangesJoin(|front|, |back|, from);
    if front + back == all {
      assert front == all[..|front|] && back == all[|front|..];
    }
  }

  lemma OneRangeMore(n: nat, worlds: nat)
    requires n > 0
    ensures n * worlds == (n - 1) * worlds + worlds
  {
  }

  /** The first `n` shards hold the worlds 0, 1, ... in order, once each. */
  ghost predicate InOrder(workers: seq<Worker>, worlds: nat, n: nat)
    requires n <= |workers|
  {
    Simulates(workers, n) == Range(0, n * worlds)
  }

  lemma {:induction false} SimulatesSize(workers: seq<Worker>, worlds: nat, n: nat)
    requires n <= |workers| && ShardsOfSize(workers, worlds)
    ensures |Simulates(workers, n)| == n * worlds
  {
    if n > 0 {
      SimulatesSize(workers, worlds, n - 1);
      OneRangeMore(n, worlds);
    }
  }

  lemma NextInOrder(workers: seq<Worker>, worlds: nat, n: nat)
    requires 0 < n <= |workers| && ShardsOfSize(workers, worlds)
    ensures InOrder(workers, worlds, n)
            <==> InOrder(workers, worlds, n - 1) && workers[n - 1].output.indices == Range((n - 1) * worlds, worlds)
  {
    hide Range;
    var front, back := Simulates(workers, n - 1), workers[n - 1].output.indices;
    assert |back| == worlds && Simulates(workers, n) == front + back;
    hide Simulates, ShardsOfSize;
    SimulatesSize(workers, worlds, n - 1);
    OneRangeMore(n, worlds);
    JoinedRange(front, back, 0);
  }

  lemma NoneInOrder(workers: seq<Worker>, worlds: nat)
    requires ShardsOfSize(workers, worlds)
    ensures InOrder(workers, worlds, 0) && OwnRanges(workers, worlds, 0)
  {
    assert Range(0, 0) == [];
  }

  /** The shards hold the worlds 0, 1, ... in order, once each, if and only if each of them holds its own range. */
  lemma {:induction false} CoversIff(workers: seq<Worker>, worlds: nat, n: nat)
    requires n <= |workers| && ShardsOfSize(workers, worlds)
    ensures InOrder(workers, worlds, n) <==> OwnRanges(workers, worlds, n)
  {
    hide InOrder, OwnRanges, ShardsOfSize;
    if n == 0 {
      NoneInOrder(workers, worlds);
    } else {
      CoversIff(workers, worlds, n - 1);
      NextInOrder(workers, worlds, n);
      OneMoreOwn(workers, worlds, n);
    }
  }

  lemma OneMoreOwn(workers: seq<Worker>, worlds: nat, n: nat)
    requires 0 < n <= |workers| && ShardsOfSize(workers, worlds)
    ensures OwnRanges(workers, worlds, n)
            <==> OwnRanges(workers, worlds, n - 1) && workers[n - 1].output.indices == Range((n - 1) * worlds, worlds)
  {
    hide Range;
  }

  // ---------- Each world once, in any order ----------

  /** The ranges of `worlds` worlds that start at the offsets, one after the other. */
  function Cover(offsets: seq<int>, worlds: nat): seq<int> {
    if offsets == [] then [] else Range(offsets[0], worlds) + Cover(offsets[1..], worlds)
  }

  /** from, from + W, from + 2W, ... */
  function Starts(from: int, worlds: nat, n: nat): (r: seq<int>)
    ensures |r| == n
    decreases n
  {
    if n == 0 then [] else [from] + Starts(from + worlds, worlds, n - 1)
  }

  lemma {:induction false} CoverWithout(offsets: seq<int>, worlds: nat, k: nat)
    requires k < |offsets|
    ensures multiset(Cover(offsets, worlds))
            == multiset(Range(offsets[k], worlds)) + multiset(Cover(offsets[..k] + offsets[k + 1..], worlds))
  {
    hide Range;
    var rest := offsets[..k] + offsets[k + 1..];
    if k == 0 {
      assert rest == offsets[1..];
    } else {
      CoverWithout(offsets[1..], worlds, k - 1);
      assert rest[1..] == offsets[1..][..k - 1] + offsets[1..][k..];
      assert rest[0] == offsets[0];
    }
  }

  /** What the ranges hold. */
  lemma {:induction false} InCover(offsets: seq<int>, worlds: nat, w: int)
    ensures w in Cover(offsets, worlds) <==> exists k :: 0 <= k < |offsets| && offsets[k] <= w < offsets[k] + worlds
  {
    if offsets != [] {
      InCover(offsets[1..], worlds, w);
      InRange(offsets[0], worlds, w);
      if k :| 0 <= k < |offsets| && offsets[k] <= w < offsets[k] + worlds {
        assert k > 0 ==> offsets[1..][k - 1] == offsets[k];
      }
      assert forall k :: 0 <= k < |offsets| - 1 ==> offsets[1..][k] == offsets[k + 1];
    }
  }

  lemma InRange(from: int, count: nat, w: int)
    ensures w in Range(from, count) <==> from <= w < from + count
  {
    if from <= w < from + count {
      assert Range(from, count)[w - from] == w;
    }
  }

  lemma LikeRests<T>(a: multiset<T>, c: multiset<T>, part: multiset<T>, front: multiset<T>, back: multiset<T>)
    requires a == part + front && c == part + back
    ensures a == c <==> front == back
  {
    assert front == a - part && back == c - part;
  }

  /** If the ranges hold `from` and nothing below it, one of them starts there. */
  lemma OneStartsThere(offsets: seq<int>, worlds: nat, from: int, count: nat)
    requires worlds > 0 && count > 0
    requires multiset(Cover(offsets, worlds)) == multiset(Range(from, count))
    ensures from in offsets
  {
    hide Cover, Range;
    InRange(from, count, from);
    assert from in multiset(Cover(offsets, worlds));
    InCover(offsets, worlds, from);
    var k :| 0 <= k < |offsets| && offsets[k] <= from < offsets[k] + worlds;
    InCover(offsets, worlds, offsets[k]);
    assert offsets[k] in multiset(Range(from, count));
    InRange(from, count, offsets[k]);
  }

  /** The ranges hold the worlds from `from` on, once each. */
  ghost predicate CoversOnce(offsets: seq<int>, worlds: nat, from: int) {
    multiset(Cover(offsets, worlds)) == multiset(Range(from, |offsets| * worlds))
  }

  /** The offsets are from, from + W, and so on, in any order. */
  ghost predicate Shuffled(offsets: seq<int>, worlds: nat, from: int) {
    multiset(offsets) == multiset(Starts(from, worlds, |offsets|))
  }

  lemma NoneStartsThere(offsets: seq<int>, worlds: nat, from: int)
    requires worlds > 0 && from !in offsets && offsets != []
    ensures !CoversOnce(offsets, worlds, from) && !Shuffled(offsets, worlds, from)
  {
    hide Cover, Range;
    assert Starts(from, worlds, |offsets|)[0] == from;
    assert from !in multiset(offsets) && from in multiset(Starts(from, worlds, |offsets|));
    OneRangeMore(|offsets|, worlds);
    if multiset(Cover(offsets, worlds)) == multiset(Range(from, |offsets| * worlds)) {
      OneStartsThere(offsets, worlds, from, |offsets| * worlds);
    }
  }

  lemma NothingCovered(worlds: nat, from: int)
    ensures CoversOnce([], worlds, from) && Shuffled([], worlds, from)
  {
    assert Range(from, 0) == [];
  }

  /** Taking away the range at `from` leaves the same question about the rest. */
  lemma CoversOnceRest(offsets: seq<int>, worlds: nat, from: int, k: nat)
    requires k < |offsets| && offsets[k] == from
    ensures CoversOnce(offsets, worlds, from)
            <==> CoversOnce(offsets[..k] + offsets[k + 1..], worlds, from + worlds)
  {
    hide Range, Cover;
    var n, rest := |offsets|, offsets[..k] + offsets[k + 1..];
    var left := |rest| * worlds;
    OneRangeMore(n, worlds);
    assert n * worlds == worlds + left;
    CoverWithout(offsets, worlds, k);
    RangesJoin(worlds, left, from);
    LikeRests(multiset(Cover(offsets, worlds)), multiset(Range(from, worlds + left)), multiset(Range(from, worlds)),
              multiset(Cover(rest, worlds)), multiset(Range(from + worlds, left)));
  }

  lemma ShuffledRest(offsets: seq<int>, worlds: nat, from: int, k: nat)
    requires k < |offsets| && offsets[k] == from
    ensures Shuffled(offsets, worlds, from) <==> Shuffled(offsets[..k] + offsets[k + 1..], worlds, from + worlds)
  {
    var n, rest := |offsets|, offsets[..k] + offsets[k + 1..];
    assert offsets == offsets[..k] + [offsets[k]] + offsets[k + 1..];
    LikeRests(multiset(offsets), multiset(Starts(from, worlds, n)), multiset{from},
              multiset(rest), multiset(Starts(from + worlds, worlds, n - 1)));
  }

  /** Ranges of W worlds hold the worlds from `from` on, once each, if and only if they start at from, from + W, and so
      on, in any order. */
  lemma {:induction false} CoverIff(offsets: seq<int>, worlds: nat, from: int)
    requires worlds > 0
    ensures CoversOnce(offsets, worlds, from) <==> Shuffled(offsets, worlds, from)
    decreases |offsets|
  {
    hide CoversOnce, Shuffled;
    if offsets == [] {
      NothingCovered(worlds, from);
    } else if from !in offsets {
      NoneStartsThere(offsets, worlds, from);
    } else {
      var k :| 0 <= k < |offsets| && offsets[k] == from;
      CoversOnceRest(offsets, worlds, from, k);
      ShuffledRest(offsets, worlds, from, k);
      CoverIff(offsets[..k] + offsets[k + 1..], worlds, from + worlds);
    }
  }

  /** The shard of worker k is the range of worlds that starts at offsets[k]. */
  ghost predicate StartAt(workers: seq<Worker>, offsets: seq<int>, worlds: nat) {
    && |offsets| == |workers|
    && forall k :: 0 <= k < |workers| ==>
         workers[k].output.Evidence? && workers[k].output.indices == Range(offsets[k], worlds)
  }

  lemma {:induction false} SimulatesIsCover(workers: seq<Worker>, offsets: seq<int>, worlds: nat, n: nat)
    requires StartAt(workers, offsets, worlds) && n <= |workers|
    ensures Simulates(workers, n) == Cover(offsets[..n], worlds)
  {
    hide Range;
    if n > 0 {
      SimulatesIsCover(workers, offsets, worlds, n - 1);
      CoverNext(offsets[..n - 1], worlds, offsets[n - 1]);
      assert offsets[..n] == offsets[..n - 1] + [offsets[n - 1]];
    }
  }

  lemma {:induction false} CoverNext(offsets: seq<int>, worlds: nat, offset: int)
    ensures Cover(offsets + [offset], worlds) == Cover(offsets, worlds) + Range(offset, worlds)
  {
    hide Range;
    if offsets == [] {
      assert [] + [offset] == [offset] && [offset][1..] == [];
    } else {
      CoverNext(offsets[1..], worlds, offset);
      assert (offsets + [offset])[1..] == offsets[1..] + [offset];
    }
  }

  /** Shards that each hold a contiguous range of W worlds hold the worlds 0, ..., nW - 1, once each, if and only if
      their offsets are 0, W, 2W, ... in some order. */
  lemma EachWorldOnceIff(workers: seq<Worker>, offsets: seq<int>, worlds: nat)
    requires worlds > 0 && StartAt(workers, offsets, worlds)
    ensures multiset(Simulates(workers, |workers|)) == multiset(Range(0, |workers| * worlds))
            <==> Shuffled(offsets, worlds, 0)
  {
    hide Range, Cover, Shuffled;
    SimulatesIsCover(workers, offsets, worlds, |workers|);
    assert offsets[..|workers|] == offsets;
    CoverIff(offsets, worlds, 0);
  }

  /** What `Launch` calls complete. */
  ghost predicate Complete(workers: seq<Worker>, gpus: seq<string>, worlds: int, hash: string)
    requires |workers| == |gpus|
  {
    forall i :: 0 <= i < |workers| ==> Delivers(workers, gpus, worlds, hash, i)
  }

  lemma ShardIsRange(draw: Streams, groupSize: nat, worldOffset: int, worlds: nat)
    requires groupSize > 0
    ensures IndicesOf(Shard(draw, groupSize, worldOffset, worlds)) == Range(worldOffset, worlds)
  {
  }

  /** From end to end: if every worker that succeeds wrote the shard it was launched for, a complete run has
      simulated the worlds 0, ..., 4W - 1, once each and in order. */
  lemma CompleteCovers(workers: seq<Worker>, gpus: seq<string>, worlds: nat, hash: string, draws: nat -> Streams,
                       groupSize: nat)
    requires |workers| == |gpus| == 4 && groupSize > 0
    requires forall k: nat :: k < 4 ==> WroteShard(workers[k], draws(k), groupSize, k * worlds, worlds)
    requires Complete(workers, gpus, worlds, hash)
    ensures Simulates(workers, 4) == Range(0, 4 * worlds)
  {
    hide ErrorOf, ScenarioAt, Simulates, Range;
    forall k: nat | k < 4
      ensures workers[k].output.Evidence? && workers[k].output.indices == Range(k * worlds, worlds) {
      assert Delivers(workers, gpus, worlds, hash, k);
      ShardIsRange(draws(k), groupSize, k * worlds, worlds);
    }
    CoversIff(workers, worlds, 4);
  }

  /** Four workers that all simulated the first range. */
  function Overlapping(gpus: seq<string>, worlds: nat, hash: string): (workers: seq<Worker>)
    ensures |workers| == |gpus|
  {
    seq(|gpus|, i requires 0 <= i < |gpus| =>
      Worker(true, true, 0, Evidence(true, hash, gpus[i], gpus[i], worlds, worlds, true, 0, 0, Range(0, worlds))))
  }

  /** Without that premise completeness says nothing about the worlds: whatever the devices, the number of worlds and
      the candidate, there is a complete run in which the worlds from W on are missing. */
  lemma CompleteCanMissWorlds(gpus: seq<string>, worlds: nat, hash: string)
    requires |gpus| == 4 && worlds > 0
    ensures var workers := Overlapping(gpus, worlds, hash);
            && Complete(workers, gpus, worlds, hash)
            && forall w :: w in Simulates(workers, 4) ==> w < worlds
  {
    var workers := Overlapping(gpus, worlds, hash);
    FirstRangeOnly(workers, worlds, 4);
    forall i | 0 <= i < 4 ensures Delivers(workers, gpus, worlds, hash, i) {
      assert !TimedOut(workers, i);
    }
  }

  lemma {:induction false} FirstRangeOnly(workers: seq<Worker>, worlds: nat, n: nat)
    requires n <= |workers|
    requires forall k :: 0 <= k < |workers| ==>
               workers[k].output.Evidence? && workers[k].output.indices == Range(0, worlds)
    ensures forall w :: w in Simulates(workers, n) ==> w < worlds
  {
    if n > 0 {
      FirstRangeOnly(workers, worlds, n - 1);
    }
  }
}
