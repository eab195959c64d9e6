/** The throughput curve over one, two and four GPUs of scripts/simforge/run_scale_curve.py: when a scale is complete,
    when the target is met, and the write loop of the report.

    A worker process is what it leaves behind, the parameter `Worker`.
 */
module ScaleCurve {
  import opened Arithmetic
  import opened Wrappers

  /** The contract fields of a shard, its throughput, and whether each other group of its fields is in order. */
  datatype Shard = Shard(schemaOk: bool, gpu: string, visible: string, worlds: int, steps: int, worldSteps: int,
                         poseOk: bool, offset: int, timings: seq<real>, throughput: real, physicsOk: bool,
                         disagreements: int, backendsOk: bool, labelsOk: bool)

  datatype Output = Absent | Unreadable | NotMapping | Evidence(shard: Shard)

  /** A worker process: whether it ends before the deadline, its exit code (after a kill if it does not), its file. */
  datatype Worker = Worker(inTime: bool, code: int, output: Output)

  datatype Reason = NoMapping | ContractMismatch | InvalidTiming | PhysicsLabel | CrossBackend | StressLabels

  datatype Failure = Timeout(gpu: string) | WorkerFailed(gpu: string) | InvalidJson(gpu: string)
                   | Rejected(gpu: string, reason: Reason) | Incomplete(missing: set<string>)

  /** `_validate_shard` */
  function ReasonFor(output: Output, gpu: string, worlds: int, steps: int, offset: int): (r: Option<Reason>)
    requires output.NotMapping? || output.Evidence?
    ensures r.None? ==>
              && output.Evidence? && output.shard.gpu == gpu && output.shard.worlds == worlds
              && output.shard.steps == steps && output.shard.offset == offset
              && output.shard.throughput > 0.0 && output.shard.disagreements == 0
  {
    if output.NotMapping? then Some(NoMapping)
    else
      var s := output.shard;
      if !s.schemaOk || s.gpu != gpu || s.visible != gpu || s.worlds != worlds || s.steps != steps
         || s.worldSteps != worlds * steps || !s.poseOk || s.offset != offset then Some(ContractMismatch)
      else if s.throughput <= 0.0 || exists t :: t in s.timings && t <= 0.0 then Some(InvalidTiming)
      else if !s.physicsOk then Some(PhysicsLabel)
      else if !s.backendsOk || s.disagreements != 0 then Some(CrossBackend)
      else if !s.labelsOk then Some(StressLabels)
      else None
  }

  /** All that a shard must show: the contract of its run, positive timings, and every check in order. */
  predicate InOrder(s: Shard, gpu: string, worlds: int, steps: int, offset: int) {
    && s.schemaOk && s.gpu == gpu && s.visible == gpu && s.worlds == worlds && s.steps == steps
    && s.worldSteps == worlds * steps && s.poseOk && s.offset == offset
    && s.throughput > 0.0 && (forall t :: t in s.timings ==> t > 0.0)
    && s.physicsOk && s.backendsOk && s.disagreements == 0 && s.labelsOk
  }

  /** A shard is accepted exactly if it shows all of that, and a refusal names the first group of fields that fails. */
  lemma AcceptedIffInOrder(output: Output, gpu: string, worlds: int, steps: int, offset: int)
    requires output.NotMapping? || output.Evidence?
    ensures var reason := ReasonFor(output, gpu, worlds, steps, offset);
            && (reason == None <==> output.Evidence? && InOrder(output.shard, gpu, worlds, steps, offset))
            && (reason == Some(NoMapping) <==> output.NotMapping?)
            && (reason == Some(InvalidTiming) ==> output.shard.throughput <= 0.0
                                                  || exists t :: t in output.shard.timings && t <= 0.0)
            && (reason == Some(PhysicsLabel) ==> !output.shard.physicsOk)
            && (reason == Some(CrossBackend) ==> !output.shard.backendsOk || output.shard.disagreements != 0)
            && (reason == Some(StressLabels) ==> !output.shard.labelsOk)
  {
  }

  /** The worker launched at position `i` ends in time and leaves a valid shard of the `i`-th range of worlds. */
  predicate Delivers(workers: seq<Worker>, gpus: seq<string>, worlds: int, steps: int, i: nat)
    requires i < |workers| <= |gpus|
  {
    var w := workers[i];
    w.inTime && Accepted(w, gpus[i], worlds, steps, i * worlds)
  }

  predicate Accepted(w: Worker, gpu: string, worlds: int, steps: int, offset: int) {
    w.code == 0 && w.output.Evidence? && ReasonFor(w.output, gpu, worlds, steps, offset).None?
  }

  /** The shards that are kept of the first `n` workers; a worker past the deadline can still be among them. */
  function Kept(workers: seq<Worker>, gpus: seq<string>, worlds: int, steps: int, n: nat): (r: seq<Shard>)
    requires n <= |workers| <= |gpus|
    ensures |r| <= n
    ensures forall i :: 0 <= i < |r| ==> r[i].throughput > 0.0
    ensures |r| == n <==> forall i :: 0 <= i < n ==> Accepted(workers[i], gpus[i], worlds, steps, i * worlds)
    ensures |r| == n ==> forall i :: 0 <= i < n ==> r[i] == workers[i].output.shard
  {
    if n == 0 then []
    else Kept(workers, gpus, worlds, steps, n - 1)
         + if Accepted(workers[n - 1], gpus[n - 1], worlds, steps, (n - 1) * worlds)
           then [workers[n - 1].output.shard]
           else []
  }

  function Throughput(shards: seq<Shard>): real {
    if shards == [] then 0.0 else Throughput(shards[..|shards| - 1]) + shards[|shards| - 1].throughput
  }

  lemma {:induction false} ThroughputPositive(shards: seq<Shard>)
    requires forall i :: 0 <= i < |shards| ==> shards[i].throughput > 0.0
    ensures Throughput(shards) >= 0.0
    ensures shards != [] ==> Throughput(shards) > 0.0
  {
    if shards != [] {
      ThroughputPositive(shards[..|shards| - 1]);
    }
  }

  /** Throughputs add up. */
  lemma {:induction false} ThroughputAdds(a: seq<Shard>, b: seq<Shard>)
    ensures Throughput(a + b) == Throughput(a) + Throughput(b)
    ensures |a| == 1 ==> Throughput(a) == a[0].throughput
    decreases |b|
  {
    if |a| == 1 {
      assert a[..0] == [];
    }
    if b == [] {
      assert a + b == a;
    } else {
      var n := |b| - 1;
      ThroughputAdds(a, b[..n]);
      assert (a + b)[..|a + b| - 1] == a + b[..n];
    }
  }

  datatype Scale = Scale(gpus: seq<string>, worldsPerGpu: nat, throughput: real, complete: bool,
                         failures: seq<Failure>, shards: seq<Shard>)

  /** The wait for one worker: the failures it adds, and its shard if it is kept. */
  method Collect(w: Worker, gpu: string, worlds: int, steps: int, offset: int)
    returns (found: seq<Failure>, shard: Option<Shard>)
    ensures shard.Some? <==> Accepted(w, gpu, worlds, steps, offset)
    ensures shard.Some? ==> shard.value == w.output.shard
    ensures found == [] <==> w.inTime && shard.Some?
  {
    found, shard := [], None;
    if !w.inTime {
      found := [Timeout(gpu)];
    }
    if w.code != 0 || w.output.Absent? {
      found := found + [WorkerFailed(gpu)];
    } else if w.output.Unreadable? {
      found := found + [InvalidJson(gpu)];
    } else {
      var reason := ReasonFor(w.output, gpu, worlds, steps, offset);
      if reason.Some? {
        found := found + [Rejected(gpu, reason.value)];
      } else {
        shard := Some(w.output.shard);
      }
    }
  }

  ghost predicate AllDeliver(workers: seq<Worker>, gpus: seq<string>, worlds: int, steps: int, n: nat)
    requires n <= |workers| <= |gpus|
  {
    forall i :: 0 <= i < n ==> Delivers(workers, gpus, worlds, steps, i)
  }

  /** The loop over the launched workers. */
  method Gather(gpus: seq<string>, worlds: nat, steps: nat, workers: seq<Worker>)
    returns (failures: seq<Failure>, shards: seq<Shard>)
    requires |workers| <= |gpus|
    ensures shards == Kept(workers, gpus, worlds, steps, |workers|)
    ensures failures == [] <==> AllDeliver(workers, gpus, worlds, steps, |workers|)
  {
    failures, shards := [], [];
    for i := 0 to |workers|
      invariant shards == Kept(workers, gpus, worlds, steps, i)
      invariant failures == [] <==> AllDeliver(workers, gpus, worlds, steps, i)
    {
      var found, shard := Collect(workers[i], gpus[i], worlds, steps, i * worlds);
      DeliversNext(workers, gpus, worlds, steps, i);
      hide Accepted, AllDeliver, Delivers;
      failures := failures + found;
      if shard.Some? {
        shards := shards + [shard.value];
      }
    }
  }

  lemma DeliversNext(workers: seq<Worker>, gpus: seq<string>, worlds: nat, steps: nat, i: nat)
    requires i < |workers| <= |gpus|
    ensures AllDeliver(workers, gpus, worlds, steps, i + 1)
            <==> AllDeliver(workers, gpus, worlds, steps, i) && Delivers(workers, gpus, worlds, steps, i)
    ensures Delivers(workers, gpus, worlds, steps, i)
            <==> workers[i].inTime && Accepted(workers[i], gpus[i], worlds, steps, i * worlds)
  {
    hide Delivers, Accepted;
    DeliversIff(workers, gpus, worlds, steps, i);
  }

  lemma DeliversIff(workers: seq<Worker>, gpus: seq<string>, worlds: nat, steps: nat, i: nat)
    requires i < |workers| <= |gpus|
    ensures Delivers(workers, gpus, worlds, steps, i)
            <==> workers[i].inTime && Accepted(workers[i], gpus[i], worlds, steps, i * worlds)
  {
  }

  /** The shards of a scale in which every device delivered: one a device, in order. */
  lemma DeliveredShards(workers: seq<Worker>, gpus: seq<string>, worlds: nat, steps: nat)
    requires |workers| == |gpus| && AllDeliver(workers, gpus, worlds, steps, |workers|)
    ensures OneShardEach(Kept(workers, gpus, worlds, steps, |workers|), gpus, worlds, steps)
  {
    forall i | 0 <= i < |workers|
      ensures Accepted(workers[i], gpus[i], worlds, steps, i * worlds)
      ensures ShardOf(workers[i].output, gpus[i], worlds, steps, i * worlds) {
      assert Delivers(workers, gpus, worlds, steps, i);
    }
    hide Accepted, ShardOf;
    assert |Kept(workers, gpus, worlds, steps, |workers|)| == |workers|;
  }

  predicate ShardOf(output: Output, gpu: string, worlds: int, steps: int, offset: int) {
    output.Evidence? && output.shard.gpu == gpu && output.shard.worlds == worlds && output.shard.steps == steps
    && output.shard.offset == offset && output.shard.throughput > 0.0 && output.shard.disagreements == 0
  }

  /** Exactly one shard for every device, in order, over contiguous ranges of worlds, with no disagreement. */
  ghost predicate OneShardEach(shards: seq<Shard>, gpus: seq<string>, worlds: nat, steps: nat) {
    && |shards| == |gpus|
    && forall i :: 0 <= i < |shards| ==> ShardOf(Evidence(shards[i]), gpus[i], worlds, steps, i * worlds)
  }

  /** What `_run_scale` returns for the devices `gpus`, of which it launched `workers`. Complete means: every requested
      device was launched and delivered its own range of worlds, in order. */
  ghost predicate IsScale(scale: Scale, gpus: seq<string>, worlds: nat, steps: nat, workers: seq<Worker>)
    requires |workers| <= |gpus|
  {
    && scale.gpus == gpus && scale.worldsPerGpu == worlds
    && scale.shards == Kept(workers, gpus, worlds, steps, |workers|)
    && scale.throughput == Throughput(scale.shards) >= 0.0
    && (scale.complete <==> |workers| == |gpus| && AllDeliver(workers, gpus, worlds, steps, |workers|))
    && (scale.complete ==>
          && scale.failures == [] && scale.throughput > 0.0
          && OneShardEach(scale.shards, gpus, worlds, steps))
  }

  /** `_run_scale`. With `injectMissing` the last device is not launched. */
  method RunScale(gpus: seq<string>, worlds: nat, steps: nat, workers: seq<Worker>, injectMissing: bool)
    returns (scale: Scale)
    requires gpus != [] && |workers| == if injectMissing then |gpus| - 1 else |gpus|
    ensures IsScale(scale, gpus, worlds, steps, workers)
  {
    var failures, shards := Gather(gpus, worlds, steps, workers);
    ThroughputPositive(shards);
    if failures == [] && !injectMissing {
      DeliveredShards(workers, gpus, worlds, steps);
      GpusOf(shards, gpus, worlds, steps);
      assert shards != [];
    }
    hide Accepted, AllDeliver, OneShardEach, Throughput, Missing;
    var missing := Missing(gpus, shards);
    if missing != {} {
      failures := failures + [Incomplete(missing)];
    }
    var complete := failures == [] && |shards| == |gpus|;
    scale := Scale(gpus, worlds, Throughput(shards), complete, failures, shards);
  }

  function Missing(gpus: seq<string>, shards: seq<Shard>): set<string> {
    (set g | g in gpus) - (set s | s in shards :: s.gpu)
  }

  lemma GpusOf(shards: seq<Shard>, gpus: seq<string>, worlds: nat, steps: nat)
    requires OneShardEach(shards, gpus, worlds, steps)
    ensures Missing(gpus, shards) == {}
  {
    forall g | g in gpus ensures g in set s | s in shards :: s.gpu {
      var i :| 0 <= i < |gpus| && gpus[i] == g;
      assert ShardOf(Evidence(shards[i]), gpus[i], worlds, steps, i * worlds);
      assert shards[i] in shards;
    }
  }

  /** The ranges of worlds of a complete scale are disjoint and cover all its worlds: each world is in one shard's
      range. */
  lemma EveryWorldOnce(shards: seq<Shard>, gpus: seq<string>, worlds: nat, steps: nat, w: nat)
    requires OneShardEach(shards, gpus, worlds, steps)
    requires w < |gpus| * worlds
    ensures exists i :: 0 <= i < |shards| && InRange(shards[i], w)
    ensures forall i, j :: 0 <= i < |shards| && 0 <= j < |shards| ==>
              InRange(shards[i], w) && InRange(shards[j], w) ==> i == j
  {
    var k := w / worlds;
    RangeOf(w, worlds, |gpus|, k);
    forall i | 0 <= i < |shards| ensures InRange(shards[i], w) <==> i == k {
      assert ShardOf(Evidence(shards[i]), gpus[i], worlds, steps, i * worlds);
      RangeOf(w, worlds, |gpus|, i);
    }
    assert InRange(shards[k], w);
  }

  predicate InRange(s: Shard, w: int) {
    s.offset <= w < s.offset + s.worlds
  }

  lemma RangeOf(w: nat, worlds: nat, count: nat, i: int)
    requires w < count * worlds
    ensures worlds > 0 && 0 <= w / worlds < count
    ensures i * worlds <= w < i * worlds + worlds <==> i == w / worlds
  {
    assert worlds > 0;
    var k := w / worlds;
    assert k * worlds <= w < k * worlds + worlds;
    Apart(i, k, worlds);
    Apart(k, count, worlds);
  }

  /** Multiples apart. */
  lemma Apart(a: int, b: int, size: nat)
    ensures a < b ==> a * size + size <= b * size
    ensures b < a ==> b * size + size <= a * size
  {
    assert b * size - a * size == (b - a) * size;
    if a < b {
      AtLeastOnce(b - a, size);
    } else if b < a {
      AtLeastOnce(a - b, size);
    }
  }

  // ---------- The curve ----------

  datatype Fault = NoFault | MissingShard | WorkerCrash

  /** The device counts that a run measures. */
  function Counts(fault: Fault): seq<nat> {
    if fault == NoFault then [1, 2, 4] else [4]
  }

  function Launched(fault: Fault, count: nat): nat
    requires count > 0
  {
    if fault == MissingShard then count - 1 else count
  }

  function Speedup(throughput: real, baseline: real): real {
    if baseline > 0.0 then throughput / baseline else 0.0
  }

  lemma SpeedupReaches(throughput: real, baseline: real, target: real)
    requires baseline > 0.0
    ensures Speedup(throughput, baseline) >= target <==> throughput >= target * baseline
  {
    var s := throughput / baseline;
    assert s * baseline == throughput;
    if s >= target {
      assert (s - target) * baseline >= 0.0;
    } else {
      assert (target - s) * baseline > 0.0;
    }
  }

  lemma OwnBaseline(throughput: real)
    ensures Speedup(throughput, throughput) <= 1.0
  {
  }

  /** `runs[k]` are the workers launched for the `k`-th count of devices. */
  predicate ValidRuns(gpus: seq<string>, fault: Fault, runs: seq<seq<Worker>>) {
    |gpus| == 4 && |runs| == |Counts(fault)| && forall k :: 0 <= k < |runs| ==>
        |runs[k]| == Launched(fault, Counts(fault)[k])
  }

  ghost predicate AreScales(scales: seq<Scale>, gpus: seq<string>, worlds: nat, steps: nat, fault: Fault,
                            runs: seq<seq<Worker>>)
    requires ValidRuns(gpus, fault, runs) && |scales| <= |runs|
  {
    forall k :: 0 <= k < |scales| ==> IsScale(scales[k], gpus[..Counts(fault)[k]], worlds, steps, runs[k])
  }

  method RunScales(gpus: seq<string>, worlds: nat, steps: nat, fault: Fault, runs: seq<seq<Worker>>)
    returns (scales: seq<Scale>)
    requires ValidRuns(gpus, fault, runs)
    ensures |scales| == |runs| && AreScales(scales, gpus, worlds, steps, fault, runs)
  {
    hide IsScale;
    scales := [];
    for k := 0 to |Counts(fault)|
      invariant |scales| == k && AreScales(scales, gpus, worlds, steps, fault, runs)
    {
      var scale := RunScale(gpus[..Counts(fault)[k]], worlds, steps, runs[k], fault == MissingShard);
      scales := scales + [scale];
    }
  }

  /** The verdict of `main`. A worker crash is an outcome of the workers. A run with an injected fault is its own
      baseline, so it cannot meet the target, even when the crashed worker had already delivered. */
  method MeasureCurve(gpus: seq<string>, worlds: nat, steps: nat, fault: Fault, runs: seq<seq<Worker>>)
    returns (scales: seq<Scale>, complete: bool, targetMet: bool)
    requires ValidRuns(gpus, fault, runs)
    ensures |scales| == |runs| && AreScales(scales, gpus, worlds, steps, fault, runs)
    ensures complete <==> forall k :: 0 <= k < |scales| ==> scales[k].complete
    ensures fault == MissingShard ==> !complete
    ensures fault != NoFault ==> !targetMet
    ensures fault == NoFault ==>
              (targetMet <==> (complete && 4 * worlds >= 1000 && scales[2].throughput >= 2.5 * scales[0].throughput))
  {
    hide Kept, AllDeliver, OneShardEach, Throughput, Speedup;
    scales := RunScales(gpus, worlds, steps, fault, runs);
    var four := |scales| - 1;
    assert IsScale(scales[0], gpus[..Counts(fault)[0]], worlds, steps, runs[0]);
    assert IsScale(scales[four], gpus[..Counts(fault)[four]], worlds, steps, runs[four]);
    complete := forall s :: s in scales ==> s.complete;
    assert complete ==> scales[0].complete;
    var speedup := Speedup(scales[four].throughput, scales[0].throughput);
    OwnBaseline(scales[0].throughput);
    if complete {
      SpeedupReaches(scales[four].throughput, scales[0].throughput, 2.5);
    }
    targetMet := complete && speedup >= 2.5 && |scales[four].gpus| * worlds >= 1000;
  }

  // ---------- The report ----------

  /** The write loop of `_atomic_json`: whatever parts the system writes, a report that is not refused was written whole
      and in order. `writes` is the result of each call; it is never more than what was given. */
  method WriteAll(payload: seq<char>, writes: nat -> int) returns (file: seq<char>, ok: bool)
    ensures file <= payload
    ensures ok <==> file == payload
  {
    var view, calls := payload, 0;
    file := [];
    while view != []
      invariant file + view == payload
      decreases |view|
    {
      var written := if writes(calls) <= |view| then writes(calls) else |view|;
      if written <= 0 {
        return file, false;
      }
      file := file + view[..written];
      view := view[written..];
      calls := calls + 1;
    }
    ok := true;
  }
}
