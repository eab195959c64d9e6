/** Who holds which serial port: discovery and guardians of examples/rh56_rps/scripts/serial_guardian.py.

    The serial lines answer as a parameter says; every open and close goes through a `Bus` that
    records it.
 */
module SerialGuardian {
  import opened Wrappers

  datatype Slave = Slave(id: int)

  /** What one probe of a slave brings: an exception, or a response, with the registers it holds if it is well
      formed. */
  datatype Answer = Raises | Replies(registers: Option<seq<int>>)

  /** How a port behaves: whether it can be opened and closed, and the answer to the probe of each slave position. */
  datatype Line = Line(opens: bool, closes: bool, answers: nat -> Answer)

  type Lines = string -> Line

  /** The slave at position `k` answers with its own id. */
  predicate Confirms(line: Line, slaves: seq<Slave>, k: nat)
    requires k < |slaves|
  {
    match line.answers(k)
    case Raises => false
    case Replies(registers) => registers.Some? && registers.value != [] && registers.value[0] == slaves[k].id
  }

  // ---------- Discovery as a function ----------

  /** The mapping after the slaves before position `k` were probed on an open port, and whether a probe raised. */
  function Probed(line: Line, port: string, slaves: seq<Slave>, k: nat,
                  found: map<Slave, string>): (r: (map<Slave, string>, bool))
    requires k <= |slaves|
    ensures found.Keys <= r.0.Keys
    ensures forall s :: s in r.0 ==> r.0[s] == if s in found then found[s] else port
  {
    if k == 0 then (found, false)
    else
      var (before, raised) := Probed(line, port, slaves, k - 1, found);
      if raised || slaves[k - 1] in before then (before, raised)
      else if line.answers(k - 1).Raises? then (before, true)
      else if Confirms(line, slaves, k - 1) then (before[slaves[k - 1] := port], false)
      else (before, false)
  }

  /** The mapping after the first `n` ports. */
  function Found(lines: Lines, ports: seq<string>, slaves: seq<Slave>, n: nat): map<Slave, string>
    requires n <= |ports|
  {
    if n == 0 then map[]
    else
      var before := Found(lines, ports, slaves, n - 1);
      if lines(ports[n - 1]).opens then Probed(lines(ports[n - 1]), ports[n - 1], slaves, |slaves|, before).0
      else before
  }

  /** What discovery maps comes from a port that opened and confirmed the slave. */
  lemma {:induction false} MappedIsConfirmed(lines: Lines, ports: seq<string>, slaves: seq<Slave>, n: nat, s: Slave)
    requires n <= |ports| && s in Found(lines, ports, slaves, n)
    ensures exists i, k :: 0 <= i < n && 0 <= k < |slaves| && Found(lines, ports, slaves, n)[s] == ports[i]
                           && lines(ports[i]).opens && slaves[k] == s && Confirms(lines(ports[i]), slaves, k)
  {
    var before := Found(lines, ports, slaves, n - 1);
    if s in before {
      MappedIsConfirmed(lines, ports, slaves, n - 1, s);
    } else {
      ProbedIsConfirmed(lines(ports[n - 1]), ports[n - 1], slaves, |slaves|, before, s);
    }
  }

  lemma {:induction false} ProbedIsConfirmed(line: Line, port: string, slaves: seq<Slave>, k: nat,
                                             found: map<Slave, string>, s: Slave)
    requires k <= |slaves|
    requires s in Probed(line, port, slaves, k, found).0 && s !in found
    ensures exists j :: 0 <= j < k && slaves[j] == s && Confirms(line, slaves, j)
  {
    if s in Probed(line, port, slaves, k - 1, found).0 {
      ProbedIsConfirmed(line, port, slaves, k - 1, found, s);
    }
  }

  predicate ConfirmsSlave(line: Line, slaves: seq<Slave>, s: Slave) {
    exists k :: 0 <= k < |slaves| && slaves[k] == s && Confirms(line, slaves, k)
  }

  /** Without an exception a port maps exactly the slaves that it confirms and that have no port yet. */
  lemma {:induction false} QuietProbe(line: Line, port: string, slaves: seq<Slave>, k: nat, found: map<Slave, string>)
    requires k <= |slaves| && forall j :: 0 <= j < |slaves| ==> !line.answers(j).Raises?
    ensures !Probed(line, port, slaves, k, found).1
    ensures forall s :: s in Probed(line, port, slaves, k, found).0 <==>
              s in found || exists j :: 0 <= j < k && slaves[j] == s && Confirms(line, slaves, j)
  {
    if k > 0 {
      QuietProbe(line, port, slaves, k - 1, found);
    }
  }

  /** The first of the first `n` ports that opens and confirms a slave. */
  function FirstConfirming(lines: Lines, ports: seq<string>, slaves: seq<Slave>, n: nat, s: Slave): Option<string>
    requires n <= |ports|
  {
    if n == 0 then None
    else
      var before := FirstConfirming(lines, ports, slaves, n - 1, s);
      if before.None? && lines(ports[n - 1]).opens && ConfirmsSlave(lines(ports[n - 1]), slaves, s)
      then Some(ports[n - 1])
      else before
  }

  /** When no probe raises, every slave is mapped to the first port that confirms it, and only such slaves are
      mapped. */
  lemma {:induction false} QuietDiscovery(lines: Lines, ports: seq<string>, slaves: seq<Slave>, n: nat, s: Slave)
    requires n <= |ports|
    requires forall i, j :: 0 <= i < |ports| && 0 <= j < |slaves| ==> !lines(ports[i]).answers(j).Raises?
    ensures (if s in Found(lines, ports, slaves, n) then Some(Found(lines, ports, slaves, n)[s]) else None)
            == FirstConfirming(lines, ports, slaves, n, s)
  {
    if n > 0 {
      QuietDiscovery(lines, ports, slaves, n - 1, s);
      var before := Found(lines, ports, slaves, n - 1);
      QuietProbe(lines(ports[n - 1]), ports[n - 1], slaves, |slaves|, before);
    }
  }

  // ---------- The ports of the machine ----------

  /** The process's open ports, and every successful open in order. */
  class Bus {
    var held: set<string>
    var openings: seq<string>

    constructor ()
      ensures held == {} && openings == []
    {
      held, openings := {}, [];
    }

    method Open(line: Line, port: string) returns (ok: bool)
      modifies this
      ensures ok == line.opens
      ensures held == if ok then old(held) + {port} else old(held)
      ensures openings == if ok then old(openings) + [port] else old(openings)
    {
      ok := line.opens;
      if ok {
        held, openings := held + {port}, openings + [port];
      }
    }

    method Close(line: Line, port: string)
      modifies this
      ensures openings == old(openings)
      ensures held == if line.closes then old(held) - {port} else old(held)
    {
      if line.closes {
        held := held - {port};
      }
    }
  }

  /** The ports among the first `n` that opened. */
  function Opened(lines: Lines, ports: seq<string>, n: nat): (r: seq<string>)
    requires n <= |ports|
    ensures forall p :: p in r ==> p in ports[..n] && lines(p).opens
  {
    if n == 0 then []
    else
      assert ports[..n] == ports[..n - 1] + [ports[n - 1]];
      Opened(lines, ports, n - 1) + if lines(ports[n - 1]).opens then [ports[n - 1]] else []
  }

  predicate Distinct(ports: seq<string>) {
    forall i, j :: 0 <= i < j < |ports| ==> ports[i] != ports[j]
  }

  /** A port that is still open after it was probed: some slave lives on it, or closing it failed. */
  predicate Kept(lines: Lines, found: map<Slave, string>, port: string) {
    lines(port).opens && (port in found.Values || !lines(port).closes)
  }

  /** A handle is named by the port it was opened on. */
  type Handle = string

  /** The probes of one open port, with the handles of the slaves found so far. */
  method ProbePort(line: Line, port: string, slaves: seq<Slave>, mapping: map<Slave, string>,
                   serials: map<Slave, Handle>)
    returns (newMapping: map<Slave, string>, newSerials: map<Slave, Handle>)
    requires mapping == serials
    ensures newMapping == newSerials == Probed(line, port, slaves, |slaves|, mapping).0
  {
    newMapping, newSerials := mapping, serials;
    var raised := false;
    for k := 0 to |slaves|
      invariant (newMapping, raised) == Probed(line, port, slaves, k, mapping)
      invariant newSerials == newMapping
    {
      if !raised && slaves[k] !in newMapping {
        if line.answers(k).Raises? {
          raised := true;
        } else if Confirms(line, slaves, k) {
          newMapping := newMapping[slaves[k] := port];
          newSerials := newSerials[slaves[k] := port];
        }
      }
    }
  }

  /** The state of discovery after the first `n` ports. */
  ghost predicate Discovered(bus: Bus, lines: Lines, ports: seq<string>, slaves: seq<Slave>, n: nat,
                             mapping: map<Slave, string>)
    requires n <= |ports|
    reads bus
  {
    && mapping == Found(lines, ports, slaves, n)
    && bus.openings == Opened(lines, ports, n)
    && (forall p :: p in mapping.Values ==> p in ports[..n])
    && (forall p :: p in bus.held <==> p in ports[..n] && Kept(lines, mapping, p))
  }

  /** One round of discovery. */
  method VisitPort(bus: Bus, lines: Lines, ports: seq<string>, slaves: seq<Slave>, n: nat, mapping: map<Slave, string>,
                   serials: map<Slave, Handle>)
    returns (newMapping: map<Slave, string>, newSerials: map<Slave, Handle>)
    requires n < |ports| && Distinct(ports) && serials == mapping
    requires Discovered(bus, lines, ports, slaves, n, mapping)
    modifies bus
    ensures newSerials == newMapping
    ensures Discovered(bus, lines, ports, slaves, n + 1, newMapping)
  {
    hide Distinct, Probed;
    newMapping, newSerials := mapping, serials;
    var ok := bus.Open(lines(ports[n]), ports[n]);
    if ok {
      newMapping, newSerials := ProbePort(lines(ports[n]), ports[n], slaves, mapping, serials);
      ProbedValues(lines(ports[n]), ports[n], slaves, mapping);
      if ports[n] !in newMapping.Values {
        bus.Close(lines(ports[n]), ports[n]);
      }
    }
    NextPort(lines, ports, n, mapping, newMapping);
  }

  /** `discover_hands`. Whatever the ports answer, a port is left open exactly when a slave is mapped to it,
      unless closing it failed, and every port that can be opened was opened once. */
  method DiscoverHands(bus: Bus, lines: Lines, ports: seq<string>, slaves: seq<Slave>)
    returns (ok: bool, mapping: map<Slave, string>, serials: map<Slave, Handle>)
    requires bus.held == {} && bus.openings == [] && Distinct(ports)
    modifies bus
    ensures ok == (ports != [])
    ensures mapping == Found(lines, ports, slaves, |ports|)
    ensures serials == mapping
    ensures forall p :: p in bus.held <==> p in ports && Kept(lines, mapping, p)
    ensures bus.openings == Opened(lines, ports, |ports|)
  {
    hide Kept;
    ok, mapping, serials := ports != [], map[], map[];
    for n := 0 to |ports|
      invariant serials == mapping && Discovered(bus, lines, ports, slaves, n, mapping)
    {
      mapping, serials := VisitPort(bus, lines, ports, slaves, n, mapping, serials);
    }
    assert ports[..|ports|] == ports;
  }

  lemma ProbedValues(line: Line, port: string, slaves: seq<Slave>, found: map<Slave, string>)
    ensures var r := Probed(line, port, slaves, |slaves|, found).0;
            r.Values == found.Values || r.Values == found.Values + {port}
  {
    var r := Probed(line, port, slaves, |slaves|, found).0;
    forall p | p in found.Values ensures p in r.Values {
      var s :| s in found && found[s] == p;
      assert r[s] == p;
    }
    if port in r.Values {
      assert r.Values == found.Values + {port};
    } else {
      assert r.Values == found.Values;
    }
  }

  lemma NextPort(lines: Lines, ports: seq<string>, n: nat, before: map<Slave, string>, after: map<Slave, string>)
    requires n < |ports| && Distinct(ports)
    requires forall p :: p in before.Values ==> p in ports[..n]
    requires after.Values == before.Values || after.Values == before.Values + {ports[n]}
    ensures ports[n] !in ports[..n]
    ensures forall p :: p in ports[..n + 1] <==> p in ports[..n] || p == ports[n]
    ensures forall p :: p in ports[..n] ==> (Kept(lines, after, p) <==> Kept(lines, before, p))
    ensures forall p :: p in after.Values ==> p in ports[..n + 1]
  {
    assert ports[..n + 1] == ports[..n] + [ports[n]];
  }

  /** No port is opened twice. */
  lemma {:induction false} OpenedOnce(lines: Lines, ports: seq<string>, n: nat)
    requires n <= |ports| && Distinct(ports)
    ensures Distinct(Opened(lines, ports, n))
    ensures forall p :: p in Opened(lines, ports, n) <==> p in ports[..n] && lines(p).opens
  {
    if n > 0 {
      OpenedOnce(lines, ports, n - 1);
      assert ports[..n] == ports[..n - 1] + [ports[n - 1]];
      assert ports[n - 1] !in ports[..n - 1];
    }
  }

  // ---------- Guardians ----------

  class Guardian {
    const port: string
    const existing: Option<Handle>
    var ser: Option<Handle>

    constructor (port: string, existing: Option<Handle>)
      ensures this.port == port && this.existing == existing && ser == None
    {
      this.port, this.existing, ser := port, existing, None;
    }

    /** Opens the port only if no handle was handed over. */
    method Start(bus: Bus, line: Line) returns (ok: bool)
      modifies this`ser, bus
      ensures ok == (existing.Some? || line.opens)
      ensures ser == if existing.Some? then existing else if ok then Some(port) else old(ser)
      ensures bus.held == if existing.None? && ok then old(bus.held) + {port} else old(bus.held)
      ensures bus.openings == if existing.None? && ok then old(bus.openings) + [port] else old(bus.openings)
    {
      if existing.Some? {
        ser, ok := existing, true;
      } else {
        ok := bus.Open(line, port);
        if ok {
          ser := Some(port);
        }
      }
    }

    /** Closes the handle if it is still open. */
    method Stop(bus: Bus, lines: Lines)
      modifies bus
      ensures bus.openings == old(bus.openings)
      ensures bus.held == if ser.Some? && lines(ser.value).closes then old(bus.held) - {ser.value} else old(bus.held)
    {
      if ser.Some? && ser.value in bus.held {
        bus.Close(lines(ser.value), ser.value);
      }
    }
  }

  /** The guardians hold these handles, in order. */
  ghost predicate Holding(guardians: seq<Guardian>, handles: seq<Handle>)
    reads guardians
  {
    |guardians| == |handles| && forall i :: 0 <= i < |guardians| ==> guardians[i].ser == Some(handles[i])
  }

  method StartAll(bus: Bus, lines: Lines, mapping: map<Slave, string>, serials: map<Slave, Handle>)
    returns (guardians: seq<Guardian>, ghost handles: seq<Handle>)
    requires serials == mapping
    modifies bus
    ensures bus.held == old(bus.held) && bus.openings == old(bus.openings)
    ensures fresh(guardians) && Holding(guardians, handles)
    ensures forall p :: p in handles <==> p in mapping.Values
  {
    guardians, handles := [], [];
    var todo := mapping.Keys;
    while todo != {}
      invariant bus.held == old(bus.held) && bus.openings == old(bus.openings)
      invariant todo <= mapping.Keys
      invariant fresh(guardians) && Holding(guardians, handles)
      invariant forall p :: p in handles ==> p in mapping.Values
      invariant forall id :: id in mapping && id !in todo ==> mapping[id] in handles
      decreases todo
    {
      var id :| id in todo;
      todo := todo - {id};
      var guardian := new Guardian(mapping[id], Some(serials[id]));
      var ok := guardian.Start(bus, lines(mapping[id]));
      guardians, handles := guardians + [guardian], handles + [mapping[id]];
    }
    forall p | p in mapping.Values ensures p in handles {
      var id :| id in mapping && mapping[id] == p;
    }
  }

  method StopAll(bus: Bus, lines: Lines, guardians: seq<Guardian>, ghost handles: seq<Handle>)
    requires Holding(guardians, handles)
    modifies bus
    ensures bus.openings == old(bus.openings)
    ensures forall p :: p in bus.held <==> p in old(bus.held) && !(p in handles && lines(p).closes)
  {
    for i := 0 to |guardians|
      invariant Holding(guardians, handles)
      invariant bus.openings == old(bus.openings)
      invariant forall p :: p in bus.held <==> p in old(bus.held) && !(p in handles[..i] && lines(p).closes)
    {
      guardians[i].Stop(bus, lines);
      assert handles[..i + 1] == handles[..i] + [handles[i]];
    }
    assert handles[..|guardians|] == handles;
  }

  /** `main`, from start to shutdown: guardians open no port of their own, and when all have stopped only
      ports that could not be closed are still open. */
  method Serve(bus: Bus, lines: Lines, ports: seq<string>, slaves: seq<Slave>) returns (served: bool)
    requires bus.held == {} && bus.openings == [] && Distinct(ports)
    modifies bus
    ensures served == (Found(lines, ports, slaves, |ports|) != map[])
    ensures bus.openings == Opened(lines, ports, |ports|)
    ensures forall p :: p in bus.held <==> p in ports && lines(p).opens && !lines(p).closes
  {
    var ok, mapping, serials := DiscoverHands(bus, lines, ports, slaves);
    served := ok && mapping != map[];
    if !served {
      return;
    }
    ghost var handles;
    var guardians;
    guardians, handles := StartAll(bus, lines, mapping, serials);
    StopAll(bus, lines, guardians, handles);
  }
}
