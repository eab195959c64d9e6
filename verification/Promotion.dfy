/** The survival and discordance parts of `promotion_report` (experiments/evo3/stats_analysis.py). */
module Promotion {
  import opened StableSort
  import opened Text
  import opened Wrappers
  import opened Survival
  import McNemar

  datatype SessionRecord = SessionRecord(
    sessionId: string,
    arm: string,
    invalidCount: nat,
    firstFailureRound: Option<int>
  )

  datatype Report = Report(
    discordB: nat,
    discordC: nat,
    pExact: Option<real>,
    rmstA: real,
    rmstB: real,
    rmstGain: real
  )

  predicate BySessionId(x: SessionRecord, y: SessionRecord) {
    LexLe(x.sessionId, y.sessionId)
  }

  function InArm(arm: string): SessionRecord -> bool {
    (r: SessionRecord) => r.arm == arm
  }

  /** The sessions of one arm, in session order. */
  function Arm(records: seq<SessionRecord>, arm: string): seq<SessionRecord> {
    Sort(BySessionId, Filter(InArm(arm), records))
  }

  /** The survival sample of one session: its first failure, or censored at the horizon. */
  function SampleOf(r: SessionRecord, horizon: int): Sample {
    match r.firstFailureRound
    case Some(round) => Sample(round as real, true)
    case None => Sample(horizon as real, false)
  }

  function SamplesOf(rows: seq<SessionRecord>, horizon: int): (samples: seq<Sample>)
    ensures |samples| == |rows|
    ensures forall i :: 0 <= i < |rows| ==> samples[i] == SampleOf(rows[i], horizon)
  {
    if rows == [] then [] else [SampleOf(rows[0], horizon)] + SamplesOf(rows[1..], horizon)
  }

  /** Pairs, slot by slot, where the first arm has invalid rounds and the second has none. */
  function Discordant(first: seq<SessionRecord>, second: seq<SessionRecord>): nat {
    if first == [] || second == [] then 0
    else (if first[0].invalidCount > 0 && second[0].invalidCount == 0 then 1 else 0)
         + Discordant(first[1..], second[1..])
  }

  /** None stands for the error raised when an arm has no session. */
  function ReportOf(records: seq<SessionRecord>, armA: string, armB: string, horizon: int): Option<Report> {
    var a, b := Arm(records, armA), Arm(records, armB);
    if a == [] || b == [] then None
    else
      var rmstA := Rmst(SamplesOf(a, horizon), horizon as real);
      var rmstB := Rmst(SamplesOf(b, horizon), horizon as real);
      Some(Report(Discordant(a, b), Discordant(b, a), McNemar.PExact(Discordant(a, b), Discordant(b, a)),
                  rmstA, rmstB, rmstB - rmstA))
  }

  method PromotionReport(records: seq<SessionRecord>, armA: string, armB: string, horizon: int)
    returns (report: Option<Report>)
    ensures report == ReportOf(records, armA, armB, horizon)
  {
    hide Rmst, McNemar.PExact;
    var a, b := Arm(records, armA), Arm(records, armB);
    if a == [] || b == [] {
      return None;
    }
    var pairs := if |a| <= |b| then |a| else |b|;
    var discordB, discordC := 0, 0;
    for i := 0 to pairs
      invariant discordB + Discordant(a[i..], b[i..]) == Discordant(a, b)
      invariant discordC + Discordant(b[i..], a[i..]) == Discordant(b, a)
    {
      assert a[i..][1..] == a[i + 1..] && b[i..][1..] == b[i + 1..];
      if a[i].invalidCount > 0 && b[i].invalidCount == 0 {
        discordB := discordB + 1;
      }
      if b[i].invalidCount > 0 && a[i].invalidCount == 0 {
        discordC := discordC + 1;
      }
    }
    var rmstA := RestrictedMeanSurvival(SamplesOf(a, horizon), horizon as real);
    var rmstB := RestrictedMeanSurvival(SamplesOf(b, horizon), horizon as real);
    report := Some(Report(discordB, discordC, McNemar.PExact(discordB, discordC), rmstA, rmstB, rmstB - rmstA));
  }

  // ---------- The gain is a difference of means ----------

  /** A session's failure-free rounds within the horizon. */
  function FailureFree(r: SessionRecord, horizon: int): int {
    match r.firstFailureRound
    case Some(round) => if round <= horizon then round else horizon
    case None => horizon
  }

  function TotalFailureFree(rows: seq<SessionRecord>, horizon: int): int {
    if rows == [] then 0 else FailureFree(rows[0], horizon) + TotalFailureFree(rows[1..], horizon)
  }

  function MeanFailureFree(rows: seq<SessionRecord>, horizon: int): real
    requires rows != []
  {
    TotalFailureFree(rows, horizon) as real / |rows| as real
  }

  function Sessions(records: seq<SessionRecord>, arm: string): seq<SessionRecord> {
    Filter(InArm(arm), records)
  }

  lemma {:induction false} SumMinOfSamples(rows: seq<SessionRecord>, horizon: int)
    ensures SumMin(SamplesOf(rows, horizon), horizon as real) == TotalFailureFree(rows, horizon) as real
  {
    if rows != [] {
      SumMinOfSamples(rows[1..], horizon);
      assert SamplesOf(rows, horizon)[1..] == SamplesOf(rows[1..], horizon);
    }
  }

  lemma {:induction false} TotalInsert(x: SessionRecord, rows: seq<SessionRecord>, horizon: int)
    ensures TotalFailureFree(Insert(BySessionId, x, rows), horizon)
            == FailureFree(x, horizon) + TotalFailureFree(rows, horizon)
  {
    if rows == [] || BySessionId(x, rows[0]) {
      assert ([x] + rows)[1..] == rows;
    } else {
      TotalInsert(x, rows[1..], horizon);
      assert Insert(BySessionId, x, rows)[1..] == Insert(BySessionId, x, rows[1..]);
    }
  }

  lemma {:induction false} TotalSorted(rows: seq<SessionRecord>, horizon: int)
    ensures TotalFailureFree(Sort(BySessionId, rows), horizon) == TotalFailureFree(rows, horizon)
  {
    if rows != [] {
      TotalSorted(rows[1..], horizon);
      TotalInsert(rows[0], Sort(BySessionId, rows[1..]), horizon);
    }
  }

  lemma ArmRmst(rows: seq<SessionRecord>, horizon: int)
    requires rows != []
    ensures Rmst(SamplesOf(Sort(BySessionId, rows), horizon), horizon as real) == MeanFailureFree(rows, horizon)
  {
    hide Rmst, SumMin, TotalFailureFree, Sort;
    var sorted := Sort(BySessionId, rows);
    var samples := SamplesOf(sorted, horizon);
    assert CensoredAtHorizon(samples, horizon as real);
    RmstIsMean(samples, horizon as real);
    SumMinOfSamples(sorted, horizon);
    TotalSorted(rows, horizon);
  }

  /** The report exists exactly when both arms have a session; its restricted means are the plain means of the
      failure-free rounds, so the gain is a difference of such means and a row for row recount of the records. */
  lemma GainIsDifferenceOfMeans(records: seq<SessionRecord>, armA: string, armB: string, horizon: int)
    ensures var a, b := Sessions(records, armA), Sessions(records, armB);
            var report := ReportOf(records, armA, armB, horizon);
            && (report.Some? <==> a != [] && b != [])
            && (report.Some? ==>
                  && report.value.rmstA == MeanFailureFree(a, horizon)
                  && report.value.rmstB == MeanFailureFree(b, horizon)
                  && report.value.rmstGain == MeanFailureFree(b, horizon) - MeanFailureFree(a, horizon))
  {
    var a, b := Sessions(records, armA), Sessions(records, armB);
    if a != [] {
      ArmRmst(a, horizon);
    }
    if b != [] {
      ArmRmst(b, horizon);
    }
  }

  /** Naming the arms the other way round swaps the discordant counts, keeps the p-value and negates the gain. */
  lemma SwappedArms(records: seq<SessionRecord>, armA: string, armB: string, horizon: int)
    ensures var r, s := ReportOf(records, armA, armB, horizon), ReportOf(records, armB, armA, horizon);
            && r.Some? == s.Some?
            && (r.Some? ==>
                  && r.value.discordB == s.value.discordC && r.value.discordC == s.value.discordB
                  && r.value.pExact == s.value.pExact
                  && r.value.rmstGain == -s.value.rmstGain)
  {
    hide Rmst, McNemar.PExact;
    var a, b := Arm(records, armA), Arm(records, armB);
    McNemar.PIsProbability(Discordant(a, b), Discordant(b, a));
  }

  lemma BySessionIdIsPreorder()
    ensures TotalPreorder(BySessionId)
  {
    forall x: SessionRecord, y: SessionRecord ensures BySessionId(x, y) || BySessionId(y, x) {
      LexLeTotal(x.sessionId, y.sessionId);
    }
    forall x: SessionRecord, y: SessionRecord, z: SessionRecord | BySessionId(x, y) && BySessionId(y, z)
      ensures BySessionId(x, z)
    {
      LexLeTransitive(x.sessionId, y.sessionId, z.sessionId);
    }
  }

  lemma TotalWithout(rows: seq<SessionRecord>, i: nat, horizon: int)
    requires i < |rows|
    ensures TotalFailureFree(rows, horizon)
            == FailureFree(rows[i], horizon) + TotalFailureFree(rows[..i] + rows[i + 1..], horizon)
  {
    hide FailureFree;
    if i == 0 {
      assert rows[..0] + rows[1..] == rows[1..];
    } else {
      TotalWithout(rows[1..], i - 1, horizon);
      var rest := rows[..i] + rows[i + 1..];
      assert rest[1..] == rows[1..][..i - 1] + rows[1..][i..];
    }
  }

  lemma {:induction false} TotalIgnoresOrder(rows: seq<SessionRecord>, other: seq<SessionRecord>, horizon: int)
    requires multiset(rows) == multiset(other)
    ensures TotalFailureFree(rows, horizon) == TotalFailureFree(other, horizon)
  {
    hide FailureFree;
    if rows == [] {
      assert |multiset(rows)| == |multiset(other)|;
    } else {
      assert rows[0] in multiset(other);
      var i :| 0 <= i < |other| && other[i] == rows[0];
      var rest := other[..i] + other[i + 1..];
      TotalWithout(other, i, horizon);
      MultisetTail(rows);
      assert other == other[..i] + [other[i]] + other[i + 1..];
      TotalIgnoresOrder(rows[1..], rest, horizon);
    }
  }

  lemma MeanIgnoresOrder(records: seq<SessionRecord>, other: seq<SessionRecord>, arm: string, horizon: int)
    requires multiset(records) == multiset(other)
    ensures Sessions(records, arm) == [] <==> Sessions(other, arm) == []
    ensures Sessions(records, arm) != [] ==>
              MeanFailureFree(Sessions(records, arm), horizon) == MeanFailureFree(Sessions(other, arm), horizon)
  {
    FilterPermutes(InArm(arm), records, other);
    TotalIgnoresOrder(Sessions(records, arm), Sessions(other, arm), horizon);
  }

  /** The restricted means and the gain never depend on the order of the records, whatever the session ids. */
  lemma MeansIgnoreOrder(records: seq<SessionRecord>, other: seq<SessionRecord>, armA: string, armB: string,
                         horizon: int)
    requires multiset(records) == multiset(other)
    ensures var r, s := ReportOf(records, armA, armB, horizon), ReportOf(other, armA, armB, horizon);
            && r.Some? == s.Some?
            && (r.Some? ==> && r.value.rmstA == s.value.rmstA && r.value.rmstB == s.value.rmstB
                            && r.value.rmstGain == s.value.rmstGain)
  {
    hide ReportOf, MeanFailureFree, Sessions;
    GainIsDifferenceOfMeans(records, armA, armB, horizon);
    GainIsDifferenceOfMeans(other, armA, armB, horizon);
    MeanIgnoresOrder(records, other, armA, horizon);
    MeanIgnoresOrder(records, other, armB, horizon);
  }
}
