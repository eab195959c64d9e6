/** The offline evidence check `verify` of scripts/ci/verify_journey_evidence.py. */
module JourneyVerifier {
  import opened Wrappers

  // ---------- Evidence, as the JSON schema leaves it ----------

  /** A JSON value of a field that the schema does not type. */
  datatype Json = Null | Bool(b: bool) | Num(n: real) | Str(s: string) | Compound(empty: bool)

  predicate IsTruthy(v: Json) {
    match v
    case Null => false
    case Bool(b) => b
    case Num(n) => n != 0.0
    case Str(s) => s != ""
    case Compound(empty) => !empty
  }

  /** `v == 1`, which also holds of true. */
  predicate EqualsOne(v: Json) {
    v == Num(1.0) || v == Bool(true)
  }

  predicate EqualsZero(v: Json) {
    v == Num(0.0) || v == Bool(false)
  }

  datatype Txn = Txn(txnId: string, approvalId: string, grantId: string, actionId: string, receiptId: string,
                     state: string, displayHash: Option<string>)

  datatype Approval = Approval(requestId: string, status: string, displayHash: string)

  datatype Grant = Grant(grantId: string, requestId: string, consumed: Json, revoked: Json)

  datatype Receipt = Receipt(receiptId: string, actionId: string, finalState: string, trustLevel: string,
                             evidenceDomain: string, usableForReal: bool)

  datatype Lease = Lease(leaseId: string, contextHash: Json)

  datatype Artifact = Artifact(artifactId: string, sha256: Json, sizeBytes: Json, taskId: Json)

  datatype Scope = Scope(sourceAccessible: bool, installOrigin: string, configOrigin: string, kitDigest: string)

  datatype Evidence = Evidence(
    schemaOk: bool,
    schemaVersion: string,
    txns: seq<Txn>,
    approvals: seq<Approval>,
    grants: seq<Grant>,
    receipts: seq<Receipt>,
    leases: seq<Lease>,
    eventChain: seq<string>,
    kernelTasks: nat,
    kernelArtifacts: seq<Artifact>,
    forbiddenCounts: seq<int>,
    verdicts: seq<bool>,
    scope: Option<Scope>
  )

  // ---------- Failures ----------

  datatype Failure = Schema | Version | NothingDone | NoArtifacts
                   | ArtifactSha(id: string) | ArtifactSize(id: string) | ArtifactTask(id: string)
                   | DeclinedApproval(txn: string) | DeclinedGrantConsumed(txn: string)
                   | ApprovalMissing(txn: string) | ApprovalStatus(txn: string) | DisplayHash(txn: string)
                   | GrantMissing(txn: string) | GrantBinding(txn: string) | GrantUse(txn: string)
                   | NoReceiptId(txn: string) | ReceiptIsAction(txn: string) | ReceiptMissing(txn: string)
                   | ReceiptAction(txn: string) | ReceiptState(txn: string) | ReceiptTrust(txn: string)
                   | ReceiptDomain(txn: string) | ReceiptUsable(txn: string) | TxnState(txn: string)
                   | LeaseHash(id: string) | EventChain(matched: nat) | ForbiddenField | Verdict
                   | ScopeMissing | ScopeCheckout | ScopeInstall | ScopeConfig | ScopeDigest

  /** One failure if the check does not hold. */
  function Unless(holds: bool, failure: Failure): seq<Failure> {
    if holds then [] else [failure]
  }

  /** The last entry with a property: what indexing a list by that property leaves. */
  function Last<T>(p: T -> bool, xs: seq<T>): Option<T> {
    if xs == [] then None
    else if p(xs[|xs| - 1]) then Some(xs[|xs| - 1])
    else Last(p, xs[..|xs| - 1])
  }

  function First<T>(p: T -> bool, xs: seq<T>): Option<T> {
    if xs == [] then None else if p(xs[0]) then Some(xs[0]) else First(p, xs[1..])
  }

  function OfRequest(id: string): Approval -> bool {
    (a: Approval) => a.requestId == id
  }

  function OfGrant(id: string): Grant -> bool {
    (g: Grant) => g.grantId == id
  }

  function OfReceipt(id: string): Receipt -> bool {
    (r: Receipt) => r.receiptId == id
  }

  function ApprovalOf(approvals: seq<Approval>, id: string): Option<Approval> {
    Last(OfRequest(id), approvals)
  }

  function GrantOf(grants: seq<Grant>, id: string): Option<Grant> {
    Last(OfGrant(id), grants)
  }

  function ReceiptOf(receipts: seq<Receipt>, id: string): Option<Receipt> {
    First(OfReceipt(id), receipts)
  }

  function DeclinedFailures(e: Evidence, t: Txn): seq<Failure> {
    var approval, grant := ApprovalOf(e.approvals, t.approvalId), GrantOf(e.grants, t.grantId);
    Unless(approval.Some? && approval.value.status == "DENIED", DeclinedApproval(t.txnId))
    + Unless(grant.Some? ==> !IsTruthy(grant.value.consumed), DeclinedGrantConsumed(t.txnId))
  }

  predicate HashesAgree(t: Txn, a: Approval) {
    a.displayHash == "" || t.displayHash.None? || t.displayHash.value == "" || a.displayHash == t.displayHash.value
  }

  function ApprovalFailures(e: Evidence, t: Txn): seq<Failure> {
    match ApprovalOf(e.approvals, t.approvalId)
    case None => [ApprovalMissing(t.txnId)]
    case Some(a) => Unless(a.status == "APPROVED", ApprovalStatus(t.txnId))
                    + Unless(HashesAgree(t, a), DisplayHash(t.txnId))
  }

  function GrantFailures(e: Evidence, t: Txn): seq<Failure> {
    match GrantOf(e.grants, t.grantId)
    case None => [GrantMissing(t.txnId)]
    case Some(g) => Unless(g.requestId == t.approvalId, GrantBinding(t.txnId))
                    + Unless(EqualsOne(g.consumed) && EqualsZero(g.revoked), GrantUse(t.txnId))
  }

  function MatchedReceiptFailures(t: Txn, r: Receipt): seq<Failure> {
    Unless(r.actionId == t.actionId, ReceiptAction(t.txnId))
    + Unless(r.finalState == "COMPLETED", ReceiptState(t.txnId))
    + Unless(r.trustLevel == "SIMULATED", ReceiptTrust(t.txnId))
    + Unless(r.evidenceDomain == "simulation", ReceiptDomain(t.txnId))
    + Unless(!r.usableForReal, ReceiptUsable(t.txnId))
  }

  function ReceiptFailures(e: Evidence, t: Txn): seq<Failure> {
    Unless(t.receiptId != "", NoReceiptId(t.txnId))
    + Unless(t.receiptId != t.actionId, ReceiptIsAction(t.txnId))
    + match ReceiptOf(e.receipts, t.receiptId)
      case None => [ReceiptMissing(t.txnId)]
      case Some(r) => MatchedReceiptFailures(t, r)
  }

  function TxnFailures(e: Evidence, t: Txn): seq<Failure> {
    if t.state == "DECLINED" then DeclinedFailures(e, t)
    else ApprovalFailures(e, t) + GrantFailures(e, t) + ReceiptFailures(e, t)
         + Unless(t.state == "COMPLETED", TxnState(t.txnId))
  }

  function TxnCheck(e: Evidence): Txn -> seq<Failure> {
    t => TxnFailures(e, t)
  }

  function CountFailures(count: int): seq<Failure> {
    Unless(count == 0, ForbiddenField)
  }

  function VerdictFailures(verdict: bool): seq<Failure> {
    Unless(verdict, Verdict)
  }

  function ArtifactFailures(a: Artifact): seq<Failure> {
    Unless(IsTruthy(a.sha256), ArtifactSha(a.artifactId)) + Unless(IsTruthy(a.sizeBytes), ArtifactSize(a.artifactId))
    + Unless(IsTruthy(a.taskId), ArtifactTask(a.artifactId))
  }

  function LeaseFailures(l: Lease): seq<Failure> {
    Unless(IsTruthy(l.contextHash), LeaseHash(l.leaseId))
  }

  function ScopeFailures(scope: Option<Scope>): seq<Failure> {
    match scope
    case None => [ScopeMissing]
    case Some(s) => Unless(!s.sourceAccessible, ScopeCheckout)
                    + Unless(s.installOrigin == "release_tarball", ScopeInstall)
                    + Unless(s.configOrigin == "generated_no_server_fixtures", ScopeConfig)
                    + Unless("sha256:" <= s.kitDigest && |s.kitDigest| == 71, ScopeDigest)
  }

  /** The failures of every entry of a list, in order. */
  function Each<T>(check: T -> seq<Failure>, xs: seq<T>): seq<Failure> {
    if xs == [] then [] else check(xs[0]) + Each(check, xs[1..])
  }

  const EXPECTED_EVENTS := ["approval.requested", "approval.decided", "grant.consumed", "receipt.received"]

  /** How far the cursor gets in `expected` over the first `n` events. */
  function Cursor(chain: seq<string>, expected: seq<string>, n: nat): (cursor: nat)
    requires n <= |chain|
    ensures cursor <= |expected|
  {
    if n == 0 then 0
    else
      var before := Cursor(chain, expected, n - 1);
      if before < |expected| && chain[n - 1] == expected[before] then before + 1 else before
  }

  function ChainFailures(e: Evidence): seq<Failure> {
    var cursor := Cursor(e.eventChain, EXPECTED_EVENTS, |e.eventChain|);
    Unless(e.txns == [] || cursor == |EXPECTED_EVENTS|, EventChain(cursor))
  }

  function TaskFailures(e: Evidence): seq<Failure> {
    if e.txns != [] then []
    else Unless(e.kernelTasks > 0, NothingDone) + Unless(e.kernelArtifacts != [], NoArtifacts)
         + Each(ArtifactFailures, e.kernelArtifacts)
  }

  /** What was done: the tasks and artifacts of a task journey, or the transactions. */
  function WorkFailures(e: Evidence): seq<Failure> {
    TaskFailures(e) + Each(TxnCheck(e), e.txns)
  }

  /** What surrounds it: leases, the event chain, forbidden fields and verdicts. */
  function SettingFailures(e: Evidence): seq<Failure> {
    Each(LeaseFailures, e.leases) + ChainFailures(e) + Each(CountFailures, e.forbiddenCounts)
    + Each(VerdictFailures, e.verdicts)
  }

  /** All failures, in the order in which the source reports them. */
  function FailuresOf(e: Evidence): seq<Failure> {
    if !e.schemaOk then [Schema]
    else
      Unless(e.schemaVersion == "rosclaw.journey_evidence.v2", Version) + WorkFailures(e) + SettingFailures(e)
      + ScopeFailures(e.scope)
  }

  // ---------- What a PASS means ----------

  ghost predicate IsLast<T(!new)>(p: T -> bool, xs: seq<T>, x: T) {
    exists i :: 0 <= i < |xs| && xs[i] == x && p(x) && forall j :: i < j < |xs| ==> !p(xs[j])
  }

  ghost predicate IsFirst<T(!new)>(p: T -> bool, xs: seq<T>, x: T) {
    exists i :: 0 <= i < |xs| && xs[i] == x && p(x) && forall j :: 0 <= j < i ==> !p(xs[j])
  }

  lemma {:induction false} LastFinds<T(!new)>(p: T -> bool, xs: seq<T>)
    ensures match Last(p, xs) case None => forall x :: x in xs ==> !p(x) case Some(x) => IsLast(p, xs, x)
  {
    if xs != [] {
      var n := |xs| - 1;
      LastFinds(p, xs[..n]);
      assert xs == xs[..n] + [xs[n]];
    }
  }

  lemma {:induction false} FirstFinds<T(!new)>(p: T -> bool, xs: seq<T>)
    ensures match First(p, xs) case None => forall x :: x in xs ==> !p(x) case Some(x) => IsFirst(p, xs, x)
  {
    if xs != [] {
      FirstFinds(p, xs[1..]);
      assert xs == [xs[0]] + xs[1..];
    }
  }

  lemma LastIff<T(!new)>(p: T -> bool, xs: seq<T>, x: T)
    ensures Last(p, xs) == Some(x) <==> IsLast(p, xs, x)
  {
    LastFinds(p, xs);
    hide Last;
  }

  lemma FirstIff<T(!new)>(p: T -> bool, xs: seq<T>, x: T)
    ensures First(p, xs) == Some(x) <==> IsFirst(p, xs, x)
  {
    FirstFinds(p, xs);
    hide First;
  }

  /** `a` is the record of request `id`: its last entry. */
  ghost predicate Approves(approvals: seq<Approval>, id: string, a: Approval) {
    IsLast(OfRequest(id), approvals, a)
  }

  ghost predicate Grants(grants: seq<Grant>, id: string, g: Grant) {
    IsLast(OfGrant(id), grants, g)
  }

  /** `r` is the first entry with receipt id `id`. */
  ghost predicate Receives(receipts: seq<Receipt>, id: string, r: Receipt) {
    IsFirst(OfReceipt(id), receipts, r)
  }

  lemma ApprovalOfIsLast(approvals: seq<Approval>, id: string)
    ensures forall a :: Approves(approvals, id, a) <==> ApprovalOf(approvals, id) == Some(a)
  {
    forall a ensures Approves(approvals, id, a) <==> ApprovalOf(approvals, id) == Some(a) {
      LastIff(OfRequest(id), approvals, a);
    }
  }

  lemma GrantOfIsLast(grants: seq<Grant>, id: string)
    ensures forall g :: Grants(grants, id, g) <==> GrantOf(grants, id) == Some(g)
  {
    forall g ensures Grants(grants, id, g) <==> GrantOf(grants, id) == Some(g) {
      LastIff(OfGrant(id), grants, g);
    }
  }

  lemma ReceiptOfIsFirst(receipts: seq<Receipt>, id: string)
    ensures forall r :: Receives(receipts, id, r) <==> ReceiptOf(receipts, id) == Some(r)
  {
    forall r ensures Receives(receipts, id, r) <==> ReceiptOf(receipts, id) == Some(r) {
      FirstIff(OfReceipt(id), receipts, r);
    }
  }

  /** A transaction that was refused: its request is on record as denied, and no grant of its was used. */
  ghost predicate Refused(e: Evidence, t: Txn) {
    && (exists a :: Approves(e.approvals, t.approvalId, a) && a.status == "DENIED")
    && (forall g :: Grants(e.grants, t.grantId, g) ==> !IsTruthy(g.consumed))
  }

  /** The request of a transaction is on record as approved, under the same display hash. */
  ghost predicate WasApproved(e: Evidence, t: Txn) {
    exists a :: Approves(e.approvals, t.approvalId, a) && a.status == "APPROVED" && HashesAgree(t, a)
  }

  /** The grant of a transaction is bound to its request, consumed once and never revoked. */
  ghost predicate WasGranted(e: Evidence, t: Txn) {
    exists g :: Grants(e.grants, t.grantId, g)
                && g.requestId == t.approvalId && EqualsOne(g.consumed) && EqualsZero(g.revoked)
  }

  /** A simulated receipt, with an identity of its own, reports the action of a transaction as completed. */
  ghost predicate WasReceived(e: Evidence, t: Txn) {
    && t.receiptId != "" && t.receiptId != t.actionId
    && exists r :: Receives(e.receipts, t.receiptId, r) && HonestReceipt(t, r)
  }

  predicate HonestReceipt(t: Txn, r: Receipt) {
    r.actionId == t.actionId && r.finalState == "COMPLETED" && r.trustLevel == "SIMULATED"
    && r.evidenceDomain == "simulation" && !r.usableForReal
  }

  ghost predicate TxnSound(e: Evidence, t: Txn) {
    if t.state == "DECLINED" then Refused(e, t)
    else t.state == "COMPLETED" && WasApproved(e, t) && WasGranted(e, t) && WasReceived(e, t)
  }

  /** `expected` is a subsequence of `chain`, at strictly increasing positions `at`. */
  ghost predicate EmbedsAt(chain: seq<string>, expected: seq<string>, at: seq<nat>) {
    && |at| == |expected|
    && (forall k :: 0 <= k < |at| ==> at[k] < |chain| && chain[at[k]] == expected[k])
    && (forall j, k :: 0 <= j < k < |at| ==> at[j] < at[k])
  }

  ghost predicate Embeds(chain: seq<string>, expected: seq<string>) {
    exists at :: EmbedsAt(chain, expected, at)
  }

  /** Whatever embeds in the events so far is no longer than the cursor. */
  lemma {:induction false} CursorIsGreatest(chain: seq<string>, expected: seq<string>, n: nat, k: nat, at: seq<nat>)
    requires n <= |chain| && k <= |expected|
    requires EmbedsAt(chain[..n], expected[..k], at)
    ensures k <= Cursor(chain, expected, n)
  {
    if k > 0 {
      var last := at[k - 1];
      if last < n - 1 {
        assert EmbedsAt(chain[..n - 1], expected[..k], at) by {
          forall j | 0 <= j < k ensures at[j] < n - 1 && chain[..n - 1][at[j]] == expected[..k][j] {
            assert j < k - 1 ==> at[j] < at[k - 1];
            assert chain[..n][at[j]] == expected[..k][j];
          }
        }
        CursorIsGreatest(chain, expected, n - 1, k, at);
      } else {
        assert EmbedsAt(chain[..n - 1], expected[..k - 1], at[..k - 1]) by {
          forall j | 0 <= j < k - 1 ensures at[j] < n - 1 && chain[..n - 1][at[j]] == expected[..k - 1][j] {
            assert at[j] < at[k - 1];
            assert chain[..n][at[j]] == expected[..k][j];
          }
        }
        CursorIsGreatest(chain, expected, n - 1, k - 1, at[..k - 1]);
        assert chain[..n][at[k - 1]] == expected[..k][k - 1];
      }
    }
  }

  /** The events that the cursor has passed embed in the events so far. */
  lemma {:induction false} CursorEmbeds(chain: seq<string>, expected: seq<string>, n: nat) returns (at: seq<nat>)
    requires n <= |chain|
    ensures EmbedsAt(chain[..n], expected[..Cursor(chain, expected, n)], at)
  {
    at := [];
    if n > 0 {
      var before := Cursor(chain, expected, n - 1);
      at := CursorEmbeds(chain, expected, n - 1);
      forall j | 0 <= j < before ensures at[j] < n - 1 && chain[..n][at[j]] == expected[j] {
        assert chain[..n - 1][at[j]] == expected[..before][j];
      }
      if before < |expected| && chain[n - 1] == expected[before] {
        at := at + [n - 1];
      }
    }
  }

  /** The greedy scan completes exactly when the expected events form a subsequence of the chain. */
  lemma CursorCompletesIff(chain: seq<string>, expected: seq<string>)
    ensures Cursor(chain, expected, |chain|) == |expected| <==> Embeds(chain, expected)
  {
    assert chain[..|chain|] == chain && expected[..|expected|] == expected;
    if Cursor(chain, expected, |chain|) == |expected| {
      var at := CursorEmbeds(chain, expected, |chain|);
    }
    if at :| EmbedsAt(chain, expected, at) {
      CursorIsGreatest(chain, expected, |chain|, |expected|, at);
    }
  }

  predicate ScopeSound(scope: Option<Scope>) {
    && scope.Some? && !scope.value.sourceAccessible && scope.value.installOrigin == "release_tarball"
    && scope.value.configOrigin == "generated_no_server_fixtures"
    && "sha256:" <= scope.value.kitDigest && |scope.value.kitDigest| == 71
  }

  predicate ArtifactSound(a: Artifact) {
    IsTruthy(a.sha256) && IsTruthy(a.sizeBytes) && IsTruthy(a.taskId)
  }

  /** The journey of evidence without transactions: at least one task and one artifact, each complete. */
  predicate TaskJourneySound(e: Evidence) {
    e.kernelTasks > 0 && e.kernelArtifacts != [] && forall a :: a in e.kernelArtifacts ==> ArtifactSound(a)
  }

  ghost predicate AdmissionJourneySound(e: Evidence) {
    Embeds(e.eventChain, EXPECTED_EVENTS) && forall t :: t in e.txns ==> TxnSound(e, t)
  }

  predicate FramingSound(e: Evidence) {
    && e.schemaOk && e.schemaVersion == "rosclaw.journey_evidence.v2"
    && (forall l :: l in e.leases ==> IsTruthy(l.contextHash))
    && (forall count :: count in e.forbiddenCounts ==> count == 0)
    && (forall verdict :: verdict in e.verdicts ==> verdict)
    && ScopeSound(e.scope)
  }

  /** What the evidence must establish, without reference to how it is scanned. */
  ghost predicate Sound(e: Evidence) {
    FramingSound(e) && if e.txns == [] then TaskJourneySound(e) else AdmissionJourneySound(e)
  }

  lemma {:induction false} EachEmptyIff<T>(check: T -> seq<Failure>, xs: seq<T>)
    ensures Each(check, xs) == [] <==> forall x :: x in xs ==> check(x) == []
  {
    if xs != [] {
      EachEmptyIff(check, xs[1..]);
      assert xs == [xs[0]] + xs[1..];
    }
  }

  lemma DeclinedPassesIff(e: Evidence, t: Txn)
    ensures DeclinedFailures(e, t) == [] <==> Refused(e, t)
  {
    ApprovalOfIsLast(e.approvals, t.approvalId);
    GrantOfIsLast(e.grants, t.grantId);
    hide Approves, Grants, ApprovalOf, GrantOf;
  }

  lemma ApprovalPassesIff(e: Evidence, t: Txn)
    ensures ApprovalFailures(e, t) == [] <==> WasApproved(e, t)
  {
    ApprovalOfIsLast(e.approvals, t.approvalId);
    hide Approves, ApprovalOf, HashesAgree;
  }

  lemma GrantPassesIff(e: Evidence, t: Txn)
    ensures GrantFailures(e, t) == [] <==> WasGranted(e, t)
  {
    GrantOfIsLast(e.grants, t.grantId);
    hide Grants, GrantOf;
  }

  lemma MatchedReceiptPassesIff(t: Txn, r: Receipt)
    ensures MatchedReceiptFailures(t, r) == [] <==> HonestReceipt(t, r)
  {
  }

  lemma ReceiptPassesIff(e: Evidence, t: Txn)
    ensures ReceiptFailures(e, t) == [] <==> WasReceived(e, t)
  {
    ReceiptOfIsFirst(e.receipts, t.receiptId);
    hide Receives, ReceiptOf, MatchedReceiptFailures, HonestReceipt;
    var r := ReceiptOf(e.receipts, t.receiptId);
    if r.Some? {
      MatchedReceiptPassesIff(t, r.value);
    }
  }

  lemma TxnPassesIff(e: Evidence, t: Txn)
    ensures TxnFailures(e, t) == [] <==> TxnSound(e, t)
  {
    hide DeclinedFailures, Refused, ApprovalFailures, WasApproved, GrantFailures, WasGranted, ReceiptFailures,
         WasReceived;
    DeclinedPassesIff(e, t);
    ApprovalPassesIff(e, t);
    GrantPassesIff(e, t);
    ReceiptPassesIff(e, t);
  }

  lemma TxnsPassIff(e: Evidence)
    ensures Each(TxnCheck(e), e.txns) == [] <==> forall t :: t in e.txns ==> TxnSound(e, t)
  {
    hide TxnFailures, TxnSound;
    EachEmptyIff(TxnCheck(e), e.txns);
    forall t ensures TxnCheck(e)(t) == [] <==> TxnSound(e, t) {
      TxnPassesIff(e, t);
    }
  }

  lemma TasksPassIff(e: Evidence)
    ensures TaskFailures(e) == [] <==> (e.txns == [] ==> TaskJourneySound(e))
  {
    hide Each, IsTruthy;
    EachEmptyIff(ArtifactFailures, e.kernelArtifacts);
  }

  lemma ScopePassesIff(scope: Option<Scope>)
    ensures ScopeFailures(scope) == [] <==> ScopeSound(scope)
  {
  }

  lemma ListsPassIff(e: Evidence)
    ensures Each(LeaseFailures, e.leases) == [] <==> forall l :: l in e.leases ==> IsTruthy(l.contextHash)
    ensures Each(CountFailures, e.forbiddenCounts) == [] <==> forall count :: count in e.forbiddenCounts ==> count == 0
    ensures Each(VerdictFailures, e.verdicts) == [] <==> forall verdict :: verdict in e.verdicts ==> verdict
  {
    hide Each, IsTruthy;
    EachEmptyIff(LeaseFailures, e.leases);
    EachEmptyIff(CountFailures, e.forbiddenCounts);
    EachEmptyIff(VerdictFailures, e.verdicts);
  }

  /** PASS is the independent statement of soundness. */
  lemma PassIffSound(e: Evidence)
    ensures FailuresOf(e) == [] <==> Sound(e)
  {
    TasksPassIff(e);
    TxnsPassIff(e);
    ListsPassIff(e);
    ScopePassesIff(e.scope);
    CursorCompletesIff(e.eventChain, EXPECTED_EVENTS);
    hide TaskFailures, TxnCheck, TxnSound, Each, IsTruthy, ScopeFailures, ScopeSound, TaskJourneySound, Cursor, Embeds;
  }

  // ---------- What each failure says ----------

  /** When a failure is reported of a declined transaction. */
  predicate DeclinedSays(e: Evidence, t: Txn, f: Failure) {
    var approval, grant := ApprovalOf(e.approvals, t.approvalId), GrantOf(e.grants, t.grantId);
    match f
    case DeclinedApproval(id) => id == t.txnId && (approval.None? || approval.value.status != "DENIED")
    case DeclinedGrantConsumed(id) => id == t.txnId && grant.Some? && IsTruthy(grant.value.consumed)
    case _ => false
  }

  predicate ApprovalSays(e: Evidence, t: Txn, f: Failure) {
    var approval := ApprovalOf(e.approvals, t.approvalId);
    match f
    case ApprovalMissing(id) => id == t.txnId && approval.None?
    case ApprovalStatus(id) => id == t.txnId && approval.Some? && approval.value.status != "APPROVED"
    case DisplayHash(id) =>
      && id == t.txnId && approval.Some? && approval.value.displayHash != ""
      && t.displayHash.Some? && t.displayHash.value != "" && approval.value.displayHash != t.displayHash.value
    case _ => false
  }

  predicate GrantSays(e: Evidence, t: Txn, f: Failure) {
    var grant := GrantOf(e.grants, t.grantId);
    match f
    case GrantMissing(id) => id == t.txnId && grant.None?
    case GrantBinding(id) => id == t.txnId && grant.Some? && grant.value.requestId != t.approvalId
    case GrantUse(id) =>
      id == t.txnId && grant.Some? && !(EqualsOne(grant.value.consumed) && EqualsZero(grant.value.revoked))
    case _ => false
  }

  predicate ReceiptSays(e: Evidence, t: Txn, f: Failure) {
    var r := ReceiptOf(e.receipts, t.receiptId);
    match f
    case NoReceiptId(id) => id == t.txnId && t.receiptId == ""
    case ReceiptIsAction(id) => id == t.txnId && t.receiptId == t.actionId
    case ReceiptMissing(id) => id == t.txnId && r.None?
    case _ => r.Some? && MatchedSays(t, r.value, f)
  }

  predicate MatchedSays(t: Txn, r: Receipt, f: Failure) {
    match f
    case ReceiptAction(id) => id == t.txnId && r.actionId != t.actionId
    case ReceiptState(id) => id == t.txnId && r.finalState != "COMPLETED"
    case ReceiptTrust(id) => id == t.txnId && r.trustLevel != "SIMULATED"
    case ReceiptDomain(id) => id == t.txnId && r.evidenceDomain != "simulation"
    case ReceiptUsable(id) => id == t.txnId && r.usableForReal
    case _ => false
  }

  predicate TxnSays(e: Evidence, t: Txn, f: Failure) {
    if t.state == "DECLINED" then DeclinedSays(e, t, f)
    else ApprovalSays(e, t, f) || GrantSays(e, t, f) || ReceiptSays(e, t, f)
         || (f == TxnState(t.txnId) && t.state != "COMPLETED")
  }

  predicate ArtifactSays(a: Artifact, f: Failure) {
    match f
    case ArtifactSha(id) => id == a.artifactId && !IsTruthy(a.sha256)
    case ArtifactSize(id) => id == a.artifactId && !IsTruthy(a.sizeBytes)
    case ArtifactTask(id) => id == a.artifactId && !IsTruthy(a.taskId)
    case _ => false
  }

  predicate ScopeSays(scope: Option<Scope>, f: Failure) {
    match f
    case ScopeMissing => scope.None?
    case ScopeCheckout => scope.Some? && scope.value.sourceAccessible
    case ScopeInstall => scope.Some? && scope.value.installOrigin != "release_tarball"
    case ScopeConfig => scope.Some? && scope.value.configOrigin != "generated_no_server_fixtures"
    case ScopeDigest => scope.Some? && !("sha256:" <= scope.value.kitDigest && |scope.value.kitDigest| == 71)
    case _ => false
  }

  /** The chain holds the first `k` expected events in order, but not one more. */
  ghost predicate StopsAt(chain: seq<string>, k: nat) {
    k < |EXPECTED_EVENTS| && Embeds(chain, EXPECTED_EVENTS[..k]) && !Embeds(chain, EXPECTED_EVENTS[..k + 1])
  }

  /** When a failure is reported of evidence. */
  ghost predicate Says(e: Evidence, f: Failure) {
    if !e.schemaOk then f == Schema
    else
      || (f == Version && e.schemaVersion != "rosclaw.journey_evidence.v2")
      || (e.txns == [] && f == NothingDone && e.kernelTasks == 0)
      || (e.txns == [] && f == NoArtifacts && e.kernelArtifacts == [])
      || (e.txns == [] && exists a :: a in e.kernelArtifacts && ArtifactSays(a, f))
      || (exists t :: t in e.txns && TxnSays(e, t, f))
      || (exists l :: l in e.leases && f == LeaseHash(l.leaseId) && !IsTruthy(l.contextHash))
      || (e.txns != [] && f.EventChain? && StopsAt(e.eventChain, f.matched))
      || (f == ForbiddenField && exists i :: 0 <= i < |e.forbiddenCounts| && e.forbiddenCounts[i] != 0)
      || (f == Verdict && exists i :: 0 <= i < |e.verdicts| && !e.verdicts[i])
      || ScopeSays(e.scope, f)
  }

  lemma DeclinedReports(e: Evidence, t: Txn, f: Failure)
    ensures f in DeclinedFailures(e, t) <==> DeclinedSays(e, t, f)
  {
    hide ApprovalOf, GrantOf, IsTruthy;
  }

  lemma ApprovalReports(e: Evidence, t: Txn, f: Failure)
    ensures f in ApprovalFailures(e, t) <==> ApprovalSays(e, t, f)
  {
    hide ApprovalOf;
  }

  lemma GrantReports(e: Evidence, t: Txn, f: Failure)
    ensures f in GrantFailures(e, t) <==> GrantSays(e, t, f)
  {
    hide GrantOf, EqualsOne, EqualsZero;
  }

  lemma MatchedReports(t: Txn, r: Receipt, f: Failure)
    ensures f in MatchedReceiptFailures(t, r) <==> MatchedSays(t, r, f)
  {
    hide Unless;
    InUnless(r.actionId == t.actionId, ReceiptAction(t.txnId), f);
    InUnless(r.finalState == "COMPLETED", ReceiptState(t.txnId), f);
    InUnless(r.trustLevel == "SIMULATED", ReceiptTrust(t.txnId), f);
    InUnless(r.evidenceDomain == "simulation", ReceiptDomain(t.txnId), f);
    InUnless(!r.usableForReal, ReceiptUsable(t.txnId), f);
  }

  lemma InUnless(holds: bool, failure: Failure, f: Failure)
    ensures f in Unless(holds, failure) <==> !holds && f == failure
  {
  }

  lemma ReceiptReports(e: Evidence, t: Txn, f: Failure)
    ensures f in ReceiptFailures(e, t) <==> ReceiptSays(e, t, f)
  {
    hide ReceiptOf, MatchedReceiptFailures;
    var r := ReceiptOf(e.receipts, t.receiptId);
    if r.Some? {
      MatchedReports(t, r.value, f);
    }
  }

  lemma TxnReports(e: Evidence, t: Txn, f: Failure)
    ensures f in TxnFailures(e, t) <==> TxnSays(e, t, f)
  {
    hide DeclinedFailures, ApprovalFailures, GrantFailures, ReceiptFailures, DeclinedSays, ApprovalSays, GrantSays,
         ReceiptSays;
    DeclinedReports(e, t, f);
    ApprovalReports(e, t, f);
    GrantReports(e, t, f);
    ReceiptReports(e, t, f);
  }

  lemma {:induction false} InEach<T>(check: T -> seq<Failure>, xs: seq<T>, f: Failure)
    ensures f in Each(check, xs) <==> exists i :: 0 <= i < |xs| && f in check(xs[i])
  {
    if xs != [] {
      var rest := xs[1..];
      InEach(check, rest, f);
      if i :| 0 <= i < |rest| && f in check(rest[i]) {
        assert f in check(xs[i + 1]);
      }
      if i :| 0 <= i < |xs| && f in check(xs[i]) {
        assert i > 0 ==> f in check(rest[i - 1]);
      }
    }
  }

  lemma ChainReports(e: Evidence, f: Failure)
    ensures f in ChainFailures(e) <==> e.txns != [] && f.EventChain? && StopsAt(e.eventChain, f.matched)
  {
    hide Embeds, Cursor;
    forall k: nat ensures StopsAt(e.eventChain, k)
                          <==> k < |EXPECTED_EVENTS| && k == Cursor(e.eventChain, EXPECTED_EVENTS, |e.eventChain|) {
      CursorIsWhereItStops(e.eventChain, k);
    }
  }

  lemma CursorIsWhereItStops(chain: seq<string>, k: nat)
    ensures StopsAt(chain, k)
            <==> k < |EXPECTED_EVENTS| && k == Cursor(chain, EXPECTED_EVENTS, |chain|)
  {
    hide EmbedsAt, Cursor;
    var cursor := Cursor(chain, EXPECTED_EVENTS, |chain|);
    var at := CursorEmbeds(chain, EXPECTED_EVENTS, |chain|);
    assert chain[..|chain|] == chain;
    assert Embeds(chain, EXPECTED_EVENTS[..cursor]);
    if k < |EXPECTED_EVENTS| {
      forall j: nat | j <= |EXPECTED_EVENTS| && Embeds(chain, EXPECTED_EVENTS[..j]) ensures j <= cursor {
        var places :| EmbedsAt(chain, EXPECTED_EVENTS[..j], places);
        CursorIsGreatest(chain, EXPECTED_EVENTS, |chain|, j, places);
      }
      if k < cursor {
        ShorterEmbeds(chain, EXPECTED_EVENTS, cursor, k + 1);
      }
    }
  }

  lemma ShorterEmbeds(chain: seq<string>, expected: seq<string>, long: nat, short: nat)
    requires short <= long <= |expected| && Embeds(chain, expected[..long])
    ensures Embeds(chain, expected[..short])
  {
    var at :| EmbedsAt(chain, expected[..long], at);
    assert EmbedsAt(chain, expected[..short], at[..short]);
  }

  lemma TasksReport(e: Evidence, f: Failure)
    ensures f in TaskFailures(e)
            <==> || (e.txns == [] && f == NothingDone && e.kernelTasks == 0)
                 || (e.txns == [] && f == NoArtifacts && e.kernelArtifacts == [])
                 || (e.txns == [] && exists a :: a in e.kernelArtifacts && ArtifactSays(a, f))
  {
    InEach(ArtifactFailures, e.kernelArtifacts, f);
    forall a ensures f in ArtifactFailures(a) <==> ArtifactSays(a, f) {
    }
    hide Each, IsTruthy, ArtifactFailures, ArtifactSays;
    if a :| a in e.kernelArtifacts && ArtifactSays(a, f) {
      var i :| 0 <= i < |e.kernelArtifacts| && e.kernelArtifacts[i] == a;
    }
  }

  lemma TxnsReport(e: Evidence, f: Failure)
    ensures f in Each(TxnCheck(e), e.txns) <==> exists t :: t in e.txns && TxnSays(e, t, f)
  {
    hide TxnFailures, TxnSays, Each;
    InEach(TxnCheck(e), e.txns, f);
    forall t ensures f in TxnCheck(e)(t) <==> TxnSays(e, t, f) {
      TxnReports(e, t, f);
    }
    if t :| t in e.txns && TxnSays(e, t, f) {
      var i :| 0 <= i < |e.txns| && e.txns[i] == t;
    }
  }

  lemma SettingReports(e: Evidence, f: Failure)
    ensures f in SettingFailures(e)
            <==> || (exists l :: l in e.leases && f == LeaseHash(l.leaseId) && !IsTruthy(l.contextHash))
                 || (e.txns != [] && f.EventChain? && StopsAt(e.eventChain, f.matched))
                 || (f == ForbiddenField && exists i :: 0 <= i < |e.forbiddenCounts| && e.forbiddenCounts[i] != 0)
                 || (f == Verdict && exists i :: 0 <= i < |e.verdicts| && !e.verdicts[i])
  {
    ChainReports(e, f);
    InEach(LeaseFailures, e.leases, f);
    InEach(CountFailures, e.forbiddenCounts, f);
    InEach(VerdictFailures, e.verdicts, f);
    hide Each, IsTruthy, StopsAt, ChainFailures;
    if l :| l in e.leases && f == LeaseHash(l.leaseId) && !IsTruthy(l.contextHash) {
      var i :| 0 <= i < |e.leases| && e.leases[i] == l;
    }
  }

  lemma ScopeReports(scope: Option<Scope>, f: Failure)
    ensures f in ScopeFailures(scope) <==> ScopeSays(scope, f)
  {
  }

  /** Every failure in the report says what is wrong, and everything that is wrong is in the report. */
  lemma ReportedIff(e: Evidence, f: Failure)
    ensures f in FailuresOf(e) <==> Says(e, f)
  {
    hide TaskFailures, TxnCheck, Each, SettingFailures, ScopeFailures, ScopeSays, ArtifactSays, TxnSays, StopsAt,
         IsTruthy;
    TasksReport(e, f);
    TxnsReport(e, f);
    SettingReports(e, f);
    ScopeReports(e.scope, f);
  }

  // ---------- Relations between transactions ----------

  /** Evidence that passes never puts a completed and a declined transaction on one request or one recorded grant. */
  lemma OutcomesShareNothing(e: Evidence, done: Txn, declined: Txn)
    requires FailuresOf(e) == []
    requires done in e.txns && declined in e.txns
    requires done.state == "COMPLETED" && declined.state == "DECLINED"
    ensures done.approvalId != declined.approvalId
    ensures done.grantId != declined.grantId
  {
    PassIffSound(e);
    assert TxnSound(e, done) && TxnSound(e, declined);
    ApprovalOfIsLast(e.approvals, done.approvalId);
    GrantOfIsLast(e.grants, done.grantId);
    hide FailuresOf, Sound, Approves, Grants, WasReceived, ApprovalOf, GrantOf;
  }

  /** Completed transactions that share a grant share its request; those that share a receipt share its action. */
  lemma SharedRecordsAgree(e: Evidence, a: Txn, b: Txn)
    requires FailuresOf(e) == []
    requires a in e.txns && b in e.txns && a.state == b.state == "COMPLETED"
    ensures a.grantId == b.grantId ==> a.approvalId == b.approvalId
    ensures a.receiptId == b.receiptId ==> a.actionId == b.actionId
  {
    PassIffSound(e);
    assert TxnSound(e, a) && TxnSound(e, b);
    GrantOfIsLast(e.grants, a.grantId);
    ReceiptOfIsFirst(e.receipts, a.receiptId);
    hide FailuresOf, Sound, WasApproved, Grants, Receives, GrantOf, ReceiptOf;
  }

  lemma TxnSoundReadsRecords(e: Evidence, f: Evidence, t: Txn)
    requires e.approvals == f.approvals && e.grants == f.grants && e.receipts == f.receipts
    ensures TxnSound(e, t) <==> TxnSound(f, t)
  {
    hide Approves, Grants, Receives, HashesAgree, HonestReceipt;
  }

  lemma TxnSoundIgnoresId(e: Evidence, t: Txn, id: string)
    ensures TxnSound(e, t.(txnId := id)) <==> TxnSound(e, t)
  {
    hide Approves, Grants, Receives;
  }

  /** An admission journey of one approved, granted and completed action. */
  function OneAction(txns: seq<Txn>): Evidence {
    Evidence(true, "rosclaw.journey_evidence.v2", txns,
             [Approval("request", "APPROVED", "hash")], [Grant("grant", "request", Num(1.0), Num(0.0))],
             [Receipt("receipt", "action", "COMPLETED", "SIMULATED", "simulation", false)],
             [], EXPECTED_EVENTS, 0, [], [], [],
             Some(Scope(false, "release_tarball", "generated_no_server_fixtures", "sha256:" + seq(64, _ => '0'))))
  }

  function TheAction(id: string): Txn {
    Txn(id, "request", "grant", "action", "receipt", "COMPLETED", Some("hash"))
  }

  /** Two completed transactions on one grant pass. */
  lemma SharedGrantPasses()
    ensures FailuresOf(OneAction([TheAction("first"), TheAction("second")])) == []
  {
    hide FailuresOf, TxnSound, Embeds;
    var e := OneAction([TheAction("first")]);
    var t := TheAction("first");
    OneActionSound(t);
    ChainEmbeds();
    PassIffSound(e);
    RepeatedTxnPasses(e, t, "second");
    assert e.(txns := e.txns + [t.(txnId := "second")]) == OneAction([TheAction("first"), TheAction("second")]);
  }

  lemma ChainEmbeds()
    ensures Embeds(EXPECTED_EVENTS, EXPECTED_EVENTS)
  {
    assert EmbedsAt(EXPECTED_EVENTS, EXPECTED_EVENTS, [0, 1, 2, 3]);
  }

  lemma OneActionSound(t: Txn)
    requires t == TheAction("first")
    ensures TxnSound(OneAction([t]), t)
  {
    var e := OneAction([t]);
    assert Approves(e.approvals, "request", e.approvals[0]);
    assert Grants(e.grants, "grant", e.grants[0]);
    assert Receives(e.receipts, "receipt", e.receipts[0]);
  }

  /** Nothing ties a consumed grant to one transaction: repeating a transaction under a new id changes no verdict. */
  lemma RepeatedTxnPasses(e: Evidence, t: Txn, id: string)
    requires t in e.txns && id != ""
    ensures FailuresOf(e.(txns := e.txns + [t.(txnId := id)])) == [] <==> FailuresOf(e) == []
  {
    hide FailuresOf, TxnSound, Embeds, ScopeSound, IsTruthy, TaskJourneySound;
    var copy := t.(txnId := id);
    var more := e.(txns := e.txns + [copy]);
    PassIffSound(e);
    PassIffSound(more);
    TxnSoundIgnoresId(e, t, id);
    forall x ensures TxnSound(more, x) <==> TxnSound(e, x) {
      TxnSoundReadsRecords(e, more, x);
    }
    assert forall x :: x in more.txns <==> x in e.txns || x == copy;
  }

  // ---------- The verifier as it runs ----------

  lemma {:induction false} EachSnoc<T>(check: T -> seq<Failure>, xs: seq<T>, x: T)
    ensures Each(check, xs + [x]) == Each(check, xs) + check(x)
  {
    if xs == [] {
      assert [] + [x] == [x] && [x][1..] == [];
    } else {
      EachSnoc(check, xs[1..], x);
      assert (xs + [x])[1..] == xs[1..] + [x];
    }
  }

  lemma EachNext<T>(check: T -> seq<Failure>, xs: seq<T>, i: nat)
    requires i < |xs|
    ensures Each(check, xs[..i + 1]) == Each(check, xs[..i]) + check(xs[i])
  {
    EachSnoc(check, xs[..i], xs[i]);
    assert xs[..i + 1] == xs[..i] + [xs[i]];
  }

  method CheckDeclined(e: Evidence, t: Txn) returns (found: seq<Failure>)
    ensures found == DeclinedFailures(e, t)
  {
    found := [];
    var approval := ApprovalOf(e.approvals, t.approvalId);
    if approval.None? || approval.value.status != "DENIED" {
      found := found + [DeclinedApproval(t.txnId)];
    }
    var grant := GrantOf(e.grants, t.grantId);
    if grant.Some? && IsTruthy(grant.value.consumed) {
      found := found + [DeclinedGrantConsumed(t.txnId)];
    }
  }

  method CheckApproval(e: Evidence, t: Txn) returns (found: seq<Failure>)
    ensures found == ApprovalFailures(e, t)
  {
    found := [];
    var approval := ApprovalOf(e.approvals, t.approvalId);
    if approval.None? {
      found := found + [ApprovalMissing(t.txnId)];
    } else {
      if approval.value.status != "APPROVED" {
        found := found + [ApprovalStatus(t.txnId)];
      }
      if !HashesAgree(t, approval.value) {
        found := found + [DisplayHash(t.txnId)];
      }
    }
  }

  method CheckGrant(e: Evidence, t: Txn) returns (found: seq<Failure>)
    ensures found == GrantFailures(e, t)
  {
    found := [];
    var grant := GrantOf(e.grants, t.grantId);
    if grant.None? {
      found := found + [GrantMissing(t.txnId)];
    } else {
      if grant.value.requestId != t.approvalId {
        found := found + [GrantBinding(t.txnId)];
      }
      if !EqualsOne(grant.value.consumed) || !EqualsZero(grant.value.revoked) {
        found := found + [GrantUse(t.txnId)];
      }
    }
  }

  method CheckMatchedReceipt(t: Txn, r: Receipt) returns (found: seq<Failure>)
    ensures found == MatchedReceiptFailures(t, r)
  {
    found := Unless(r.actionId == t.actionId, ReceiptAction(t.txnId));
    found := found + Unless(r.finalState == "COMPLETED", ReceiptState(t.txnId));
    found := found + Unless(r.trustLevel == "SIMULATED", ReceiptTrust(t.txnId));
    found := found + Unless(r.evidenceDomain == "simulation", ReceiptDomain(t.txnId));
    found := found + Unless(!r.usableForReal, ReceiptUsable(t.txnId));
  }

  method CheckReceipt(e: Evidence, t: Txn) returns (found: seq<Failure>)
    ensures found == ReceiptFailures(e, t)
  {
    hide MatchedReceiptFailures, ReceiptOf;
    found := [];
    if t.receiptId == "" {
      found := found + [NoReceiptId(t.txnId)];
    }
    if t.receiptId == t.actionId {
      found := found + [ReceiptIsAction(t.txnId)];
    }
    var receipt := ReceiptOf(e.receipts, t.receiptId);
    if receipt.None? {
      found := found + [ReceiptMissing(t.txnId)];
    } else {
      var matched := CheckMatchedReceipt(t, receipt.value);
      found := found + matched;
    }
  }

  method CheckTxn(e: Evidence, t: Txn) returns (found: seq<Failure>)
    ensures found == TxnFailures(e, t)
  {
    hide DeclinedFailures, ApprovalFailures, GrantFailures, ReceiptFailures;
    if t.state == "DECLINED" {
      found := CheckDeclined(e, t);
      return;
    }
    var approval := CheckApproval(e, t);
    var grant := CheckGrant(e, t);
    var receipt := CheckReceipt(e, t);
    found := approval + grant + receipt;
    if t.state != "COMPLETED" {
      found := found + [TxnState(t.txnId)];
    }
  }

  method CheckTxns(e: Evidence) returns (found: seq<Failure>)
    ensures found == Each(TxnCheck(e), e.txns)
  {
    hide TxnFailures;
    found := [];
    for i := 0 to |e.txns|
      invariant found == Each(TxnCheck(e), e.txns[..i])
    {
      var more := CheckTxn(e, e.txns[i]);
      found := found + more;
      EachNext(TxnCheck(e), e.txns, i);
    }
    assert e.txns[..|e.txns|] == e.txns;
  }

  /** A loop over a list whose body makes one check of each entry. */
  method CheckEach<T>(check: T -> seq<Failure>, xs: seq<T>) returns (found: seq<Failure>)
    ensures found == Each(check, xs)
  {
    found := [];
    for i := 0 to |xs|
      invariant found == Each(check, xs[..i])
    {
      found := found + check(xs[i]);
      EachNext(check, xs, i);
    }
    assert xs[..|xs|] == xs;
  }

  /** The scan of the event chain. */
  method ScanChain(chain: seq<string>, expected: seq<string>) returns (cursor: nat)
    ensures cursor == Cursor(chain, expected, |chain|)
    ensures cursor == |expected| <==> Embeds(chain, expected)
  {
    cursor := 0;
    for i := 0 to |chain|
      invariant cursor == Cursor(chain, expected, i)
    {
      if cursor < |expected| && chain[i] == expected[cursor] {
        cursor := cursor + 1;
      }
    }
    CursorCompletesIff(chain, expected);
  }

  method CheckTasks(e: Evidence) returns (found: seq<Failure>)
    ensures found == TaskFailures(e)
  {
    hide ArtifactFailures, Each;
    found := [];
    if e.txns == [] {
      if e.kernelTasks == 0 {
        found := found + [NothingDone];
      }
      if e.kernelArtifacts == [] {
        found := found + [NoArtifacts];
      }
      var more := CheckEach(ArtifactFailures, e.kernelArtifacts);
      found := found + more;
    }
  }

  method CheckChain(e: Evidence) returns (found: seq<Failure>)
    ensures found == ChainFailures(e)
  {
    hide Cursor, Embeds;
    found := [];
    if e.txns != [] {
      var cursor := ScanChain(e.eventChain, EXPECTED_EVENTS);
      if cursor < |EXPECTED_EVENTS| {
        found := found + [EventChain(cursor)];
      }
    }
  }

  method CheckWork(e: Evidence) returns (found: seq<Failure>)
    ensures found == WorkFailures(e)
  {
    hide TaskFailures, Each;
    var tasks := CheckTasks(e);
    var txns := CheckTxns(e);
    found := tasks + txns;
  }

  method CheckSetting(e: Evidence) returns (found: seq<Failure>)
    ensures found == SettingFailures(e)
  {
    hide Each, LeaseFailures, ChainFailures, CountFailures, VerdictFailures;
    var leases := CheckEach(LeaseFailures, e.leases);
    var chain := CheckChain(e);
    var counts := CheckEach(CountFailures, e.forbiddenCounts);
    var verdicts := CheckEach(VerdictFailures, e.verdicts);
    found := leases + chain + counts + verdicts;
  }

  /** `verify`: the failures it reports, and that there are none exactly for sound evidence. */
  method Verify(e: Evidence) returns (failures: seq<Failure>)
    ensures failures == FailuresOf(e)
    ensures failures == [] <==> Sound(e)
  {
    hide WorkFailures, SettingFailures, ScopeFailures, Sound;
    PassIffSound(e);
    if !e.schemaOk {
      return [Schema];
    }
    failures := Unless(e.schemaVersion == "rosclaw.journey_evidence.v2", Version);
    var work := CheckWork(e);
    var setting := CheckSetting(e);
    failures := failures + work + setting + ScopeFailures(e.scope);
  }
}
