/** When the promotion report depends on the order of its records (experiments/evo3/stats_analysis.py).

    The report pairs the sessions of two arms slot by slot, each arm sorted by session id. Sessions of one arm with the
    same id keep their input order, so the input decides which of them meets which session of the other arm.
 */
module PromotionOrder {
  import opened StableSort
  import opened Text
  import opened Wrappers
  import opened Promotion
  import Survival
  import McNemar

  predicate Failed(r: SessionRecord) {
    r.invalidCount > 0
  }

  /** The number of pairs. */
  function Paired(a: seq<SessionRecord>, b: seq<SessionRecord>): nat {
    if |a| <= |b| then |a| else |b|
  }

  // ---------- Discordant slots ----------

  function One(a: seq<SessionRecord>, b: seq<SessionRecord>, u: bool, i: nat): nat
    requires i < |a| && i < |b|
  {
    if Failed(a[i]) == u && Failed(b[i]) != u then 1 else 0
  }

  /** Of the first `n` slots those where the first arm has failed (if `u`, else not) and the second has the opposite. */
  function Slots(a: seq<SessionRecord>, b: seq<SessionRecord>, u: bool, n: nat): nat
    requires n <= |a| && n <= |b|
  {
    if n == 0 then 0 else Slots(a, b, u, n - 1) + One(a, b, u, n - 1)
  }

  lemma {:induction false} SlotsShift(a: seq<SessionRecord>, b: seq<SessionRecord>, u: bool, n: nat)
    requires 0 < n <= |a| && n <= |b|
    ensures Slots(a, b, u, n) == One(a, b, u, 0) + Slots(a[1..], b[1..], u, n - 1)
  {
    if n > 1 {
      SlotsShift(a, b, u, n - 1);
      assert One(a[1..], b[1..], u, n - 2) == One(a, b, u, n - 1);
    }
  }

  lemma {:induction false} SlotsSwapped(a: seq<SessionRecord>, b: seq<SessionRecord>, u: bool, n: nat)
    requires n <= |a| && n <= |b|
    ensures Slots(a, b, u, n) == Slots(b, a, !u, n)
  {
    if n > 0 {
      SlotsSwapped(a, b, u, n - 1);
    }
  }

  lemma {:induction false} DiscordantIsSlots(a: seq<SessionRecord>, b: seq<SessionRecord>)
    ensures Discordant(a, b) == Slots(a, b, true, Paired(a, b))
  {
    if a != [] && b != [] {
      DiscordantIsSlots(a[1..], b[1..]);
      SlotsShift(a, b, true, Paired(a, b));
    }
  }

  /** The two counts of the report. */
  lemma DiscordantCounts(a: seq<SessionRecord>, b: seq<SessionRecord>)
    ensures Discordant(a, b) == Slots(a, b, true, Paired(a, b))
    ensures Discordant(b, a) == Slots(a, b, false, Paired(a, b))
  {
    DiscordantIsSlots(a, b);
    DiscordantIsSlots(b, a);
    SlotsSwapped(b, a, true, Paired(a, b));
  }

  // ---------- Arrangements of an arm ----------

  /** The same sessions with the same id at every position: another order that the sort may leave. */
  ghost predicate Rearranged(a: seq<SessionRecord>, c: seq<SessionRecord>) {
    && |a| == |c| && multiset(a) == multiset(c)
    && forall i :: 0 <= i < |a| ==> a[i].sessionId == c[i].sessionId
  }

  function SessionIds(a: seq<SessionRecord>): (ids: seq<string>)
    ensures |ids| == |a|
    ensures forall i :: 0 <= i < |a| ==> ids[i] == a[i].sessionId
  {
    if a == [] then [] else [a[0].sessionId] + SessionIds(a[1..])
  }

  lemma IdsWithout(c: seq<SessionRecord>, i: nat)
    requires i < |c|
    ensures multiset(SessionIds(c)) == multiset{c[i].sessionId} + multiset(SessionIds(c[..i] + c[i + 1..]))
  {
    hide SessionIds;
    var ids, rest := SessionIds(c), c[..i] + c[i + 1..];
    MultisetWithout(ids, i);
    forall k | 0 <= k < |rest| ensures SessionIds(rest)[k] == (ids[..i] + ids[i + 1..])[k] {
      assert rest[k] == if k < i then c[k] else c[k + 1];
    }
    assert SessionIds(rest) == ids[..i] + ids[i + 1..];
  }

  /** An arm without one of its sessions. */
  lemma Without(c: seq<SessionRecord>, x: SessionRecord) returns (rest: seq<SessionRecord>)
    requires x in c
    ensures |rest| == |c| - 1
    ensures multiset(c) == multiset{x} + multiset(rest)
    ensures multiset(SessionIds(c)) == multiset{x.sessionId} + multiset(SessionIds(rest))
  {
    hide SessionIds;
    var i :| 0 <= i < |c| && c[i] == x;
    MultisetWithout(c, i);
    IdsWithout(c, i);
    rest := c[..i] + c[i + 1..];
  }

  lemma OnlyEmpty<T>(c: seq<T>)
    requires multiset(c) == multiset([])
    ensures c == []
  {
    assert |multiset(c)| == |c|;
  }

  lemma LikeRests<T>(a: multiset<T>, c: multiset<T>, front: multiset<T>, back: multiset<T>, x: T)
    requires a == multiset{x} + front && c == multiset{x} + back
    ensures a == c <==> front == back
  {
    assert front == a - multiset{x} && back == c - multiset{x};
  }

  lemma {:induction false} IdsPermute(a: seq<SessionRecord>, c: seq<SessionRecord>)
    requires multiset(a) == multiset(c)
    ensures multiset(SessionIds(a)) == multiset(SessionIds(c))
    decreases |a|
  {
    hide SessionIds;
    if a == [] {
      OnlyEmpty(c);
    } else {
      var x := a[0];
      assert x in multiset(c);
      var front := Without(a, x);
      var back := Without(c, x);
      LikeRests(multiset(a), multiset(c), multiset(front), multiset(back), x);
      IdsPermute(front, back);
    }
  }

  ghost predicate InOrder(a: seq<SessionRecord>) {
    Ordered(BySessionId, a)
  }

  /** Two orders that the sort may leave are rearrangements of each other. */
  lemma OrderedRearranged(a: seq<SessionRecord>, c: seq<SessionRecord>)
    requires InOrder(a) && InOrder(c) && multiset(a) == multiset(c)
    ensures Rearranged(a, c)
  {
    IdsPermute(a, c);
    assert |multiset(a)| == |a| && |multiset(c)| == |c|;
    forall x, y ensures LexLe(x, y) && LexLe(y, x) ==> x == y {
      LexLeTotal(x, y);
    }
    OrderedUnique(LexLe, SessionIds(a), SessionIds(c));
  }

  lemma RearrangedInOrder(a: seq<SessionRecord>, c: seq<SessionRecord>)
    requires InOrder(a) && Rearranged(a, c)
    ensures InOrder(c)
  {
  }

  // ---------- The condition ----------

  /** Sessions `i` and `j` of an arm share an id, and one of them has failed and the other has not. */
  predicate Mixed(a: seq<SessionRecord>, i: nat, j: nat) {
    i < |a| && j < |a| && a[i].sessionId == a[j].sessionId && Failed(a[i]) != Failed(a[j])
  }

  /** All sessions with the id of session `i` have failed, or none has. */
  predicate Settled(b: seq<SessionRecord>, i: nat)
    requires i < |b|
  {
    forall j: nat :: j < |b| ==> !Mixed(b, i, j)
  }

  /** Exchanging `i` with `j` changes no count: both are paired, and with sessions that agree however they are
      ordered. */
  predicate Exchangeable(b: seq<SessionRecord>, n: nat, i: nat, j: nat)
    requires i < n <= |b|
  {
    j < n && Settled(b, i) && Settled(b, j) && Failed(b[i]) == Failed(b[j])
  }

  /** No order of the sessions of the first arm changes a count. */
  ghost predicate Harmless(a: seq<SessionRecord>, b: seq<SessionRecord>) {
    forall i: nat, j: nat :: i < Paired(a, b) && Mixed(a, i, j) ==> Exchangeable(b, Paired(a, b), i, j)
  }

  // ---------- Harmless arms: the counts stay ----------

  /** Some paired session with this id belongs to a mixed pair. */
  ghost predicate MixedId(a: seq<SessionRecord>, n: nat, id: string) {
    exists i: nat, j: nat :: i < n && Mixed(a, i, j) && a[i].sessionId == id
  }

  /** Some paired session with this id meets one that has not the presence `u`. */
  ghost predicate Meets(a: seq<SessionRecord>, b: seq<SessionRecord>, u: bool, n: nat, id: string)
    requires n <= |a| && n <= |b|
  {
    exists i: nat :: i < n && a[i].sessionId == id && Failed(b[i]) != u
  }

  ghost function Counted(a: seq<SessionRecord>, b: seq<SessionRecord>, u: bool): SessionRecord -> bool {
    var n := Paired(a, b);
    r => Failed(r) == u && MixedId(a, n, r.sessionId) && Meets(a, b, u, n, r.sessionId)
  }

  lemma MixedIsPaired(a: seq<SessionRecord>, b: seq<SessionRecord>, k: nat)
    requires Harmless(a, b) && k < |a| && MixedId(a, Paired(a, b), a[k].sessionId)
    ensures k < Paired(a, b)
  {
    var n := Paired(a, b);
    var i: nat, j: nat :| i < n && Mixed(a, i, j) && a[i].sessionId == a[k].sessionId;
    assert Exchangeable(b, n, i, j);
    if Failed(a[k]) != Failed(a[i]) {
      assert Mixed(a, i, k);
      assert Exchangeable(b, n, i, k);
    } else {
      assert Mixed(a, j, k);
      assert Exchangeable(b, n, j, k);
    }
  }

  lemma MixedMeetsOneKind(a: seq<SessionRecord>, b: seq<SessionRecord>, k: nat, l: nat)
    requires Harmless(a, b) && k < Paired(a, b) && l < Paired(a, b) && a[k].sessionId == a[l].sessionId
    requires MixedId(a, Paired(a, b), a[k].sessionId)
    ensures Failed(b[k]) == Failed(b[l])
  {
    var n := Paired(a, b);
    var i: nat, j: nat :| i < n && Mixed(a, i, j) && a[i].sessionId == a[k].sessionId;
    assert Exchangeable(b, n, i, j);
    MeetsLike(a, b, i, j, k);
    MeetsLike(a, b, i, j, l);
  }

  lemma MeetsLike(a: seq<SessionRecord>, b: seq<SessionRecord>, i: nat, j: nat, k: nat)
    requires Harmless(a, b) && i < Paired(a, b) && j < Paired(a, b) && k < Paired(a, b)
    requires Mixed(a, i, j) && a[i].sessionId == a[k].sessionId
    ensures Failed(b[k]) == Failed(b[i])
  {
    assert Exchangeable(b, Paired(a, b), i, j);
    if Failed(a[k]) != Failed(a[i]) {
      assert Mixed(a, i, k);
      assert Exchangeable(b, Paired(a, b), i, k);
    } else {
      assert Mixed(a, j, k);
      assert Exchangeable(b, Paired(a, b), j, k);
    }
  }

  /** At one slot: what the rearrangement changes is what it changes in the count of `Counted`. */
  lemma SlotBalance(a: seq<SessionRecord>, b: seq<SessionRecord>, c: seq<SessionRecord>, u: bool, k: nat)
    requires Harmless(a, b) && Rearranged(a, c) && k < Paired(a, b)
    ensures One(c, b, u, k) + (if Counted(a, b, u)(a[k]) then 1 else 0)
            == One(a, b, u, k) + (if Counted(a, b, u)(c[k]) then 1 else 0)
  {
    var n, id := Paired(a, b), a[k].sessionId;
    if MixedId(a, n, id) {
      if Meets(a, b, u, n, id) {
        var i: nat :| i < n && a[i].sessionId == id && Failed(b[i]) != u;
        MixedMeetsOneKind(a, b, k, i);
      }
    } else {
      assert c[k] in multiset(a);
      var j: nat :| j < |a| && a[j] == c[k];
      assert !Mixed(a, k, j);
    }
  }

  lemma FilterNext<T(!new)>(p: T -> bool, xs: seq<T>, m: nat)
    requires m < |xs|
    ensures |Filter(p, xs[..m + 1])| == |Filter(p, xs[..m])| + if p(xs[m]) then 1 else 0
  {
    FilterSnoc(p, xs[..m], xs[m]);
    assert xs[..m + 1] == xs[..m] + [xs[m]];
  }

  lemma {:induction false} SlotsBalance(a: seq<SessionRecord>, b: seq<SessionRecord>, c: seq<SessionRecord>, u: bool,
                                        m: nat)
    requires Harmless(a, b) && Rearranged(a, c) && m <= Paired(a, b)
    ensures Slots(c, b, u, m) + |Filter(Counted(a, b, u), a[..m])|
            == Slots(a, b, u, m) + |Filter(Counted(a, b, u), c[..m])|
  {
    hide Harmless, Counted, One;
    if m > 0 {
      hide Filter;
      SlotsBalance(a, b, c, u, m - 1);
      SlotBalance(a, b, c, u, m - 1);
      FilterNext(Counted(a, b, u), a, m - 1);
      FilterNext(Counted(a, b, u), c, m - 1);
    }
  }

  lemma FilterFront<T(!new)>(p: T -> bool, xs: seq<T>, n: nat)
    requires n <= |xs| && forall i :: n <= i < |xs| ==> !p(xs[i])
    ensures Filter(p, xs[..n]) == Filter(p, xs)
  {
    hide Filter;
    FilterConcat(p, xs[..n], xs[n..]);
    assert xs == xs[..n] + xs[n..];
    FilterNothing(p, xs[n..]);
  }

  /** No order of the first arm changes a count. */
  lemma HarmlessKeeps(a: seq<SessionRecord>, b: seq<SessionRecord>, c: seq<SessionRecord>, u: bool)
    requires Harmless(a, b) && Rearranged(a, c)
    ensures Slots(c, b, u, Paired(a, b)) == Slots(a, b, u, Paired(a, b))
  {
    var n, p := Paired(a, b), Counted(a, b, u);
    SlotsBalance(a, b, c, u, n);
    forall k | n <= k < |a| ensures !p(a[k]) && !p(c[k]) {
      if MixedId(a, n, a[k].sessionId) {
        MixedIsPaired(a, b, k);
      }
    }
    hide Counted, Harmless, Slots;
    FilterFront(p, a, n);
    FilterFront(p, c, n);
    FilterPermutes(p, a, c);
  }

  /** Rearranging the second arm keeps the first arm harmless, if the second is harmless too. */
  lemma HarmlessAfter(a: seq<SessionRecord>, b: seq<SessionRecord>, c: seq<SessionRecord>)
    requires Harmless(a, b) && Harmless(b, a) && Rearranged(a, c)
    ensures Harmless(b, c)
  {
    var n := Paired(a, b);
    forall i: nat, j: nat | i < n && Mixed(b, i, j) ensures Exchangeable(c, n, i, j) {
      assert Exchangeable(a, n, i, j);
      SettledAfter(a, c, i);
      SettledAfter(a, c, j);
    }
  }

  lemma SettledAfter(a: seq<SessionRecord>, c: seq<SessionRecord>, i: nat)
    requires Rearranged(a, c) && i < |a| && Settled(a, i)
    ensures Settled(c, i) && Failed(c[i]) == Failed(a[i])
  {
    forall j: nat | j < |a| ensures c[j].sessionId == a[i].sessionId ==> Failed(c[j]) == Failed(a[i]) {
      assert c[j] in multiset(a);
      var k: nat :| k < |a| && a[k] == c[j];
      assert !Mixed(a, i, k);
    }
  }

  lemma HarmlessBothKeep(a: seq<SessionRecord>, b: seq<SessionRecord>, c: seq<SessionRecord>, d: seq<SessionRecord>,
                         u: bool)
    requires Harmless(a, b) && Harmless(b, a) && Rearranged(a, c) && Rearranged(b, d)
    ensures Slots(c, d, u, Paired(a, b)) == Slots(a, b, u, Paired(a, b))
  {
    hide Harmless, Slots;
    var n := Paired(a, b);
    HarmlessKeeps(a, b, c, u);
    HarmlessAfter(a, b, c);
    HarmlessKeeps(b, c, d, !u);
    SlotsSwapped(c, b, u, n);
    SlotsSwapped(c, d, u, n);
  }

  // ---------- Harmful arms: some order changes a count ----------

  function Exchanged(a: seq<SessionRecord>, i: nat, j: nat): (c: seq<SessionRecord>)
    requires i < |a| && j < |a|
    ensures |c| == |a|
  {
    a[i := a[j]][j := a[i]]
  }

  lemma ExchangedRearranges(a: seq<SessionRecord>, i: nat, j: nat)
    requires Mixed(a, i, j)
    ensures Rearranged(a, Exchanged(a, i, j))
    ensures Exchanged(a, i, j)[i] == a[j] && Exchanged(a, i, j)[j] == a[i]
    ensures forall k :: 0 <= k < |a| && k != i && k != j ==> Exchanged(a, i, j)[k] == a[k]
  {
  }

  /** How an exchange changes the count, slot by slot. */
  lemma {:induction false} ExchangeChanges(a: seq<SessionRecord>, b: seq<SessionRecord>, i: nat, j: nat, u: bool,
                                           m: nat)
    requires Mixed(a, i, j) && m <= |a| && m <= |b|
    ensures var c := Exchanged(a, i, j);
            Slots(c, b, u, m) + (if i < m then One(a, b, u, i) else 0) + (if j < m then One(a, b, u, j) else 0)
            == Slots(a, b, u, m) + (if i < m then One(c, b, u, i) else 0) + (if j < m then One(c, b, u, j) else 0)
  {
    if m > 0 {
      ExchangeChanges(a, b, i, j, u, m - 1);
    }
  }

  /** An exchange with an unpaired session, or of two sessions that meet different ones, changes a count. */
  lemma ExchangeMatters(a: seq<SessionRecord>, b: seq<SessionRecord>, i: nat, j: nat)
    requires Mixed(a, i, j) && i < Paired(a, b)
    requires j < Paired(a, b) ==> Failed(b[i]) != Failed(b[j])
    ensures exists u :: Slots(Exchanged(a, i, j), b, u, Paired(a, b)) != Slots(a, b, u, Paired(a, b))
  {
    var u := !Failed(b[i]);
    ExchangedRearranges(a, i, j);
    ExchangeChanges(a, b, i, j, u, Paired(a, b));
    assert One(a, b, u, i) != One(Exchanged(a, i, j), b, u, i);
    hide Slots;
    assert Slots(Exchanged(a, i, j), b, u, Paired(a, b)) != Slots(a, b, u, Paired(a, b));
  }

  /** Orders of both arms that change a count. */
  ghost predicate Changes(a: seq<SessionRecord>, b: seq<SessionRecord>, c: seq<SessionRecord>, d: seq<SessionRecord>) {
    && Rearranged(a, c) && Rearranged(b, d)
    && exists u :: Slots(c, d, u, Paired(a, b)) != Slots(a, b, u, Paired(a, b))
  }

  lemma HarmfulChanges(a: seq<SessionRecord>, b: seq<SessionRecord>)
    returns (c: seq<SessionRecord>, d: seq<SessionRecord>)
    requires !Harmless(a, b)
    ensures Changes(a, b, c, d)
  {
    hide Slots;
    var n := Paired(a, b);
    var i: nat, j: nat :| i < n && Mixed(a, i, j) && !Exchangeable(b, n, i, j);
    c, d := Exchanged(a, i, j), b;
    ExchangedRearranges(a, i, j);
    if j >= n || Failed(b[i]) != Failed(b[j]) {
      ExchangeMatters(a, b, i, j);
    } else if k: nat :| k < |b| && Mixed(b, i, k) {
      c, d := UnsettledChanges(a, b, i, j, i, k);
    } else {
      var k: nat :| k < |b| && Mixed(b, j, k);
      c, d := UnsettledChanges(a, b, i, j, j, k);
    }
  }

  /** The sessions that `i` and `j` meet agree, but one of them could be replaced: then either replacing it changes a
      count, or exchanging `i` and `j` afterwards does. */
  lemma UnsettledChanges(a: seq<SessionRecord>, b: seq<SessionRecord>, i: nat, j: nat, l: nat, k: nat)
    returns (c: seq<SessionRecord>, d: seq<SessionRecord>)
    requires Mixed(a, i, j) && i < Paired(a, b) && j < Paired(a, b) && Failed(b[i]) == Failed(b[j])
    requires (l == i || l == j) && Mixed(b, l, k)
    ensures Changes(a, b, c, d)
  {
    hide Slots;
    c, d := a, Exchanged(b, l, k);
    ExchangedRearranges(b, l, k);
    ExchangedRearranges(a, i, j);
    if forall u :: Slots(a, d, u, Paired(a, b)) == Slots(a, b, u, Paired(a, b)) {
      assert Failed(d[i]) != Failed(d[j]);
      ExchangeMatters(a, d, i, j);
      c := Exchanged(a, i, j);
      var u :| Slots(c, d, u, Paired(a, d)) != Slots(a, d, u, Paired(a, d));
      assert Slots(c, d, u, Paired(a, b)) != Slots(a, b, u, Paired(a, b));
    }
  }

  // ---------- From arms to records ----------

  lemma {:induction false} SortedStays(a: seq<SessionRecord>)
    requires InOrder(a)
    ensures Sort(BySessionId, a) == a
  {
    if a != [] {
      SortedStays(a[1..]);
    }
  }

  function InNeither(armA: string, armB: string): SessionRecord -> bool {
    (r: SessionRecord) => r.arm != armA && r.arm != armB
  }

  lemma ArmInOrder(records: seq<SessionRecord>, arm: string)
    ensures InOrder(Arm(records, arm))
  {
    BySessionIdIsPreorder();
    SortOrdered(BySessionId, Filter(InArm(arm), records));
  }

  /** An arm is in ascending order of its session ids. */
  lemma ArmSorted(records: seq<SessionRecord>, arm: string, i: nat, j: nat)
    requires i < j < |Arm(records, arm)|
    ensures LexLe(Arm(records, arm)[i].sessionId, Arm(records, arm)[j].sessionId)
  {
    hide Arm;
    ArmInOrder(records, arm);
    assert BySessionId(Arm(records, arm)[i], Arm(records, arm)[j]);
  }

  lemma ArmHolds(records: seq<SessionRecord>, arm: string, r: SessionRecord)
    ensures multiset(Arm(records, arm))[r] == if r.arm == arm then multiset(records)[r] else 0
  {
    hide Sort, Filter;
    SortPermutes(BySessionId, Filter(InArm(arm), records));
    FilterMultiplicity(InArm(arm), records, r);
  }

  lemma ArmsOfPermuted(records: seq<SessionRecord>, other: seq<SessionRecord>, arm: string)
    requires multiset(records) == multiset(other)
    ensures Rearranged(Arm(records, arm), Arm(other, arm))
  {
    hide Arm, Rearranged, InOrder;
    ArmInOrder(records, arm);
    ArmInOrder(other, arm);
    var a, c := multiset(Arm(records, arm)), multiset(Arm(other, arm));
    forall r ensures a[r] == c[r] {
      ArmHolds(records, arm, r);
      ArmHolds(other, arm, r);
    }
    assert a == c;
    OrderedRearranged(Arm(records, arm), Arm(other, arm));
  }

  lemma MembersOfArm(records: seq<SessionRecord>, arm: string, c: seq<SessionRecord>)
    requires Rearranged(Arm(records, arm), c)
    ensures InOrder(c) && forall r :: r in c ==> r in records && r.arm == arm
  {
    hide Arm;
    ArmInOrder(records, arm);
    RearrangedInOrder(Arm(records, arm), c);
    hide InOrder;
    forall r | r in c ensures r in records && r.arm == arm {
      ArmHolds(records, arm, r);
      assert multiset(c)[r] > 0;
      assert multiset(records)[r] > 0;
    }
  }

  /** The records are those of the two arms and the others. */
  lemma Parts(records: seq<SessionRecord>, armA: string, armB: string, c: seq<SessionRecord>, d: seq<SessionRecord>,
              r: SessionRecord)
    requires armA != armB && Rearranged(Arm(records, armA), c) && Rearranged(Arm(records, armB), d)
    ensures multiset(c)[r] + multiset(d)[r] + multiset(Filter(InNeither(armA, armB), records))[r]
            == multiset(records)[r]
  {
    hide Arm, Filter;
    ArmHolds(records, armA, r);
    ArmHolds(records, armB, r);
    FilterMultiplicity(InNeither(armA, armB), records, r);
  }

  /** Records in which the arms come in given orders. */
  lemma Realised(records: seq<SessionRecord>, armA: string, armB: string, c: seq<SessionRecord>, d: seq<SessionRecord>)
    returns (other: seq<SessionRecord>)
    requires armA != armB && Rearranged(Arm(records, armA), c) && Rearranged(Arm(records, armB), d)
    ensures multiset(other) == multiset(records) && Arm(other, armA) == c && Arm(other, armB) == d
  {
    hide Arm, Filter, InOrder;
    var rest := Filter(InNeither(armA, armB), records);
    MembersOfArm(records, armA, c);
    MembersOfArm(records, armB, d);
    other := c + d + rest;
    OnePiece(armA, [], c, d + rest);
    OnePiece(armB, c, d, rest);
    assert [] + c + (d + rest) == other;
    forall r ensures multiset(other)[r] == multiset(records)[r] {
      Parts(records, armA, armB, c, d, r);
    }
    hide Rearranged;
    assert multiset(other) == multiset(records);
  }

  /** An arm that lies in one piece and in order is found as it lies. */
  lemma OnePiece(arm: string, before: seq<SessionRecord>, c: seq<SessionRecord>, after: seq<SessionRecord>)
    requires InOrder(c) && forall r :: r in c ==> r.arm == arm
    requires forall r :: r in before || r in after ==> r.arm != arm
    ensures Arm(before + c + after, arm) == c
  {
    hide Filter, Sort, InOrder;
    FilterConcat(InArm(arm), before + c, after);
    FilterConcat(InArm(arm), before, c);
    FilterAll(InArm(arm), c);
    FilterNothing(InArm(arm), before);
    FilterNothing(InArm(arm), after);
    assert [] + c + [] == c;
    SortedStays(c);
  }

  lemma {:induction false} FilterAll<T(!new)>(p: T -> bool, xs: seq<T>)
    requires forall x :: x in xs ==> p(x)
    ensures Filter(p, xs) == xs
  {
    if xs != [] {
      FilterAll(p, xs[1..]);
    }
  }

  lemma FilterNothing<T(!new)>(p: T -> bool, xs: seq<T>)
    requires forall x :: x in xs ==> !p(x)
    ensures Filter(p, xs) == []
  {
    assert Filter(p, xs) == [] || Filter(p, xs)[0] in Filter(p, xs);
  }

  // ---------- The report ----------

  /** Storing the records in another order does not change the report. */
  ghost predicate OrderFree(records: seq<SessionRecord>, armA: string, armB: string, horizon: int) {
    forall other :: multiset(other) == multiset(records) ==>
      ReportOf(other, armA, armB, horizon) == ReportOf(records, armA, armB, horizon)
  }

  lemma HarmlessReport(records: seq<SessionRecord>, other: seq<SessionRecord>, armA: string, armB: string, horizon: int)
    requires multiset(records) == multiset(other)
    requires Harmless(Arm(records, armA), Arm(records, armB)) && Harmless(Arm(records, armB), Arm(records, armA))
    ensures ReportOf(other, armA, armB, horizon) == ReportOf(records, armA, armB, horizon)
  {
    hide Harmless, Arm, Slots, Discordant, Survival.Rmst, McNemar.PExact;
    var a, b := Arm(records, armA), Arm(records, armB);
    var c, d := Arm(other, armA), Arm(other, armB);
    ArmsOfPermuted(records, other, armA);
    ArmsOfPermuted(records, other, armB);
    HarmlessBothKeep(a, b, c, d, true);
    HarmlessBothKeep(a, b, c, d, false);
    DiscordantCounts(a, b);
    DiscordantCounts(c, d);
    MeansIgnoreOrder(records, other, armA, armB, horizon);
  }

  /** Another order of the records that changes a discordant count. */
  lemma HarmfulReport(records: seq<SessionRecord>, armA: string, armB: string, horizon: int)
    returns (other: seq<SessionRecord>)
    requires armA != armB && !Harmless(Arm(records, armA), Arm(records, armB))
    ensures multiset(other) == multiset(records)
    ensures var r, s := ReportOf(records, armA, armB, horizon), ReportOf(other, armA, armB, horizon);
            r.Some? && s.Some? && (r.value.discordB != s.value.discordB || r.value.discordC != s.value.discordC)
  {
    hide Arm, Slots, Discordant, Survival.Rmst, McNemar.PExact;
    var a, b := Arm(records, armA), Arm(records, armB);
    var c, d := HarmfulChanges(a, b);
    other := Realised(records, armA, armB, c, d);
    DiscordantCounts(a, b);
    DiscordantCounts(c, d);
    var u :| Slots(c, d, u, Paired(a, b)) != Slots(a, b, u, Paired(a, b));
  }

  lemma {:induction false} NoneAgainstItself(a: seq<SessionRecord>)
    ensures Discordant(a, a) == 0
  {
    if a != [] {
      NoneAgainstItself(a[1..]);
    }
  }

  lemma OneArmReport(records: seq<SessionRecord>, other: seq<SessionRecord>, arm: string, horizon: int)
    requires multiset(records) == multiset(other)
    ensures ReportOf(other, arm, arm, horizon) == ReportOf(records, arm, arm, horizon)
  {
    hide Arm, Survival.Rmst, McNemar.PExact;
    NoneAgainstItself(Arm(records, arm));
    NoneAgainstItself(Arm(other, arm));
    MeansIgnoreOrder(records, other, arm, arm, horizon);
  }

  /** The exact condition: the report is the same for every order of the records if and only if, for two different arms,
      exchanging sessions of one arm that share an id changes no pair, in either direction. */
  lemma OrderFreeIff(records: seq<SessionRecord>, armA: string, armB: string, horizon: int)
    ensures OrderFree(records, armA, armB, horizon)
            <==> armA == armB || (Harmless(Arm(records, armA), Arm(records, armB))
                                  && Harmless(Arm(records, armB), Arm(records, armA)))
  {
    hide Harmless, Arm, ReportOf;
    if armA == armB {
      forall other | multiset(other) == multiset(records)
        ensures ReportOf(other, armA, armB, horizon) == ReportOf(records, armA, armB, horizon) {
        OneArmReport(records, other, armA, horizon);
      }
    } else if !Harmless(Arm(records, armA), Arm(records, armB)) {
      var other := HarmfulReport(records, armA, armB, horizon);
      assert ReportOf(other, armA, armB, horizon) != ReportOf(records, armA, armB, horizon);
    } else if !Harmless(Arm(records, armB), Arm(records, armA)) {
      var other := HarmfulReport(records, armB, armA, horizon);
      SwappedArms(records, armA, armB, horizon);
      SwappedArms(other, armA, armB, horizon);
      assert ReportOf(other, armA, armB, horizon) != ReportOf(records, armA, armB, horizon);
    } else {
      forall other | multiset(other) == multiset(records)
        ensures ReportOf(other, armA, armB, horizon) == ReportOf(records, armA, armB, horizon) {
        HarmlessReport(records, other, armA, armB, horizon);
      }
    }
  }

  /** Sessions of one arm that share an id have all failed, or none has. */
  ghost predicate UniqueOutcomes(records: seq<SessionRecord>) {
    forall x, y :: x in records && y in records && x.arm == y.arm && x.sessionId == y.sessionId ==>
      Failed(x) == Failed(y)
  }

  /** With ids that are unique in each arm, or shared only by sessions with the same outcome, the order never
      matters. */
  lemma ReportIgnoresOrder(records: seq<SessionRecord>, other: seq<SessionRecord>, armA: string, armB: string,
                           horizon: int)
    requires multiset(records) == multiset(other) && UniqueOutcomes(records)
    ensures ReportOf(records, armA, armB, horizon) == ReportOf(other, armA, armB, horizon)
  {
    UnmixedArm(records, armA);
    UnmixedArm(records, armB);
    hide Arm, ReportOf, Mixed;
    OrderFreeIff(records, armA, armB, horizon);
  }

  lemma UnmixedArm(records: seq<SessionRecord>, arm: string)
    requires UniqueOutcomes(records)
    ensures forall i: nat, j: nat :: !Mixed(Arm(records, arm), i, j)
  {
    hide Arm, InOrder;
    var a := Arm(records, arm);
    MembersOfArm(records, arm, a);
    assert forall i: nat :: i < |a| ==> a[i] in a;
  }

  /** An instance: the first arm repeats an id, once failing and once not, and the other arm's sessions differ. */
  lemma RepeatedIdMatters(horizon: int)
    ensures var a1, a2 := SessionRecord("s", "A", 1, None), SessionRecord("s", "A", 0, None);
            var b1, b2 := SessionRecord("s", "B", 1, None), SessionRecord("t", "B", 0, None);
            !OrderFree([a1, a2, b1, b2], "A", "B", horizon)
  {
    hide OrderFree;
    var a1, a2 := SessionRecord("s", "A", 1, None), SessionRecord("s", "A", 0, None);
    var b1, b2 := SessionRecord("s", "B", 1, None), SessionRecord("t", "B", 0, None);
    var records := [a1, a2, b1, b2];
    assert records == [] + [a1, a2] + [b1, b2] && records == [a1, a2] + [b1, b2] + [];
    OnePiece("A", [], [a1, a2], [b1, b2]);
    OnePiece("B", [a1, a2], [b1, b2], []);
    assert Mixed([a1, a2], 0, 1);
    assert !Exchangeable([b1, b2], 2, 0, 1);
    OrderFreeIff(records, "A", "B", horizon);
  }

  // ---------- What the counts of the report count ----------

  /** The slots, among the first `n`, whose session has failed in one arm and not in the other. */
  function FailedIn(a: seq<SessionRecord>, b: seq<SessionRecord>, n: nat): set<nat>
    requires n <= |a| && n <= |b|
  {
    set i: nat | i < n && a[i].invalidCount > 0 && b[i].invalidCount == 0
  }

  lemma FailedNext(a: seq<SessionRecord>, b: seq<SessionRecord>, n: nat)
    requires 0 < n <= |a| && n <= |b|
    ensures |FailedIn(a, b, n)| == |FailedIn(a, b, n - 1)| + One(a, b, true, n - 1)
  {
    if One(a, b, true, n - 1) == 1 {
      assert FailedIn(a, b, n) == FailedIn(a, b, n - 1) + {n - 1};
    } else {
      assert FailedIn(a, b, n) == FailedIn(a, b, n - 1);
    }
  }

  lemma {:induction false} SlotsCount(a: seq<SessionRecord>, b: seq<SessionRecord>, n: nat)
    requires n <= |a| && n <= |b|
    ensures Slots(a, b, true, n) == |FailedIn(a, b, n)|
  {
    if n == 0 {
      assert FailedIn(a, b, 0) == {};
    } else {
      SlotsCount(a, b, n - 1);
      FailedNext(a, b, n);
      hide FailedIn;
    }
  }

  /** The share of all ways that n discordant pairs could fall which are at least as lopsided as `b` against `c`. */
  function LopsidedShare(b: nat, c: nat): real {
    var outcomes := McNemar.Outcomes(b + c);
    if outcomes == [] then 0.0
    else McNemar.CountExtreme(outcomes, 0, b + c, McNemar.Gap(b, c)) as real / |outcomes| as real
  }

  /** What a report says: `discordB` counts the paired slots, in session order, where the session of the first arm has
      failed and that of the second has not, `discordC` those where it is the other way round, and the p-value is the
      share of outcomes for these two counts, or missing without a discordant pair. */
  lemma ReportCounts(records: seq<SessionRecord>, armA: string, armB: string, horizon: int)
    requires ReportOf(records, armA, armB, horizon).Some?
    ensures var a, b := Arm(records, armA), Arm(records, armB);
            var report := ReportOf(records, armA, armB, horizon).value;
            && report.discordB == |FailedIn(a, b, Paired(a, b))|
            && report.discordC == |FailedIn(b, a, Paired(a, b))|
            && report.pExact == if report.discordB + report.discordC == 0 then None
                                else Some(LopsidedShare(report.discordB, report.discordC))
  {
    hide Arm, Survival.Rmst, McNemar.PExact, McNemar.Outcomes, McNemar.CountExtreme, Slots, FailedIn, Discordant;
    var a, b := Arm(records, armA), Arm(records, armB);
    DiscordantIsSlots(a, b);
    DiscordantIsSlots(b, a);
    SlotsCount(a, b, Paired(a, b));
    SlotsCount(b, a, Paired(a, b));
    var discordB, discordC := Discordant(a, b), Discordant(b, a);
    McNemar.PIsProbability(discordB, discordC);
    if discordB + discordC > 0 {
      McNemar.PIsShareOfOutcomes(discordB, discordC);
    }
  }
}
