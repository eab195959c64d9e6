/** The benchmark's records and its validators (benchmarks/memory/generate_dataset_v3.py). */
module QueryBench {
  import opened Wrappers

  // ---------- Records ----------

  datatype Memory = Memory(
    id: string,
    memoryType: string,
    bodyId: Option<string>,
    gestureName: Option<string>,
    failureType: Option<string>,
    rootCause: Option<string>,
    docIsCjk: bool
  )

  /** A field that is present and not empty. */
  predicate Truthy(field: Option<string>) {
    field.Some? && field.value != ""
  }

  datatype Kind = CjkToCjk | CjkToEn | EnToCjk | Mixed | ErrorCode | SameSymptomDiffCause | HardNegativeBody
                | Unknown(name: string)

  /** A query without its text, which no validator reads; `id` stands for the number in "q_0000". */
  datatype Query = Query(id: nat, kind: Kind, labels: map<string, nat>, forbidden: seq<string>, source: string)

  function Expected(kind: Kind): nat {
    match kind
    case CjkToCjk => 60
    case CjkToEn => 45
    case EnToCjk => 45
    case Mixed => 45
    case ErrorCode => 45
    case SameSymptomDiffCause => 30
    case HardNegativeBody => 30
    case Unknown(_) => 0
  }

  // ---------- What a valid benchmark is ----------

  predicate UniqueIds(memories: seq<Memory>) {
    forall i, j :: 0 <= i < j < |memories| ==> memories[i].id != memories[j].id
  }

  /** The memory of an id, the last one if there are several. */
  function ById(memories: seq<Memory>): (byId: map<string, Memory>)
    ensures forall id :: id in byId ==> byId[id] in memories && byId[id].id == id
    ensures forall m :: m in memories ==> m.id in byId
  {
    if memories == [] then map[]
    else ById(memories[..|memories| - 1])[memories[|memories| - 1].id := memories[|memories| - 1]]
  }

  predicate UniqueQueryIds(queries: seq<Query>) {
    forall i, j :: 0 <= i < j < |queries| ==> queries[i].id != queries[j].id
  }

  /** One query is consistent with the corpus: its source is a labelled row, labels and forbidden rows are known and
      disjoint, and hard negatives come from another body than the source. */
  predicate ConsistentQuery(byId: map<string, Memory>, q: Query) {
    && q.source in byId && q.source in q.labels && q.labels[q.source] > 0
    && (forall id :: id in q.labels ==> id in byId)
    && (forall id :: id in q.forbidden ==> id in byId && id !in q.labels)
    && (q.kind == HardNegativeBody ==>
          forall id :: id in q.forbidden && id in byId ==> byId[id].bodyId != byId[q.source].bodyId)
  }

  predicate Consistent(memories: seq<Memory>, queries: seq<Query>) {
    && UniqueIds(memories)
    && UniqueQueryIds(queries)
    && forall q :: q in queries ==> ConsistentQuery(ById(memories), q)
  }

  function CountKind(queries: seq<Query>, kind: Kind): nat {
    if queries == [] then 0
    else CountKind(queries[..|queries| - 1], kind) + (if queries[|queries| - 1].kind == kind then 1 else 0)
  }

  ghost predicate Shaped(queries: seq<Query>) {
    forall kind :: CountKind(queries, kind) == Expected(kind)
  }

  // ---------- The validators ----------

  datatype Issue = DuplicateMemoryIds | DuplicateQueryIds | BadSource(query: nat) | UnknownLabels(query: nat)
                 | UnknownForbidden(query: nat) | Overlap(query: nat) | SameBody(query: nat)

  predicate NoRepeats<T(==)>(xs: seq<T>) {
    forall i, j :: 0 <= i < j < |xs| ==> xs[i] != xs[j]
  }

  function Members<T>(xs: seq<T>): set<T> {
    set x | x in xs
  }

  lemma NoRepeatsSnoc<T>(xs: seq<T>, x: T)
    ensures NoRepeats(xs + [x]) <==> NoRepeats(xs) && x !in xs
  {
    var longer := xs + [x];
    assert longer[|xs|] == x;
    assert forall i :: 0 <= i < |xs| ==> longer[i] == xs[i];
  }

  /** A list has as many members as entries exactly when it has no repeats. */
  lemma {:induction false} NoRepeatsIffSize<T>(xs: seq<T>)
    ensures |Members(xs)| <= |xs|
    ensures |Members(xs)| == |xs| <==> NoRepeats(xs)
  {
    if xs == [] {
      assert Members(xs) == {};
    } else {
      var init, last := xs[..|xs| - 1], xs[|xs| - 1];
      assert xs == init + [last];
      NoRepeatsIffSize(init);
      NoRepeatsSnoc(init, last);
      assert Members(xs) == Members(init) + {last};
    }
  }

  function IdsOf(rows: seq<Memory>): (ids: seq<string>)
    ensures |ids| == |rows|
    ensures forall i :: 0 <= i < |rows| ==> ids[i] == rows[i].id
    ensures forall id :: id in ids <==> exists row :: row in rows && row.id == id
  {
    var ids := seq(|rows|, i requires 0 <= i < |rows| => rows[i].id);
    assert forall id :: id in ids ==> exists i :: 0 <= i < |ids| && ids[i] == id && rows[i] in rows;
    assert forall row :: row in rows ==> exists i :: 0 <= i < |rows| && rows[i] == row && ids[i] == row.id;
    ids
  }

  function QueryIds(queries: seq<Query>): (ids: seq<nat>)
    ensures |ids| == |queries|
    ensures forall i :: 0 <= i < |queries| ==> ids[i] == queries[i].id
  {
    seq(|queries|, i requires 0 <= i < |queries| => queries[i].id)
  }

  lemma ByIdSize(memories: seq<Memory>)
    ensures |ById(memories)| == |memories| <==> UniqueIds(memories)
  {
    hide ById;
    var ids := IdsOf(memories);
    NoRepeatsIffSize(ids);
    forall id ensures id in ById(memories).Keys <==> id in Members(ids) {
      if id in Members(ids) {
        var i :| 0 <= i < |ids| && ids[i] == id;
        assert memories[i] in memories;
      }
      if id in ById(memories) {
        var i :| 0 <= i < |memories| && memories[i] == ById(memories)[id];
        assert ids[i] == id;
      }
    }
    assert ById(memories).Keys == Members(ids);
  }

  /** The checks on one query, in the order of the source. */
  method ValidateQuery(byId: map<string, Memory>, q: Query) returns (issue: Option<Issue>)
    ensures issue.None? <==> ConsistentQuery(byId, q)
  {
    if q.source !in byId || q.source !in q.labels || q.labels[q.source] <= 0 {
      return Some(BadSource(q.id));
    }
    if q.labels.Keys - byId.Keys != {} {
      assert exists id :: id in q.labels && id !in byId;
      return Some(UnknownLabels(q.id));
    }
    assert forall id :: id in q.labels ==> id in byId by {
      assert forall id :: id in q.labels && id !in byId ==> id in q.labels.Keys - byId.Keys;
    }
    var forbidden := set id | id in q.forbidden;
    if forbidden - byId.Keys != {} {
      var id :| id in forbidden - byId.Keys;
      return Some(UnknownForbidden(q.id));
    }
    assert forall id :: id in q.forbidden ==> id in byId by {
      assert forall id :: id in q.forbidden && id !in byId ==> id in forbidden - byId.Keys;
    }
    if forbidden * q.labels.Keys != {} {
      var id :| id in forbidden * q.labels.Keys;
      return Some(Overlap(q.id));
    }
    assert forall id :: id in q.forbidden ==> id !in q.labels by {
      assert forall id :: id in q.forbidden && id in q.labels ==> id in forbidden * q.labels.Keys;
    }
    if q.kind == HardNegativeBody {
      if exists id :: id in q.forbidden && byId[id].bodyId == byId[q.source].bodyId {
        return Some(SameBody(q.id));
      }
    }
    issue := None;
  }

  /** `validate_queries` accepts exactly the consistent benchmarks. */
  method ValidateQueries(memories: seq<Memory>, queries: seq<Query>) returns (issue: Option<Issue>)
    ensures issue.None? <==> Consistent(memories, queries)
  {
    hide ById, ConsistentQuery, Members;
    var byId := ById(memories);
    ByIdSize(memories);
    if |byId| != |memories| {
      return Some(DuplicateMemoryIds);
    }
    NoRepeatsIffSize(QueryIds(queries));
    if |Members(QueryIds(queries))| != |queries| {
      return Some(DuplicateQueryIds);
    }
    for i := 0 to |queries|
      invariant forall j :: 0 <= j < i ==> ConsistentQuery(byId, queries[j])
    {
      issue := ValidateQuery(byId, queries[i]);
      if issue.Some? {
        assert queries[i] in queries;
        return;
      }
    }
    issue := None;
  }

  const EXPECTED_KIND_COUNTS: map<Kind, nat> :=
    map[CjkToCjk := 60, CjkToEn := 45, EnToCjk := 45, Mixed := 45, ErrorCode := 45,
        SameSymptomDiffCause := 30, HardNegativeBody := 30]

  /** `validate_benchmark_shape` accepts exactly the declared lane distribution. */
  method ValidateBenchmarkShape(queries: seq<Query>) returns (ok: bool)
    ensures ok <==> Shaped(queries)
  {
    var counts: map<Kind, nat> := map[];
    for i := 0 to |queries|
      invariant forall kind :: kind in counts <==> CountKind(queries[..i], kind) > 0
      invariant forall kind :: kind in counts ==> counts[kind] == CountKind(queries[..i], kind)
    {
      var kind := queries[i].kind;
      assert queries[..i + 1][..i] == queries[..i];
      counts := counts[kind := (if kind in counts then counts[kind] else 0) + 1];
    }
    assert queries[..|queries|] == queries;
    ok := counts == EXPECTED_KIND_COUNTS;
    CountsDecide(queries, counts);
  }

  lemma CountsDecide(queries: seq<Query>, counts: map<Kind, nat>)
    requires forall kind :: kind in counts <==> CountKind(queries, kind) > 0
    requires forall kind :: kind in counts ==> counts[kind] == CountKind(queries, kind)
    ensures counts == EXPECTED_KIND_COUNTS <==> Shaped(queries)
  {
    assert forall kind :: kind in EXPECTED_KIND_COUNTS <==> Expected(kind) > 0;
    assert forall kind :: kind in EXPECTED_KIND_COUNTS ==> EXPECTED_KIND_COUNTS[kind] == Expected(kind);
    hide CountKind, Expected;
    if counts == EXPECTED_KIND_COUNTS {
      forall kind ensures CountKind(queries, kind) == Expected(kind) {
      }
    }
    if Shaped(queries) {
      assert counts.Keys == EXPECTED_KIND_COUNTS.Keys;
      forall kind | kind in counts ensures counts[kind] == EXPECTED_KIND_COUNTS[kind] {
      }
    }
  }
}
