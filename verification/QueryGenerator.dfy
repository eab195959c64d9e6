/** `build_queries` of benchmarks/memory/generate_dataset_v3.py.

    `failures` is the list after the seeded shuffle, an arbitrary permutation of the corpus's failures, and
    `matches(p, m)` stands for the p-th error pattern's search in the title and document of m.
 */
module QueryGenerator {
  import opened Wrappers
  import opened StableSort
  import opened QueryBench

  // ---------- Selecting rows ----------

  datatype Hand = Left | Right

  predicate Contains(text: string, part: string) {
    part <= text || (text != [] && Contains(text[1..], part))
  }

  function HandOf(m: Memory): Option<Hand> {
    var body := if m.bodyId.Some? then m.bodyId.value else "";
    if Contains(body, "left") then Some(Left)
    else if Contains(body, "right") then Some(Right)
    else None
  }

  predicate IsFailureRow(m: Memory) {
    m.memoryType == "failure"
  }

  predicate IsStructured(m: Memory) {
    HandOf(m).Some? && Truthy(m.gestureName) && Truthy(m.failureType)
  }

  predicate IsCjk(m: Memory) {
    m.docIsCjk
  }

  predicate IsEn(m: Memory) {
    !m.docIsCjk
  }

  function Structured(failures: seq<Memory>): seq<Memory> {
    Filter(IsStructured, failures)
  }

  // ---------- Labels ----------

  datatype Fields = BodyGestureFailure | BodyFailureCause

  /** The row has all the fields that labels are made of. */
  predicate HasFields(m: Memory, fields: Fields) {
    && Truthy(m.bodyId) && Truthy(m.failureType)
    && match fields
       case BodyGestureFailure => Truthy(m.gestureName)
       case BodyFailureCause => Truthy(m.rootCause)
  }

  predicate SameFields(m: Memory, other: Memory, fields: Fields) {
    && m.bodyId == other.bodyId && m.failureType == other.failureType
    && match fields
       case BodyGestureFailure => m.gestureName == other.gestureName
       case BodyFailureCause => m.rootCause == other.rootCause
  }

  /** The labels of a query about `m` when `rows` are the relevant ones. */
  function LabelsFrom(m: Memory, rows: seq<Memory>): map<string, nat> {
    if rows == [] then map[]
    else
      var init, last := rows[..|rows| - 1], rows[|rows| - 1];
      LabelsFrom(m, init)[last.id := if last.id == m.id then 3 else 2]
  }

  /** Exactly the relevant rows are labelled: 3 for the source itself, 2 for the others. */
  lemma {:induction false} LabelsMean(m: Memory, rows: seq<Memory>, id: string)
    ensures id in LabelsFrom(m, rows) <==> exists row :: row in rows && row.id == id
    ensures id in LabelsFrom(m, rows) ==> LabelsFrom(m, rows)[id] == if id == m.id then 3 else 2
  {
    if rows != [] {
      var init, last := rows[..|rows| - 1], rows[|rows| - 1];
      assert rows == init + [last];
      LabelsMean(m, init, id);
    }
  }

  lemma LabelsSnoc(m: Memory, rows: seq<Memory>, last: Memory)
    ensures LabelsFrom(m, rows + [last]) == LabelsFrom(m, rows)[last.id := if last.id == m.id then 3 else 2]
  {
    assert (rows + [last])[..|rows|] == rows;
  }

  /** The rows that agree with `m` on the label fields. */
  function Relevant(m: Memory, rows: seq<Memory>, fields: Fields): (relevant: seq<Memory>)
    ensures forall row :: row in relevant <==> row in rows && SameFields(m, row, fields)
  {
    Filter((other: Memory) => SameFields(m, other, fields), rows)
  }

  lemma RelevantSnoc(m: Memory, rows: seq<Memory>, row: Memory, fields: Fields)
    ensures Relevant(m, rows + [row], fields)
            == if SameFields(m, row, fields) then Relevant(m, rows, fields) + [row] else Relevant(m, rows, fields)
  {
    FilterSnoc((other: Memory) => SameFields(m, other, fields), rows, row);
  }

  /** `_label_for`; None stands for the error about a missing field. */
  function LabelFor(m: Memory, corpus: seq<Memory>, fields: Fields): Option<map<string, nat>> {
    if !HasFields(m, fields) then None
    else Some(LabelsFrom(m, Relevant(m, corpus, fields)))
  }

  method ComputeLabels(m: Memory, corpus: seq<Memory>, fields: Fields) returns (labels: Option<map<string, nat>>)
    ensures labels == LabelFor(m, corpus, fields)
  {
    assert LabelsFrom(m, Relevant(m, [], fields)) == map[];
    hide LabelsFrom, SameFields, HasFields, Relevant;
    if !HasFields(m, fields) {
      return None;
    }
    var found: map<string, nat> := map[];
    for i := 0 to |corpus|
      invariant found == LabelsFrom(m, Relevant(m, corpus[..i], fields))
    {
      assert corpus[..i + 1] == corpus[..i] + [corpus[i]];
      RelevantSnoc(m, corpus[..i], corpus[i], fields);
      if SameFields(m, corpus[i], fields) {
        LabelsSnoc(m, Relevant(m, corpus[..i], fields), corpus[i]);
        found := found[corpus[i].id := if corpus[i].id == m.id then 3 else 2];
      }
    }
    assert corpus[..|corpus|] == corpus;
    labels := Some(found);
  }

  // ---------- Adding queries ----------

  datatype Error = LaneShort(kind: Kind, found: nat)
                 | MissingFields(id: string)
                 | SourceNotRelevant(id: string)
                 | PatternUnmatched(pattern: nat)
                 | WrongTotal(total: nat)
                 | Rejected
                 | Misshapen

  /** A source row, its explicit labels if the lane gives them, and its forbidden rows. */
  datatype Source = Source(memory: Memory, labels: Option<map<string, nat>>, forbidden: seq<string>)

  function Plain(rows: seq<Memory>): (sources: seq<Source>)
    ensures |sources| == |rows|
    ensures forall i :: 0 <= i < |rows| ==> sources[i] == Source(rows[i], None, [])
  {
    seq(|rows|, i requires 0 <= i < |rows| => Source(rows[i], None, []))
  }

  /** The query that `add` appends when `count` queries are there already. */
  function MakeQuery(corpus: seq<Memory>, count: nat, kind: Kind, source: Source, fields: Fields)
    : Result<Query, Error>
  {
    var labels := if source.labels.Some? then source.labels else LabelFor(source.memory, corpus, fields);
    if labels.None? then Err(MissingFields(source.memory.id))
    else if source.memory.id !in labels.value then Err(SourceNotRelevant(source.memory.id))
    else Ok(Query(count, kind, labels.value, source.forbidden, source.memory.id))
  }

  function AddAll(corpus: seq<Memory>, queries: seq<Query>, kind: Kind, sources: seq<Source>, fields: Fields)
    : Result<seq<Query>, Error>
    decreases |sources|
  {
    if sources == [] then Ok(queries)
    else
      var q :- MakeQuery(corpus, |queries|, kind, sources[0], fields);
      AddAll(corpus, queries + [q], kind, sources[1..], fields)
  }

  /** `require`, then `add` for each of the first rows. */
  function AddLane(corpus: seq<Memory>, queries: seq<Query>, kind: Kind, sources: seq<Source>, fields: Fields)
    : Result<seq<Query>, Error>
  {
    if |sources| < Expected(kind) then Err(LaneShort(kind, |sources|))
    else AddAll(corpus, queries, kind, sources[..Expected(kind)], fields)
  }

  // ---------- The lanes' sources ----------

  function From(rows: seq<Memory>, start: nat): seq<Memory> {
    if start <= |rows| then rows[start..] else []
  }

  const PATTERNS: nat := 5

  /** The rows that an error pattern finds. */
  function Found(failures: seq<Memory>, matches: (nat, Memory) -> bool, pattern: nat): seq<Memory> {
    Filter((m: Memory) => matches(pattern, m), failures)
  }

  /** The source of the i-th error query. */
  function ErrorSource(failures: seq<Memory>, matches: (nat, Memory) -> bool, i: nat): Result<Source, Error> {
    var found := Found(failures, matches, i % PATTERNS);
    if found == [] then Err(PatternUnmatched(i % PATTERNS))
    else
      var m := found[(i / PATTERNS) % |found|];
      Ok(Source(m, Some(LabelsFrom(m, found)), []))
  }

  /** The error lane from the i-th query on. */
  function AddErrors(corpus: seq<Memory>, queries: seq<Query>, failures: seq<Memory>,
                     matches: (nat, Memory) -> bool, i: nat): Result<seq<Query>, Error>
    requires i <= Expected(ErrorCode)
    decreases Expected(ErrorCode) - i
  {
    if i == Expected(ErrorCode) then Ok(queries)
    else
      var source :- ErrorSource(failures, matches, i);
      var q :- MakeQuery(corpus, |queries|, ErrorCode, source, BodyGestureFailure);
      AddErrors(corpus, queries + [q], failures, matches, i + 1)
  }

  predicate HasCause(m: Memory) {
    Truthy(m.rootCause)
  }

  /** Same symptom on the same body, with another root cause. */
  predicate Confounds(m: Memory, other: Memory) {
    m.bodyId == other.bodyId && m.failureType == other.failureType && m.rootCause != other.rootCause
  }

  predicate HasConfounder(rows: seq<Memory>, m: Memory) {
    exists other :: other in rows && Confounds(m, other)
  }

  function WithCause(failures: seq<Memory>): seq<Memory> {
    Filter(HasCause, Structured(failures))
  }

  /** The rows that have a confounder among the rows with a cause. */
  function Causal(failures: seq<Memory>): seq<Memory> {
    var rows := WithCause(failures);
    Filter((m: Memory) => HasConfounder(rows, m), rows)
  }

  /** The rows of a list that confound `m`. */
  function Confounders(m: Memory, rows: seq<Memory>): (confounders: seq<Memory>)
    ensures forall row :: row in confounders <==> row in rows && Confounds(m, row)
  {
    Filter((other: Memory) => Confounds(m, other), rows)
  }

  function CausalSources(causal: seq<Memory>): (sources: seq<Source>)
    ensures |sources| == |causal|
    ensures forall i :: 0 <= i < |causal| ==>
              sources[i] == Source(causal[i], None, IdsOf(Confounders(causal[i], causal)))
  {
    seq(|causal|, i requires 0 <= i < |causal| =>
      Source(causal[i], None, IdsOf(Confounders(causal[i], causal))))
  }

  function OtherBody(m: Memory): string {
    if HandOf(m) == Some(Left) then "rh56_right_01" else "rh56_left_01"
  }

  /** The same gesture and failure on the body of the other hand. */
  predicate Opposite(m: Memory, other: Memory) {
    other.bodyId == Some(OtherBody(m)) && other.gestureName == m.gestureName && other.failureType == m.failureType
  }

  function AllOpposites(m: Memory, structured: seq<Memory>): (opposites: seq<Memory>)
    ensures forall row :: row in opposites <==> row in structured && Opposite(m, row)
  {
    Filter((other: Memory) => Opposite(m, other), structured)
  }

  /** Up to five forbidden rows of a hard-negative query. */
  function Opposites(m: Memory, structured: seq<Memory>): (opposites: seq<Memory>)
    ensures opposites <= AllOpposites(m, structured) && |opposites| <= 5
    ensures opposites == [] <==> AllOpposites(m, structured) == []
  {
    var rows := AllOpposites(m, structured);
    if |rows| <= 5 then rows else rows[..5]
  }

  predicate HasOpposite(rows: seq<Memory>, m: Memory) {
    exists other :: other in rows && Opposite(m, other)
  }

  /** A row as a hard-negative source, if it has forbidden rows at all. */
  function HardSourceOf(m: Memory, structured: seq<Memory>): seq<Source> {
    var forbidden := Opposites(m, structured);
    if forbidden == [] then [] else [Source(m, None, IdsOf(forbidden))]
  }

  function HardNegatives(structured: seq<Memory>, rows: seq<Memory>): seq<Source> {
    if rows == [] then []
    else HardSourceOf(rows[0], structured) + HardNegatives(structured, rows[1..])
  }

  /** The seven lanes, in the order of the source. */
  function Lanes(corpus: seq<Memory>, failures: seq<Memory>, matches: (nat, Memory) -> bool)
    : Result<seq<Query>, Error>
  {
    var structured := Structured(failures);
    var cjk, en := Filter(IsCjk, structured), Filter(IsEn, structured);
    var q1 :- AddLane(corpus, [], CjkToCjk, Plain(cjk), BodyGestureFailure);
    var q2 :- AddLane(corpus, q1, CjkToEn, Plain(en), BodyGestureFailure);
    var q3 :- AddLane(corpus, q2, EnToCjk, Plain(From(cjk, 60)), BodyGestureFailure);
    var q4 :- AddLane(corpus, q3, Mixed, Plain(From(structured, 105)), BodyGestureFailure);
    var q5 :- AddErrors(corpus, q4, failures, matches, 0);
    var q6 :- AddLane(corpus, q5, SameSymptomDiffCause, CausalSources(Causal(failures)), BodyFailureCause);
    AddLane(corpus, q6, HardNegativeBody, HardNegatives(structured, structured), BodyGestureFailure)
  }

  /** `build_queries`: the lanes, then the two validators. */
  ghost function Build(corpus: seq<Memory>, failures: seq<Memory>, matches: (nat, Memory) -> bool)
    : Result<seq<Query>, Error>
  {
    var queries :- Lanes(corpus, failures, matches);
    if |queries| != 300 then Err(WrongTotal(|queries|))
    else if !Consistent(corpus, queries) then Err(Rejected)
    else if !Shaped(queries) then Err(Misshapen)
    else Ok(queries)
  }
}
