/** What the 300 generated queries are about (benchmarks/memory/generate_dataset_v3.py): the rows that each lane
    draws on, and the labels and forbidden rows that come with them. */
module QueryContents {
  import opened Wrappers
  import opened StableSort
  import opened QueryBench
  import opened QueryGenerator
  import opened QueryGeneratorProofs

  // ---------- One query ----------

  /** The rows of the corpus that are relevant to a query about `m`. */
  predicate SameSignature(m: Memory, row: Memory) {
    row.bodyId == m.bodyId && row.gestureName == m.gestureName && row.failureType == m.failureType
  }

  predicate SameCause(m: Memory, row: Memory) {
    row.bodyId == m.bodyId && row.failureType == m.failureType && row.rootCause == m.rootCause
  }

  /** The labels name exactly the ids of the rows: 3 for the source itself, 2 for the others. */
  ghost predicate Labels(labels: map<string, nat>, m: Memory, relevant: Memory -> bool, rows: seq<Memory>) {
    && (forall id :: id in labels <==> exists row :: row in rows && row.id == id && relevant(row))
    && (forall id :: id in labels ==> labels[id] == if id == m.id then 3 else 2)
  }

  ghost predicate About(corpus: seq<Memory>, q: Query, m: Memory, kind: Kind) {
    q.kind == kind && q.source == m.id && q.forbidden == []
    && Labels(q.labels, m, (row: Memory) => SameSignature(m, row), corpus)
  }

  /** A query of the error lane: about a row that the pattern finds, labelled with all that it finds. */
  ghost predicate AboutError(failures: seq<Memory>, matches: (nat, Memory) -> bool, q: Query, pattern: nat, m: Memory) {
    && q.kind == ErrorCode && q.source == m.id && q.forbidden == []
    && m in failures && matches(pattern, m)
    && Labels(q.labels, m, (row: Memory) => matches(pattern, row), failures)
  }

  /** A query of the causal lane: its forbidden rows are those with the same symptom and another cause. */
  ghost predicate AboutCause(corpus: seq<Memory>, causal: seq<Memory>, q: Query, m: Memory) {
    && q.kind == SameSymptomDiffCause && q.source == m.id
    && Labels(q.labels, m, (row: Memory) => SameCause(m, row), corpus)
    && (forall id :: id in q.forbidden <==>
          exists row :: row in causal && row.id == id
                        && row.bodyId == m.bodyId && row.failureType == m.failureType && row.rootCause != m.rootCause)
  }

  /** The same gesture and failure on the other hand. */
  predicate Mirrors(m: Memory, row: Memory) {
    && row.bodyId == Some(if HandOf(m) == Some(Left) then "rh56_right_01" else "rh56_left_01")
    && row.gestureName == m.gestureName && row.failureType == m.failureType
  }

  /** A query of the hard-negative lane: its forbidden rows are up to five that mirror its source, all if there are
      fewer. */
  ghost predicate AboutMirror(corpus: seq<Memory>, structured: seq<Memory>, q: Query, m: Memory) {
    && q.kind == HardNegativeBody && q.source == m.id && m in structured
    && Labels(q.labels, m, (row: Memory) => SameSignature(m, row), corpus)
    && q.forbidden != [] && |q.forbidden| <= 5
    && (forall id :: id in q.forbidden ==> exists row :: row in structured && row.id == id && Mirrors(m, row))
    && (|q.forbidden| < 5 ==> forall row :: row in structured && Mirrors(m, row) ==> row.id in q.forbidden)
  }

  lemma MadeLabels(m: Memory, rows: seq<Memory>, relevant: Memory -> bool, found: seq<Memory>)
    requires forall row :: row in found <==> row in rows && relevant(row)
    ensures Labels(LabelsFrom(m, found), m, relevant, rows)
  {
    forall id ensures id in LabelsFrom(m, found) <==> exists row :: row in rows && row.id == id && relevant(row)
              ensures id in LabelsFrom(m, found) ==> LabelsFrom(m, found)[id] == if id == m.id then 3 else 2 {
      LabelsMean(m, found, id);
      if row :| row in found && row.id == id {
        assert row in rows && relevant(row);
      }
      if row :| row in rows && row.id == id && relevant(row) {
        assert row in found;
      }
    }
  }

  lemma MadePlain(corpus: seq<Memory>, count: nat, kind: Kind, m: Memory, q: Query)
    requires MakeQuery(corpus, count, kind, Source(m, None, []), BodyGestureFailure) == Ok(q)
    ensures About(corpus, q, m, kind) && q.id == count
  {
    hide LabelsFrom;
    MadeLabels(m, corpus, (row: Memory) => SameSignature(m, row), Relevant(m, corpus, BodyGestureFailure));
  }

  lemma MadeError(corpus: seq<Memory>, failures: seq<Memory>, matches: (nat, Memory) -> bool, count: nat, i: nat,
                  q: Query)
    requires ErrorQuery(corpus, failures, matches, count, i, q)
    ensures var found := Filter((m: Memory) => matches(i % 5, m), failures);
            found != [] && AboutError(failures, matches, q, i % 5, found[(i / 5) % |found|])
  {
    hide LabelsFrom;
    var found := Found(failures, matches, i % PATTERNS);
    var m := found[(i / PATTERNS) % |found|];
    assert m in found;
    MadeLabels(m, failures, (row: Memory) => matches(i % 5, row), found);
  }

  lemma MadeCause(corpus: seq<Memory>, causal: seq<Memory>, count: nat, m: Memory, q: Query)
    requires var source := Source(m, None, IdsOf(Confounders(m, causal)));
             MakeQuery(corpus, count, SameSymptomDiffCause, source, BodyFailureCause) == Ok(q)
    ensures AboutCause(corpus, causal, q, m)
  {
    hide LabelsFrom, IdsOf;
    MadeLabels(m, corpus, (row: Memory) => SameCause(m, row), Relevant(m, corpus, BodyFailureCause));
    var confounders := Confounders(m, causal);
    forall id ensures id in q.forbidden <==>
                        exists row :: row in causal && row.id == id && row.bodyId == m.bodyId
                                      && row.failureType == m.failureType && row.rootCause != m.rootCause {
      if row :| row in confounders && row.id == id {
        assert row in causal && Confounds(m, row);
      }
      if row :| row in causal && row.id == id && row.bodyId == m.bodyId
                && row.failureType == m.failureType && row.rootCause != m.rootCause {
        assert row in confounders;
      }
    }
  }

  lemma MadeMirror(corpus: seq<Memory>, structured: seq<Memory>, count: nat, s: Source, q: Query)
    requires HardSource(structured, s)
    requires MakeQuery(corpus, count, HardNegativeBody, s, BodyGestureFailure) == Ok(q)
    ensures AboutMirror(corpus, structured, q, s.memory)
  {
    hide LabelsFrom, IdsOf;
    var m := s.memory;
    MadeLabels(m, corpus, (row: Memory) => SameSignature(m, row), Relevant(m, corpus, BodyGestureFailure));
    hide MakeQuery, Relevant;
    var all, some := AllOpposites(m, structured), Opposites(m, structured);
    forall id | id in q.forbidden ensures exists row :: row in structured && row.id == id && Mirrors(m, row) {
      var row :| row in some && row.id == id;
      assert row in all;
    }
    if |q.forbidden| < 5 {
      assert some == all;
      forall row | row in structured && Mirrors(m, row) ensures row.id in q.forbidden {
        assert row in all;
      }
    }
  }

  // ---------- The lanes, place by place ----------

  lemma LaneExtends(corpus: seq<Memory>, queries: seq<Query>, kind: Kind, sources: seq<Source>, fields: Fields,
                    result: seq<Query>)
    requires AllUsable(corpus, sources, fields)
    requires AddLane(corpus, queries, kind, sources, fields) == Ok(result)
    ensures |sources| >= Expected(kind) && |result| == |queries| + Expected(kind) && queries <= result
    ensures forall i :: 0 <= i < Expected(kind) ==>
              MakeQuery(corpus, |queries| + i, kind, sources[i], fields) == Ok(result[|queries| + i])
  {
    hide MakeQuery, Usable, AddLane;
    LaneSucceedsIff(corpus, queries, kind, sources, fields);
  }

  /** The queries from `start` on are about the rows from `from` on, one each. */
  ghost predicate PlainLane(corpus: seq<Memory>, queries: seq<Query>, start: nat, kind: Kind, rows: seq<Memory>,
                            from: nat) {
    forall i: nat :: i < Expected(kind) ==> PlainPlace(corpus, queries, start, kind, rows, from, i)
  }

  ghost predicate PlainPlace(corpus: seq<Memory>, queries: seq<Query>, start: nat, kind: Kind, rows: seq<Memory>,
                             from: nat, i: nat) {
    start + i < |queries| && from + i < |rows| && About(corpus, queries[start + i], rows[from + i], kind)
  }

  lemma PlainContents(corpus: seq<Memory>, failures: seq<Memory>, queries: seq<Query>, kind: Kind, rows: seq<Memory>,
                      from: nat, result: seq<Query>)
    requires Shuffled(corpus, failures) && from <= |rows|
    requires forall m :: m in rows ==> m in Structured(failures)
    requires AddLane(corpus, queries, kind, Plain(From(rows, from)), BodyGestureFailure) == Ok(result)
    ensures PlainLane(corpus, result, |queries|, kind, rows, from)
    ensures queries <= result && |result| == |queries| + Expected(kind)
  {
    hide MakeQuery, AddLane, Structured, About;
    FromMembers(rows, from);
    PlainUsable(corpus, failures, From(rows, from));
    LaneExtends(corpus, queries, kind, Plain(From(rows, from)), BodyGestureFailure, result);
    forall i: nat | i < Expected(kind) ensures PlainPlace(corpus, result, |queries|, kind, rows, from, i) {
      assert Plain(From(rows, from))[i] == Source(rows[from + i], None, []);
      MadePlain(corpus, |queries| + i, kind, rows[from + i], result[|queries| + i]);
    }
  }

  lemma PlainLaneStays(corpus: seq<Memory>, queries: seq<Query>, more: seq<Query>, start: nat, kind: Kind,
                       rows: seq<Memory>, from: nat)
    requires PlainLane(corpus, queries, start, kind, rows, from) && queries <= more
    ensures PlainLane(corpus, more, start, kind, rows, from)
  {
    hide About;
    forall i: nat | i < Expected(kind) ensures PlainPlace(corpus, more, start, kind, rows, from, i) {
      assert PlainPlace(corpus, queries, start, kind, rows, from, i);
    }
  }

  ghost predicate ErrorLane(failures: seq<Memory>, matches: (nat, Memory) -> bool, queries: seq<Query>, start: nat) {
    forall i: nat :: i < 45 ==> ErrorPlace(failures, matches, queries, start, i)
  }

  ghost predicate ErrorPlace(failures: seq<Memory>, matches: (nat, Memory) -> bool, queries: seq<Query>, start: nat,
                             i: nat) {
    start + i < |queries| && AboutPattern(failures, matches, queries[start + i], i)
  }

  /** The i-th error query: the patterns take turns, and each goes through the rows it finds in turn. */
  ghost predicate AboutPattern(failures: seq<Memory>, matches: (nat, Memory) -> bool, q: Query, i: nat) {
    var found := Filter((m: Memory) => matches(i % 5, m), failures);
    found != [] && AboutError(failures, matches, q, i % 5, found[(i / 5) % |found|])
  }

  lemma ErrorContents(corpus: seq<Memory>, failures: seq<Memory>, matches: (nat, Memory) -> bool, queries: seq<Query>,
                      result: seq<Query>)
    requires AddErrors(corpus, queries, failures, matches, 0) == Ok(result)
    ensures ErrorLane(failures, matches, result, |queries|)
    ensures queries <= result && |result| == |queries| + 45
  {
    hide AboutError, AddErrors, ErrorSource, MakeQuery;
    ErrorsSucceedIff(corpus, queries, failures, matches, 0);
    forall i: nat | i < 45 ensures ErrorPlace(failures, matches, result, |queries|, i) {
      var j := |queries| + i;
      assert ErrorQuery(corpus, failures, matches, j, 0 + j - |queries|, result[j]);
      MadeError(corpus, failures, matches, |queries| + i, i, result[|queries| + i]);
    }
  }

  ghost predicate CauseLane(corpus: seq<Memory>, causal: seq<Memory>, queries: seq<Query>, start: nat) {
    forall i: nat :: i < 30 ==> CausePlace(corpus, causal, queries, start, i)
  }

  ghost predicate CausePlace(corpus: seq<Memory>, causal: seq<Memory>, queries: seq<Query>, start: nat, i: nat) {
    start + i < |queries| && i < |causal| && AboutCause(corpus, causal, queries[start + i], causal[i])
  }

  lemma CauseContents(corpus: seq<Memory>, failures: seq<Memory>, queries: seq<Query>, result: seq<Query>)
    requires Shuffled(corpus, failures)
    requires AddLane(corpus, queries, SameSymptomDiffCause, CausalSources(Causal(failures)), BodyFailureCause)
             == Ok(result)
    ensures CauseLane(corpus, Causal(failures), result, |queries|)
    ensures queries <= result && |result| == |queries| + 30
  {
    hide MakeQuery, AddLane, Causal, AboutCause, IdsOf, Confounders;
    var causal := Causal(failures);
    CausalUsable(corpus, failures);
    LaneExtends(corpus, queries, SameSymptomDiffCause, CausalSources(causal), BodyFailureCause, result);
    forall i: nat | i < 30 ensures CausePlace(corpus, causal, result, |queries|, i) {
      assert CausalSources(causal)[i] == Source(causal[i], None, IdsOf(Confounders(causal[i], causal)));
      MadeCause(corpus, causal, |queries| + i, causal[i], result[|queries| + i]);
    }
  }

  ghost predicate MirrorLane(corpus: seq<Memory>, structured: seq<Memory>, queries: seq<Query>, start: nat) {
    forall i: nat :: i < 30 ==> MirrorPlace(corpus, structured, queries, start, i)
  }

  /** The i-th query is about the i-th structured row that has a mirror. */
  ghost predicate MirrorPlace(corpus: seq<Memory>, structured: seq<Memory>, queries: seq<Query>, start: nat, i: nat) {
    var rows := Mirrored(structured, structured);
    start + i < |queries| && i < |rows| && AboutMirror(corpus, structured, queries[start + i], rows[i])
  }

  predicate HasMirror(structured: seq<Memory>, m: Memory) {
    exists row :: row in structured && Mirrors(m, row)
  }

  function Mirrored(structured: seq<Memory>, rows: seq<Memory>): seq<Memory> {
    Filter((m: Memory) => HasMirror(structured, m), rows)
  }

  lemma MirrorIffSource(m: Memory, structured: seq<Memory>)
    ensures HardSourceOf(m, structured) == [] <==> !HasMirror(structured, m)
    ensures HasMirror(structured, m) ==>
              |HardSourceOf(m, structured)| == 1 && HardSourceOf(m, structured)[0].memory == m
  {
    hide IdsOf;
    OppositesIff(m, structured);
  }

  lemma {:induction false} HardNegativeAt(structured: seq<Memory>, rows: seq<Memory>, i: nat)
    ensures |HardNegatives(structured, rows)| == |Mirrored(structured, rows)|
    ensures i < |Mirrored(structured, rows)| ==>
              HardNegatives(structured, rows)[i].memory == Mirrored(structured, rows)[i]
  {
    hide HardSourceOf, HasMirror;
    if rows != [] {
      MirrorIffSource(rows[0], structured);
      HardNegativeAt(structured, rows[1..], i);
      HardNegativeAt(structured, rows[1..], if i > 0 then i - 1 else 0);
    }
  }

  lemma MirrorContents(corpus: seq<Memory>, failures: seq<Memory>, queries: seq<Query>, result: seq<Query>)
    requires Shuffled(corpus, failures)
    requires var structured := Structured(failures);
             AddLane(corpus, queries, HardNegativeBody, HardNegatives(structured, structured), BodyGestureFailure)
             == Ok(result)
    ensures MirrorLane(corpus, Structured(failures), result, |queries|)
    ensures queries <= result && |result| == |queries| + 30
  {
    hide MakeQuery, AddLane, AboutMirror, HardNegatives, Structured, HardSource;
    var structured := Structured(failures);
    var sources := HardNegatives(structured, structured);
    HardUsable(corpus, failures);
    HardSources(structured, structured);
    LaneExtends(corpus, queries, HardNegativeBody, sources, BodyGestureFailure, result);
    forall i: nat | i < 30 ensures MirrorPlace(corpus, structured, result, |queries|, i) {
      assert sources[i] in sources;
      HardNegativeAt(structured, structured, i);
      MadeMirror(corpus, structured, |queries| + i, sources[i], result[|queries| + i]);
    }
  }

  // ---------- All 300 ----------

  /** The structured rows: a hand, a gesture and a failure type are known. */
  lemma StructuredRows(failures: seq<Memory>, m: Memory)
    ensures m in Structured(failures)
            <==> && m in failures && HandOf(m) != None
                 && m.gestureName.Some? && m.gestureName.value != "" && m.failureType.Some? && m.failureType.value != ""
  {
  }

  /** The rows of a lane with CJK documents, and those without. */
  lemma LanguageRows(failures: seq<Memory>, m: Memory)
    ensures m in Filter(IsCjk, Structured(failures)) <==> m in Structured(failures) && m.docIsCjk
    ensures m in Filter(IsEn, Structured(failures)) <==> m in Structured(failures) && !m.docIsCjk
  {
    hide Structured;
  }

  /** The rows of the causal lane: structured rows with a cause, and another one with the same symptom but another
      cause. */
  lemma CausalRows(failures: seq<Memory>, m: Memory)
    ensures m in Causal(failures)
            <==> && m in Structured(failures) && m.rootCause.Some? && m.rootCause.value != ""
                 && exists other :: other in Structured(failures)
                                    && other.rootCause.Some? && other.rootCause.value != ""
                                    && other.bodyId == m.bodyId && other.failureType == m.failureType
                                    && other.rootCause != m.rootCause
  {
    hide Structured;
    var rows := WithCause(failures);
    if other :| other in rows && Confounds(m, other) {
      assert other in Structured(failures);
    }
    if other :| other in Structured(failures) && other.rootCause.Some? && other.rootCause.value != ""
                && other.bodyId == m.bodyId && other.failureType == m.failureType && other.rootCause != m.rootCause {
      assert other in rows && Confounds(m, other);
    }
  }

  /** The first lanes. */
  ghost predicate LanguageLanes(corpus: seq<Memory>, structured: seq<Memory>, queries: seq<Query>) {
    var cjk, en := Filter(IsCjk, structured), Filter(IsEn, structured);
    && PlainLane(corpus, queries, 0, CjkToCjk, cjk, 0)
    && PlainLane(corpus, queries, 60, CjkToEn, en, 0)
    && PlainLane(corpus, queries, 105, EnToCjk, cjk, 60)
    && PlainLane(corpus, queries, 150, Mixed, structured, 105)
  }

  lemma FromStart(rows: seq<Memory>)
    ensures From(rows, 0) == rows
  {
  }

  /** What is in a generated benchmark, place by place: CJK queries about the first 60 CJK rows of the shuffle, then
      queries about the first 45 rows that are not CJK, then about the next 45 CJK rows, then about the structured rows
      105 to 149; then the error queries, the causal ones about the first 30 rows with a confounder, and those with
      mirrored rows. */
  lemma Contents(corpus: seq<Memory>, failures: seq<Memory>, matches: (nat, Memory) -> bool)
    requires Shuffled(corpus, failures) && Build(corpus, failures, matches).Ok?
    ensures var queries, structured := Build(corpus, failures, matches).value, Structured(failures);
            && LanguageLanes(corpus, structured, queries)
            && ErrorLane(failures, matches, queries, 195)
            && CauseLane(corpus, Causal(failures), queries, 240)
            && MirrorLane(corpus, structured, queries, 270)
  {
    hide AddLane, AddErrors, Plain, From, CausalSources, Causal, HardNegatives, Structured, Filter, PlainLane,
         ErrorLane, CauseLane, MirrorLane, Consistent, Shaped;
    var structured := Structured(failures);
    var cjk, en := Filter(IsCjk, structured), Filter(IsEn, structured);
    FromStart(cjk);
    FromStart(en);
    var q1 := AddLane(corpus, [], CjkToCjk, Plain(cjk), BodyGestureFailure).value;
    var q2 := AddLane(corpus, q1, CjkToEn, Plain(en), BodyGestureFailure).value;
    var q3 := AddLane(corpus, q2, EnToCjk, Plain(From(cjk, 60)), BodyGestureFailure).value;
    var q4 := AddLane(corpus, q3, Mixed, Plain(From(structured, 105)), BodyGestureFailure).value;
    var q5 := AddErrors(corpus, q4, failures, matches, 0).value;
    var q6 := AddLane(corpus, q5, SameSymptomDiffCause, CausalSources(Causal(failures)), BodyFailureCause).value;
    var q7 := AddLane(corpus, q6, HardNegativeBody, HardNegatives(structured, structured), BodyGestureFailure).value;
    Enoughs(corpus, failures, matches);
    PlainContents(corpus, failures, [], CjkToCjk, cjk, 0, q1);
    PlainContents(corpus, failures, q1, CjkToEn, en, 0, q2);
    PlainContents(corpus, failures, q2, EnToCjk, cjk, 60, q3);
    PlainContents(corpus, failures, q3, Mixed, structured, 105, q4);
    ErrorContents(corpus, failures, matches, q4, q5);
    CauseContents(corpus, failures, q5, q6);
    MirrorContents(corpus, failures, q6, q7);
    LanesStay(corpus, failures, matches, structured, cjk, en, q1, q2, q3, q4, q5, q6, q7);
  }

  lemma Enoughs(corpus: seq<Memory>, failures: seq<Memory>, matches: (nat, Memory) -> bool)
    requires Shuffled(corpus, failures) && Lanes(corpus, failures, matches).Ok?
    ensures |Filter(IsCjk, Structured(failures))| >= 105 && |Structured(failures)| >= 150
  {
    hide Lanes, Structured, Filter, Causal, HardNegatives, Found;
    LanesSucceedIff(corpus, failures, matches);
    CjkAndEn(Structured(failures));
  }

  lemma ErrorLaneStays(failures: seq<Memory>, matches: (nat, Memory) -> bool, queries: seq<Query>, more: seq<Query>,
                       start: nat)
    requires ErrorLane(failures, matches, queries, start) && queries <= more
    ensures ErrorLane(failures, matches, more, start)
  {
    hide AboutPattern;
    forall i: nat | i < 45 ensures ErrorPlace(failures, matches, more, start, i) {
      assert ErrorPlace(failures, matches, queries, start, i);
    }
  }

  lemma CauseLaneStays(corpus: seq<Memory>, causal: seq<Memory>, queries: seq<Query>, more: seq<Query>, start: nat)
    requires CauseLane(corpus, causal, queries, start) && queries <= more
    ensures CauseLane(corpus, causal, more, start)
  {
    hide AboutCause;
    forall i: nat | i < 30 ensures CausePlace(corpus, causal, more, start, i) {
      assert CausePlace(corpus, causal, queries, start, i);
    }
  }

  lemma LanesStay(corpus: seq<Memory>, failures: seq<Memory>, matches: (nat, Memory) -> bool, structured: seq<Memory>,
                  cjk: seq<Memory>, en: seq<Memory>, q1: seq<Query>, q2: seq<Query>, q3: seq<Query>, q4: seq<Query>,
                  q5: seq<Query>, q6: seq<Query>, q7: seq<Query>)
    requires q1 <= q2 <= q3 <= q4 <= q5 <= q6 <= q7
    requires PlainLane(corpus, q1, 0, CjkToCjk, cjk, 0) && PlainLane(corpus, q2, 60, CjkToEn, en, 0)
    requires PlainLane(corpus, q3, 105, EnToCjk, cjk, 60) && PlainLane(corpus, q4, 150, Mixed, structured, 105)
    requires ErrorLane(failures, matches, q5, 195) && CauseLane(corpus, Causal(failures), q6, 240)
    ensures PlainLane(corpus, q7, 0, CjkToCjk, cjk, 0) && PlainLane(corpus, q7, 60, CjkToEn, en, 0)
    ensures PlainLane(corpus, q7, 105, EnToCjk, cjk, 60) && PlainLane(corpus, q7, 150, Mixed, structured, 105)
    ensures ErrorLane(failures, matches, q7, 195) && CauseLane(corpus, Causal(failures), q7, 240)
  {
    hide PlainLane, ErrorLane, CauseLane, Causal;
    PlainLaneStays(corpus, q1, q7, 0, CjkToCjk, cjk, 0);
    PlainLaneStays(corpus, q2, q7, 60, CjkToEn, en, 0);
    PlainLaneStays(corpus, q3, q7, 105, EnToCjk, cjk, 60);
    PlainLaneStays(corpus, q4, q7, 150, Mixed, structured, 105);
    ErrorLaneStays(failures, matches, q5, q7, 195);
    CauseLaneStays(corpus, Causal(failures), q6, q7, 240);
  }

  ghost predicate KeepsLanguage(failures: seq<Memory>, q: Query) {
    && q.kind in {CjkToCjk, CjkToEn, EnToCjk}
    && exists m :: m in failures && m.id == q.source && (m.docIsCjk <==> q.kind != CjkToEn)
  }

  /** The language of a lane's sources: every query of the CJK lanes is about a CJK row, every query from CJK to English
      about one that is not. */
  lemma LanesKeepLanguage(corpus: seq<Memory>, failures: seq<Memory>, matches: (nat, Memory) -> bool, i: nat)
    requires Shuffled(corpus, failures) && Build(corpus, failures, matches).Ok? && i < 150
    ensures |Build(corpus, failures, matches).value| == 300
    ensures KeepsLanguage(failures, Build(corpus, failures, matches).value[i])
  {
    hide Build, KeepsLanguage, LanguageLanes, Structured, ErrorLane, CauseLane, MirrorLane;
    BuildIsLong(corpus, failures, matches);
    Contents(corpus, failures, matches);
    LanguageAt(corpus, failures, Build(corpus, failures, matches).value, i);
  }

  lemma LanguageAt(corpus: seq<Memory>, failures: seq<Memory>, queries: seq<Query>, i: nat)
    requires |queries| == 300 && i < 150 && LanguageLanes(corpus, Structured(failures), queries)
    ensures KeepsLanguage(failures, queries[i])
  {
    hide KeepsLanguage, Structured, Filter, PlainLane, PlainPlace;
    var structured := Structured(failures);
    var cjk, en := Filter(IsCjk, structured), Filter(IsEn, structured);
    if i < 60 {
      AtPlace(corpus, queries, 0, CjkToCjk, cjk, 0, i);
      OfLanguage(corpus, failures, queries, 0, CjkToCjk, 0, i);
    } else if i < 105 {
      AtPlace(corpus, queries, 60, CjkToEn, en, 0, i - 60);
      OfLanguage(corpus, failures, queries, 60, CjkToEn, 0, i - 60);
    } else {
      AtPlace(corpus, queries, 105, EnToCjk, cjk, 60, i - 105);
      OfLanguage(corpus, failures, queries, 105, EnToCjk, 60, i - 105);
    }
  }

  lemma AtPlace(corpus: seq<Memory>, queries: seq<Query>, start: nat, kind: Kind, rows: seq<Memory>, from: nat, i: nat)
    requires PlainLane(corpus, queries, start, kind, rows, from) && i < Expected(kind)
    ensures PlainPlace(corpus, queries, start, kind, rows, from, i)
  {
    hide PlainPlace;
  }

  lemma OfLanguage(corpus: seq<Memory>, failures: seq<Memory>, queries: seq<Query>, start: nat, kind: Kind, from: nat,
                   i: nat)
    requires var rows := Filter(if kind == CjkToEn then IsEn else IsCjk, Structured(failures));
             PlainPlace(corpus, queries, start, kind, rows, from, i)
    ensures start + i < |queries|
    ensures kind in {CjkToCjk, CjkToEn, EnToCjk} ==> KeepsLanguage(failures, queries[start + i])
  {
    hide Structured, Filter, Labels;
    var rows := Filter(if kind == CjkToEn then IsEn else IsCjk, Structured(failures));
    var m := rows[from + i];
    assert m in rows;
    LanguageRows(failures, m);
    StructuredRows(failures, m);
  }

  lemma BuildIsLong(corpus: seq<Memory>, failures: seq<Memory>, matches: (nat, Memory) -> bool)
    requires Build(corpus, failures, matches).Ok?
    ensures |Build(corpus, failures, matches).value| == 300
  {
    hide Lanes, Consistent, Shaped;
  }
}
