/** The generator against its validators, over every corpus with every shuffle and every outcome of the pattern
    search. */
module QueryGeneratorProofs {
  import opened Wrappers
  import opened StableSort
  import opened QueryBench
  import opened QueryGenerator

  /** The list that was shuffled is the corpus's failures. */
  ghost predicate Shuffled(corpus: seq<Memory>, failures: seq<Memory>) {
    multiset(failures) == multiset(Filter(IsFailureRow, corpus))
  }

  lemma SameMembers<T>(a: seq<T>, b: seq<T>, x: T)
    requires multiset(a) == multiset(b)
    ensures x in a <==> x in b
  {
    assert x in multiset(a) <==> x in multiset(b);
  }

  lemma FailuresInCorpus(corpus: seq<Memory>, failures: seq<Memory>, m: Memory)
    requires Shuffled(corpus, failures) && m in failures
    ensures m in corpus
  {
    SameMembers(failures, Filter(IsFailureRow, corpus), m);
  }

  // ---------- Adding the rows of a lane ----------

  predicate Usable(corpus: seq<Memory>, source: Source, fields: Fields) {
    if source.labels.Some? then source.memory.id in source.labels.value
    else HasFields(source.memory, fields) && source.memory in corpus
  }

  lemma UsableMakesQuery(corpus: seq<Memory>, count: nat, kind: Kind, source: Source, fields: Fields)
    requires Usable(corpus, source, fields)
    ensures MakeQuery(corpus, count, kind, source, fields).Ok?
  {
    if source.labels.None? {
      var same := Relevant(source.memory, corpus, fields);
      assert source.memory in same;
      LabelsMean(source.memory, same, source.memory.id);
    }
  }

  /** `queries` was extended by one query per source, numbered on. */
  ghost predicate Extends(corpus: seq<Memory>, queries: seq<Query>, kind: Kind, sources: seq<Source>, fields: Fields,
                          result: seq<Query>) {
    && |result| == |queries| + |sources|
    && queries <= result
    && forall i :: 0 <= i < |sources| ==>
         MakeQuery(corpus, |queries| + i, kind, sources[i], fields) == Ok(result[|queries| + i])
  }

  lemma {:induction false} AddAllExtends(corpus: seq<Memory>, queries: seq<Query>, kind: Kind, sources: seq<Source>,
                                         fields: Fields)
    requires forall s :: s in sources ==> Usable(corpus, s, fields)
    ensures AddAll(corpus, queries, kind, sources, fields).Ok?
    ensures Extends(corpus, queries, kind, sources, fields, AddAll(corpus, queries, kind, sources, fields).value)
    decreases |sources|
  {
    hide MakeQuery, Usable;
    if sources != [] {
      UsableMakesQuery(corpus, |queries|, kind, sources[0], fields);
      var q := MakeQuery(corpus, |queries|, kind, sources[0], fields).value;
      AddAllExtends(corpus, queries + [q], kind, sources[1..], fields);
      var result := AddAll(corpus, queries, kind, sources, fields).value;
      assert result[|queries|] == (queries + [q])[|queries|] == q;
      forall i | 0 <= i < |sources|
        ensures MakeQuery(corpus, |queries| + i, kind, sources[i], fields) == Ok(result[|queries| + i])
      {
        if i > 0 {
          assert sources[1..][i - 1] == sources[i];
          assert MakeQuery(corpus, |queries + [q]| + (i - 1), kind, sources[1..][i - 1], fields)
              == Ok(result[|queries + [q]| + (i - 1)]);
        }
      }
    }
  }

  ghost predicate AllUsable(corpus: seq<Memory>, sources: seq<Source>, fields: Fields) {
    forall s :: s in sources ==> Usable(corpus, s, fields)
  }

  /** A lane of usable rows succeeds exactly when there are enough of them. */
  lemma LaneSucceedsIff(corpus: seq<Memory>, queries: seq<Query>, kind: Kind, sources: seq<Source>, fields: Fields)
    requires AllUsable(corpus, sources, fields)
    ensures AddLane(corpus, queries, kind, sources, fields).Ok? <==> |sources| >= Expected(kind)
    ensures AddLane(corpus, queries, kind, sources, fields).Ok? ==>
              Extends(corpus, queries, kind, sources[..Expected(kind)], fields,
                      AddLane(corpus, queries, kind, sources, fields).value)
  {
    hide Extends, Usable;
    if |sources| >= Expected(kind) {
      AddAllExtends(corpus, queries, kind, sources[..Expected(kind)], fields);
    }
  }

  // ---------- The lanes' rows are usable ----------

  lemma StructuredHasFields(m: Memory)
    requires IsStructured(m)
    ensures HasFields(m, BodyGestureFailure)
    ensures Truthy(m.rootCause) ==> HasFields(m, BodyFailureCause)
  {
    assert !Contains("", "left") && !Contains("", "right");
  }

  lemma PlainUsable(corpus: seq<Memory>, failures: seq<Memory>, rows: seq<Memory>)
    requires Shuffled(corpus, failures)
    requires forall m :: m in rows ==> m in Structured(failures)
    ensures AllUsable(corpus, Plain(rows), BodyGestureFailure)
  {
    hide IsStructured, HasFields;
    forall s | s in Plain(rows) ensures Usable(corpus, s, BodyGestureFailure) {
      var i :| 0 <= i < |rows| && Plain(rows)[i] == s;
      assert rows[i] in Structured(failures);
      StructuredHasFields(rows[i]);
      FailuresInCorpus(corpus, failures, rows[i]);
    }
  }

  lemma CausalUsable(corpus: seq<Memory>, failures: seq<Memory>)
    requires Shuffled(corpus, failures)
    ensures AllUsable(corpus, CausalSources(Causal(failures)), BodyFailureCause)
  {
    hide IsStructured, HasFields;
    var causal := Causal(failures);
    forall s | s in CausalSources(causal) ensures Usable(corpus, s, BodyFailureCause) {
      var i :| 0 <= i < |causal| && CausalSources(causal)[i] == s;
      assert causal[i] in WithCause(failures);
      StructuredHasFields(causal[i]);
      FailuresInCorpus(corpus, failures, causal[i]);
    }
  }

  ghost predicate HardSource(structured: seq<Memory>, s: Source) {
    && s.memory in structured && s.labels.None?
    && Opposites(s.memory, structured) != [] && s.forbidden == IdsOf(Opposites(s.memory, structured))
  }

  lemma {:induction false} HardSources(structured: seq<Memory>, rows: seq<Memory>)
    requires forall m :: m in rows ==> m in structured
    ensures forall s :: s in HardNegatives(structured, rows) ==> HardSource(structured, s)
  {
    hide Opposites, IdsOf;
    if rows != [] {
      assert rows[0] in structured;
      HardSources(structured, rows[1..]);
    }
  }

  lemma HardUsable(corpus: seq<Memory>, failures: seq<Memory>)
    requires Shuffled(corpus, failures)
    ensures AllUsable(corpus, HardNegatives(Structured(failures), Structured(failures)), BodyGestureFailure)
  {
    hide IsStructured, HasFields, HardNegatives;
    var structured := Structured(failures);
    HardSources(structured, structured);
    forall s | s in HardNegatives(structured, structured) ensures Usable(corpus, s, BodyGestureFailure) {
      assert HardSource(structured, s);
      StructuredHasFields(s.memory);
      FailuresInCorpus(corpus, failures, s.memory);
    }
  }

  // ---------- The error lane ----------

  /** The error query number i. */
  ghost predicate ErrorQuery(corpus: seq<Memory>, failures: seq<Memory>, matches: (nat, Memory) -> bool,
                             count: nat, i: nat, q: Query) {
    ErrorSource(failures, matches, i).Ok?
    && MakeQuery(corpus, count, ErrorCode, ErrorSource(failures, matches, i).value, BodyGestureFailure) == Ok(q)
  }

  lemma ErrorSourceUsable(corpus: seq<Memory>, failures: seq<Memory>, matches: (nat, Memory) -> bool, i: nat)
    requires Found(failures, matches, i % PATTERNS) != []
    ensures ErrorSource(failures, matches, i).Ok?
    ensures Usable(corpus, ErrorSource(failures, matches, i).value, BodyGestureFailure)
  {
    var found := Found(failures, matches, i % PATTERNS);
    var m := found[(i / PATTERNS) % |found|];
    LabelsMean(m, found, m.id);
  }

  ghost predicate Matched(failures: seq<Memory>, matches: (nat, Memory) -> bool, i: nat) {
    Found(failures, matches, i % PATTERNS) != []
  }

  ghost predicate ExtendsErrors(corpus: seq<Memory>, queries: seq<Query>, failures: seq<Memory>,
                                matches: (nat, Memory) -> bool, i: nat, result: seq<Query>)
    requires i <= Expected(ErrorCode)
  {
    && |result| == |queries| + Expected(ErrorCode) - i
    && queries <= result
    && forall j :: |queries| <= j < |result| ==>
         ErrorQuery(corpus, failures, matches, j, i + j - |queries|, result[j])
  }

  lemma {:induction false} ErrorsSucceedIff(corpus: seq<Memory>, queries: seq<Query>, failures: seq<Memory>,
                                            matches: (nat, Memory) -> bool, i: nat)
    requires i <= Expected(ErrorCode)
    ensures AddErrors(corpus, queries, failures, matches, i).Ok? <==>
            forall j: nat :: i <= j < Expected(ErrorCode) ==> Matched(failures, matches, j)
    ensures AddErrors(corpus, queries, failures, matches, i).Ok? ==>
              ExtendsErrors(corpus, queries, failures, matches, i,
                  AddErrors(corpus, queries, failures, matches, i).value)
    decreases Expected(ErrorCode) - i
  {
    hide MakeQuery, Usable;
    if i < Expected(ErrorCode) {
      if Matched(failures, matches, i) {
        ErrorSourceUsable(corpus, failures, matches, i);
        hide ErrorSource;
        var source := ErrorSource(failures, matches, i).value;
        UsableMakesQuery(corpus, |queries|, ErrorCode, source, BodyGestureFailure);
        var q := MakeQuery(corpus, |queries|, ErrorCode, source, BodyGestureFailure).value;
        ErrorsSucceedIff(corpus, queries + [q], failures, matches, i + 1);
        if AddErrors(corpus, queries, failures, matches, i).Ok? {
          ErrorsExtend(corpus, queries, q, failures, matches, i,
              AddErrors(corpus, queries, failures, matches, i).value);
        }
      }
    }
  }

  lemma ErrorsExtend(corpus: seq<Memory>, queries: seq<Query>, q: Query, failures: seq<Memory>,
                     matches: (nat, Memory) -> bool, i: nat, result: seq<Query>)
    requires i < Expected(ErrorCode)
    requires ErrorQuery(corpus, failures, matches, |queries|, i, q)
    requires ExtendsErrors(corpus, queries + [q], failures, matches, i + 1, result)
    ensures ExtendsErrors(corpus, queries, failures, matches, i, result)
  {
    hide ErrorQuery;
    assert result[|queries|] == (queries + [q])[|queries|] == q;
  }

  /** All 45 queries find a match exactly when each of the five patterns does. */
  lemma EveryPattern(failures: seq<Memory>, matches: (nat, Memory) -> bool)
    ensures (forall j: nat :: j < Expected(ErrorCode) ==> Matched(failures, matches, j))
            <==> forall p: nat :: p < PATTERNS ==> Found(failures, matches, p) != []
  {
    hide Found;
    if forall j: nat :: j < Expected(ErrorCode) ==> Matched(failures, matches, j) {
      forall p: nat | p < PATTERNS ensures Found(failures, matches, p) != [] {
        assert Matched(failures, matches, p);
      }
    }
    if forall p: nat :: p < PATTERNS ==> Found(failures, matches, p) != [] {
      forall j: nat | j < Expected(ErrorCode) ensures Matched(failures, matches, j) {
        assert j % PATTERNS < PATTERNS;
      }
    }
  }

  // ---------- When the generator succeeds ----------

  /** The lanes' needs, on the shuffled list. The mixed lane's 150 rows are the 105 and the 45 together. */
  ghost predicate Enough(failures: seq<Memory>, matches: (nat, Memory) -> bool) {
    var structured := Structured(failures);
    && |Filter(IsCjk, structured)| >= 105
    && |Filter(IsEn, structured)| >= 45
    && (forall p: nat :: p < PATTERNS ==> Found(failures, matches, p) != [])
    && |Causal(failures)| >= 30
    && |HardNegatives(structured, structured)| >= 30
  }

  lemma {:induction false} CjkAndEn(rows: seq<Memory>)
    ensures |Filter(IsCjk, rows)| + |Filter(IsEn, rows)| == |rows|
  {
    if rows != [] {
      CjkAndEn(rows[1..]);
    }
  }

  lemma FromMembers(rows: seq<Memory>, start: nat)
    ensures forall m :: m in From(rows, start) ==> m in rows
    ensures |From(rows, start)| == if start <= |rows| then |rows| - start else 0
  {
  }

  lemma LanesSucceedIff(corpus: seq<Memory>, failures: seq<Memory>, matches: (nat, Memory) -> bool)
    requires Shuffled(corpus, failures)
    ensures Lanes(corpus, failures, matches).Ok? <==> Enough(failures, matches)
  {
    hide AddLane, AddErrors, Plain, From, CausalSources, Causal, HardNegatives, Structured, Filter, Found, AllUsable,
         Extends, ExtendsErrors;
    var structured := Structured(failures);
    var cjk, en := Filter(IsCjk, structured), Filter(IsEn, structured);
    PlainUsable(corpus, failures, cjk);
    PlainUsable(corpus, failures, en);
    FromMembers(cjk, 60);
    FromMembers(structured, 105);
    PlainUsable(corpus, failures, From(cjk, 60));
    PlainUsable(corpus, failures, From(structured, 105));
    CausalUsable(corpus, failures);
    HardUsable(corpus, failures);
    CjkAndEn(structured);
    EveryPattern(failures, matches);
    LaneSucceedsIff(corpus, [], CjkToCjk, Plain(cjk), BodyGestureFailure);
    if q1 :| AddLane(corpus, [], CjkToCjk, Plain(cjk), BodyGestureFailure) == Ok(q1) {
      LaneSucceedsIff(corpus, q1, CjkToEn, Plain(en), BodyGestureFailure);
      if q2 :| AddLane(corpus, q1, CjkToEn, Plain(en), BodyGestureFailure) == Ok(q2) {
        LaneSucceedsIff(corpus, q2, EnToCjk, Plain(From(cjk, 60)), BodyGestureFailure);
        if q3 :| AddLane(corpus, q2, EnToCjk, Plain(From(cjk, 60)), BodyGestureFailure) == Ok(q3) {
          LaneSucceedsIff(corpus, q3, Mixed, Plain(From(structured, 105)), BodyGestureFailure);
          if q4 :| AddLane(corpus, q3, Mixed, Plain(From(structured, 105)), BodyGestureFailure) == Ok(q4) {
            ErrorsSucceedIff(corpus, q4, failures, matches, 0);
            if q5 :| AddErrors(corpus, q4, failures, matches, 0) == Ok(q5) {
              LaneSucceedsIff(corpus, q5, SameSymptomDiffCause, CausalSources(Causal(failures)), BodyFailureCause);
              var causal, hard := CausalSources(Causal(failures)), HardNegatives(structured, structured);
              if q6 :| AddLane(corpus, q5, SameSymptomDiffCause, causal, BodyFailureCause) == Ok(q6) {
                LaneSucceedsIff(corpus, q6, HardNegativeBody, hard, BodyGestureFailure);
              }
            }
          }
        }
      }
    }
  }

  // ---------- What is generated is valid ----------

  lemma UniqueMember(memories: seq<Memory>, a: Memory, b: Memory)
    requires UniqueIds(memories) && a in memories && b in memories && a.id == b.id
    ensures a == b
  {
  }

  /** Queries made from this source are consistent with the corpus. */
  ghost predicate SoundSource(corpus: seq<Memory>, kind: Kind, source: Source, fields: Fields) {
    forall count: nat, q :: MakeQuery(corpus, count, kind, source, fields) == Ok(q) ==> ConsistentQuery(ById(corpus), q)
  }

  lemma LabelsKnown(corpus: seq<Memory>, m: Memory, rows: seq<Memory>, id: string)
    requires forall row :: row in rows ==> row in corpus
    requires id in LabelsFrom(m, rows)
    ensures id in ById(corpus) && LabelsFrom(m, rows)[id] > 0
  {
    LabelsMean(m, rows, id);
  }

  lemma PlainSound(corpus: seq<Memory>, kind: Kind, m: Memory)
    requires kind != HardNegativeBody
    ensures SoundSource(corpus, kind, Source(m, None, []), BodyGestureFailure)
  {
    hide LabelsFrom, ById, SameFields, HasFields;
    var rows := Relevant(m, corpus, BodyGestureFailure);
    forall id | id in LabelsFrom(m, rows) ensures id in ById(corpus) && LabelsFrom(m, rows)[id] > 0 {
      LabelsKnown(corpus, m, rows, id);
    }
  }

  lemma ErrorSound(corpus: seq<Memory>, failures: seq<Memory>, matches: (nat, Memory) -> bool, i: nat)
    requires Shuffled(corpus, failures) && Matched(failures, matches, i)
    ensures SoundSource(corpus, ErrorCode, ErrorSource(failures, matches, i).value, BodyGestureFailure)
  {
    hide LabelsFrom, ById;
    var rows := Found(failures, matches, i % PATTERNS);
    var m := rows[(i / PATTERNS) % |rows|];
    forall row | row in rows ensures row in corpus {
      FailuresInCorpus(corpus, failures, row);
    }
    forall id | id in LabelsFrom(m, rows) ensures id in ById(corpus) && LabelsFrom(m, rows)[id] > 0 {
      LabelsKnown(corpus, m, rows, id);
    }
  }

  /** Forbidden rows from the corpus that differ from every relevant row are never labelled. */
  lemma ForbiddenSound(corpus: seq<Memory>, kind: Kind, m: Memory, fields: Fields, forbidden: seq<Memory>)
    requires UniqueIds(corpus) && m in corpus
    requires forall row :: row in forbidden ==> row in corpus && !SameFields(m, row, fields)
    requires kind == HardNegativeBody ==> forall row :: row in forbidden ==> row.bodyId != m.bodyId
    ensures SoundSource(corpus, kind, Source(m, None, IdsOf(forbidden)), fields)
  {
    hide LabelsFrom, ById, SameFields, HasFields;
    var rows := Relevant(m, corpus, fields);
    forall id | id in LabelsFrom(m, rows) ensures id in ById(corpus) && LabelsFrom(m, rows)[id] > 0 {
      LabelsKnown(corpus, m, rows, id);
    }
    forall id | id in IdsOf(forbidden)
      ensures id in ById(corpus) && id !in LabelsFrom(m, rows)
      ensures kind == HardNegativeBody ==> m.id in ById(corpus) && ById(corpus)[id].bodyId != ById(corpus)[m.id].bodyId
    {
      var row :| row in forbidden && row.id == id;
      UniqueMember(corpus, ById(corpus)[id], row);
      UniqueMember(corpus, ById(corpus)[m.id], m);
      LabelsMean(m, rows, id);
      if other :| other in rows && other.id == id {
        UniqueMember(corpus, other, row);
        assert false;
      }
    }
  }

  lemma CausalSound(corpus: seq<Memory>, failures: seq<Memory>, s: Source)
    requires Shuffled(corpus, failures) && UniqueIds(corpus)
    requires s in CausalSources(Causal(failures))
    ensures SoundSource(corpus, SameSymptomDiffCause, s, BodyFailureCause)
    ensures s.forbidden != []
  {
    hide SoundSource, IsStructured, HasCause;
    var causal := Causal(failures);
    var i :| 0 <= i < |causal| && CausalSources(causal)[i] == s;
    var m := causal[i];
    var forbidden := Confounders(m, causal);
    forall row | row in causal ensures row in corpus {
      assert row in WithCause(failures);
      FailuresInCorpus(corpus, failures, row);
    }
    assert m in causal;
    ForbiddenSound(corpus, SameSymptomDiffCause, m, BodyFailureCause, forbidden);
    assert s.forbidden == IdsOf(forbidden);
    assert HasConfounder(WithCause(failures), m);
    var other :| other in WithCause(failures) && Confounds(m, other);
    assert HasConfounder(WithCause(failures), other) by {
      assert Confounds(other, m) && m in WithCause(failures);
    }
    assert other in causal && other in forbidden;
    assert other.id in IdsOf(forbidden);
  }

  lemma {:induction false} ContainsUses(text: string, part: string, c: char)
    requires Contains(text, part) && c in part
    ensures c in text
  {
    if part <= text {
      var i :| 0 <= i < |part| && part[i] == c;
      assert text[i] == c;
    } else {
      ContainsUses(text[1..], part, c);
    }
  }

  lemma {:induction false} ContainsAt(text: string, part: string, i: nat)
    requires i + |part| <= |text| && text[i..i + |part|] == part
    ensures Contains(text, part)
  {
    if i == 0 {
      assert part == text[..|part|];
    } else {
      assert text[1..][i - 1..i - 1 + |part|] == part;
      ContainsAt(text[1..], part, i - 1);
    }
  }

  lemma ContainsOther()
    ensures !Contains("rh56_right_01", "left") && Contains("rh56_left_01", "left")
  {
    hide Contains;
    ContainsAt("rh56_left_01", "left", 5);
    if Contains("rh56_right_01", "left") {
      assert "left"[2] == 'f';
      ContainsUses("rh56_right_01", "left", 'f');
    }
  }

  /** The other hand's body is never the row's own. */
  lemma OtherBodyDiffers(m: Memory)
    requires HandOf(m).Some?
    ensures m.bodyId != Some(OtherBody(m))
  {
    ContainsOther();
    hide Contains;
  }

  lemma HardSound(corpus: seq<Memory>, failures: seq<Memory>, s: Source)
    requires Shuffled(corpus, failures) && UniqueIds(corpus)
    requires s in HardNegatives(Structured(failures), Structured(failures))
    ensures SoundSource(corpus, HardNegativeBody, s, BodyGestureFailure)
    ensures 0 < |s.forbidden| <= 5
  {
    hide SoundSource, HardNegatives, OtherBody, HandOf, Contains;
    var structured := Structured(failures);
    HardSources(structured, structured);
    assert HardSource(structured, s);
    var m, forbidden := s.memory, Opposites(s.memory, structured);
    forall row | row in structured ensures row in corpus {
      FailuresInCorpus(corpus, failures, row);
    }
    OtherBodyDiffers(m);
    forall row | row in forbidden ensures row in AllOpposites(m, structured) {
    }
    ForbiddenSound(corpus, HardNegativeBody, m, BodyGestureFailure, forbidden);
  }

  // ---------- The whole list ----------

  /** Numbered from 0 and consistent so far. */
  ghost predicate Sofar(corpus: seq<Memory>, queries: seq<Query>) {
    forall i :: 0 <= i < |queries| ==> queries[i].id == i && ConsistentQuery(ById(corpus), queries[i])
  }

  lemma {:induction false} CountBlock(queries: seq<Query>, block: seq<Query>, kind: Kind, k: Kind)
    requires forall q :: q in block ==> q.kind == kind
    ensures CountKind(queries + block, k) == CountKind(queries, k) + (if k == kind then |block| else 0)
  {
    if block == [] {
      assert queries + block == queries;
    } else {
      var init, last := block[..|block| - 1], block[|block| - 1];
      CountBlock(queries, init, kind, k);
      assert (queries + block)[..|queries + block| - 1] == queries + init;
      assert (queries + block)[|queries + block| - 1] == last;
    }
  }

  /** What a lane adds to a list that is in order so far. */
  ghost predicate Adds(corpus: seq<Memory>, queries: seq<Query>, kind: Kind, result: seq<Query>) {
    && (Sofar(corpus, queries) ==> Sofar(corpus, result))
    && |result| == |queries| + Expected(kind)
    && forall k :: CountKind(result, k) == CountKind(queries, k) + (if k == kind then Expected(kind) else 0)
  }

  lemma BlockAdds(corpus: seq<Memory>, queries: seq<Query>, kind: Kind, result: seq<Query>)
    requires queries <= result && |result| == |queries| + Expected(kind)
    requires forall i :: |queries| <= i < |result| ==>
               result[i].id == i && result[i].kind == kind && ConsistentQuery(ById(corpus), result[i])
    ensures Adds(corpus, queries, kind, result)
  {
    hide ConsistentQuery, ById, Expected;
    var block := result[|queries|..];
    assert result == queries + block;
    forall k ensures CountKind(result, k) == CountKind(queries, k) + (if k == kind then |block| else 0) {
      CountBlock(queries, block, kind, k);
    }
  }

  lemma MadeQuery(corpus: seq<Memory>, count: nat, kind: Kind, source: Source, fields: Fields, q: Query)
    requires MakeQuery(corpus, count, kind, source, fields) == Ok(q)
    ensures q.id == count && q.kind == kind && q.source == source.memory.id && q.forbidden == source.forbidden
    ensures SoundSource(corpus, kind, source, fields) ==> ConsistentQuery(ById(corpus), q)
  {
  }

  lemma LaneAdds(corpus: seq<Memory>, queries: seq<Query>, kind: Kind, sources: seq<Source>, fields: Fields,
                 result: seq<Query>)
    requires AllUsable(corpus, sources, fields)
    requires AddLane(corpus, queries, kind, sources, fields) == Ok(result)
    requires forall s :: s in sources ==> SoundSource(corpus, kind, s, fields)
    ensures Adds(corpus, queries, kind, result)
  {
    hide MakeQuery, SoundSource, ConsistentQuery, ById, AddLane, Usable, Adds;
    LaneSucceedsIff(corpus, queries, kind, sources, fields);
    var rows := sources[..Expected(kind)];
    forall i | |queries| <= i < |result|
      ensures result[i].id == i && result[i].kind == kind && ConsistentQuery(ById(corpus), result[i])
    {
      var s := rows[i - |queries|];
      assert s in sources;
      assert MakeQuery(corpus, |queries| + (i - |queries|), kind, rows[i - |queries|], fields) == Ok(result[i]);
      MadeQuery(corpus, i, kind, s, fields, result[i]);
    }
    BlockAdds(corpus, queries, kind, result);
  }

  lemma ErrorsAdd(corpus: seq<Memory>, queries: seq<Query>, failures: seq<Memory>, matches: (nat, Memory) -> bool,
                  result: seq<Query>)
    requires Shuffled(corpus, failures)
    requires AddErrors(corpus, queries, failures, matches, 0) == Ok(result)
    ensures Adds(corpus, queries, ErrorCode, result)
  {
    hide MakeQuery, SoundSource, ConsistentQuery, ById, AddErrors, Adds, ErrorSource;
    ErrorsSucceedIff(corpus, queries, failures, matches, 0);
    forall i | |queries| <= i < |result|
      ensures result[i].id == i && result[i].kind == ErrorCode && ConsistentQuery(ById(corpus), result[i])
    {
      var j := i - |queries|;
      assert Matched(failures, matches, j);
      ErrorSound(corpus, failures, matches, j);
      assert ErrorQuery(corpus, failures, matches, i, 0 + i - |queries|, result[i]);
      MadeQuery(corpus, i, ErrorCode, ErrorSource(failures, matches, j).value, BodyGestureFailure, result[i]);
    }
    BlockAdds(corpus, queries, ErrorCode, result);
  }

  lemma PlainLaneAdds(corpus: seq<Memory>, failures: seq<Memory>, queries: seq<Query>, kind: Kind, rows: seq<Memory>,
                      result: seq<Query>)
    requires Shuffled(corpus, failures) && kind != HardNegativeBody
    requires forall m :: m in rows ==> m in Structured(failures)
    requires AddLane(corpus, queries, kind, Plain(rows), BodyGestureFailure) == Ok(result)
    ensures Adds(corpus, queries, kind, result)
  {
    hide SoundSource, AllUsable, AddLane, Adds;
    PlainUsable(corpus, failures, rows);
    forall s | s in Plain(rows) ensures SoundSource(corpus, kind, s, BodyGestureFailure) {
      PlainSound(corpus, kind, s.memory);
    }
    LaneAdds(corpus, queries, kind, Plain(rows), BodyGestureFailure, result);
  }

  /** The main result on content: for a corpus with unique ids, whatever the lanes produce passes both validators. */
  lemma LanesAreValid(corpus: seq<Memory>, failures: seq<Memory>, matches: (nat, Memory) -> bool)
    requires Shuffled(corpus, failures) && UniqueIds(corpus)
    requires Lanes(corpus, failures, matches).Ok?
    ensures var queries := Lanes(corpus, failures, matches).value;
            |queries| == 300 && Consistent(corpus, queries) && Shaped(queries)
  {
    hide AddLane, AddErrors, Plain, From, CausalSources, Causal, HardNegatives, Structured, Filter, AllUsable,
         SoundSource, Adds;
    var structured := Structured(failures);
    var cjk, en := Filter(IsCjk, structured), Filter(IsEn, structured);
    var q1 := AddLane(corpus, [], CjkToCjk, Plain(cjk), BodyGestureFailure).value;
    var q2 := AddLane(corpus, q1, CjkToEn, Plain(en), BodyGestureFailure).value;
    var q3 := AddLane(corpus, q2, EnToCjk, Plain(From(cjk, 60)), BodyGestureFailure).value;
    var q4 := AddLane(corpus, q3, Mixed, Plain(From(structured, 105)), BodyGestureFailure).value;
    var q5 := AddErrors(corpus, q4, failures, matches, 0).value;
    var q6 := AddLane(corpus, q5, SameSymptomDiffCause, CausalSources(Causal(failures)), BodyFailureCause).value;
    var q7 := AddLane(corpus, q6, HardNegativeBody, HardNegatives(structured, structured), BodyGestureFailure).value;
    FromMembers(cjk, 60);
    FromMembers(structured, 105);
    PlainLaneAdds(corpus, failures, [], CjkToCjk, cjk, q1);
    PlainLaneAdds(corpus, failures, q1, CjkToEn, en, q2);
    PlainLaneAdds(corpus, failures, q2, EnToCjk, From(cjk, 60), q3);
    PlainLaneAdds(corpus, failures, q3, Mixed, From(structured, 105), q4);
    ErrorsAdd(corpus, q4, failures, matches, q5);
    CausalUsable(corpus, failures);
    forall s | s in CausalSources(Causal(failures))
      ensures SoundSource(corpus, SameSymptomDiffCause, s, BodyFailureCause) {
      CausalSound(corpus, failures, s);
    }
    LaneAdds(corpus, q5, SameSymptomDiffCause, CausalSources(Causal(failures)), BodyFailureCause, q6);
    HardUsable(corpus, failures);
    forall s | s in HardNegatives(structured, structured)
      ensures SoundSource(corpus, HardNegativeBody, s, BodyGestureFailure) {
      HardSound(corpus, failures, s);
    }
    LaneAdds(corpus, q6, HardNegativeBody, HardNegatives(structured, structured), BodyGestureFailure, q7);
    SevenLanes(corpus, q1, q2, q3, q4, q5, q6, q7);
  }

  lemma SevenLanes(corpus: seq<Memory>, q1: seq<Query>, q2: seq<Query>, q3: seq<Query>, q4: seq<Query>, q5: seq<Query>,
                   q6: seq<Query>, q7: seq<Query>)
    requires UniqueIds(corpus)
    requires Adds(corpus, [], CjkToCjk, q1) && Adds(corpus, q1, CjkToEn, q2) && Adds(corpus, q2, EnToCjk, q3)
    requires Adds(corpus, q3, Mixed, q4) && Adds(corpus, q4, ErrorCode, q5)
    requires Adds(corpus, q5, SameSymptomDiffCause, q6) && Adds(corpus, q6, HardNegativeBody, q7)
    ensures |q7| == 300 && Consistent(corpus, q7) && Shaped(q7)
  {
    hide ConsistentQuery, ById;
    forall k ensures CountKind(q7, k) == Expected(k) {
      assert CountKind([], k) == 0;
      hide CountKind;
      assert CountKind(q7, k) == CountKind(q6, k) + (if k == HardNegativeBody then 30 else 0);
    }
    assert Sofar(corpus, []);
  }

  // ---------- The need, stated on the corpus itself ----------

  lemma {:induction false} FilterAgree<T(!new)>(p: T -> bool, q: T -> bool, xs: seq<T>)
    requires forall x :: x in xs ==> p(x) == q(x)
    ensures Filter(p, xs) == Filter(q, xs)
  {
    if xs != [] {
      assert xs[0] in xs;
      FilterAgree(p, q, xs[1..]);
    }
  }

  /** The rows that have an opposite among the structured ones. */
  function WithOpposite(structured: seq<Memory>, rows: seq<Memory>): seq<Memory> {
    Filter((m: Memory) => HasOpposite(structured, m), rows)
  }

  lemma OppositesIff(m: Memory, structured: seq<Memory>)
    ensures Opposites(m, structured) != [] <==> HasOpposite(structured, m)
  {
    var found := AllOpposites(m, structured);
    if HasOpposite(structured, m) {
      var other :| other in structured && Opposite(m, other);
      assert other in found;
    }
    if found != [] {
      assert found[0] in found;
    }
  }

  lemma WithOppositeStep(structured: seq<Memory>, rows: seq<Memory>)
    requires rows != []
    ensures |WithOpposite(structured, rows)|
            == (if HasOpposite(structured, rows[0]) then 1 else 0) + |WithOpposite(structured, rows[1..])|
  {
    hide HasOpposite;
  }

  lemma {:induction false} HardNegativeCount(structured: seq<Memory>, rows: seq<Memory>)
    ensures |HardNegatives(structured, rows)| == |WithOpposite(structured, rows)|
  {
    if rows != [] {
      HardNegativeCount(structured, rows[1..]);
      OppositesIff(rows[0], structured);
      WithOppositeStep(structured, rows);
      hide HasOpposite, Opposites, AllOpposites, IdsOf, WithOpposite, Filter;
    }
  }

  predicate Finds(failures: seq<Memory>, matches: (nat, Memory) -> bool, p: nat) {
    exists m :: m in failures && matches(p, m)
  }

  /** What a corpus must hold: the failures are its own rows, in no particular order. */
  ghost predicate Suffices(corpus: seq<Memory>, matches: (nat, Memory) -> bool) {
    var failures := Filter(IsFailureRow, corpus);
    var structured := Structured(failures);
    && |Filter(IsCjk, structured)| >= 105
    && |Filter(IsEn, structured)| >= 45
    && (forall p: nat :: p < PATTERNS ==> Finds(failures, matches, p))
    && |Causal(failures)| >= 30
    && |WithOpposite(structured, structured)| >= 30
  }

  lemma FoundAny(failures: seq<Memory>, matches: (nat, Memory) -> bool, p: nat)
    ensures Found(failures, matches, p) != [] <==> Finds(failures, matches, p)
  {
    var found := Found(failures, matches, p);
    if found != [] {
      assert found[0] in found;
    }
    if m :| m in failures && matches(p, m) {
      assert m in found;
    }
  }

  lemma CountsSurviveShuffle(a: seq<Memory>, b: seq<Memory>)
    requires multiset(a) == multiset(b)
    ensures |Filter(IsCjk, Structured(a))| == |Filter(IsCjk, Structured(b))|
    ensures |Filter(IsEn, Structured(a))| == |Filter(IsEn, Structured(b))|
    ensures |Causal(a)| == |Causal(b)|
    ensures |HardNegatives(Structured(a), Structured(a))| == |HardNegatives(Structured(b), Structured(b))|
  {
    var sa, sb := Structured(a), Structured(b);
    FilterPermutes(IsStructured, a, b);
    FilterPermutes(IsCjk, sa, sb);
    FilterPermutes(IsEn, sa, sb);
    FilterPermutes(HasCause, sa, sb);
    CausalSurvives(WithCause(a), WithCause(b));
    HardNegativeCount(sa, sa);
    HardNegativeCount(sb, sb);
    OppositesSurvive(sa, sb);
  }

  lemma CausalSurvives(a: seq<Memory>, b: seq<Memory>)
    requires multiset(a) == multiset(b)
    ensures |Filter((m: Memory) => HasConfounder(a, m), a)| == |Filter((m: Memory) => HasConfounder(b, m), b)|
  {
    var pa, pb := (m: Memory) => HasConfounder(a, m), (m: Memory) => HasConfounder(b, m);
    forall m ensures pa(m) == pb(m) {
      assert forall other :: other in a <==> other in b by {
        forall other ensures other in a <==> other in b { SameMembers(a, b, other); }
      }
    }
    FilterPermutes(pa, a, b);
    FilterAgree(pa, pb, b);
  }

  lemma OppositesSurvive(a: seq<Memory>, b: seq<Memory>)
    requires multiset(a) == multiset(b)
    ensures |WithOpposite(a, a)| == |WithOpposite(b, b)|
  {
    hide Opposite;
    var pa, pb := (m: Memory) => HasOpposite(a, m), (m: Memory) => HasOpposite(b, m);
    forall m ensures pa(m) == pb(m) {
      assert forall other :: other in a <==> other in b by {
        forall other ensures other in a <==> other in b { SameMembers(a, b, other); }
      }
    }
    FilterPermutes(pa, a, b);
    FilterAgree(pa, pb, b);
  }

  lemma EnoughIffSuffices(corpus: seq<Memory>, failures: seq<Memory>, matches: (nat, Memory) -> bool)
    requires Shuffled(corpus, failures)
    ensures Enough(failures, matches) <==> Suffices(corpus, matches)
  {
    hide Structured, Causal, HardNegatives, Filter, Found, WithOpposite;
    var original := Filter(IsFailureRow, corpus);
    CountsSurviveShuffle(failures, original);
    HardNegativeCount(Structured(original), Structured(original));
    forall p: nat | p < PATTERNS ensures Found(failures, matches, p) != [] <==> Finds(original, matches, p) {
      FoundAny(failures, matches, p);
      forall m ensures m in failures <==> m in original { SameMembers(failures, original, m); }
    }
  }

  /** Exactly when `build_queries` succeeds, for every shuffle: the corpus has unique ids and holds enough rows for
      every lane. Then the 300 queries are consistent with the corpus and have the declared shape. */
  lemma BuildSucceedsIff(corpus: seq<Memory>, failures: seq<Memory>, matches: (nat, Memory) -> bool)
    requires Shuffled(corpus, failures)
    ensures Build(corpus, failures, matches).Ok? <==> UniqueIds(corpus) && Suffices(corpus, matches)
    ensures Build(corpus, failures, matches).Ok? ==>
              var queries := Build(corpus, failures, matches).value;
              |queries| == 300 && Consistent(corpus, queries) && Shaped(queries)
  {
    hide Lanes, Suffices, Enough, Shaped;
    LanesSucceedIff(corpus, failures, matches);
    EnoughIffSuffices(corpus, failures, matches);
    if UniqueIds(corpus) && Lanes(corpus, failures, matches).Ok? {
      LanesAreValid(corpus, failures, matches);
    }
  }
}
