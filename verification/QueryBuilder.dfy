/** `build_queries` as the source runs it: one list of queries that grows lane by lane. */
module QueryBuilder {
  import opened Wrappers
  import opened StableSort
  import opened QueryBench
  import opened QueryGenerator

  class Builder {
    const corpus: seq<Memory>
    var queries: seq<Query>

    constructor (corpus: seq<Memory>)
      ensures this.corpus == corpus && queries == []
    {
      this.corpus := corpus;
      queries := [];
    }

    /** `add`: one query for one source row, or the error that the source raises. */
    method Add(kind: Kind, source: Source, fields: Fields) returns (error: Option<Error>)
      modifies this
      ensures match MakeQuery(corpus, |old(queries)|, kind, source, fields)
              case Ok(q) => error == None && queries == old(queries) + [q]
              case Err(e) => error == Some(e) && queries == old(queries)
    {
      hide LabelFor;
      var labels := source.labels;
      if labels.None? {
        labels := ComputeLabels(source.memory, corpus, fields);
      }
      if labels.None? {
        return Some(MissingFields(source.memory.id));
      }
      if source.memory.id !in labels.value {
        return Some(SourceNotRelevant(source.memory.id));
      }
      queries := queries + [Query(|queries|, kind, labels.value, source.forbidden, source.memory.id)];
      error := None;
    }

    /** `require` and the loop over a lane's rows. */
    method AddRows(kind: Kind, sources: seq<Source>, fields: Fields) returns (error: Option<Error>)
      modifies this
      ensures match AddLane(corpus, old(queries), kind, sources, fields)
              case Ok(result) => error == None && queries == result
              case Err(e) => error == Some(e)
    {
      hide MakeQuery;
      if |sources| < Expected(kind) {
        return Some(LaneShort(kind, |sources|));
      }
      var rows := sources[..Expected(kind)];
      for i := 0 to |rows|
        invariant AddAll(corpus, queries, kind, rows[i..], fields) == AddAll(corpus, old(queries), kind, rows, fields)
      {
        assert rows[i..][0] == rows[i] && rows[i..][1..] == rows[i + 1..];
        error := Add(kind, rows[i], fields);
        if error.Some? {
          return;
        }
      }
      error := None;
    }

    /** The error-code lane: 45 queries over the five patterns in turn. */
    method AddErrorQueries(failures: seq<Memory>, matches: (nat, Memory) -> bool) returns (error: Option<Error>)
      modifies this
      ensures match AddErrors(corpus, old(queries), failures, matches, 0)
              case Ok(result) => error == None && queries == result
              case Err(e) => error == Some(e)
    {
      hide MakeQuery, ErrorSource;
      for i := 0 to Expected(ErrorCode)
        invariant AddErrors(corpus, queries, failures, matches, i)
                  == AddErrors(corpus, old(queries), failures, matches, 0)
      {
        var source := ErrorSource(failures, matches, i);
        if source.Err? {
          return Some(source.error);
        }
        error := Add(ErrorCode, source.value, BodyGestureFailure);
        if error.Some? {
          return;
        }
      }
      error := None;
    }
  }

  /** The groups of root causes by body and failure type. */
  type Groups = map<(Option<string>, Option<string>), set<Option<string>>>

  /** The causes of the rows that share the symptom of `m`. */
  function CausesLike(m: Memory, rows: seq<Memory>): set<Option<string>> {
    set row | row in rows && row.bodyId == m.bodyId && row.failureType == m.failureType :: row.rootCause
  }

  ghost predicate Grouped(groups: Groups, rows: seq<Memory>) {
    forall m :: m in rows ==>
      (m.bodyId, m.failureType) in groups && groups[(m.bodyId, m.failureType)] == CausesLike(m, rows)
  }

  ghost predicate NothingElse(groups: Groups, rows: seq<Memory>) {
    forall key :: key in groups ==> exists m :: m in rows && (m.bodyId, m.failureType) == key
  }

  lemma GroupedNext(groups: Groups, rows: seq<Memory>, m: Memory, next: Groups)
    requires Grouped(groups, rows) && NothingElse(groups, rows)
    requires var key := (m.bodyId, m.failureType);
             next == groups[key := (if key in groups then groups[key] else {}) + {m.rootCause}]
    ensures Grouped(next, rows + [m]) && NothingElse(next, rows + [m])
  {
    var key := (m.bodyId, m.failureType);
    forall other | other in rows + [m]
      ensures (other.bodyId, other.failureType) in next
              && next[(other.bodyId, other.failureType)] == CausesLike(other, rows + [m])
    {
      if (other.bodyId, other.failureType) == key {
        assert CausesLike(other, rows + [m]) == CausesLike(m, rows) + {m.rootCause};
        if key in groups {
          var peer :| peer in rows && (peer.bodyId, peer.failureType) == key;
          assert CausesLike(peer, rows) == CausesLike(m, rows);
        } else {
          assert CausesLike(m, rows) == {};
        }
      } else {
        assert CausesLike(other, rows + [m]) == CausesLike(other, rows);
      }
    }
    forall k | k in next ensures exists peer :: peer in rows + [m] && (peer.bodyId, peer.failureType) == k {
      if k == key {
        assert m in rows + [m];
      } else {
        var peer :| peer in rows && (peer.bodyId, peer.failureType) == k;
        assert peer in rows + [m];
      }
    }
  }

  lemma TwoMembers<T>(s: set<T>, x: T)
    requires x in s
    ensures |s| >= 2 <==> exists y :: y in s && y != x
  {
    var rest := s - {x};
    assert s == rest + {x};
    if |rest| > 0 {
      var y :| y in rest;
    } else {
      assert rest == {};
    }
  }

  /** A group of at least two causes is a group with a confounder. */
  lemma TwoCauses(m: Memory, rows: seq<Memory>)
    requires m in rows
    ensures |CausesLike(m, rows)| >= 2 <==> HasConfounder(rows, m)
  {
    var causes := CausesLike(m, rows);
    assert m.rootCause in causes;
    TwoMembers(causes, m.rootCause);
    if HasConfounder(rows, m) {
      var other :| other in rows && Confounds(m, other);
      assert other.rootCause in causes;
    }
  }

  /** The causes of every symptom, collected in one pass. */
  method GroupCauses(rows: seq<Memory>) returns (groups: Groups)
    ensures Grouped(groups, rows)
  {
    hide CausesLike;
    groups := map[];
    for i := 0 to |rows|
      invariant Grouped(groups, rows[..i]) && NothingElse(groups, rows[..i])
    {
      var key := (rows[i].bodyId, rows[i].failureType);
      ghost var before := groups;
      groups := groups[key := (if key in groups then groups[key] else {}) + {rows[i].rootCause}];
      GroupedNext(before, rows[..i], rows[i], groups);
      assert rows[..i + 1] == rows[..i] + [rows[i]];
    }
    assert rows[..|rows|] == rows;
  }

  /** The rows whose group has at least two causes. */
  method SelectCausal(failures: seq<Memory>) returns (causal: seq<Memory>)
    ensures causal == Causal(failures)
  {
    hide WithCause, CausesLike, HasConfounder;
    var rows := WithCause(failures);
    var groups := GroupCauses(rows);
    var confounded := (m: Memory) => HasConfounder(rows, m);
    causal := [];
    for i := 0 to |rows|
      invariant causal == Filter(confounded, rows[..i])
    {
      var m := rows[i];
      assert rows[..i + 1] == rows[..i] + [m];
      FilterSnoc(confounded, rows[..i], m);
      TwoCauses(m, rows);
      assert m in rows;
      if |groups[(m.bodyId, m.failureType)]| >= 2 {
        causal := causal + [m];
      }
    }
    assert rows[..|rows|] == rows;
  }

  /** The rows with forbidden rows on the other body. */
  method SelectHardNegatives(structured: seq<Memory>) returns (sources: seq<Source>)
    ensures sources == HardNegatives(structured, structured)
  {
    hide HardSourceOf;
    sources := [];
    for i := 0 to |structured|
      invariant sources + HardNegatives(structured, structured[i..]) == HardNegatives(structured, structured)
    {
      assert structured[i..][1..] == structured[i + 1..];
      sources := sources + HardSourceOf(structured[i], structured);
    }
  }

  /** The whole of `build_queries`, given the shuffled failures. */
  method BuildQueries(corpus: seq<Memory>, failures: seq<Memory>, matches: (nat, Memory) -> bool)
    returns (result: Result<seq<Query>, Error>)
    ensures result == Build(corpus, failures, matches)
  {
    hide AddLane, AddErrors, Plain, From, CausalSources, Causal, HardNegatives, Structured, Filter, Shaped, Consistent;
    var structured := Structured(failures);
    var cjk, en := Filter(IsCjk, structured), Filter(IsEn, structured);
    var builder := new Builder(corpus);
    var error := builder.AddRows(CjkToCjk, Plain(cjk), BodyGestureFailure);
    if error.Some? {
      return Err(error.value);
    }
    error := builder.AddRows(CjkToEn, Plain(en), BodyGestureFailure);
    if error.Some? {
      return Err(error.value);
    }
    error := builder.AddRows(EnToCjk, Plain(From(cjk, 60)), BodyGestureFailure);
    if error.Some? {
      return Err(error.value);
    }
    error := builder.AddRows(Mixed, Plain(From(structured, 105)), BodyGestureFailure);
    if error.Some? {
      return Err(error.value);
    }
    error := builder.AddErrorQueries(failures, matches);
    if error.Some? {
      return Err(error.value);
    }
    var causal := SelectCausal(failures);
    error := builder.AddRows(SameSymptomDiffCause, CausalSources(causal), BodyFailureCause);
    if error.Some? {
      return Err(error.value);
    }
    var hard := SelectHardNegatives(structured);
    error := builder.AddRows(HardNegativeBody, hard, BodyGestureFailure);
    if error.Some? {
      return Err(error.value);
    }
    var queries := builder.queries;
    assert Lanes(corpus, failures, matches) == Ok(queries);
    if |queries| != 300 {
      return Err(WrongTotal(|queries|));
    }
    var issue := ValidateQueries(corpus, queries);
    if issue.Some? {
      return Err(Rejected);
    }
    var shaped := ValidateBenchmarkShape(queries);
    result := if shaped then Ok(queries) else Err(Misshapen);
  }
}
