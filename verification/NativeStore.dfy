/** The ranked search of the benchmark's native-store double, benchmarks/memory/regime/fake_native_stack.py.

    Case folding and the whitespace classes of Unicode are parameters.
 */
module NativeStore {
  import opened StableSort
  import opened Text

  /** `str.lower` and `str.isspace`. */
  datatype Chars = Chars(lower: string -> string, space: char -> bool)

  ghost predicate Idempotent(lower: string -> string) {
    forall s :: lower(lower(s)) == lower(s)
  }

  /** A stored value. Values of another type than string are equal when their `same` is. */
  datatype Value = Null | Str(s: string) | Other(same: int, truthy: bool, shown: string)

  type Row = map<string, Value>

  function Get(row: Row, key: string): Value {
    if key in row then row[key] else Null
  }

  predicate SameValue(a: Value, b: Value) {
    if a.Other? && b.Other? then a.same == b.same else a == b
  }

  /** `str(row.get(key) or "")` */
  function Shown(row: Row, key: string): string {
    match Get(row, key)
    case Null => ""
    case Str(s) => s
    case Other(_, truthy, shown) => if truthy then shown else ""
  }

  function IdOf(row: Row): string {
    Shown(row, "id")
  }

  predicate Matches(row: Row, filters: map<string, Value>) {
    forall key :: key in filters ==> SameValue(Get(row, key), filters[key])
  }

  // ---------- Scoring ----------

  predicate StandsAt(part: string, whole: string, i: nat) {
    i + |part| <= |whole| && whole[i..i + |part|] == part
  }

  /** `part in whole`, on strings. */
  predicate Occurs(part: string, whole: string) {
    exists i: nat :: i <= |whole| && StandsAt(part, whole, i)
  }

  predicate NotSpace(cs: Chars, c: char) {
    !cs.space(c)
  }

  function Compact(cs: Chars, text: string): string {
    Filter((c: char) => NotSpace(cs, c), text)
  }

  function Pairs(compact: string): set<string> {
    if |compact| < 2 then if compact == "" then {} else {compact}
    else set i: nat | i < |compact| - 1 :: PairAt(compact, i)
  }

  function PairAt(s: string, i: nat): string
    requires i + 1 < |s|
  {
    [s[i], s[i + 1]]
  }

  function Bigrams(cs: Chars, text: string): set<string> {
    Pairs(Compact(cs, cs.lower(text)))
  }

  /** The rest of a split in the middle of the word `word`. */
  function SplitFrom(cs: Chars, word: string, text: string): seq<string>
    decreases text
  {
    var done := if word == "" then [] else [word];
    if text == "" then done
    else if cs.space(text[0]) then done + SplitFrom(cs, "", text[1..])
    else SplitFrom(cs, word + [text[0]], text[1..])
  }

  /** `text.split()` */
  function Split(cs: Chars, text: string): seq<string> {
    SplitFrom(cs, "", text)
  }

  function Words(cs: Chars, query: string): seq<string> {
    Filter((t: string) => |t| >= 2, Split(cs, query))
  }

  function WordScore(cs: Chars, document: string, query: string): real {
    var words := Words(cs, query);
    if words == [] then 0.0
    else |Filter((t: string) => Occurs(t, document), words)| as real / |words| as real
  }

  function BigramScore(cs: Chars, document: string, query: string): real {
    var wanted := Bigrams(cs, query);
    if wanted == {} then 0.0 else |wanted * Bigrams(cs, document)| as real / |wanted| as real
  }

  function DocumentOf(cs: Chars, row: Row): string {
    cs.lower(Shown(row, "document") + " " + Shown(row, "title"))
  }

  function Score(cs: Chars, row: Row, queryText: string): real {
    var word := WordScore(cs, DocumentOf(cs, row), cs.lower(queryText));
    var bigram := BigramScore(cs, DocumentOf(cs, row), cs.lower(queryText));
    if word >= bigram then word else bigram
  }

  lemma ShareBounds(part: nat, whole: nat)
    requires part <= whole && whole > 0
    ensures 0.0 <= part as real / whole as real <= 1.0
    ensures part as real / whole as real == 1.0 <==> part == whole
    ensures part as real / whole as real > 0.0 <==> part > 0
  {
  }

  lemma SharedSubset(a: set<string>, b: set<string>)
    ensures |a * b| <= |a|
    ensures |a * b| == |a| <==> a <= b
    ensures |a * b| > 0 <==> exists x :: x in a && x in b
  {
    assert a == a * b + (a - b);
    assert |a| == |a * b| + |a - b|;
    if a * b != {} {
      var x :| x in a * b;
    }
    if x :| x in a && x in b {
      assert x in a * b;
    }
  }

  /** A word of at least two characters of the query occurs in the document. */
  predicate SharesWord(cs: Chars, document: string, query: string) {
    exists t :: t in Words(cs, query) && Occurs(t, document)
  }

  predicate SharesBigram(cs: Chars, document: string, query: string) {
    exists b :: b in Bigrams(cs, query) && b in Bigrams(cs, document)
  }

  lemma WordScoreMeans(cs: Chars, document: string, query: string)
    ensures 0.0 <= WordScore(cs, document, query) <= 1.0
    ensures WordScore(cs, document, query) > 0.0 <==> SharesWord(cs, document, query)
    ensures WordScore(cs, document, query) == 1.0 <==>
            Words(cs, query) != [] && forall t :: t in Words(cs, query) ==> Occurs(t, document)
  {
    hide Words, Occurs;
    var words := Words(cs, query);
    var hits := Filter((t: string) => Occurs(t, document), words);
    if words != [] {
      ShareBounds(|hits|, |words|);
      FilterAllIff((t: string) => Occurs(t, document), words);
      if |hits| > 0 {
        assert hits[0] in hits;
      }
    }
  }

  lemma BigramScoreMeans(cs: Chars, document: string, query: string)
    ensures 0.0 <= BigramScore(cs, document, query) <= 1.0
    ensures BigramScore(cs, document, query) > 0.0 <==> SharesBigram(cs, document, query)
    ensures BigramScore(cs, document, query) == 1.0 <==>
            Bigrams(cs, query) != {} && Bigrams(cs, query) <= Bigrams(cs, document)
  {
    hide Bigrams;
    var wanted, found := Bigrams(cs, query), Bigrams(cs, document);
    if wanted != {} {
      SharedSubset(wanted, found);
      ShareBounds(|wanted * found|, |wanted|);
    }
  }

  /** A score is a share, and it is positive exactly when query and document have a word or a bigram in common. */
  lemma ScoreMeans(cs: Chars, row: Row, queryText: string)
    ensures 0.0 <= Score(cs, row, queryText) <= 1.0
    ensures Score(cs, row, queryText) > 0.0 <==>
            || SharesWord(cs, DocumentOf(cs, row), cs.lower(queryText))
            || SharesBigram(cs, DocumentOf(cs, row), cs.lower(queryText))
  {
    hide WordScore, BigramScore, SharesWord, SharesBigram, DocumentOf;
    WordScoreMeans(cs, DocumentOf(cs, row), cs.lower(queryText));
    BigramScoreMeans(cs, DocumentOf(cs, row), cs.lower(queryText));
  }

  /** The words, by position, that occur in the document. */
  function Hit(words: seq<string>, document: string, n: nat): set<nat>
    requires n <= |words|
  {
    set i: nat | i < n && Occurs(words[i], document)
  }

  lemma HitNext(words: seq<string>, document: string, n: nat)
    requires 0 < n <= |words|
    ensures |Hit(words, document, n)| == |Hit(words, document, n - 1)| + if Occurs(words[n - 1], document) then 1 else 0
  {
    hide Occurs;
    if Occurs(words[n - 1], document) {
      assert Hit(words, document, n) == Hit(words, document, n - 1) + {n - 1};
    } else {
      assert Hit(words, document, n) == Hit(words, document, n - 1);
    }
  }

  lemma {:induction false} HitsCount(words: seq<string>, document: string, n: nat)
    requires n <= |words|
    ensures |Filter((t: string) => Occurs(t, document), words[..n])| == |Hit(words, document, n)|
  {
    hide Occurs;
    if n == 0 {
      assert Hit(words, document, 0) == {};
    } else {
      HitsCount(words, document, n - 1);
      FilterSnoc((t: string) => Occurs(t, document), words[..n - 1], words[n - 1]);
      HitNext(words, document, n);
      hide Hit, Filter;
      assert words[..n] == words[..n - 1] + [words[n - 1]];
    }
  }

  /** The score is the better of two shares: of the query's words of two characters, by position, that occur in the
      document, and of the query's bigrams that are bigrams of the document. No words or no bigrams count as zero. */
  lemma ScoreIsBetterShare(cs: Chars, row: Row, queryText: string)
    ensures var document, query := DocumentOf(cs, row), cs.lower(queryText);
            var words, bigrams := Words(cs, query), Bigrams(cs, query);
            var shared := set b | b in bigrams && b in Bigrams(cs, document);
            var byWord := if words == [] then 0.0 else |Hit(words, document, |words|)| as real / |words| as real;
            var byBigram := if bigrams == {} then 0.0 else |shared| as real / |bigrams| as real;
            && Score(cs, row, queryText) >= byWord && Score(cs, row, queryText) >= byBigram
            && (Score(cs, row, queryText) == byWord || Score(cs, row, queryText) == byBigram)
  {
    hide Words, Bigrams, Occurs, Hit, DocumentOf;
    var document, query := DocumentOf(cs, row), cs.lower(queryText);
    var words, bigrams := Words(cs, query), Bigrams(cs, query);
    HitsCount(words, document, |words|);
    assert words[..|words|] == words;
    assert bigrams * Bigrams(cs, document) == set b | b in bigrams && b in Bigrams(cs, document);
  }

  lemma {:induction false} FilterAllIff<T(!new)>(p: T -> bool, xs: seq<T>)
    ensures |Filter(p, xs)| == |xs| <==> forall x :: x in xs ==> p(x)
  {
    if xs != [] {
      FilterAllIff(p, xs[1..]);
      assert xs == [xs[0]] + xs[1..];
    }
  }

  lemma OccursAt(part: string, whole: string, before: string, after: string)
    requires whole == before + part + after
    ensures Occurs(part, whole)
  {
    assert StandsAt(part, whole, |before|);
  }

  lemma OccursSplits(part: string, whole: string) returns (before: string, after: string)
    requires Occurs(part, whole)
    ensures whole == before + part + after
  {
    var i: nat :| i <= |whole| && StandsAt(part, whole, i);
    before, after := whole[..i], whole[i + |part|..];
  }

  lemma OccursTransitive(a: string, b: string, c: string)
    requires Occurs(a, b) && Occurs(b, c)
    ensures Occurs(a, c)
  {
    var before, after := OccursSplits(a, b);
    var left, right := OccursSplits(b, c);
    assert c == (left + before) + a + (after + right);
    OccursAt(a, c, left + before, after + right);
  }

  lemma TailOccurs(word: string, text: string)
    requires text != ""
    ensures Occurs(text[1..], word + text)
  {
    assert word + text == (word + [text[0]]) + text[1..] + "";
    OccursAt(text[1..], word + text, word + [text[0]], "");
  }

  /** The words of a text occur in it and hold no space. */
  lemma {:induction false} SplitOccurs(cs: Chars, word: string, text: string, w: string)
    requires w in SplitFrom(cs, word, text)
    requires forall c :: c in word ==> !cs.space(c)
    ensures Occurs(w, word + text)
    ensures forall c :: c in w ==> !cs.space(c)
    decreases text
  {
    hide Occurs;
    if w == word {
      OccursAt(w, word + text, "", text);
    } else if text != "" {
      if cs.space(text[0]) {
        SplitOccurs(cs, "", text[1..], w);
        assert "" + text[1..] == text[1..];
        TailOccurs(word, text);
        OccursTransitive(w, text[1..], word + text);
      } else {
        SplitOccurs(cs, word + [text[0]], text[1..], w);
        assert word + [text[0]] + text[1..] == word + text;
      }
    }
  }

  lemma WordOccurs(cs: Chars, query: string, w: string)
    requires w in Words(cs, query)
    ensures |w| >= 2 && Occurs(w, query)
    ensures forall c :: c in w ==> !cs.space(c)
  {
    SplitOccurs(cs, "", query, w);
    assert "" + query == query;
  }

  lemma PairsOccur(part: string, whole: string)
    requires |part| >= 2 && Occurs(part, whole)
    ensures Pairs(part) <= Pairs(whole)
  {
    var before, after := OccursSplits(part, whole);
    forall b | b in Pairs(part) ensures b in Pairs(whole) {
      var i: nat :| i < |part| - 1 && PairAt(part, i) == b;
      assert PairAt(whole, |before| + i) == b;
    }
  }

  lemma CompactOccurs(cs: Chars, part: string, whole: string)
    requires Occurs(part, whole)
    ensures Occurs(Compact(cs, part), Compact(cs, whole))
  {
    var before, after := OccursSplits(part, whole);
    var p := (c: char) => NotSpace(cs, c);
    FilterConcat(p, before + part, after);
    FilterConcat(p, before, part);
    assert Compact(cs, whole) == Compact(cs, before) + Compact(cs, part) + Compact(cs, after);
    OccursAt(Compact(cs, part), Compact(cs, whole), Compact(cs, before), Compact(cs, after));
  }

  /** A document that contains the whole query, of at least two visible characters, has the full score. */
  lemma ContainedScoresOne(cs: Chars, row: Row, queryText: string)
    requires Idempotent(cs.lower)
    requires Occurs(cs.lower(queryText), DocumentOf(cs, row))
    requires |Compact(cs, cs.lower(queryText))| >= 2
    ensures Score(cs, row, queryText) == 1.0
  {
    hide Compact, Pairs, Words, WordScore, BigramScore, Occurs;
    var query, document := cs.lower(queryText), DocumentOf(cs, row);
    assert cs.lower(query) == query && cs.lower(document) == document;
    CompactOccurs(cs, query, document);
    PairsOccur(Compact(cs, query), Compact(cs, document));
    PairsNonEmpty(Compact(cs, query));
    WordScoreMeans(cs, document, query);
    BigramScoreMeans(cs, document, query);
  }

  lemma PairsNonEmpty(compact: string)
    requires compact != ""
    ensures Pairs(compact) != {}
    ensures |compact| == 1 ==>
              forall other: string ::
                (exists b :: b in Pairs(compact) && b in Pairs(other)) <==> other == compact
  {
    if |compact| >= 2 {
      assert PairAt(compact, 0) in Pairs(compact);
    } else {
      forall other: string ensures (exists b :: b in Pairs(compact) && b in Pairs(other)) <==> other == compact {
        assert compact in Pairs(compact);
      }
    }
  }

  lemma CompactOfWord(cs: Chars, w: string)
    requires forall c :: c in w ==> !cs.space(c)
    ensures |Compact(cs, w)| == |w|
  {
    FilterAllIff((c: char) => NotSpace(cs, c), w);
  }

  /** A query of one visible character finds only the document that is that character: a longer document
      that contains it scores zero. */
  lemma OneCharacterQuery(cs: Chars, row: Row, queryText: string)
    requires Idempotent(cs.lower)
    requires |Compact(cs, cs.lower(queryText))| == 1
    ensures Score(cs, row, queryText) > 0.0 <==> Compact(cs, DocumentOf(cs, row)) == Compact(cs, cs.lower(queryText))
  {
    var query, document := cs.lower(queryText), DocumentOf(cs, row);
    assert cs.lower(query) == query && cs.lower(document) == document;
    ScoreMeans(cs, row, queryText);
    PairsNonEmpty(Compact(cs, query));
    hide Compact, Pairs, Words, Score, Occurs;
    if t :| t in Words(cs, query) && Occurs(t, document) {
      WordOccurs(cs, query, t);
      CompactOccurs(cs, t, query);
      CompactOfWord(cs, t);
      var before, after := OccursSplits(Compact(cs, t), Compact(cs, query));
      assert false;
    }
  }

  /** So every longer document that contains the character is missed. */
  lemma LongerDocumentMissed(cs: Chars, row: Row, queryText: string)
    requires Idempotent(cs.lower)
    requires |Compact(cs, cs.lower(queryText))| == 1 && |Compact(cs, DocumentOf(cs, row))| > 1
    requires Occurs(cs.lower(queryText), DocumentOf(cs, row))
    ensures Score(cs, row, queryText) == 0.0
  {
    hide Compact, Score, Occurs, SharesWord, SharesBigram, DocumentOf;
    OneCharacterQuery(cs, row, queryText);
    ScoreMeans(cs, row, queryText);
  }

  // ---------- Search ----------

  /** The order of the sort key (-score, id). */
  predicate Precedes(cs: Chars, queryText: string, a: Row, b: Row) {
    var x, y := Score(cs, a, queryText), Score(cs, b, queryText);
    x > y || (x == y && LexLe(IdOf(a), IdOf(b)))
  }

  function Ranking(cs: Chars, queryText: string): (Row, Row) -> bool {
    (a, b) => Precedes(cs, queryText, a, b)
  }

  function Matching(filters: map<string, Value>): Row -> bool {
    row => Matches(row, filters)
  }

  function Scoring(cs: Chars, queryText: string): Row -> bool {
    row => Score(cs, row, queryText) > 0.0
  }

  /** All results of a search, before the limit. */
  function Hits(cs: Chars, rows: seq<Row>, queryText: string, filters: map<string, Value>): seq<Row> {
    Filter(Scoring(cs, queryText), Sort(Ranking(cs, queryText), Filter(Matching(filters), rows)))
  }

  function Search(cs: Chars, rows: seq<Row>, queryText: string, filters: map<string, Value>, limit: int): seq<Row> {
    Upto(Hits(cs, rows, queryText, filters), limit)
  }

  lemma RankingIsOrder(cs: Chars, queryText: string)
    ensures TotalPreorder(Ranking(cs, queryText))
    ensures forall a, b :: Ranking(cs, queryText)(a, b) && Ranking(cs, queryText)(b, a) ==>
              Score(cs, a, queryText) == Score(cs, b, queryText) && IdOf(a) == IdOf(b)
  {
    hide Score, IdOf, LexLe;
    var le := Ranking(cs, queryText);
    forall a, b ensures le(a, b) || le(b, a)
                ensures le(a, b) && le(b, a) ==>
                          Score(cs, a, queryText) == Score(cs, b, queryText) && IdOf(a) == IdOf(b) {
      LexLeTotal(IdOf(a), IdOf(b));
    }
    forall a, b, c | le(a, b) && le(b, c) ensures le(a, c) {
      if LexLe(IdOf(a), IdOf(b)) && LexLe(IdOf(b), IdOf(c)) {
        LexLeTransitive(IdOf(a), IdOf(b), IdOf(c));
      }
    }
  }

  /** A row that a search may return. */
  predicate Eligible(cs: Chars, queryText: string, filters: map<string, Value>, row: Row) {
    Matches(row, filters) && Score(cs, row, queryText) > 0.0
  }

  /** The hits are the eligible rows, each as often as it is stored, in rank order. */
  lemma HitsAreEligible(cs: Chars, rows: seq<Row>, queryText: string, filters: map<string, Value>)
    ensures Ordered(Ranking(cs, queryText), Hits(cs, rows, queryText, filters))
    ensures forall row :: multiset(Hits(cs, rows, queryText, filters))[row]
                          == if Eligible(cs, queryText, filters, row) then multiset(rows)[row] else 0
  {
    hide Score, Matches, Precedes, Sort;
    var le, matching := Ranking(cs, queryText), Filter(Matching(filters), rows);
    RankingIsOrder(cs, queryText);
    SortOrdered(le, matching);
    SortPermutes(le, matching);
    FilterOrdered(le, Scoring(cs, queryText), Sort(le, matching));
    forall row ensures multiset(Hits(cs, rows, queryText, filters))[row]
                       == if Eligible(cs, queryText, filters, row) then multiset(rows)[row] else 0 {
      FilterMultiplicity(Scoring(cs, queryText), Sort(le, matching), row);
      FilterMultiplicity(Matching(filters), rows, row);
    }
  }

  lemma {:induction false} FilterOrdered<T(!new)>(le: (T, T) -> bool, p: T -> bool, xs: seq<T>)
    requires Ordered(le, xs)
    ensures Ordered(le, Filter(p, xs))
  {
    if xs != [] {
      FilterOrdered(le, p, xs[1..]);
      forall y | y in xs[1..] ensures le(xs[0], y) {
      }
    }
  }

  /** The better score comes first, and of equal scores the smaller id. */
  lemma HitsRanked(cs: Chars, rows: seq<Row>, queryText: string, filters: map<string, Value>, i: nat, j: nat)
    requires i < j < |Hits(cs, rows, queryText, filters)|
    ensures var a, b := Hits(cs, rows, queryText, filters)[i], Hits(cs, rows, queryText, filters)[j];
            Score(cs, a, queryText) > Score(cs, b, queryText)
            || (Score(cs, a, queryText) == Score(cs, b, queryText) && LexLe(IdOf(a), IdOf(b)))
  {
    hide Hits, Score, IdOf;
    HitsAreEligible(cs, rows, queryText, filters);
    var hits := Hits(cs, rows, queryText, filters);
    assert Ranking(cs, queryText)(hits[i], hits[j]);
  }

  lemma InHits(cs: Chars, rows: seq<Row>, queryText: string, filters: map<string, Value>, row: Row)
    ensures row in Hits(cs, rows, queryText, filters) <==> row in rows && Eligible(cs, queryText, filters, row)
  {
    hide Score, Matches, Ranking, Hits;
    HitsAreEligible(cs, rows, queryText, filters);
    assert row in multiset(rows) <==> row in rows;
    assert row in multiset(Hits(cs, rows, queryText, filters)) <==> row in Hits(cs, rows, queryText, filters);
  }

  /** No eligible row that is left out outranks a returned one, and none is left out before the limit is reached; a
      larger limit only adds rows behind. */
  lemma NothingBetterOmitted(cs: Chars, rows: seq<Row>, queryText: string, filters: map<string, Value>, limit: nat,
                             row: Row)
    requires row in rows && Eligible(cs, queryText, filters, row)
    requires row !in Search(cs, rows, queryText, filters, limit)
    ensures |Search(cs, rows, queryText, filters, limit)| == limit
    ensures forall r :: r in Search(cs, rows, queryText, filters, limit) ==> Precedes(cs, queryText, r, row)
    ensures forall more: nat :: limit <= more ==>
              Search(cs, rows, queryText, filters, limit) <= Search(cs, rows, queryText, filters, more)
  {
    hide Precedes, Hits, Eligible;
    forall more: nat | limit <= more
      ensures Search(cs, rows, queryText, filters, limit) <= Search(cs, rows, queryText, filters, more) {
      SmallerLimitIsPrefix(cs, rows, queryText, filters, limit, more);
    }
    var hits := Hits(cs, rows, queryText, filters);
    HitsAreEligible(cs, rows, queryText, filters);
    InHits(cs, rows, queryText, filters, row);
    var j :| 0 <= j < |hits| && hits[j] == row;
    assert limit <= j;
    forall r | r in hits[..limit] ensures Precedes(cs, queryText, r, row) {
      var i :| 0 <= i < limit && hits[i] == r;
      assert Ranking(cs, queryText)(hits[i], hits[j]);
    }
  }

  /** A smaller limit returns a prefix. */
  lemma SmallerLimitIsPrefix(cs: Chars, rows: seq<Row>, queryText: string, filters: map<string, Value>, small: nat,
                             large: nat)
    requires small <= large
    ensures Search(cs, rows, queryText, filters, small) <= Search(cs, rows, queryText, filters, large)
    ensures |Search(cs, rows, queryText, filters, small)| == small
            || Search(cs, rows, queryText, filters, small) == Hits(cs, rows, queryText, filters)
  {
    hide Hits;
  }

  /** Two different rows that the order cannot tell apart, both eligible. */
  ghost predicate Confusable(cs: Chars, rows: seq<Row>, queryText: string, filters: map<string, Value>, a: Row,
                             b: Row) {
    && a in rows && b in rows && a != b
    && Eligible(cs, queryText, filters, a) && Eligible(cs, queryText, filters, b)
    && Score(cs, a, queryText) == Score(cs, b, queryText) && IdOf(a) == IdOf(b)
  }

  /** Storing the rows in another order does not change what a search returns. */
  ghost predicate OrderFree(cs: Chars, rows: seq<Row>, queryText: string, filters: map<string, Value>) {
    forall other :: multiset(other) == multiset(rows) ==>
      Hits(cs, other, queryText, filters) == Hits(cs, rows, queryText, filters)
  }

  lemma HitsCanonical(cs: Chars, rows: seq<Row>, other: seq<Row>, queryText: string, filters: map<string, Value>)
    requires multiset(rows) == multiset(other)
    requires forall a, b :: !Confusable(cs, rows, queryText, filters, a, b)
    ensures Hits(cs, rows, queryText, filters) == Hits(cs, other, queryText, filters)
  {
    var le, xs, ys := Ranking(cs, queryText), Hits(cs, rows, queryText, filters), Hits(cs, other, queryText, filters);
    RankingIsOrder(cs, queryText);
    HitsAreEligible(cs, rows, queryText, filters);
    HitsAreEligible(cs, other, queryText, filters);
    hide Hits, Eligible, Score, IdOf, Precedes;
    assert multiset(xs) == multiset(ys);
    forall x, y | x in xs && y in xs && le(x, y) && le(y, x) ensures x == y {
      InHits(cs, rows, queryText, filters, x);
      InHits(cs, rows, queryText, filters, y);
      assert !Confusable(cs, rows, queryText, filters, x, y);
    }
    hide Ranking;
    OrderedUnique(le, xs, ys);
  }

  /** A stored row moved to the front. */
  lemma MovedToFront(rows: seq<Row>, a: Row) returns (moved: seq<Row>)
    requires a in rows
    ensures moved != [] && moved[0] == a && multiset(moved) == multiset(rows)
  {
    var i :| 0 <= i < |rows| && rows[i] == a;
    moved := [a] + rows[..i] + rows[i + 1..];
    assert rows == rows[..i] + [a] + rows[i + 1..];
  }

  lemma {:induction false} FilterWithin<T(!new)>(p: T -> bool, q: T -> bool, xs: seq<T>)
    requires forall x :: x in xs && p(x) ==> q(x)
    ensures Filter(p, Filter(q, xs)) == Filter(p, xs)
  {
    if xs != [] {
      FilterWithin(p, q, xs[1..]);
      if q(xs[0]) {
        assert ([xs[0]] + Filter(q, xs[1..]))[1..] == Filter(q, xs[1..]);
      }
    }
  }

  /** Of the rows that tie with an eligible row, the one stored first is returned first. */
  lemma FirstStoredLeads(cs: Chars, rows: seq<Row>, queryText: string, filters: map<string, Value>, a: Row)
    requires rows != [] && rows[0] == a && Eligible(cs, queryText, filters, a)
    ensures var tied := Filter(Tied(Ranking(cs, queryText), a), Hits(cs, rows, queryText, filters));
            tied != [] && tied[0] == a
  {
    var le, matching := Ranking(cs, queryText), Filter(Matching(filters), rows);
    RankingIsOrder(cs, queryText);
    assert Eligible(cs, queryText, filters, a) && le(a, a);
    assert matching != [] && matching[0] == a;
    SortStable(le, matching, a);
    SortPermutes(le, matching);
    hide Score, Sort, Matches, LexLe, IdOf;
    forall x | x in Sort(le, matching) && Tied(le, a)(x) ensures Scoring(cs, queryText)(x) {
    }
    FilterWithin(Tied(le, a), Scoring(cs, queryText), Sort(le, matching));
  }

  /** The results do not depend on the order in which the rows are stored exactly when no two different
      eligible rows tie in score and id. */
  lemma OrderFreeIff(cs: Chars, rows: seq<Row>, queryText: string, filters: map<string, Value>)
    ensures OrderFree(cs, rows, queryText, filters)
            <==> forall a, b :: !Confusable(cs, rows, queryText, filters, a, b)
  {
    hide Hits, Eligible, Score, IdOf;
    if forall a, b :: !Confusable(cs, rows, queryText, filters, a, b) {
      forall other | multiset(other) == multiset(rows)
        ensures Hits(cs, other, queryText, filters) == Hits(cs, rows, queryText, filters) {
        HitsCanonical(cs, rows, other, queryText, filters);
      }
    }
    if a, b :| Confusable(cs, rows, queryText, filters, a, b) {
      var x := MovedToFront(rows, a);
      var y := MovedToFront(rows, b);
      FirstStoredLeads(cs, x, queryText, filters, a);
      FirstStoredLeads(cs, y, queryText, filters, b);
      TiedAlike(cs, queryText, a, b, Hits(cs, x, queryText, filters));
      assert Hits(cs, x, queryText, filters) != Hits(cs, y, queryText, filters);
    }
  }

  lemma {:induction false} TiedAlike(cs: Chars, queryText: string, a: Row, b: Row, xs: seq<Row>)
    requires Score(cs, a, queryText) == Score(cs, b, queryText) && IdOf(a) == IdOf(b)
    ensures Filter(Tied(Ranking(cs, queryText), a), xs) == Filter(Tied(Ranking(cs, queryText), b), xs)
  {
    hide Score, IdOf, LexLe;
    if xs != [] {
      TiedAlike(cs, queryText, a, b, xs[1..]);
    }
  }

  /** With unique ids a search returns the same rows in the same order however the rows are stored. */
  lemma UniqueIdsAreCanonical(cs: Chars, rows: seq<Row>, other: seq<Row>, queryText: string,
                              filters: map<string, Value>, limit: int)
    requires multiset(rows) == multiset(other)
    requires forall i, j :: 0 <= i < j < |rows| ==> IdOf(rows[i]) != IdOf(rows[j])
    ensures Search(cs, rows, queryText, filters, limit) == Search(cs, other, queryText, filters, limit)
  {
    hide Score, Hits, Eligible, IdOf;
    HitsCanonical(cs, rows, other, queryText, filters);
  }
}
