/**
The answer to a query in plain terms: which documents, how many, in which order and with
which scores. Nothing here is used by the client, the enclave or the server.
*/
module TenBest {
  import opened Options
  import opened Formula
  import opened Index
  import opened IntVectors
  import opened Meaning
  import opened Query
  import opened QueryText
  import opened Ranking

  // ------------------------------------------------------------------ the documents

  /** The documents that a query asks for. */
  ghost function Satisfying(docs: seq<Document>, q: Disjunction): set<int> {
    set d | 0 <= d < |docs| && Satisfies(docs[d], q)
  }

  /** The documents with a word. */
  ghost function Holding(docs: seq<Document>, w: string): set<int> {
    set d | 0 <= d < |docs| && Occurs(docs[d], w)
  }

  // --------------------------------------------------------------------- the scores

  /** How often a word occurs in a document. */
  ghost function Frequency(d: Document, w: string): int {
    if i :| 0 <= i < |d| && d[i].0 == w then d[i].1 else 0
  }

  /** Frequency times the logarithm of the number of documents over the number of those with the word. */
  ghost function WordScore(docs: seq<Document>, log: real -> real, w: string, d: int): real {
    if d in Holding(docs, w)
    then Frequency(docs[d], w) as real * log(|docs| as real / |Holding(docs, w)| as real)
    else 0.0
  }

  /** The sum over all words of the text, repeated ones repeatedly. */
  ghost function QueryScore(docs: seq<Document>, log: real -> real, q: Disjunction, d: int): real {
    match q
    case OneConjunction(c) => ConjunctionScore(docs, log, c, d)
    case OrElse(l, _, _, r) => QueryScore(docs, log, l, d) + ConjunctionScore(docs, log, r, d)
  }

  ghost function ConjunctionScore(docs: seq<Document>, log: real -> real, c: Conjunction, d: int): real {
    match c
    case OneFactor(f) => FactorScore(docs, log, f, d)
    case AndAlso(l, _, _, r) => ConjunctionScore(docs, log, l, d) + FactorScore(docs, log, r, d)
  }

  ghost function FactorScore(docs: seq<Document>, log: real -> real, f: Factor, d: int): real {
    match f
    case Keyword(_, text) => WordScore(docs, log, Term(text), d)
    case Bang(_, arg) => FactorScore(docs, log, arg, d)
    case Parentheses(_, q, _) => QueryScore(docs, log, q, d)
  }

  // --------------------------------------------------------------------- the answer

  /**
  The ten best of the documents in `found`, or all of them if there are fewer: each once, with its score
  as the client reads it, in descending order, and none that is left out has a higher score.
  */
  ghost predicate AreTenBest(pairs: seq<Scored>, found: set<int>, score: int -> real, seen: real -> real) {
    && |pairs| == (if |found| < 10 then |found| else 10)
    && (forall i :: 0 <= i < |pairs| ==> pairs[i].doc in found && pairs[i].score == seen(score(pairs[i].doc)))
    && (forall i, j :: 0 <= i < j < |pairs| ==>
          pairs[i].doc != pairs[j].doc && score(pairs[i].doc) >= score(pairs[j].doc))
    && (forall d, i :: d in found && (forall j :: 0 <= j < |pairs| ==> pairs[j].doc != d) && 0 <= i < |pairs| ==>
          score(d) <= score(pairs[i].doc))
  }

  /** The pairs answer the query. */
  ghost predicate Answers(pairs: seq<Scored>, f: DoubleFormat, docs: seq<Document>, log: real -> real, q: Disjunction) {
    AreTenBest(pairs, Satisfying(docs, q), d => QueryScore(docs, log, q, d), x => f.read(f.write(x)))
  }

  // ----------------------------------------------------------- satisfying documents

  lemma {:induction false} SatisfiesIs(d: Document, q: Disjunction)
    ensures Satisfies(d, q) <==> Holds(Erase(TreeOf(q)), Has(d))
    decreases q
  {
    match q
    case OneConjunction(c) => ConjunctionIs(d, c);
    case OrElse(l, _, _, r) =>
      SatisfiesIs(d, l);
      ConjunctionIs(d, r);
  }

  lemma {:induction false} ConjunctionIs(d: Document, c: Conjunction)
    ensures SatisfiesConjunction(d, c) <==> Holds(Erase(TreeOfConjunction(c)), Has(d))
    decreases c
  {
    match c
    case OneFactor(f) => FactorIs(d, f);
    case AndAlso(l, _, _, r) =>
      ConjunctionIs(d, l);
      FactorIs(d, r);
  }

  lemma {:induction false} FactorIs(d: Document, f: Factor)
    ensures SatisfiesFactor(d, f) <==> Holds(Erase(TreeOfFactor(f)), Has(d))
    decreases f
  {
    hide Occurs, HasWord;
    match f
    case Keyword(_, text) => OccursIs(d, Term(text));
    case Bang(_, arg) => FactorIs(d, arg);
    case Parentheses(_, q, _) => SatisfiesIs(d, q);
  }

  lemma SatisfyingIs(docs: seq<Document>, q: Disjunction)
    ensures var found := Matching(docs, Erase(TreeOf(q)));
            ToSet(found) == Satisfying(docs, q) && |Satisfying(docs, q)| == |found| && Distinct(found)
  {
    var e := Erase(TreeOf(q));
    MatchingIs(docs, e);
    hide Satisfies, Matching;
    forall d | 0 <= d < |docs| ensures Satisfies(docs[d], q) <==> Holds(e, Has(docs[d])) {
      SatisfiesIs(docs[d], q);
    }
    IncreasingIsDistinct(Matching(docs, e));
    DistinctSize(Matching(docs, e));
    assert ToSet(Matching(docs, e)) == Satisfying(docs, q);
  }

  lemma HoldingIs(docs: seq<Document>, w: string)
    ensures ToSet(PostingIds(docs, w)) == Holding(docs, w) && |Holding(docs, w)| == |Postings(docs, w)|
  {
    PostingListExact(docs, w);
    hide Occurs, HasWord;
    forall d | 0 <= d < |docs| ensures Occurs(docs[d], w) <==> HasWord(docs[d], w) {
      OccursIs(docs[d], w);
    }
    DistinctSize(PostingIds(docs, w));
    assert ToSet(PostingIds(docs, w)) == Holding(docs, w);
  }

  // ------------------------------------------------------------------- their scores

  lemma FrequencyIs(d: Document, w: string)
    requires ValidDocument(d) && HasWord(d, w)
    ensures Occurs(d, w) && Frequency(d, w) == Lookup(d, w).value
  {
    var i := LookupFinds(d, w);
  }

  lemma WordScoreIs(docs: seq<Document>, log: real -> real, w: string, d: int)
    requires ValidDocuments(docs)
    ensures WordScore(docs, log, w, d) == TermWeight(docs, log, w, d)
  {
    HoldingIs(docs, w);
    PostingListExact(docs, w);
    hide Occurs, HasWord, Frequency, Postings;
    if d in Holding(docs, w) {
      OccursIs(docs[d], w);
      FrequencyIs(docs[d], w);
    } else if 0 <= d < |docs| {
      OccursIs(docs[d], w);
    }
  }

  lemma RelevanceOfOne(docs: seq<Document>, log: real -> real, t: Token, d: int)
    ensures Relevance(docs, log, [t], d) == if t.WordToken? then TermWeight(docs, log, t.word, d) else 0.0
  {
    hide TermWeight;
    assert [t][..0] == [];
    assert Relevance(docs, log, [], d) == 0.0;
  }

  /** Operators and parentheses add nothing. */
  lemma RelevanceOfThree(docs: seq<Document>, log: real -> real, a: seq<Token>, t: Token, b: seq<Token>, d: int)
    requires !t.WordToken?
    ensures Relevance(docs, log, a + [t] + b, d) == Relevance(docs, log, a, d) + Relevance(docs, log, b, d)
  {
    hide TermWeight, Relevance;
    RelevanceConcat(docs, log, a + [t], b, d);
    RelevanceConcat(docs, log, a, [t], d);
    RelevanceOfOne(docs, log, t, d);
  }

  lemma {:induction false} QueryScoreIs(docs: seq<Document>, log: real -> real, q: Disjunction, d: int)
    requires ValidDocuments(docs)
    ensures QueryScore(docs, log, q, d) == Relevance(docs, log, Print(TreeOf(q)), d)
    decreases q
  {
    hide Relevance, ValidDocuments, ConjunctionScore, TreeOfConjunction;
    match q
    case OneConjunction(c) => ConjunctionScoreIs(docs, log, c, d);
    case OrElse(l, _, _, r) =>
      QueryScoreIs(docs, log, l, d);
      ConjunctionScoreIs(docs, log, r, d);
      RelevanceOfThree(docs, log, Print(TreeOf(l)), OrToken, Print(TreeOfConjunction(r)), d);
  }

  lemma {:induction false} ConjunctionScoreIs(docs: seq<Document>, log: real -> real, c: Conjunction, d: int)
    requires ValidDocuments(docs)
    ensures ConjunctionScore(docs, log, c, d) == Relevance(docs, log, Print(TreeOfConjunction(c)), d)
    decreases c
  {
    hide Relevance, ValidDocuments, FactorScore, TreeOfFactor;
    match c
    case OneFactor(f) => FactorScoreIs(docs, log, f, d);
    case AndAlso(l, _, _, r) =>
      ConjunctionScoreIs(docs, log, l, d);
      FactorScoreIs(docs, log, r, d);
      RelevanceOfThree(docs, log, Print(TreeOfConjunction(l)), AndToken, Print(TreeOfFactor(r)), d);
  }

  lemma {:induction false} FactorScoreIs(docs: seq<Document>, log: real -> real, f: Factor, d: int)
    requires ValidDocuments(docs)
    ensures FactorScore(docs, log, f, d) == Relevance(docs, log, Print(TreeOfFactor(f)), d)
    decreases f
  {
    hide Relevance, WordScore, TermWeight, ValidDocuments, QueryScore, TreeOf;
    match f
    case Keyword(_, text) =>
      WordScoreIs(docs, log, Term(text), d);
      RelevanceOfOne(docs, log, WordToken(Term(text)), d);
    case Bang(_, arg) =>
      FactorScoreIs(docs, log, arg, d);
      RelevanceConcat(docs, log, [NotToken], Print(TreeOfFactor(arg)), d);
      RelevanceOfOne(docs, log, NotToken, d);
    case Parentheses(_, q, _) =>
      QueryScoreIs(docs, log, q, d);
      RelevanceConcat(docs, log, [OpenToken] + Print(TreeOf(q)), [CloseToken], d);
      RelevanceConcat(docs, log, [OpenToken], Print(TreeOf(q)), d);
      RelevanceOfOne(docs, log, OpenToken, d);
      RelevanceOfOne(docs, log, CloseToken, d);
  }

  // -------------------------------------------------------------- the ten best of them

  /** Documents with their scores. */
  function Pair(found: seq<int>, score: int -> real): (s: seq<Scored>)
    ensures |s| == |found|
  {
    seq(|found|, i requires 0 <= i < |found| => Scored(found[i], score(found[i])))
  }

  lemma {:induction false} PairedOnce(found: seq<int>, score: int -> real, p: Scored)
    requires Distinct(found)
    ensures multiset(Pair(found, score))[p] == if p.doc in found && p.score == score(p.doc) then 1 else 0
    decreases |found|
  {
    if |found| == 0 {
    } else {
      var n := |found| - 1;
      PairedOnce(found[..n], score, p);
      assert Pair(found, score) == Pair(found[..n], score) + [Scored(found[n], score(found[n]))];
      assert found == found[..n] + [found[n]];
    }
  }

  lemma TwiceThere(s: seq<Scored>, i: nat, j: nat)
    requires i < j < |s| && s[i] == s[j]
    ensures multiset(s)[s[i]] >= 2
  {
    var a, b := s[..j], s[j..];
    assert s == a + b;
    assert a[i] == s[i] && b[0] == s[j];
    assert s[i] in multiset(a) && s[i] in multiset(b);
  }

  lemma TopOfPairs(top: seq<Scored>, found: seq<int>, score: int -> real)
    requires Distinct(found) && TopTen(top, Pair(found, score))
    ensures forall i :: 0 <= i < |top| ==> top[i].doc in found && top[i].score == score(top[i].doc)
    ensures forall i, j :: 0 <= i < j < |top| ==> top[i].doc != top[j].doc
  {
    hide Distinct, Pair;
    var all := Pair(found, score);
    forall i | 0 <= i < |top| ensures top[i].doc in found && top[i].score == score(top[i].doc) {
      assert top[i] in multiset(top);
      PairedOnce(found, score, top[i]);
    }
    forall i, j | 0 <= i < j < |top| ensures top[i].doc != top[j].doc {
      if top[i].doc == top[j].doc {
        assert top[i] == top[j];
        TwiceThere(top, i, j);
        PairedOnce(found, score, top[i]);
      }
    }
  }

  lemma LeftOutOfTop(top: seq<Scored>, found: seq<int>, score: int -> real, d: int, i: nat)
    requires Distinct(found) && TopTen(top, Pair(found, score)) && d in found && i < |top|
    requires forall j :: 0 <= j < |top| ==> top[j].doc != d
    ensures score(d) <= top[i].score
  {
    hide Distinct, Pair;
    var p := Scored(d, score(d));
    PairedOnce(found, score, p);
    assert p !in multiset(top);
  }

  lemma TopTenAreTenBest(top: seq<Scored>, found: seq<int>, score: int -> real, f: DoubleFormat)
    requires Distinct(found) && TopTen(top, Pair(found, score))
    ensures AreTenBest(AllAsRead(f, top), ToSet(found), score, x => f.read(f.write(x)))
  {
    TopOfPairs(top, found, score);
    DistinctSize(found);
    var pairs := AllAsRead(f, top);
    forall d, i | d in ToSet(found) && (forall j :: 0 <= j < |pairs| ==> pairs[j].doc != d) && 0 <= i < |pairs|
      ensures score(d) <= score(pairs[i].doc)
    {
      assert forall j :: 0 <= j < |top| ==> top[j].doc == pairs[j].doc;
      LeftOutOfTop(top, found, score, d, i);
    }
  }

  /** The ten most relevant of the matching documents answer the query. */
  lemma TopTenAnswers(top: seq<Scored>, f: DoubleFormat, docs: seq<Document>, log: real -> real, q: Disjunction)
    requires ValidDocuments(docs)
    requires TopTen(top, Ranked(docs, log, Print(TreeOf(q)), Matching(docs, Erase(TreeOf(q)))))
    ensures Answers(AllAsRead(f, top), f, docs, log, q)
  {
    hide TopTen, AreTenBest, Relevance, Matching;
    var found := Matching(docs, Erase(TreeOf(q)));
    var score := d => QueryScore(docs, log, q, d);
    SatisfyingIs(docs, q);
    forall i | 0 <= i < |found|
      ensures Relevance(docs, log, Print(TreeOf(q)), found[i]) == score(found[i])
    {
      QueryScoreIs(docs, log, q, found[i]);
    }
    assert Ranked(docs, log, Print(TreeOf(q)), found) == Pair(found, score);
    TopTenAreTenBest(top, found, score, f);
  }
}
