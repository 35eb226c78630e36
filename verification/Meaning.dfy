/**
What a query means for a collection of documents, and that the enclave's evaluation and
ranking of complete posting lists computes just that.
*/
module Meaning {
  import opened Options
  import opened Formula
  import opened IntVectors
  import opened Index
  import opened Query
  import opened QueryMessages
  import opened TokenVectors
  import opened Requests
  import opened Ranking
  import opened Answers
  import opened YardOnAnyTokens
  import ShuntingYard
  import Evaluator = QueryEvaluator

  // --------------------------------------------------------- formulas under renaming

  function MapSymbol<S, T>(symbol: Symbol<S>, f: S -> T): Symbol<T> {
    match symbol
    case Operand(v) => Operand(f(v))
    case AndSymbol => AndSymbol
    case OrSymbol => OrSymbol
    case NotSymbol => NotSymbol
  }

  function MapSymbols<S, T>(p: seq<Symbol<S>>, f: S -> T): (q: seq<Symbol<T>>)
    ensures |q| == |p|
  {
    seq(|p|, i requires 0 <= i < |p| => MapSymbol(p[i], f))
  }

  function MapStack<S, T>(stack: seq<Expr<S>>, f: S -> T): (q: seq<Expr<T>>)
    ensures |q| == |stack|
  {
    seq(|stack|, i requires 0 <= i < |stack| => Map(stack[i], f))
  }

  lemma ReadSymbolMap<S, T>(symbol: Symbol<S>, stack: seq<Expr<S>>, f: S -> T)
    ensures ReadSymbol(MapSymbol(symbol, f), MapStack(stack, f))
         == match ReadSymbol(symbol, stack) case None => None case Some(next) => Some(MapStack(next, f))
  {
    var n, mapped := |stack|, MapStack(stack, f);
    match symbol
    case Operand(v) =>
      assert mapped + [Leaf(f(v))] == MapStack(stack + [Leaf(v)], f);
    case NotSymbol =>
      if n >= 1 {
        assert mapped[..n - 1] + [Not(mapped[n - 1])] == MapStack(stack[..n - 1] + [Not(stack[n - 1])], f);
      }
    case AndSymbol =>
      if n >= 2 {
        assert mapped[..n - 2] + [And(mapped[n - 2], mapped[n - 1])]
            == MapStack(stack[..n - 2] + [And(stack[n - 2], stack[n - 1])], f);
      }
    case OrSymbol =>
      if n >= 2 {
        assert mapped[..n - 2] + [Or(mapped[n - 2], mapped[n - 1])]
            == MapStack(stack[..n - 2] + [Or(stack[n - 2], stack[n - 1])], f);
      }
  }

  lemma {:induction false} ReadMap<S, T>(p: seq<Symbol<S>>, stack: seq<Expr<S>>, f: S -> T)
    ensures Read(MapSymbols(p, f), MapStack(stack, f))
         == match Read(p, stack) case None => None case Some(next) => Some(MapStack(next, f))
    decreases |p|
  {
    hide MapStack, MapSymbol, ReadSymbol;
    if |p| == 0 {
    } else {
      ReadSymbolMap(p[0], stack, f);
      assert MapSymbols(p, f)[1..] == MapSymbols(p[1..], f);
      match ReadSymbol(p[0], stack)
      case None =>
      case Some(next) => ReadMap(p[1..], next, f);
    }
  }

  /** Renaming operands does not change what is a postfix form, nor of which tree. */
  lemma PostfixMap<S(!new), T(!new)>(p: seq<Symbol<S>>, f: S -> T)
    ensures IsPostfix(MapSymbols(p, f)) <==> IsPostfix(p)
    ensures forall e :: Postfix<S>(e) == p ==> Postfix(Map(e, f)) == MapSymbols(p, f)
  {
    hide Read, Map;
    var q := MapSymbols(p, f);
    AcceptsExactlyPostfix(p);
    AcceptsExactlyPostfix(q);
    ReadMap(p, [], f);
    assert MapStack([], f) == [];
    forall e | Postfix<S>(e) == p ensures Postfix(Map(e, f)) == q {
      assert Read(p, []) == Some([e]);
      assert MapStack([e], f) == [Map(e, f)];
      var g :| Postfix<T>(g) == q;
      assert Read(q, []) == Some([g]);
    }
  }

  lemma {:induction false} HoldsMap<S, T>(e: Expr<S>, f: S -> T, truth: S -> bool, truth': T -> bool)
    requires forall v :: v in Leaves(e) ==> truth(v) == truth'(f(v))
    ensures Holds(Map(e, f), truth') == Holds(e, truth)
  {
    match e
    case Leaf(_) =>
    case Not(a) => HoldsMap(a, f, truth, truth');
    case And(l, r) => HoldsMap(l, f, truth, truth'); HoldsMap(r, f, truth, truth');
    case Or(l, r) => HoldsMap(l, f, truth, truth'); HoldsMap(r, f, truth, truth');
  }

  // ------------------------------------------------------------- the documents found

  /** Which words a document has. */
  function Has(d: Document): string -> bool {
    (w: string) => HasWord(d, w)
  }

  /** The documents that satisfy a formula, in increasing order. */
  function Matching(docs: seq<Document>, e: Expr<string>): seq<int>
    decreases |docs|
  {
    if |docs| == 0 then []
    else
      var n := |docs| - 1;
      Matching(docs[..n], e) + if Holds(e, Has(docs[n])) then [n] else []
  }

  lemma {:induction false} MatchingHas(docs: seq<Document>, e: Expr<string>, d: int)
    ensures d in Matching(docs, e) <==> 0 <= d < |docs| && Holds(e, Has(docs[d]))
    decreases |docs|
  {
    hide Holds;
    if |docs| == 0 {
    } else {
      MatchingHas(docs[..|docs| - 1], e, d);
    }
  }

  lemma {:induction false} MatchingInOrder(docs: seq<Document>, e: Expr<string>)
    ensures Increasing(Matching(docs, e)) && InRange(Matching(docs, e), |docs|)
    decreases |docs|
  {
    hide Holds, Increasing, InRange;
    if |docs| == 0 {
      BelowZero({});
    } else {
      var n := |docs| - 1;
      MatchingInOrder(docs[..n], e);
      AppendGreater(Matching(docs[..n], e), n);
      assert Matching(docs[..n], e) + [] == Matching(docs[..n], e);
    }
  }

  lemma MatchingIs(docs: seq<Document>, e: Expr<string>)
    ensures Increasing(Matching(docs, e)) && InRange(Matching(docs, e), |docs|)
    ensures forall d :: d in Matching(docs, e) <==> 0 <= d < |docs| && Holds(e, Has(docs[d]))
  {
    hide Holds, Increasing, InRange, Matching;
    MatchingInOrder(docs, e);
    forall d ensures d in Matching(docs, e) <==> 0 <= d < |docs| && Holds(e, Has(docs[d])) {
      MatchingHas(docs, e, d);
    }
  }

  /** The complete token of a word, as a function of the word. */
  function TokenFor(c: Crypto, docs: seq<Document>): string -> IeeToken {
    (w: string) => PostingToken(c, docs, w)
  }

  lemma {:induction false} LeavesOperable(c: Crypto, docs: seq<Document>, e: Expr<string>)
    ensures Evaluator.LeavesOperable(Map(e, TokenFor(c, docs)), |docs|)
  {
    match e
    case Leaf(w) => PostingListExact(docs, w);
    case Not(a) => LeavesOperable(c, docs, a);
    case And(l, r) => LeavesOperable(c, docs, l); LeavesOperable(c, docs, r);
    case Or(l, r) => LeavesOperable(c, docs, l); LeavesOperable(c, docs, r);
  }

  lemma DocMatches(c: Crypto, docs: seq<Document>, e: Expr<string>, d: int)
    ensures d in ToSet(Evaluator.EvalDocs(Map(e, TokenFor(c, docs)), |docs|)) <==> d in Matching(docs, e)
  {
    hide Evaluator.EvalDocs, Matching, Map, Holds, PostingIds, HasWord;
    LeavesOperable(c, docs, e);
    Evaluator.EvalMeaning(Map(e, TokenFor(c, docs)), |docs|, d);
    MatchingIs(docs, e);
    if 0 <= d < |docs| {
      forall w | w in Leaves(e) ensures HasWord(docs[d], w) == (d in TokenFor(c, docs)(w).docs) {
        PostingListExact(docs, w);
      }
      HoldsMap(e, TokenFor(c, docs), Has(docs[d]), (t: IeeToken) => d in t.docs);
    }
  }

  lemma EvaluatedIncreasing(c: Crypto, docs: seq<Document>, e: Expr<string>)
    ensures Increasing(Evaluator.EvalDocs(Map(e, TokenFor(c, docs)), |docs|))
  {
    hide Evaluator.EvalDocs;
    if e.Leaf? {
      PostingListExact(docs, e.value);
    }
    Evaluator.EvalIncreasing(Map(e, TokenFor(c, docs)), |docs|);
  }

  /** Set operations on complete posting lists find exactly the documents that satisfy the formula. */
  lemma EvaluationIsMatching(c: Crypto, docs: seq<Document>, e: Expr<string>)
    ensures Evaluator.EvalDocs(Map(e, TokenFor(c, docs)), |docs|) == Matching(docs, e)
  {
    hide Evaluator.EvalDocs, Matching, Map, ToSet, TokenFor;
    var found, wanted := Evaluator.EvalDocs(Map(e, TokenFor(c, docs)), |docs|), Matching(docs, e);
    EvaluatedIncreasing(c, docs, e);
    MatchingIs(docs, e);
    forall d ensures d in ToSet(found) <==> d in ToSet(wanted) {
      DocMatches(c, docs, e, d);
      InToSet(wanted, d);
    }
    IncreasingUnique(found, wanted);
  }

  lemma InToSet(s: seq<int>, x: int)
    ensures x in ToSet(s) <==> x in s
  {
  }

  // ---------------------------------------------------------------- postfix tokens

  lemma ShapeOfToken(c: Crypto, docs: seq<Document>, t: Token)
    requires t != OpenToken && t != CloseToken
    ensures Evaluator.Shape(Complete(c, docs, t)) == MapSymbol(SymbolOfToken(t), TokenFor(c, docs))
  {
  }

  lemma CompleteShapes(c: Crypto, docs: seq<Document>, tokens: seq<Token>)
    requires NoParentheses(tokens)
    ensures Evaluator.Shapes(CompleteAll(c, docs, tokens)) == MapSymbols(SymbolsOf(tokens), TokenFor(c, docs))
  {
    hide MapSymbol, Complete;
    forall i | 0 <= i < |tokens|
      ensures Evaluator.Shapes(CompleteAll(c, docs, tokens))[i] == MapSymbols(SymbolsOf(tokens), TokenFor(c, docs))[i]
    {
      ShapeOfToken(c, docs, tokens[i]);
    }
  }

  lemma CompleteOperable(c: Crypto, docs: seq<Document>, tokens: seq<Token>)
    requires NoParentheses(tokens)
    ensures Evaluator.TokensOperable(CompleteAll(c, docs, tokens), |docs|)
  {
    hide PostingIds, Evaluator.Operable;
    var all := CompleteAll(c, docs, tokens);
    forall i | 0 <= i < |all| && Evaluator.Shape(all[i]).Operand? ensures Evaluator.Operable(all[i].docs, |docs|) {
      ShapeOfToken(c, docs, tokens[i]);
      WordOperable(docs, tokens[i].word);
    }
  }

  lemma WordOperable(docs: seq<Document>, w: string)
    ensures Evaluator.Operable(PostingIds(docs, w), |docs|)
  {
    PostingListExact(docs, w);
  }

  // --------------------------------------------------------------------- relevance

  function Idf(docs: seq<Document>, log: real -> real, w: string): real {
    var n := |Postings(docs, w)|;
    if n == 0 then 0.0 else log(|docs| as real / n as real)
  }

  /** Frequency times idf, for a document with the word. */
  function TermWeight(docs: seq<Document>, log: real -> real, w: string, d: int): real {
    if 0 <= d < |docs| && HasWord(docs[d], w) then Lookup(docs[d], w).value as real * Idf(docs, log, w) else 0.0
  }

  /** The sum of the weights of all word occurrences of a query. */
  function Relevance(docs: seq<Document>, log: real -> real, tokens: seq<Token>, d: int): real
    decreases |tokens|
  {
    if |tokens| == 0 then 0.0
    else
      var n := |tokens| - 1;
      Relevance(docs, log, tokens[..n], d)
      + if tokens[n].WordToken? then TermWeight(docs, log, tokens[n].word, d) else 0.0
  }

  lemma {:induction false} RelevanceConcat(docs: seq<Document>, log: real -> real, a: seq<Token>, b: seq<Token>, d: int)
    ensures Relevance(docs, log, a + b, d) == Relevance(docs, log, a, d) + Relevance(docs, log, b, d)
    decreases |b|
  {
    hide TermWeight;
    if |b| == 0 {
      assert a + b == a;
    } else {
      var n := |b| - 1;
      assert (a + b)[..|a| + n] == a + b[..n];
      RelevanceConcat(docs, log, a, b[..n], d);
    }
  }

  /** Only the words of a query count, in any arrangement of operators and parentheses. */
  lemma {:induction false} RelevanceOfWords(docs: seq<Document>, log: real -> real, tokens: seq<Token>, d: int)
    ensures Relevance(docs, log, WordsOf(tokens), d) == Relevance(docs, log, tokens, d)
    decreases |tokens|
  {
    hide TermWeight;
    if |tokens| == 0 {
    } else {
      var head, rest := tokens[..1], tokens[1..];
      RelevanceOfWords(docs, log, rest, d);
      assert tokens == head + rest;
      RelevanceConcat(docs, log, head, rest, d);
      var words := if tokens[0].WordToken? then [tokens[0]] else [];
      RelevanceConcat(docs, log, words, WordsOf(rest), d);
      assert head[..0] == [];
    }
  }

  lemma {:induction false} FrequencyOf(docs: seq<Document>, w: string, k: nat)
    requires k < |Postings(docs, w)|
    ensures var p := Postings(docs, w)[k];
            p.doc < |docs| && Lookup(docs[p.doc], w) == Some(p.frequency)
    decreases |docs|
  {
    var n := |docs| - 1;
    if k == |Postings(docs[..n], w)| {
    } else {
      FrequencyOf(docs[..n], w, k);
    }
  }

  /** A complete token with its idf. */
  function Weighed(c: Crypto, docs: seq<Document>, log: real -> real, t: Token): IeeToken {
    if t.WordToken? then PostingToken(c, docs, t.word).(idf := Idf(docs, log, t.word)) else SymbolOf(KindOf(t))
  }

  lemma WordContributes(c: Crypto, docs: seq<Document>, log: real -> real, w: string, d: int)
    ensures var t := Weighed(c, docs, log, WordToken(w));
            |t.docs| == |t.frequencies| && Contribution(t, d) == TermWeight(docs, log, w, d)
  {
    hide HasWord, Idf, Postings;
    PostingListExact(docs, w);
    var ids := PostingIds(docs, w);
    if d in ids {
      var k := FirstIndex(ids, d);
      FrequencyOf(docs, w, k);
      assert HasWord(docs[d], w);
    }
  }

  function WeighedAll(c: Crypto, docs: seq<Document>, log: real -> real, tokens: seq<Token>): (s: seq<IeeToken>)
    ensures |s| == |tokens|
  {
    seq(|tokens|, i requires 0 <= i < |tokens| => Weighed(c, docs, log, tokens[i]))
  }

  lemma WeighedIs(c: Crypto, docs: seq<Document>, log: real -> real, tokens: seq<Token>)
    ensures WithIdf(log, |docs|, CompleteAll(c, docs, tokens)) == WeighedAll(c, docs, log, tokens)
    ensures Allocated(WeighedAll(c, docs, log, tokens))
  {
    hide Postings;
  }

  lemma WeighedSnoc(c: Crypto, docs: seq<Document>, log: real -> real, tokens: seq<Token>)
    requires |tokens| > 0
    ensures var n := |tokens| - 1;
            WeighedAll(c, docs, log, tokens)[..n] == WeighedAll(c, docs, log, tokens[..n])
  {
    hide Weighed;
  }

  /** The score that the enclave computes is the relevance of the document for the query. */
  lemma {:induction false} ScoreIsRelevance(c: Crypto, docs: seq<Document>, log: real -> real, tokens: seq<Token>,
                                            d: int)
    ensures Allocated(WeighedAll(c, docs, log, tokens))
    ensures Score(WeighedAll(c, docs, log, tokens), d) == Relevance(docs, log, tokens, d)
    decreases |tokens|
  {
    hide Weighed, TermWeight, Contribution, Allocated;
    WeighedIs(c, docs, log, tokens);
    if |tokens| == 0 {
    } else {
      var n := |tokens| - 1;
      WeighedSnoc(c, docs, log, tokens);
      ScoreIsRelevance(c, docs, log, tokens[..n], d);
      if tokens[n].WordToken? {
        WordContributes(c, docs, log, tokens[n].word, d);
      } else {
        SymbolContributes(c, docs, log, tokens[n], d);
      }
    }
  }

  lemma SymbolContributes(c: Crypto, docs: seq<Document>, log: real -> real, t: Token, d: int)
    requires !t.WordToken?
    ensures !IsWord(Weighed(c, docs, log, t)) && Contribution(Weighed(c, docs, log, t), d) == 0.0
  {
  }

  /** Documents paired with their relevance for a query. */
  function Ranked(docs: seq<Document>, log: real -> real, tokens: seq<Token>, found: seq<int>): (s: seq<Scored>)
    ensures |s| == |found|
  {
    seq(|found|, i requires 0 <= i < |found| => Scored(found[i], Relevance(docs, log, tokens, found[i])))
  }

  lemma ScoresAreRelevance(c: Crypto, docs: seq<Document>, log: real -> real, tokens: seq<Token>, found: seq<int>)
    ensures var weighed := WithIdf(log, |docs|, CompleteAll(c, docs, tokens));
            Allocated(weighed) && Scores(weighed, found) == Ranked(docs, log, tokens, found)
  {
    hide WithIdf, CompleteAll, WeighedAll, Relevance, Score, Allocated;
    WeighedIs(c, docs, log, tokens);
    forall i | 0 <= i < |found|
      ensures Score(WithIdf(log, |docs|, CompleteAll(c, docs, tokens)), found[i])
              == Relevance(docs, log, tokens, found[i])
    {
      ScoreIsRelevance(c, docs, log, tokens, found[i]);
    }
  }
}
