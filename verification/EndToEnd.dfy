/**
Client, enclave and server together: updates keep the three in step, and a search returns
the ten most relevant of exactly the documents that satisfy the query.
*/
module EndToEnd {
  import opened Options
  import opened Formula
  import opened ByteBuffers
  import opened Index
  import opened IndexRuns
  import opened Messages
  import opened Query
  import opened QueryMessages
  import opened TokenVectors
  import opened Requests
  import opened Ranking
  import opened Answers
  import opened Meaning
  import opened BulkUpdates
  import opened SseClient
  import opened SseServer
  import opened SseIee
  import opened YardOnAnyTokens
  import opened DoubleNegation
  import opened QueryText
  import TenBest
  import SseUpdate
  import Evaluator = QueryEvaluator
  import ShuntingYard
  import opened Tokenizer

  // ------------------------------------------------------------------- the protocol

  /** How many labels a query needs: the lengths of its words' posting lists. */
  function QueryLabels(docs: seq<Document>, tokens: seq<Token>): nat
    decreases |tokens|
  {
    if |tokens| == 0 then 0
    else
      var n := |tokens| - 1;
      QueryLabels(docs, tokens[..n]) + if tokens[n].WordToken? then |Postings(docs, tokens[n].word)| else 0
  }

  lemma {:induction false} LabelsConcat(docs: seq<Document>, a: seq<Token>, b: seq<Token>)
    ensures QueryLabels(docs, a + b) == QueryLabels(docs, a) + QueryLabels(docs, b)
    decreases |b|
  {
    if |b| == 0 {
      assert a + b == a;
    } else {
      var n := |b| - 1;
      assert (a + b)[..|a| + n] == a + b[..n];
      LabelsConcat(docs, a, b[..n]);
    }
  }

  lemma {:induction false} LabelsOfWords(docs: seq<Document>, tokens: seq<Token>)
    ensures QueryLabels(docs, WordsOf(tokens)) == QueryLabels(docs, tokens)
    decreases |tokens|
  {
    if |tokens| == 0 {
    } else {
      var head, rest := tokens[..1], tokens[1..];
      LabelsOfWords(docs, rest);
      assert tokens == head + rest;
      LabelsConcat(docs, head, rest);
      LabelsConcat(docs, if tokens[0].WordToken? then [tokens[0]] else [], WordsOf(rest));
      assert head[..0] == [];
    }
  }

  lemma {:induction false} TotalIsQueryLabels(c: Crypto, s: State, tokens: seq<Token>)
    requires Sane(c, s)
    ensures TotalLabels(ParsedTokens(c, s.counters, tokens)) == QueryLabels(s.docs, tokens)
    decreases |tokens|
  {
    hide Sane, WordOf, ParsedToken;
    if |tokens| == 0 {
    } else {
      var n := |tokens| - 1;
      TotalIsQueryLabels(c, s, tokens[..n]);
      assert ParsedTokens(c, s.counters, tokens)[..n] == ParsedTokens(c, s.counters, tokens[..n]);
      ParsedAt(c, s, tokens, n);
      CounterOfWord(|Postings(s.docs, if tokens[n].WordToken? then tokens[n].word else "")|, []);
      CounterAtIs(c, s, tokens, n);
    }
  }

  lemma CounterOfWord(n: nat, key: Bytes)
    ensures WordOf(n, key).counter == n
  {
  }

  lemma CounterAtIs(c: Crypto, s: State, tokens: seq<Token>, n: nat)
    requires Sane(c, s) && n < |tokens|
    ensures CounterAt(ParsedTokens(c, s.counters, tokens), n)
         == if tokens[n].WordToken? then |Postings(s.docs, tokens[n].word)| else 0
  {
    hide Sane;
    ParsedAt(c, s, tokens, n);
  }

  lemma CountersAreInts(c: Crypto, s: State)
    requires Sane(c, s)
    ensures IntCounters(s.counters) && IsInt(s.nDocs)
  {
    hide NoCollisions;
    forall w | w in s.counters ensures IsInt(s.counters[w]) {
      CountersArePostings(c, s, w);
    }
  }

  /** What the enclave makes of the client's search message in a reachable state. */
  lemma MessageParsed(c: Crypto, s: State, rpn: seq<Token>)
    requires Sane(c, s)
    ensures var m := QueryMessage(c, s.counters, s.nDocs, rpn);
            && |m| > 2 && m[0] == OP_RBISEN && m[1] == OP_SRC
            && Parse(m[1..][1..], [], 0) == Tokens(ParsedTokens(c, s.counters, rpn), |s.docs|)
  {
    hide Parse, ParsedTokens, MetaBytes, Flatten;
    CountersAreInts(c, s);
    QueryRoundTrip(c, s.counters, s.nDocs, rpn);
    MetaIs(s.nDocs);
    var m := QueryMessage(c, s.counters, s.nDocs, rpn);
    assert m[1..][1..] == m[2..];
  }

  /**
  In every reachable state, for every postfix list a client can send: the message meets what the
  enclave relies on, and the search succeeds exactly when no record of a query word is on its way
  and the list is the postfix form of a formula.
  */
  lemma SearchSucceedsExactly(c: Crypto, s: State, rpn: seq<Token>)
    requires Sane(c, s) && NoParentheses(rpn) && QueryLabels(s.docs, rpn) < 0x8000_0000
    ensures var input := QueryMessage(c, s.counters, s.nDocs, rpn)[1..];
            && Searchable(c, s.index, input)
            && Parse(input[1..], [], 0).Tokens?
            && (Succeeds(c, s.index, Parse(input[1..], [], 0)) <==> Delivered(s, rpn) && IsPostfix(SymbolsOf(rpn)))
  {
    hide Sane, QueryMessage, Parse, ParsedTokens, FetchedAll, CompleteAll, AllAnswered, Delivered;
    hide MapSymbols, SymbolsOf, TokenFor, Evaluator.TokensOperable, Evaluator.Shapes;
    MessageParsed(c, s, rpn);
    TotalIsQueryLabels(c, s, rpn);
    AnsweredExactly(c, s, rpn);
    if Delivered(s, rpn) {
      FetchedExactly(c, s, rpn);
      CompleteOperable(c, s.docs, rpn);
      CompleteShapes(c, s.docs, rpn);
      PostfixMap(SymbolsOf(rpn), TokenFor(c, s.docs));
    }
  }

  /** The pairs are the ten most relevant of the documents that satisfy the formula, as the client reads them. */
  ghost predicate AnswersQuery(pairs: seq<Scored>, f: DoubleFormat, docs: seq<Document>, log: real -> real,
                               tokens: seq<Token>, e: Expr<string>) {
    exists top :: TopTen(top, Ranked(docs, log, tokens, Matching(docs, e))) && pairs == AllAsRead(f, top)
  }

  /** What the enclave's evaluation and ranking means in terms of the documents. */
  lemma SearchIsExact(c: Crypto, s: State, rpn: seq<Token>, e: Expr<string>, log: real -> real, tree: Expr<IeeToken>)
    requires Sane(c, s) && NoParentheses(rpn) && Delivered(s, rpn) && Postfix(e) == SymbolsOf(rpn)
    requires tree == Map(e, TokenFor(c, s.docs))
    ensures var fetched := FetchedAll(c, s.index, ParsedTokens(c, s.counters, rpn));
            var found := Evaluator.EvalDocs(tree, |s.docs|);
            && Postfix(tree) == Evaluator.Shapes(fetched)
            && found == Matching(s.docs, e)
            && Allocated(WithIdf(log, |s.docs|, fetched))
            && Scores(WithIdf(log, |s.docs|, fetched), found) == Ranked(s.docs, log, rpn, found)
  {
    hide Sane, ParsedTokens, FetchedAll, CompleteAll, Delivered, Matching, Ranked, Scores, Allocated, WithIdf;
    hide MapSymbols, SymbolsOf, TokenFor, Evaluator.EvalDocs, Evaluator.Shapes, Map;
    FetchedExactly(c, s, rpn);
    CompleteShapes(c, s.docs, rpn);
    PostfixMap(SymbolsOf(rpn), TokenFor(c, s.docs));
    EvaluationIsMatching(c, s.docs, e);
    ScoresAreRelevance(c, s.docs, log, rpn, Matching(s.docs, e));
  }

  // ------------------------------------------------------------ the objects in step

  /** Client, enclave and server are in the state s of the protocol. */
  ghost predicate Linked(client: Client, enclave: Enclave, s: State)
    reads client, enclave, enclave.server
  {
    && client.crypto == enclave.crypto && enclave.Valid() && Sane(client.crypto, s)
    && client.counters == s.counters && client.nDocs == s.nDocs
    && enclave.server.index == s.index
  }

  /** What the caller of a search gets. */
  datatype QueryOutcome =
    | Results(response: Bytes, pairs: seq<Scored>) // the bytes sent and what the client reads from them
    | Refused      // the parser throws for mismatched parentheses
    | Undefined    // the parser reads the top of an empty stack
    | Stopped      // the enclave or the server exited

  /** process_message: the first byte of a message says whom it is for. */
  method ProcessSearch(enclave: Enclave, message: Bytes, log: real -> real, f: DoubleFormat)
    returns (outcome: SearchOutcome, ghost found: seq<int>)
    requires enclave.Valid() && Sound(enclave.crypto) && EightBytes(f)
    requires |message| > 1 && message[0] == OP_RBISEN && message[1] == OP_SRC
    requires Searchable(enclave.crypto, enclave.server.index, message[1..])
    modifies enclave, enclave.labels, enclave.auxBool
    ensures enclave.Valid()
    ensures var p := Parse(message[1..][1..], [], 0);
            outcome.Answered? <==> Succeeds(enclave.crypto, enclave.server.index, p)
    ensures var p := Parse(message[1..][1..], [], 0);
            var fetched := FetchedAll(enclave.crypto, enclave.server.index, p.tokens);
            forall e ::
              Succeeds(enclave.crypto, enclave.server.index, p) && Postfix<IeeToken>(e) == Evaluator.Shapes(fetched) ==>
              && found == Evaluator.EvalDocs(e, p.nDocs) && Allocated(WithIdf(log, p.nDocs, fetched))
              && outcome.Answered? && Responds(outcome.response, f, Scores(WithIdf(log, p.nDocs, fetched), found))
  {
    hide Parse, FetchedAll, Sound, Searchable, Succeeds, EightBytes;
    outcome, found := enclave.Search(message[1..], log, f);
  }

  /** The part of a search between sending a translated query and getting its answer. */
  method AskEnclave(client: Client, enclave: Enclave, data: Bytes, log: real -> real, f: DoubleFormat,
                    ghost rpn: seq<Token>, ghost s: State) returns (answer: SearchOutcome)
    requires Linked(client, enclave, s) && EightBytes(f) && NoParentheses(rpn) && QueryLabels(s.docs, rpn) < 0x8000_0000
    requires data == QueryMessage(client.crypto, s.counters, s.nDocs, rpn)
    modifies enclave, enclave.labels, enclave.auxBool
    ensures Linked(client, enclave, s)
    ensures answer.Answered? <==> Delivered(s, rpn) && IsPostfix(SymbolsOf(rpn))
    ensures forall e :: answer.Answered? && Postfix(e) == SymbolsOf(rpn) ==>
              Responds(answer.response, f, Ranked(s.docs, log, rpn, Matching(s.docs, e)))
  {
    hide Sane, QueryMessage, QueryLabels, Delivered, IsPostfix, Responds, Searchable, Succeeds, EightBytes;
    hide Evaluator.EvalDocs, Evaluator.Shapes, Matching, Ranked, FetchedAll, WithIdf, Scores, Parse;
    SaneIsSound(client.crypto, s);
    SearchSucceedsExactly(client.crypto, s, rpn);
    MessageParsed(client.crypto, s, rpn);
    ghost var found;
    answer, found := ProcessSearch(enclave, data, log, f);
    if answer.Answered? {
      forall e | Postfix(e) == SymbolsOf(rpn)
        ensures Responds(answer.response, f, Ranked(s.docs, log, rpn, Matching(s.docs, e)))
      {
        var tree := Map(e, TokenFor(client.crypto, s.docs));
        SearchIsExact(client.crypto, s, rpn, e, log, tree);
      }
    }
  }

  lemma TopIds(top: seq<Scored>, docs: seq<Document>, log: real -> real, tokens: seq<Token>, e: Expr<string>)
    requires ValidDocuments(docs) && TopTen(top, Ranked(docs, log, tokens, Matching(docs, e)))
    ensures |top| <= 10 && forall i :: 0 <= i < |top| ==> IsInt(top[i].doc)
  {
    hide Matching;
    var all := Ranked(docs, log, tokens, Matching(docs, e));
    MatchingIs(docs, e);
    forall i | 0 <= i < |top| ensures IsInt(top[i].doc) {
      assert top[i] in multiset(top);
      assert top[i] in all;
      var j :| 0 <= j < |all| && all[j] == top[i];
    }
  }

  /** The client's end of a search: the pairs it reads answer the query. */
  method ReadAnswer(out: Bytes, f: DoubleFormat, ghost docs: seq<Document>, ghost log: real -> real,
                    ghost tokens: seq<Token>, ghost e: Expr<string>) returns (pairs: seq<Scored>)
    requires EightBytes(f) && ValidDocuments(docs) && Responds(out, f, Ranked(docs, log, tokens, Matching(docs, e)))
    ensures AnswersQuery(pairs, f, docs, log, tokens, e) && |out| == 129
  {
    hide TopTen, ResponseBytes, Ranked, Matching, EightBytes, ValidDocuments;
    ghost var top :| |top| <= 10 && TopTen(top, Ranked(docs, log, tokens, Matching(docs, e)))
      && out == ResponseBytes(f, top);
    TopIds(top, docs, log, tokens, e);
    ResponseSize(f, top);
    pairs := DecodeResponse(f, out, top);
  }

  /**
  bisen_search() for any text, with the exact condition of every outcome: the parser reads the top of
  an empty stack, or throws, or the query is sent; it is answered exactly when no record of one of its
  words is on its way and its translation is a postfix form; and then the answer is the ten most
  relevant of exactly the documents that satisfy the formula.
  */
  method BisenSearch(client: Client, enclave: Enclave, query: string, log: real -> real, f: DoubleFormat,
                     ghost s: State)
    returns (outcome: QueryOutcome, ghost rpn: seq<Token>)
    requires Linked(client, enclave, s) && EightBytes(f) && QueryLabels(s.docs, Tokenizer.Lex(query)) < 0x8000_0000
    modifies enclave, enclave.labels, enclave.auxBool
    ensures Linked(client, enclave, s)
    ensures outcome.Undefined? <==> ClosesNothing(Tokenizer.Lex(query), 0, false)
    ensures outcome.Refused? <==> !ClosesNothing(Tokenizer.Lex(query), 0, false) && !Balanced(Tokenizer.Lex(query), 0)
    ensures outcome.Results? || outcome.Stopped? ==>
              && NoParentheses(rpn) && ShuntingYard.Yard(Tokenizer.Lex(query), [], []) == ShuntingYard.Parsed(rpn)
              && (outcome.Results? <==> Delivered(s, rpn) && IsPostfix(SymbolsOf(rpn)))
              && (outcome.Results? ==> |outcome.response| == 129)
              && forall e :: outcome.Results? && Postfix(e) == SymbolsOf(rpn) ==>
                   AnswersQuery(outcome.pairs, f, s.docs, log, rpn, e)
  {
    hide Sane, QueryMessage, QueryLabels, Delivered, Responds, Balanced, ClosesNothing, EightBytes, AnswersQuery;
    hide Matching, Ranked, Tokenizer.Lex, ShuntingYard.Yard, SymbolsOf, Postfix;
    ghost var tokens := Tokenizer.Lex(query);
    rpn := [];
    YardOnAnyTokens.YardOnAnyTokens(tokens);
    var sent := SendQuery(client, query, s);
    match sent
    case InvalidQuery =>
      outcome := Refused;
    case UndefinedQuery =>
      outcome := Undefined;
    case Message(data) =>
      rpn := ShuntingYard.Yard(tokens, [], []).output;
      LabelsOfWords(s.docs, rpn);
      LabelsOfWords(s.docs, tokens);
      SaneIsSound(client.crypto, s);
      var answer := AskEnclave(client, enclave, data, log, f, rpn, s);
      if answer.Exited? {
        return Stopped, rpn;
      }
      ghost var e :| Postfix(e) == SymbolsOf(rpn);
      forall g | Postfix(g) == SymbolsOf(rpn) ensures g == e {
        PostfixUnique(g, e);
      }
      var pairs := ReadAnswer(answer.response, f, s.docs, log, rpn, e);
      outcome := Results(answer.response, pairs);
  }

  lemma SaneIsSound(c: Crypto, s: State)
    requires Sane(c, s)
    ensures Sound(c) && ValidDocuments(s.docs)
  {
  }

  /** The client's part of a search. */
  method SendQuery(client: Client, query: string, ghost s: State) returns (m: SearchMessage)
    requires Sane(client.crypto, s) && client.counters == s.counters && client.nDocs == s.nDocs
    ensures m == SearchFor(client.crypto, s.counters, s.nDocs, Tokenizer.Lex(query))
  {
    hide SearchFor, Inv, NoCollisions, Sound;
    m := client.Search(query);
  }

  // ------------------------------------------------------------- queries as written

  lemma {:induction false} DeliveredWords(s: State, tokens: seq<Token>)
    ensures Delivered(s, WordsOf(tokens)) <==> Delivered(s, tokens)
    decreases |tokens|
  {
    hide Awaited;
    if |tokens| == 0 {
    } else {
      DeliveredWords(s, tokens[1..]);
      DeliveredConcat(s, tokens[..1], tokens[1..]);
      assert tokens[..1] + tokens[1..] == tokens && tokens[..1] == [tokens[0]];
      DeliveredConcat(s, if tokens[0].WordToken? then [tokens[0]] else [], WordsOf(tokens[1..]));
    }
  }

  lemma DeliveredConcat(s: State, a: seq<Token>, b: seq<Token>)
    ensures Delivered(s, a + b) <==> Delivered(s, a) && Delivered(s, b)
  {
    hide Awaited;
    if Delivered(s, a + b) {
      forall i | 0 <= i < |a| && a[i].WordToken? ensures !Awaited(s, a[i].word) {
        assert (a + b)[i] == a[i];
      }
      forall i | 0 <= i < |b| && b[i].WordToken? ensures !Awaited(s, b[i].word) {
        assert (a + b)[|a| + i] == b[i];
      }
    }
  }

  lemma RankedByWords(docs: seq<Document>, log: real -> real, a: seq<Token>, b: seq<Token>, found: seq<int>)
    requires WordsOf(a) == WordsOf(b)
    ensures Ranked(docs, log, a, found) == Ranked(docs, log, b, found)
  {
    hide Relevance;
    forall i | 0 <= i < |found| ensures Relevance(docs, log, a, found[i]) == Relevance(docs, log, b, found[i]) {
      RelevanceOfWords(docs, log, a, found[i]);
      RelevanceOfWords(docs, log, b, found[i]);
    }
  }

  /** A query of the grammar: it is sent, keeps its words, and which formula it is answered for. */
  lemma GrammarQuery(e: Infix)
    requires WellFormed(e)
    ensures Balanced(Print(e), 0) && !ClosesNothing(Print(e), 0, false)
    ensures var rpn := ShuntingYard.Shunted(e);
            && ShuntingYard.Yard(Print(e), [], []) == ShuntingYard.Parsed(rpn)
            && NoParentheses(rpn) && WordsOf(rpn) == WordsOf(Print(e))
            && (IsPostfix(SymbolsOf(rpn)) <==> !LeadingDoubleNot(Print(e)))
            && (!LeadingDoubleNot(Print(e)) ==> Postfix(Translated(e)) == SymbolsOf(rpn))
  {
    hide ShuntingYard.Yard, ShuntingYard.Shunted, Print, WellFormed, Balanced, ClosesNothing, LeadingDoubleNot,
         Translated;
    RefusedExactly(e);
    YardOnAnyTokens.YardOnAnyTokens(Print(e));
  }

  lemma MatchingSame(docs: seq<Document>, e: Expr<string>, g: Expr<string>)
    requires Same(e, g, false)
    ensures Matching(docs, e) == Matching(docs, g)
    decreases |docs|
  {
    if |docs| == 0 {
    } else {
      MatchingSame(docs[..|docs| - 1], e, g);
      assert Holds(e, Has(docs[|docs| - 1])) == (Holds(g, Has(docs[|docs| - 1])) != false);
    }
  }

  /**
  The search for every text that is read as the tokens of a query tree: it is answered exactly when the records of
  its words have arrived and no `!!` stands before its first word, with the ten most relevant of exactly
  the documents that satisfy the translated formula; and that is the formula asked for, in meaning,
  when the `!` of the query make up for each other.
  */
  method SearchTree(client: Client, enclave: Enclave, query: string, log: real -> real, f: DoubleFormat,
                    ghost e: Infix, ghost s: State)
    returns (outcome: QueryOutcome)
    requires Linked(client, enclave, s) && EightBytes(f) && QueryLabels(s.docs, Print(e)) < 0x8000_0000
    requires WellFormed(e) && Tokenizer.Lex(query) == Print(e)
    modifies enclave, enclave.labels, enclave.auxBool
    ensures Linked(client, enclave, s)
    ensures outcome.Results? <==> Delivered(s, Print(e)) && !LeadingDoubleNot(Print(e))
    ensures outcome.Stopped? <==> !Delivered(s, Print(e)) || LeadingDoubleNot(Print(e))
    ensures outcome.Results? ==> |outcome.response| == 129
    ensures outcome.Results? ==> AnswersQuery(outcome.pairs, f, s.docs, log, Print(e), Translated(e))
    ensures outcome.Results? && Straight(e) && !Flipped(e) ==>
              AnswersQuery(outcome.pairs, f, s.docs, log, Print(e), Erase(e))
  {
    hide Sane, QueryLabels, Delivered, TopTen, Balanced, ClosesNothing, Linked, WellFormed, EightBytes,
         LeadingDoubleNot;
    hide Matching, Ranked, Tokenizer.Lex, ShuntingYard.Yard, ShuntingYard.Shunted, Print, Postfix, WordsOf,
         NoParentheses, SymbolsOf;
    hide Translated, Straight, Flipped, Same, IsPostfix;
    GrammarQuery(e);
    ghost var rpn;
    outcome, rpn := BisenSearch(client, enclave, query, log, f, s);
    DeliveredWords(s, rpn);
    DeliveredWords(s, Print(e));
    if outcome.Results? {
      RankedByWords(s.docs, log, rpn, Print(e), Matching(s.docs, Translated(e)));
      if Straight(e) && !Flipped(e) {
        MeaningKept(e);
        MatchingSame(s.docs, Translated(e), Erase(e));
      }
    }
  }

  lemma AnswersText(pairs: seq<Scored>, f: DoubleFormat, docs: seq<Document>, log: real -> real, q: Disjunction)
    requires ValidDocuments(docs) && AnswersQuery(pairs, f, docs, log, Print(TreeOf(q)), Erase(TreeOf(q)))
    ensures TenBest.Answers(pairs, f, docs, log, q)
  {
    hide TopTen, TenBest.Answers;
    var tokens, found := Print(TreeOf(q)), Matching(docs, Erase(TreeOf(q)));
    var top :| TopTen(top, Ranked(docs, log, tokens, found)) && pairs == AllAsRead(f, top);
    TenBest.TopTenAnswers(top, f, docs, log, q);
  }

  lemma LinkedIsValid(client: Client, enclave: Enclave, s: State)
    requires Linked(client, enclave, s)
    ensures ValidDocuments(s.docs)
  {
  }

  /**
  The search as a whole, for every text of the query grammar: it is answered exactly when the records of
  its words have arrived and no `!!` stands before its first word, for the translated formula; and with
  the ten best of the documents that the text asks for when its `!` make up for each other.
  */
  method SearchGrammar(client: Client, enclave: Enclave, query: string, log: real -> real, f: DoubleFormat,
                       ghost q: Disjunction, ghost trailing: nat, ghost s: State)
    returns (outcome: QueryOutcome)
    requires Linked(client, enclave, s) && EightBytes(f) && QueryLabels(s.docs, Print(TreeOf(q))) < 0x8000_0000
    requires Proper(q) && query == TextOf(q) + Spaces(trailing)
    modifies enclave, enclave.labels, enclave.auxBool
    ensures Linked(client, enclave, s)
    ensures outcome.Results? <==> Delivered(s, Print(TreeOf(q))) && !LeadingDoubleNot(Print(TreeOf(q)))
    ensures outcome.Stopped? <==> !outcome.Results?
    ensures outcome.Results? ==> |outcome.response| == 129
    ensures outcome.Results? ==>
              AnswersQuery(outcome.pairs, f, s.docs, log, Print(TreeOf(q)), Translated(TreeOf(q)))
    ensures outcome.Results? && Straight(TreeOf(q)) && !Flipped(TreeOf(q)) ==>
              TenBest.Answers(outcome.pairs, f, s.docs, log, q)
  {
    hide Linked, QueryLabels, Delivered, Tokenizer.Lex, Print, EightBytes, AnswersQuery, Translated, LeadingDoubleNot,
         Straight, Flipped, TreeOf, TextOf, TenBest.Answers;
    TextIsRead(q, trailing);
    LinkedIsValid(client, enclave, s);
    outcome := SearchTree(client, enclave, query, log, f, TreeOf(q), s);
    if outcome.Results? && Straight(TreeOf(q)) && !Flipped(TreeOf(q)) {
      AnswersText(outcome.pairs, f, s.docs, log, q);
    }
  }

  /**
  The same for a text without `!!`: it is answered exactly when the records of its words have arrived,
  with the ten best of exactly the documents that the text asks for.
  */
  method SearchFormula(client: Client, enclave: Enclave, query: string, log: real -> real, f: DoubleFormat,
                       ghost q: Disjunction, ghost trailing: nat, ghost s: State)
    returns (outcome: QueryOutcome)
    requires Linked(client, enclave, s) && EightBytes(f) && QueryLabels(s.docs, Print(TreeOf(q))) < 0x8000_0000
    requires Proper(q) && NoBangBang(q) && query == TextOf(q) + Spaces(trailing)
    modifies enclave, enclave.labels, enclave.auxBool
    ensures Linked(client, enclave, s)
    ensures outcome.Results? <==> Delivered(s, Print(TreeOf(q)))
    ensures outcome.Stopped? <==> !Delivered(s, Print(TreeOf(q)))
    ensures outcome.Results? ==> |outcome.response| == 129
    ensures outcome.Results? ==> TenBest.Answers(outcome.pairs, f, s.docs, log, q)
  {
    hide Linked, QueryLabels, Delivered, Print, EightBytes, AnswersQuery, Translated, LeadingDoubleNot, TreeOf, TextOf,
         TenBest.Answers;
    ghost var e := TreeOf(q);
    NoBangBangIs(q);
    TranslatedIsErased(e);
    LeadingIsNots(e);
    LinkedIsValid(client, enclave, s);
    outcome := SearchGrammar(client, enclave, query, log, f, q, trailing, s);
    if outcome.Results? {
      AnswersText(outcome.pairs, f, s.docs, log, q);
    }
  }

  // -------------------------------------------------------------------------- updates

  /** The client adds documents one after the other. */
  function AddAll(c: Crypto, s: State, docs: seq<Document>): State
    decreases |docs|
  {
    if |docs| == 0 then s
    else Next(c, AddAll(c, s, docs[..|docs| - 1]), AddDocument(docs[|docs| - 1])).value
  }

  /** All documents are added, then all records on their way arrive. */
  function AfterUpdate(c: Crypto, s: State, docs: seq<Document>): State {
    var added := AddAll(c, s, docs);
    Next(c, added, Deliver(|added.inflight|)).value
  }

  lemma {:induction false} AddAllIs(c: Crypto, s: State, docs: seq<Document>)
    ensures var t, made := AddAll(c, s, docs), Made(s.counters, s.nDocs, docs);
            && t.docs == s.docs + docs && t.nDocs == s.nDocs + |docs| && t.counters == made.0
            && t.inflight == s.inflight + Records(made.1) && t.index == s.index
    decreases |docs|
  {
    hide ClientRecords;
    if |docs| == 0 {
      assert s.docs + docs == s.docs && s.inflight + [] == s.inflight;
    } else {
      var n := |docs| - 1;
      AddAllIs(c, s, docs[..n]);
      var before := Made(s.counters, s.nDocs, docs[..n]);
      var made := ClientRecords(before.0, s.nDocs + n, docs[n]);
      assert (before.1 + [made.1])[..n] == before.1 by { MadeLength(s.counters, s.nDocs, docs[..n]); }
      assert s.docs + docs == s.docs + docs[..n] + [docs[n]];
    }
  }

  lemma {:induction false} MadeLength(counters: map<string, nat>, id: nat, docs: seq<Document>)
    ensures |Made(counters, id, docs).1| == |docs|
    ensures forall i :: 0 <= i < |docs| ==> |Made(counters, id, docs).1[i]| == |docs[i]|
    decreases |docs|
  {
    if |docs| == 0 {
    } else {
      MadeLength(counters, id, docs[..|docs| - 1]);
    }
  }

  lemma {:induction false} AddAllKeepsInv(c: Crypto, s: State, docs: seq<Document>)
    requires Inv(c, s) && forall i :: 0 <= i < |docs| ==> ValidDocument(docs[i])
    ensures Inv(c, AddAll(c, s, docs))
    decreases |docs|
  {
    hide Inv, ValidDocument, Next;
    if |docs| == 0 {
    } else {
      AddAllKeepsInv(c, s, docs[..|docs| - 1]);
      AddKeepsInv(c, AddAll(c, s, docs[..|docs| - 1]), docs[|docs| - 1]);
    }
  }

  /** The documents fit the client's integers and their messages a size_t. */
  predicate Sendable(docs: seq<Document>) {
    forall i :: 0 <= i < |docs| ==> IsSize(1 + RECORD_SIZE * |docs[i]|)
  }

  lemma UpdateKeepsSane(c: Crypto, s: State, docs: seq<Document>)
    requires Sane(c, s) && ValidDocuments(s.docs + docs) && NoCollisions(c, s.docs + docs)
    ensures var t := AfterUpdate(c, s, docs);
            Sane(c, t) && t.docs == s.docs + docs && t.inflight == []
  {
    hide Inv, NoCollisions, Made, CountersOf;
    AddAllIs(c, s, docs);
    TailValid(s.docs, docs);
    AddAllKeepsInv(c, s, docs);
    var added := AddAll(c, s, docs);
    DeliverKeepsInv(c, added, |added.inflight|);
  }

  lemma {:induction false} RecordInList(made: seq<seq<Record>>, i: nat, j: nat) returns (k: nat)
    requires i < |made| && j < |made[i]|
    ensures k < |Records(made)| && Records(made)[k] == made[i][j]
    decreases |made|
  {
    var n := |made| - 1;
    if i < n {
      k := RecordInList(made[..n], i, j);
    } else {
      k := |Records(made[..n])| + j;
    }
  }

  /** Everything that is on its way fits the message format. */
  lemma MadeFits(c: Crypto, s: State, docs: seq<Document>)
    requires Sane(c, s) && ValidDocuments(s.docs + docs) && NoCollisions(c, s.docs + docs) && Sendable(docs)
             && s.inflight == []
    ensures IntRecordLists(Made(s.counters, s.nDocs, docs).1)
  {
    hide Sane, RecordsOf, NoCollisions, IntRecord, Made, Next, ValidDocuments;
    var made := Made(s.counters, s.nDocs, docs).1;
    var added := AddAll(c, s, docs);
    AddAllIs(c, s, docs);
    MadeLength(s.counters, s.nDocs, docs);
    AddedRecords(c, s, docs);
    assert added.inflight == Records(made);
    forall i, j | 0 <= i < |made| && 0 <= j < |made[i]| ensures IntRecord(made[i][j]) {
      var k := RecordInList(made, i, j);
      RecordIsInt(added.docs, |RecordsOf(added.docs)| - |added.inflight| + k);
    }
  }

  lemma AddedRecords(c: Crypto, s: State, docs: seq<Document>)
    requires Sane(c, s) && ValidDocuments(s.docs + docs)
    ensures var t := AddAll(c, s, docs); var all := RecordsOf(t.docs); var m := |all| - |t.inflight|;
            m >= 0 && forall k :: 0 <= k < |t.inflight| ==> t.inflight[k] == all[m + k]
  {
    hide NoCollisions, AddAll, Inv, RecordsOf, ValidDocument, Sound;
    TailValid(s.docs, docs);
    AddAllKeepsInv(c, s, docs);
    InvSuffix(c, AddAll(c, s, docs));
  }

  lemma TailValid(before: seq<Document>, docs: seq<Document>)
    requires ValidDocuments(before + docs)
    ensures forall i :: 0 <= i < |docs| ==> ValidDocument(docs[i])
  {
    hide ValidDocument;
    forall i | 0 <= i < |docs| ensures ValidDocument(docs[i]) {
      assert (before + docs)[|before| + i] == docs[i];
    }
  }

  lemma InvSuffix(c: Crypto, s: State)
    requires Inv(c, s)
    ensures var all := RecordsOf(s.docs); var m := |all| - |s.inflight|;
            m >= 0 && forall k :: 0 <= k < |s.inflight| ==> s.inflight[k] == all[m + k]
  {
    hide CountersOf, RecordsOf, IndexAfter;
  }

  /**
  bisen_update() for one file: the client adds all documents and sends one bulk message; the enclave
  hands every record to the server once, in order, in batches of at most 1000; and afterwards the
  three parties are in step again with nothing on its way.
  */
  method BisenUpdate(client: Client, enclave: Enclave, docs: seq<Document>, ghost s: State)
    returns (ghost t: State, ghost sent: seq<seq<Pair>>)
    requires Linked(client, enclave, s) && s.inflight == []
    requires ValidDocuments(s.docs + docs) && NoCollisions(client.crypto, s.docs + docs) && Sendable(docs)
    modifies client, enclave.server
    ensures t == AfterUpdate(client.crypto, s, docs) && t.docs == s.docs + docs && t.inflight == []
    ensures Linked(client, enclave, t)
    ensures enclave.server.batches == old(enclave.server.batches) + sent && SseUpdate.BatchesBounded(sent)
    ensures SseUpdate.Join(sent) == PairsOf(client.crypto, Records(Made(s.counters, s.nDocs, docs).1))
  {
    hide Sane, Made, Records, AreUpdates, PairsOfAll, InsertAll, PairsOf, NoCollisions, ValidDocuments, IntRecordLists;
    hide BulkBody, AddMessages, SseUpdate.Join, SseUpdate.BatchesBounded, Sendable, Server.Valid;
    SaneIsSound(client.crypto, s);
    ghost var c, made := client.crypto, Made(s.counters, s.nDocs, docs).1;
    MadeFits(c, s, docs);
    BulkConserves(c, made);
    AddAllIs(c, s, docs);
    UpdateKeepsSane(c, s, docs);
    UpdateIndex(c, s, docs);
    t := AfterUpdate(c, s, docs);
    FewMessages(s, docs);
    MadeLength(s.counters, s.nDocs, docs);
    var message := MakeBulk(client, docs);
    sent := ProcessBulk(client.crypto, enclave.server, message[1..], AddMessages(c, made));
  }

  lemma FewMessages(s: State, docs: seq<Document>)
    requires ValidDocuments(s.docs + docs)
    ensures |docs| < 0x1_0000_0000
  {
  }

  lemma UpdateIndex(c: Crypto, s: State, docs: seq<Document>)
    requires s.inflight == []
    ensures var t := AfterUpdate(c, s, docs); var made := Made(s.counters, s.nDocs, docs);
            && t.index == InsertAll(s.index, PairsOf(c, Records(made.1)))
            && t.counters == made.0 && t.nDocs == s.nDocs + |docs|
  {
    hide Made, InsertAll, PairsOf, Next, AddAll, Records;
    AddAllIs(c, s, docs);
    DeliverAll(c, AddAll(c, s, docs));
    assert s.inflight + Records(Made(s.counters, s.nDocs, docs).1) == Records(Made(s.counters, s.nDocs, docs).1);
  }

  lemma DeliverAll(c: Crypto, s: State)
    ensures Next(c, s, Deliver(|s.inflight|))
            == Some(s.(inflight := [], index := InsertAll(s.index, PairsOf(c, s.inflight))))
  {
    hide InsertAll, PairsOf;
    assert s.inflight[..|s.inflight|] == s.inflight && s.inflight[|s.inflight|..] == [];
  }

  lemma StartsSane(c: Crypto)
    requires Sound(c)
    ensures Sane(c, INITIAL)
  {
  }

  /** A new client, enclave and server start in step. */
  method BisenSetup(crypto: Crypto) returns (client: Client, enclave: Enclave)
    requires Sound(crypto)
    ensures fresh(client) && fresh(enclave) && fresh(enclave.server) && fresh(enclave.labels) && fresh(enclave.auxBool)
    ensures Linked(client, enclave, INITIAL) && client.crypto == crypto
  {
    hide Sound, Sane;
    StartsSane(crypto);
    client := new Client(crypto);
    var server := new Server();
    enclave := new Enclave(crypto, server);
  }

  lemma RunContinues(c: Crypto, trace: seq<State>, steps: seq<Step>, step: Step, next: State)
    requires IsRun(c, trace, steps) && Admissible(trace[|steps|], step) && Next(c, trace[|steps|], step) == Some(next)
    ensures IsRun(c, trace + [next], steps + [step])
  {
    hide Next, Admissible;
    var t, u := trace + [next], steps + [step];
    forall i | 0 <= i < |u| ensures Admissible(t[i], u[i]) && Next(c, t[i], u[i]) == Some(t[i + 1]) {
      if i < |steps| {
        assert t[i] == trace[i] && t[i + 1] == trace[i + 1] && u[i] == steps[i];
      }
    }
  }

  lemma RunLength(c: Crypto, trace: seq<State>, steps: seq<Step>)
    requires IsRun(c, trace, steps)
    ensures |trace| == |steps| + 1
  {
  }

  /** An update continues a run of the protocol. */
  lemma {:induction false} AddAllContinues(c: Crypto, trace: seq<State>, steps: seq<Step>, docs: seq<Document>)
    returns (trace': seq<State>, steps': seq<Step>)
    requires IsRun(c, trace, steps) && ValidDocuments(trace[|steps|].docs + docs)
    ensures IsRun(c, trace', steps') && trace <= trace' && steps <= steps'
    ensures trace'[|steps'|] == AddAll(c, trace[|steps|], docs)
    decreases |docs|
  {
    RunLength(c, trace, steps);
    hide Next, ValidDocument, IsRun, Admissible;
    var s := trace[|steps|];
    if |docs| == 0 {
      trace', steps' := trace, steps;
    } else {
      var n := |docs| - 1;
      assert (s.docs + docs)[..|s.docs| + n] == s.docs + docs[..n];
      assert (s.docs + docs)[|s.docs| + n] == docs[n];
      ValidInit(s.docs + docs);
      var t, u := AddAllContinues(c, trace, steps, docs[..n]);
      RunLength(c, t, u);
      AddAllIs(c, s, docs[..n]);
      AddIsAdmissible(c, t[|u|], docs[n]);
      RunContinues(c, t, u, AddDocument(docs[n]), AddAll(c, s, docs));
      trace', steps' := t + [AddAll(c, s, docs)], u + [AddDocument(docs[n])];
      RunLength(c, trace', steps');
    }
  }

  lemma AddIsAdmissible(c: Crypto, s: State, d: Document)
    requires ValidDocument(d) && IsInt(|s.docs| + 1)
    ensures Admissible(s, AddDocument(d)) && Next(c, s, AddDocument(d)).Some?
  {
  }

  /** What bisen_update() does is a run: it adds each document and then delivers everything. */
  lemma UpdateContinuesRun(c: Crypto, trace: seq<State>, steps: seq<Step>, docs: seq<Document>)
    returns (trace': seq<State>, steps': seq<Step>)
    requires IsRun(c, trace, steps) && ValidDocuments(trace[|steps|].docs + docs)
    ensures IsRun(c, trace', steps') && trace <= trace' && steps <= steps'
    ensures trace'[|steps'|] == AfterUpdate(c, trace[|steps|], docs)
  {
    RunLength(c, trace, steps);
    hide AddAll, IsRun, ValidDocuments;
    var t, u := AddAllContinues(c, trace, steps, docs);
    RunLength(c, t, u);
    var step := Deliver(|t[|u|].inflight|);
    DeliverAll(c, t[|u|]);
    hide Next;
    RunContinues(c, t, u, step, AfterUpdate(c, trace[|steps|], docs));
    trace', steps' := t + [AfterUpdate(c, trace[|steps|], docs)], u + [step];
    RunLength(c, trace', steps');
  }

  /** Every state of every run is one the searches above can start from. */
  lemma RunsAreSane(c: Crypto, trace: seq<State>, steps: seq<Step>, i: nat)
    requires Sound(c) && IsRun(c, trace, steps) && i < |trace| && NoCollisions(c, trace[i].docs)
    ensures Sane(c, trace[i])
  {
    InvAlways(c, trace, steps, i);
  }

  lemma NothingAwaited(s: State, tokens: seq<Token>)
    requires s.inflight == []
    ensures Delivered(s, tokens)
  {
  }

  /**
  A session from its start: the collection goes to the server in one bulk update, then a query without
  `!!` is asked. It is answered, with the ten best of exactly the documents that the text asks for.
  */
  method UpdateAndSearch(crypto: Crypto, docs: seq<Document>, query: string, log: real -> real, f: DoubleFormat,
                         ghost q: Disjunction, ghost trailing: nat) returns (outcome: QueryOutcome)
    requires Sound(crypto) && ValidDocuments(docs) && NoCollisions(crypto, docs) && Sendable(docs) && EightBytes(f)
    requires Proper(q) && NoBangBang(q) && query == TextOf(q) + Spaces(trailing)
    requires QueryLabels(docs, Print(TreeOf(q))) < 0x8000_0000
    ensures outcome.Results? && |outcome.response| == 129 && TenBest.Answers(outcome.pairs, f, docs, log, q)
  {
    hide Sound, NoCollisions, Sendable, Linked, ValidDocuments, QueryLabels, Delivered, Print, TreeOf, TextOf,
         EightBytes, TenBest.Answers, PairsOf, SseUpdate.Join, Made, AfterUpdate, SseUpdate.BatchesBounded;
    var client, enclave := BisenSetup(crypto);
    assert INITIAL.docs + docs == docs;
    ghost var t, sent;
    t, sent := BisenUpdate(client, enclave, docs, INITIAL);
    NothingAwaited(t, Print(TreeOf(q)));
    outcome := SearchFormula(client, enclave, query, log, f, q, trailing, t);
  }
}
