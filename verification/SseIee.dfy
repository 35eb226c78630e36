/**
The enclave: it reads a search message, fetches the postings, evaluates the formula,
ranks what it found and answers. Bulk messages are taken apart into updates.
*/
module SseIee {
  import opened Formula
  import opened IntVectors
  import opened ByteBuffers
  import opened Index
  import opened IndexRuns
  import opened Messages
  import opened QueryMessages
  import opened TokenVectors
  import opened Requests
  import opened Ranking
  import opened SseFetch
  import opened SseServer
  import Evaluator = QueryEvaluator

  // ------------------------------------------------------------ reading the message

  lemma ParseStep(s: Bytes, pos: nat, tokens: seq<IeeToken>, nDocs: nat)
    requires pos < |s| && Parse(s[pos..], tokens, nDocs).Tokens?
    ensures var kind := KindOfByte(s[pos]);
            && (kind == WORD_KIND ==>
                  && pos + 37 <= |s|
                  && Parse(s[pos..], tokens, nDocs)
                     == Parse(s[pos + 37..],
                              tokens + [WordOf(Unsigned(DecodeInt(s[pos + 1..pos + 5])), s[pos + 5..pos + 37])],
                              nDocs))
            && (kind == META_KIND ==>
                  && pos + 5 <= |s|
                  && Parse(s[pos..], tokens, nDocs)
                     == Parse(s[pos + 5..], tokens, Unsigned(DecodeInt(s[pos + 1..pos + 5]))))
            && (kind != WORD_KIND && kind != META_KIND ==>
                  Parse(s[pos..], tokens, nDocs) == Parse(s[pos + 1..], tokens + [SymbolOf(kind)], nDocs))
  {
    hide DecodeInt;
    var t := s[pos..];
    var kind := KindOfByte(t[0]);
    if kind == WORD_KIND {
      assert t[1..5] == s[pos + 1..pos + 5] && t[5..37] == s[pos + 5..pos + 37] && t[37..] == s[pos + 37..];
    } else if kind == META_KIND {
      assert t[1..5] == s[pos + 1..pos + 5] && t[5..] == s[pos + 5..];
    } else {
      assert t[1..] == s[pos + 1..];
    }
  }

  lemma NewTokensAllocated(tokens: seq<IeeToken>, t: IeeToken)
    requires Allocated(tokens) && (IsWord(t) ==> |t.docs| == |t.frequencies| == t.counter)
    ensures Allocated(tokens + [t])
    ensures TotalLabels(tokens + [t]) == TotalLabels(tokens) + if IsWord(t) then t.counter else 0
  {
    assert (tokens + [t])[..|tokens|] == tokens;
  }

  /** The counter and the key of a word, and its lists with room for as many postings. */
  method ReadWord(input: Bytes, pos: nat) returns (token: IeeToken, next: nat)
    requires pos + 36 <= |input|
    ensures next == pos + 36
    ensures token == WordOf(Unsigned(DecodeInt(input[pos..pos + 4])), input[pos + 4..pos + 36])
  {
    hide DecodeInt;
    var counter, key;
    counter, next := ReadIntFromArr(input, pos);
    key, next := ReadFromArr(HASH_SIZE, input, next);
    token := WordOf(Unsigned(counter), key);
  }

  /** The parse loop of search(): it consumes the whole message. */
  method ReadQuery(input: Bytes) returns (query: VecToken, nDocs: nat, countLabels: nat)
    requires |input| > 0 && Parse(input[1..], [], 0).Tokens?
    ensures query.Valid() && fresh(query) && fresh(query.elems)
    ensures Parse(input[1..], [], 0) == Tokens(query.Contents(), nDocs)
    ensures Allocated(query.Contents()) && countLabels == TotalLabels(query.Contents())
  {
    hide Parse, DecodeInt, Allocated;
    query := new VecToken(MAX_QUERY_TOKENS);
    nDocs := 0;
    countLabels := 0;
    NoTokensAllocated();
    var pos := 1;
    while pos < |input|
      invariant 0 < pos <= |input| && query.Valid() && fresh(query) && fresh(query.elems)
      invariant Parse(input[1..], [], 0) == Parse(input[pos..], query.Contents(), nDocs)
      invariant Allocated(query.Contents()) && countLabels == TotalLabels(query.Contents())
      decreases |input| - pos
    {
      ParseStep(input, pos, query.Contents(), nDocs);
      var kind := KindOfByte(input[pos]);
      pos := pos + 1;
      if kind == META_KIND {
        var n, next := ReadIntFromArr(input, pos);
        nDocs, pos := Unsigned(n), next;
        continue;
      }
      var token := SymbolOf(kind);
      if kind == WORD_KIND {
        token, pos := ReadWord(input, pos);
        countLabels := countLabels + token.counter;
      }
      NewTokensAllocated(query.Contents(), token);
      query.PushBack(token);
    }
    ParseEnd(input, pos, query.Contents(), nDocs);
  }

  lemma NoTokensAllocated()
    ensures Allocated([]) && TotalLabels([]) == 0
  {
  }

  lemma ParseEnd(s: Bytes, pos: nat, tokens: seq<IeeToken>, nDocs: nat)
    requires pos == |s|
    ensures Parse(s[pos..], tokens, nDocs) == Tokens(tokens, nDocs)
  {
  }

  // ------------------------------------------------------------------------ searching

  /** What the client gets back, or the exit of the enclave or the server. */
  datatype SearchOutcome = Answered(response: Bytes) | Exited

  /**
  What the enclave relies on for a search message: it is complete, its labels can be counted in an
  int, and the postings it is answered with are ids of existing documents without duplicates.
  */
  ghost predicate Searchable(c: Crypto, index: map<Bytes, Bytes>, input: Bytes) {
    && |input| > 0
    && var p := Parse(input[1..], [], 0);
       && p.Tokens? && TotalLabels(p.tokens) < 0x8000_0000
       && (AllAnswered(c, index, p.tokens) ==> Evaluator.TokensOperable(FetchedAll(c, index, p.tokens), p.nDocs))
  }

  /** The search succeeds: every posting is answered and the tokens are the postfix form of a formula. */
  ghost predicate Succeeds(c: Crypto, index: map<Bytes, Bytes>, p: Parsed)
    requires p.Tokens?
  {
    AllAnswered(c, index, p.tokens) && IsPostfix(Evaluator.Shapes(FetchedAll(c, index, p.tokens)))
  }

  lemma FetchedAllocated(c: Crypto, index: map<Bytes, Bytes>, tokens: seq<IeeToken>)
    ensures Allocated(FetchedAll(c, index, tokens))
  {
  }

  lemma WithIdfAllocated(log: real -> real, nDocs: nat, tokens: seq<IeeToken>)
    requires Allocated(tokens)
    ensures Allocated(WithIdf(log, nDocs, tokens))
  {
  }

  class Enclave {
    const crypto: Crypto
    const server: Server
    var labels: array<LabelRequest>
    var labelsSize: nat
    var auxBool: array<Byte>
    var lastNDocs: nat

    ghost predicate Valid()
      reads this, server
    {
      labels.Length == labelsSize && auxBool.Length == lastNDocs && server.Valid()
    }

    /** setup() */
    constructor (crypto: Crypto, server: Server)
      requires server.Valid()
      ensures Valid() && this.crypto == crypto && this.server == server && fresh(labels) && fresh(auxBool)
    {
      this.crypto := crypto;
      this.server := server;
      labels := new LabelRequest[0];
      labelsSize := 0;
      auxBool := new Byte[0];
      lastNDocs := 0;
    }

    /** Makes room for all requests of a query, keeping the old array when it is long enough. */
    method ReserveLabels(total: nat)
      requires Valid()
      modifies this`labels, this`labelsSize
      ensures Valid() && total <= labels.Length && (labels == old(labels) || fresh(labels))
    {
      if total > labelsSize {
        labels := new LabelRequest[total];
        labelsSize := total;
      }
    }

    /** One round of the request loop: compute labels, ask the server, store what it answers. */
    method FetchBatch(query: VecToken, requests: seq<LabelRequest>, first: nat, n: nat, buffer: array<Byte>,
                      ghost orig: seq<IeeToken>) returns (ok: bool)
      requires Valid() && Sound(crypto) && query.Valid() && first + n <= |requests| && RequestsFit(orig, requests)
      requires HASH_SIZE * n <= buffer.Length
      requires Progress(crypto, server.index, orig, query.Contents(), requests, first)
      modifies buffer, query.elems, query`writes
      ensures Valid() && query.Valid()
      ensures ok ==> Progress(crypto, server.index, orig, query.Contents(), requests, first + n)
      ensures ok ==> query.writes == old(query.writes) + SlotsOf(requests[first..first + n])
      ensures !ok ==> !AllAnswered(crypto, server.index, orig)
    {
      hide Progress, Opened, BlockAt, Sound, AllAnswered, LabelFor, Blocks, Flatten, LabelBlocks, ReplyAt,
           LabelOfRequest;
      ghost var index := server.index;
      ghost var batch := requests[first..first + n];
      ghost var tokens := query.Contents();
      BatchFits(crypto, index, orig, tokens, requests, first, n);
      FillLabels(crypto, query, requests[first..first + n], buffer);
      LabelsSized(crypto, orig, batch);
      ghost var blocks := LabelBlocks(crypto, orig, batch);
      BlocksOfFlatten(blocks, HASH_SIZE);
      var labelBytes := buffer[..HASH_SIZE * n];
      var reply := server.Search(n, labelBytes);
      ReplyMeans(crypto, index, orig, batch, reply);
      if reply.None? {
        ghost var q :| 0 <= q < |batch| && Answer(crypto, index, orig[batch[q].token].key, batch[q].counter).None?;
        Unanswered(crypto, index, orig, batch[q]);
        return false;
      }
      forall q | 0 <= q < n
        ensures requests[first + q].token < |orig|
        ensures BlockAt(labelBytes, HASH_SIZE, n, q) == LabelOfRequest(crypto, orig, requests[first + q])
        ensures ReplyAt(crypto, index, orig, requests[first + q], BlockAt(reply.value, ENTRY_SIZE, n, q))
      {
        assert batch[q] == requests[first + q];
        LabelBlockIs(crypto, orig, batch, labelBytes, q);
      }
      ok := StoreReplies(crypto, query, requests, first, n, labelBytes, reply.value, index, orig);
    }

    /** The shuffled requests of a query. */
    method PrepareRequests(query: VecToken, total: nat) returns (requests: seq<LabelRequest>)
      requires Valid() && query.Valid() && total == TotalLabels(query.Contents())
      modifies this`labels, this`labelsSize, labels
      ensures Valid() && (labels == old(labels) || fresh(labels))
      ensures |requests| == total && DistinctRequests(requests) && RequestsFit(query.Contents(), requests)
      ensures forall r :: r in requests <==> IsRequest(query.Contents(), r)
    {
      hide TotalLabels, DistinctRequests, RequestsFit, IsRequest;
      ReserveLabels(total);
      FillRequests(labels, query);
      requests := labels[..total];
      FillsAll(query.Contents(), requests);
    }

    /** The request loop: batches of 1000 labels, and one of what is left, until all requests are answered. */
    method RequestAll(query: VecToken, requests: seq<LabelRequest>, ghost orig: seq<IeeToken>)
      returns (ok: bool, ghost sizes: seq<nat>)
      requires Valid() && Sound(crypto) && query.Valid() && RequestsFit(orig, requests)
      requires Progress(crypto, server.index, orig, query.Contents(), requests, 0)
      modifies query.elems, query`writes
      ensures Valid() && query.Valid()
      ensures ok ==> Progress(crypto, server.index, orig, query.Contents(), requests, |requests|)
      ensures ok ==> query.writes == old(query.writes) + SlotsOf(requests)
      ensures ok ==> sizes == BatchSizes(|requests|)
      ensures !ok ==> !AllAnswered(crypto, server.index, orig)
    {
      hide Progress, AllAnswered, Sound, RequestsFit, SlotsOf, BatchSizes;
      assert SlotsOf(requests[..0]) == [];
      var total := |requests|;
      var buffer := new Byte[HASH_SIZE * MAX_BATCH_SEARCH];
      var labelPos := 0;
      sizes := [];
      assert sizes + BatchSizes(total) == BatchSizes(total);
      var batchSize := if total < MAX_BATCH_SEARCH then total else MAX_BATCH_SEARCH;
      while labelPos < total
        invariant Valid() && query.Valid() && labelPos <= total
        invariant batchSize == if total - labelPos < MAX_BATCH_SEARCH then total - labelPos else MAX_BATCH_SEARCH
        invariant Progress(crypto, server.index, orig, query.Contents(), requests, labelPos)
        invariant query.writes == old(query.writes) + SlotsOf(requests[..labelPos])
        invariant sizes + BatchSizes(total - labelPos) == BatchSizes(total)
        decreases total - labelPos
      {
        var fetched := FetchBatch(query, requests, labelPos, batchSize, buffer, orig);
        if !fetched {
          return false, sizes;
        }
        SlotsJoin(requests, labelPos, batchSize);
        NextBatch(sizes, total - labelPos, batchSize);
        sizes := sizes + [batchSize];
        labelPos := labelPos + batchSize;
        batchSize := if total - labelPos < MAX_BATCH_SEARCH then total - labelPos else MAX_BATCH_SEARCH;
      }
      assert requests[..total] == requests;
      NoBatchSizes();
      return true, sizes;
    }

    /** get_docs_from_server: all postings of all words, or an exit when one of them has no valid answer. */
    method GetDocsFromServer(query: VecToken, total: nat) returns (ok: bool, ghost sizes: seq<nat>)
      requires Valid() && Sound(crypto) && query.Valid() && Allocated(query.Contents())
      requires total == TotalLabels(query.Contents())
      modifies this`labels, this`labelsSize, labels, query.elems, query`writes
      ensures Valid() && query.Valid() && (labels == old(labels) || fresh(labels))
      ensures ok ==>
                && old(query.writes) <= query.writes
                && WrittenOnce(query.writes[|old(query.writes)|..], old(query.Contents()))
      ensures ok ==> sizes == BatchSizes(total)
      ensures ok <==> AllAnswered(crypto, server.index, old(query.Contents()))
      ensures ok ==> query.Contents() == FetchedAll(crypto, server.index, old(query.Contents()))
    {
      hide Progress, AllAnswered, Sound, Allocated, FetchedAll, TotalLabels, DistinctRequests, RequestsFit, IsRequest,
           SlotsOf, WrittenOnce;
      ghost var orig := query.Contents();
      var requests := PrepareRequests(query, total);
      NoProgress(crypto, server.index, orig, requests);
      ok, sizes := RequestAll(query, requests, orig);
      if ok {
        SlotsWrittenOnce(requests, orig);
        ProgressDone(crypto, server.index, orig, query.Contents(), requests);
      }
    }

    /** Makes the counting buffer large enough for all documents. */
    method ReserveAux(nDocs: nat)
      requires Valid()
      modifies this`auxBool, this`lastNDocs
      ensures Valid() && nDocs <= auxBool.Length && (auxBool == old(auxBool) || fresh(auxBool))
    {
      if nDocs > lastNDocs {
        auxBool := new Byte[nDocs];
        lastNDocs := nDocs;
      }
    }

    /** The scoring part of search(); without documents there is nothing to score. */
    method Rank(query: VecToken, docs: seq<int>, nDocs: nat, log: real -> real, f: DoubleFormat) returns (out: Bytes)
      requires EightBytes(f) && query.Valid() && Allocated(query.Contents())
      modifies query.elems
      ensures Allocated(WithIdf(log, nDocs, old(query.Contents())))
      ensures Responds(out, f, Scores(WithIdf(log, nDocs, old(query.Contents())), docs))
    {
      hide Responds, Allocated, Descending, WithIdf;
      WithIdfAllocated(log, nDocs, query.Contents());
      ghost var all := Scores(WithIdf(log, nDocs, query.Contents()), docs);
      var results: seq<Scored> := [];
      if |docs| > 0 {
        CalcIdf(query, nDocs, log);
        results := CalcTfidf(query, docs);
        results := QSort(results);
      } else {
        NothingSorted(results, all);
      }
      out := Respond(f, results, all);
    }

    /** search() */
    method Search(input: Bytes, log: real -> real, f: DoubleFormat)
      returns (outcome: SearchOutcome, ghost found: seq<int>)
      requires Valid() && Sound(crypto) && EightBytes(f) && Searchable(crypto, server.index, input)
      modifies this, labels, auxBool
      ensures Valid() && (labels == old(labels) || fresh(labels)) && (auxBool == old(auxBool) || fresh(auxBool))
      ensures var p := Parse(input[1..], [], 0);
              outcome.Answered? <==> Succeeds(crypto, server.index, p)
      ensures var p := Parse(input[1..], [], 0);
              var fetched := FetchedAll(crypto, server.index, p.tokens);
              forall e :: Succeeds(crypto, server.index, p) && Postfix<IeeToken>(e) == Evaluator.Shapes(fetched) ==>
                && found == Evaluator.EvalDocs(e, p.nDocs) && Allocated(WithIdf(log, p.nDocs, fetched))
                && outcome.Answered? && Responds(outcome.response, f, Scores(WithIdf(log, p.nDocs, fetched), found))
    {
      hide AllAnswered, Sound, Allocated, FetchedAll, Parse, Responds, WithIdf, TotalLabels;
      hide Evaluator.TokensOperable, Evaluator.EvalDocs, Evaluator.Shapes;
      found := [];
      var query, nDocs, countLabels := ReadQuery(input);
      ghost var tokens := query.Contents();
      var ok;
      ghost var sizes;
      ok, sizes := GetDocsFromServer(query, countLabels);
      if !ok {
        return Exited, [];
      }
      ghost var fetched := FetchedAll(crypto, server.index, tokens);
      ReserveAux(nDocs);
      var evaluated := Evaluator.Evaluate(query, nDocs, auxBool);
      if evaluated.Exit? {
        return Exited, [];
      }
      found := evaluated.docs;
      FetchedAllocated(crypto, server.index, tokens);
      var response := Rank(query, evaluated.docs, nDocs, log, f);
      outcome := Answered(response);
    }
  }

  lemma BatchFits(c: Crypto, index: map<Bytes, Bytes>, orig: seq<IeeToken>, now: seq<IeeToken>,
                  requests: seq<LabelRequest>, first: nat, n: nat)
    requires first + n <= |requests| && RequestsFit(orig, requests) && Progress(c, index, orig, now, requests, first)
    ensures var batch := requests[first..first + n];
            && RequestsFit(orig, batch) && RequestsFit(now, batch)
            && LabelBlocks(c, now, batch) == LabelBlocks(c, orig, batch)
  {
    hide LabelFor, Filled;
    var batch := requests[first..first + n];
    forall q | 0 <= q < |batch|
      ensures IsRequest(orig, batch[q]) && IsRequest(now, batch[q])
      ensures orig[batch[q].token].key == now[batch[q].token].key
    {
      assert batch[q] == requests[first + q];
      assert IsRequest(orig, requests[first + q]);
      SameKeepsRequests(orig, now, batch[q]);
    }
  }

  lemma LabelBlockIs(c: Crypto, tokens: seq<IeeToken>, batch: seq<LabelRequest>, bytes: Bytes, q: nat)
    requires RequestsFit(tokens, batch) && q < |batch| && HASH_SIZE * |batch| <= |bytes|
    requires Blocks(bytes, HASH_SIZE, |batch|) == LabelBlocks(c, tokens, batch)
    ensures batch[q].token < |tokens| && BlockAt(bytes, HASH_SIZE, |batch|, q) == LabelOfRequest(c, tokens, batch[q])
  {
    assert IsRequest(tokens, batch[q]);
    assert Blocks(bytes, HASH_SIZE, |batch|)[q] == BlockAt(bytes, HASH_SIZE, |batch|, q);
    assert LabelBlocks(c, tokens, batch)[q] == LabelOfRequest(c, tokens, batch[q]);
  }

  lemma FillsAll(tokens: seq<IeeToken>, requests: seq<LabelRequest>)
    requires forall r :: r in requests <==> IsRequest(tokens, r)
    ensures RequestsFit(tokens, requests)
  {
    forall q | 0 <= q < |requests| ensures IsRequest(tokens, requests[q]) {
      assert requests[q] in requests;
    }
  }

  lemma NoProgress(c: Crypto, index: map<Bytes, Bytes>, orig: seq<IeeToken>, requests: seq<LabelRequest>)
    requires Allocated(orig)
    ensures Progress(c, index, orig, orig, requests, 0)
  {
    assert forall i :: 0 <= i < |orig| ==> SameToken(orig[i], orig[i]);
  }

  lemma NothingSorted(none: seq<Scored>, all: seq<Scored>)
    requires |none| == |all| == 0
    ensures Descending(none) && multiset(none) == multiset(all)
  {
  }
}
