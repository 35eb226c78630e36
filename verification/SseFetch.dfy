/**
The enclave's fetch of all postings of a query, in batches, in any order of the requests.
*/
module SseFetch {
  import opened Options
  import opened IntVectors
  import opened ByteBuffers
  import opened Index
  import opened IndexRuns
  import opened Messages
  import opened TokenVectors
  import opened Requests
  import opened SseServer

  const MAX_BATCH_SEARCH := 1000

  // ------------------------------------------------------------ filling the requests

  /** The place of a new request among the k + 1 places; the contract allows every choice. */
  method RandomIndex(k: nat) returns (r: nat)
    ensures r <= k
  {
    r := 0;
  }

  method PlaceRequest(labels: array<LabelRequest>, k: nat, r: nat, x: LabelRequest, ghost list: seq<LabelRequest>)
    requires r <= k < labels.Length && Rearranged(labels[..k], list)
    modifies labels
    ensures Rearranged(labels[..k + 1], list + [x])
  {
    ghost var before := labels[..k];
    ShuffleStep(before, r, x);
    if r != k {
      labels[k] := labels[r];
    }
    labels[r] := x;
    assert labels[..k + 1] == if r == k then before + [x] else before[r := x] + [before[r]];
  }

  /** The requests of one word, shuffled into those before it. */
  method FillWord(labels: array<LabelRequest>, i: nat, counter: nat, start: nat, ghost before: seq<LabelRequest>)
    requires start + counter <= labels.Length && Rearranged(labels[..start], before)
    modifies labels
    ensures Rearranged(labels[..start + counter], before + WordRequests(i, counter))
  {
    hide Rearranged, WordRequests;
    NoWordRequests(before, i);
    var k := start;
    for j := 0 to counter
      invariant k == start + j && Rearranged(labels[..k], before + WordRequests(i, j))
    {
      var r := RandomIndex(k);
      NextWordRequest(before, i, j);
      PlaceRequest(labels, k, r, LabelRequest(i, j), before + WordRequests(i, j));
      k := k + 1;
    }
  }

  lemma NoWordRequests(before: seq<LabelRequest>, i: nat)
    ensures before + WordRequests(i, 0) == before
  {
  }

  lemma NextWordRequest(before: seq<LabelRequest>, i: nat, j: nat)
    ensures before + WordRequests(i, j) + [LabelRequest(i, j)] == before + WordRequests(i, j + 1)
  {
  }

  /** All requests of all words: a rearrangement without duplicates of what has to be fetched. */
  method FillRequests(labels: array<LabelRequest>, query: VecToken)
    requires query.Valid() && TotalLabels(query.Contents()) <= labels.Length
    modifies labels
    ensures var requests := labels[..TotalLabels(query.Contents())];
            && DistinctRequests(requests) && Rearranged(requests, RequestsOf(query.Contents(), query.counter))
            && forall r :: r in requests <==> IsRequest(query.Contents(), r)
  {
    hide DistinctRequests, IsRequest, Rearranged, WordRequests;
    ghost var tokens := query.Contents();
    var k := 0;
    NothingRearranged(labels[..0]);
    RequestsLength(tokens, query.counter);
    assert tokens[..query.counter] == tokens;
    for i := 0 to query.counter
      invariant query.Contents() == tokens
      invariant k == |RequestsOf(tokens, i)| <= labels.Length
      invariant Rearranged(labels[..k], RequestsOf(tokens, i))
    {
      RequestsGrow(tokens, i + 1, query.counter);
      if query.elems[i].kind != WORD_KIND {
        assert RequestsOf(tokens, i + 1) == RequestsOf(tokens, i);
        continue;
      }
      FillWord(labels, i, query.elems[i].counter, k, RequestsOf(tokens, i));
      k := k + query.elems[i].counter;
    }
    RequestsExact(tokens, query.counter);
    PermutationOfDistinct(labels[..k], RequestsOf(tokens, query.counter));
    RequestTokens(tokens);
  }

  lemma NothingRearranged(none: seq<LabelRequest>)
    requires |none| == 0
    ensures Rearranged(none, [])
  {
  }

  lemma RequestTokens(tokens: seq<IeeToken>)
    ensures forall r :: IsRequest(tokens, r) ==> r.token < |tokens|
  {
  }

  // ------------------------------------------------------------------------ a batch

  function LabelOfRequest(c: Crypto, tokens: seq<IeeToken>, r: LabelRequest): Bytes
    requires r.token < |tokens|
  {
    LabelFor(c, tokens[r.token].key, r.counter)
  }

  predicate RequestsFit(tokens: seq<IeeToken>, requests: seq<LabelRequest>) {
    forall q :: 0 <= q < |requests| ==> IsRequest(tokens, requests[q])
  }

  function LabelBlocks(c: Crypto, tokens: seq<IeeToken>, requests: seq<LabelRequest>): (b: seq<Bytes>)
    requires RequestsFit(tokens, requests)
    ensures |b| == |requests|
  {
    seq(|requests|, i requires 0 <= i < |requests| => LabelOfRequest(c, tokens, requests[i]))
  }

  lemma LabelsSized(c: Crypto, tokens: seq<IeeToken>, requests: seq<LabelRequest>)
    requires Sound(c) && RequestsFit(tokens, requests)
    ensures AllSized(LabelBlocks(c, tokens, requests), HASH_SIZE)
  {
  }

  lemma OneMoreLabel(c: Crypto, tokens: seq<IeeToken>, requests: seq<LabelRequest>, i: nat)
    requires i < |requests| && RequestsFit(tokens, requests)
    ensures RequestsFit(tokens, requests[..i]) && RequestsFit(tokens, requests[..i + 1])
    ensures Flatten(LabelBlocks(c, tokens, requests[..i + 1]))
         == Flatten(LabelBlocks(c, tokens, requests[..i])) + LabelOfRequest(c, tokens, requests[i])
  {
    var blocks := LabelBlocks(c, tokens, requests[..i + 1]);
    assert blocks == LabelBlocks(c, tokens, requests[..i]) + [LabelOfRequest(c, tokens, requests[i])];
    FlattenSnoc(LabelBlocks(c, tokens, requests[..i]), LabelOfRequest(c, tokens, requests[i]));
  }

  lemma NoLabels(c: Crypto, tokens: seq<IeeToken>, requests: seq<LabelRequest>)
    ensures RequestsFit(tokens, requests[..0]) && Flatten(LabelBlocks(c, tokens, requests[..0])) == []
  {
  }

  lemma LabelSized(c: Crypto, key: Bytes, counter: nat)
    requires Sound(c)
    ensures |LabelFor(c, key, counter)| == HASH_SIZE
  {
  }

  /** Computes the labels of a batch into the request buffer. */
  method FillLabels(c: Crypto, query: VecToken, requests: seq<LabelRequest>, buffer: array<Byte>)
    requires Sound(c) && query.Valid() && RequestsFit(query.Contents(), requests)
    requires HASH_SIZE * |requests| <= buffer.Length
    modifies buffer
    ensures buffer[..HASH_SIZE * |requests|] == Flatten(LabelBlocks(c, query.Contents(), requests))
  {
    hide LabelBlocks, Flatten, LabelFor, Sound;
    ghost var tokens := query.Contents();
    NoLabels(c, tokens, requests);
    for i := 0 to |requests|
      invariant query.Contents() == tokens && RequestsFit(tokens, requests[..i])
      invariant buffer[..HASH_SIZE * i] == Flatten(LabelBlocks(c, tokens, requests[..i]))
    {
      Slot(HASH_SIZE, i, |requests|);
      OneMoreLabel(c, tokens, requests, i);
      assert IsRequest(tokens, requests[i]);
      var key := query.elems[requests[i].token].key;
      LabelSized(c, key, requests[i].counter);
      var next := AddToArr(LabelFor(c, key, requests[i].counter), buffer, HASH_SIZE * i);
    }
    assert requests[..|requests|] == requests;
  }

  lemma SizedEntries(index: map<Bytes, Bytes>, labels: seq<Bytes>, found: seq<Bytes>)
    requires forall l :: l in index ==> |l| == HASH_SIZE && |index[l]| == ENTRY_SIZE
    requires Fetch(index, labels) == Some(found)
    ensures AllSized(found, ENTRY_SIZE) && |found| == |labels|
  {
    FetchExact(index, labels);
  }

  /** What the reply to a batch means for each of its requests. */
  lemma ReplyMeans(c: Crypto, index: map<Bytes, Bytes>, tokens: seq<IeeToken>, requests: seq<LabelRequest>,
                   reply: Option<Bytes>)
    requires Sound(c) && RequestsFit(tokens, requests)
    requires forall l :: l in index ==> |l| == HASH_SIZE && |index[l]| == ENTRY_SIZE
    requires reply == match Fetch(index, LabelBlocks(c, tokens, requests))
                      case None => None
                      case Some(entries) => Some(Flatten(entries))
    ensures reply.None? ==>
              exists q :: 0 <= q < |requests|
                && Answer(c, index, tokens[requests[q].token].key, requests[q].counter).None?
    ensures reply.Some? ==>
              && |reply.value| == ENTRY_SIZE * |requests|
              && forall q :: 0 <= q < |requests| ==>
                   ReplyAt(c, index, tokens, requests[q], BlockAt(reply.value, ENTRY_SIZE, |requests|, q))
  {
    hide Flatten, BlockAt, Opened;
    var labels := LabelBlocks(c, tokens, requests);
    FetchExact(index, labels);
    match Fetch(index, labels)
    case None =>
      var q :| 0 <= q < |labels| && labels[q] !in index;
      assert Answer(c, index, tokens[requests[q].token].key, requests[q].counter).None?;
    case Some(entries) =>
      SizedEntries(index, labels, entries);
      BlocksOfFlatten(entries, ENTRY_SIZE);
      forall q | 0 <= q < |requests|
        ensures ReplyAt(c, index, tokens, requests[q], BlockAt(Flatten(entries), ENTRY_SIZE, |requests|, q))
      {
        assert Blocks(Flatten(entries), ENTRY_SIZE, |requests|)[q] == entries[q];
        assert labels[q] in index && entries[q] == index[labels[q]];
      }
  }

  /** The block is the server's entry for the request. */
  predicate ReplyAt(c: Crypto, index: map<Bytes, Bytes>, tokens: seq<IeeToken>, r: LabelRequest, block: Bytes) {
    && r.token < |tokens|
    && LabelOfRequest(c, tokens, r) in index
    && block == index[LabelOfRequest(c, tokens, r)]
  }

  /** Decrypts an entry, checks its label and reads the posting. */
  method OpenEntry(c: Crypto, entry: Bytes, mac: Bytes) returns (found: Option<FoundPosting>)
    requires Sound(c) && |entry| == ENTRY_SIZE && |mac| == HASH_SIZE
    ensures found == Opened(c.decrypt(entry), mac)
  {
    hide DecodeInt, DecodeSize;
    var plain := c.decrypt(entry);
    assert |plain| == ENTRY_SIZE;
    if plain[..HASH_SIZE] != mac {
      return None;
    }
    var frequency, next := ReadIntFromArr(plain, HASH_SIZE);
    var id;
    id, next := ReadFromArr(SIZE_T_SIZE, plain, next);
    return Some(FoundPosting(AsInt(DecodeSize(id)), frequency));
  }

  /** Writes the postings of a batch to their slots; false when a label does not match, where the source exits. */
  method StoreReplies(c: Crypto, query: VecToken, requests: seq<LabelRequest>, first: nat, n: nat, labels: Bytes,
                      reply: Bytes, ghost index: map<Bytes, Bytes>, ghost orig: seq<IeeToken>)
    returns (ok: bool)
    requires Sound(c) && query.Valid() && first + n <= |requests| && RequestsFit(orig, requests)
    requires Progress(c, index, orig, query.Contents(), requests, first)
    requires |labels| == HASH_SIZE * n && |reply| == ENTRY_SIZE * n
    requires forall q :: 0 <= q < n ==> BlockAt(labels, HASH_SIZE, n, q) == LabelOfRequest(c, orig, requests[first + q])
    requires forall q :: 0 <= q < n ==> ReplyAt(c, index, orig, requests[first + q], BlockAt(reply, ENTRY_SIZE, n, q))
    modifies query.elems, query`writes
    ensures query.Valid()
    ensures ok ==> Progress(c, index, orig, query.Contents(), requests, first + n)
    ensures ok ==> query.writes == old(query.writes) + SlotsOf(requests[first..first + n])
    ensures !ok ==> !AllAnswered(c, index, orig)
  {
    hide Progress, Opened, BlockAt, Sound, AllAnswered, LabelFor, SlotsOf;
    assert SlotsOf(requests[first..first]) == [];
    for i := 0 to n
      invariant query.Valid()
      invariant Progress(c, index, orig, query.Contents(), requests, first + i)
      invariant query.writes == old(query.writes) + SlotsOf(requests[first..first + i])
    {
      Slot(HASH_SIZE, i, n);
      Slot(ENTRY_SIZE, i, n);
      ghost var r := requests[first + i];
      assert ReplyAt(c, index, orig, r, BlockAt(reply, ENTRY_SIZE, n, i));
      BlockIs(labels, HASH_SIZE, n, i);
      BlockIs(reply, ENTRY_SIZE, n, i);
      var found := OpenEntry(c, reply[ENTRY_SIZE * i..ENTRY_SIZE * i + ENTRY_SIZE],
                             labels[HASH_SIZE * i..HASH_SIZE * i + HASH_SIZE]);
      assert found == Answer(c, index, orig[r.token].key, r.counter);
      assert IsRequest(orig, r);
      if found.None? {
        Unanswered(c, index, orig, r);
        return false;
      }
      ProgressStep(c, index, orig, query.Contents(), requests, first + i, found.value);
      OneMoreSlot(requests, first, i);
      StoreAt(query, requests[first + i], found.value.doc, found.value.frequency);
    }
    return true;
  }

  /** Writes one posting to its slot. */
  method StoreAt(query: VecToken, r: LabelRequest, doc: int, frequency: int)
    requires query.Valid() && IsRequest(query.Contents(), r) && Allocated(query.Contents())
    modifies query.elems, query`writes
    ensures query.Valid() && query.Contents() == Stored(old(query.Contents()), r, doc, frequency)
    ensures query.writes == old(query.writes) + [(r.token, r.counter)]
  {
    query.SetPosting(r.token, r.counter, doc, frequency);
  }

  lemma BlockIs(s: Bytes, size: nat, n: nat, i: nat)
    requires size * n <= |s| && i < n
    ensures 0 <= size * i <= size * i + size <= |s|
    ensures BlockAt(s, size, n, i) == s[size * i..size * i + size]
  {
    Slot(size, i, n);
  }

  lemma Unanswered(c: Crypto, index: map<Bytes, Bytes>, tokens: seq<IeeToken>, r: LabelRequest)
    requires IsRequest(tokens, r) && Answer(c, index, tokens[r.token].key, r.counter).None?
    ensures !AllAnswered(c, index, tokens)
  {
  }
}
