/**
The label requests of a search: which postings the enclave asks the server for, and what
an answer to a request is.
*/
module Requests {
  import opened Options
  import opened ByteBuffers
  import opened Index
  import opened IndexRuns
  import opened Messages
  import opened TokenVectors

  predicate IsWord(t: IeeToken) {
    t.kind == WORD_KIND
  }

  /** The lists of a word have room for as many postings as its counter says. */
  predicate Allocated(tokens: seq<IeeToken>) {
    forall i :: 0 <= i < |tokens| && IsWord(tokens[i]) ==>
      |tokens[i].docs| == |tokens[i].frequencies| == tokens[i].counter
  }

  /** A request for posting `counter` of the word at position `token` of the query. */
  datatype LabelRequest = LabelRequest(token: nat, counter: nat)

  predicate IsRequest(tokens: seq<IeeToken>, r: LabelRequest) {
    r.token < |tokens| && IsWord(tokens[r.token]) && r.counter < tokens[r.token].counter
  }

  /** The first n requests for one word. */
  function WordRequests(token: nat, n: nat): (r: seq<LabelRequest>)
    ensures |r| == n
  {
    seq(n, j requires 0 <= j < n => LabelRequest(token, j))
  }

  function CounterAt(tokens: seq<IeeToken>, i: nat): nat
    requires i < |tokens|
  {
    if IsWord(tokens[i]) then tokens[i].counter else 0
  }

  /** The requests of the first n tokens. */
  function RequestsOf(tokens: seq<IeeToken>, n: nat): seq<LabelRequest>
    requires n <= |tokens|
  {
    if n == 0 then [] else RequestsOf(tokens, n - 1) + WordRequests(n - 1, CounterAt(tokens, n - 1))
  }

  /** How many labels the words of a query have together. */
  function TotalLabels(tokens: seq<IeeToken>): nat
    decreases |tokens|
  {
    if |tokens| == 0 then 0 else TotalLabels(tokens[..|tokens| - 1]) + CounterAt(tokens, |tokens| - 1)
  }

  lemma {:induction false} RequestsLength(tokens: seq<IeeToken>, n: nat)
    requires n <= |tokens|
    ensures |RequestsOf(tokens, n)| == TotalLabels(tokens[..n])
  {
    if n == 0 {
    } else {
      RequestsLength(tokens, n - 1);
      assert tokens[..n][..n - 1] == tokens[..n - 1];
    }
  }

  lemma {:induction false} RequestsGrow(tokens: seq<IeeToken>, m: nat, n: nat)
    requires m <= n <= |tokens|
    ensures |RequestsOf(tokens, m)| <= |RequestsOf(tokens, n)|
  {
    if m == n {
    } else {
      RequestsGrow(tokens, m, n - 1);
    }
  }

  predicate DistinctRequests(s: seq<LabelRequest>) {
    forall i, j :: 0 <= i < j < |s| ==> s[i] != s[j]
  }

  lemma WordRequestsAre(token: nat, n: nat)
    ensures DistinctRequests(WordRequests(token, n))
    ensures forall r :: r in WordRequests(token, n) <==> r.token == token && r.counter < n
  {
    forall r: LabelRequest | r.token == token && r.counter < n ensures r in WordRequests(token, n) {
      assert WordRequests(token, n)[r.counter] == r;
    }
  }

  lemma DistinctConcat(a: seq<LabelRequest>, b: seq<LabelRequest>)
    requires DistinctRequests(a) && DistinctRequests(b) && forall r :: r in a ==> r !in b
    ensures DistinctRequests(a + b)
  {
    var s := a + b;
    forall i, j | 0 <= i < j < |s| ensures s[i] != s[j] {
      if i < |a| <= j {
        assert s[i] in a && s[j] in b;
      }
    }
  }

  /** The list of the source's two loops asks for every posting of every word, once. */
  lemma {:induction false} RequestsExact(tokens: seq<IeeToken>, n: nat)
    requires n <= |tokens|
    ensures DistinctRequests(RequestsOf(tokens, n))
    ensures forall r :: r in RequestsOf(tokens, n) <==> r.token < n && IsRequest(tokens, r)
  {
    if n == 0 {
    } else {
      RequestsExact(tokens, n - 1);
      hide DistinctRequests, WordRequests;
      WordRequestsAre(n - 1, CounterAt(tokens, n - 1));
      DistinctConcat(RequestsOf(tokens, n - 1), WordRequests(n - 1, CounterAt(tokens, n - 1)));
    }
  }

  // ------------------------------------------------------------------- permutations

  lemma {:induction false} DistinctOnce(s: seq<LabelRequest>)
    requires DistinctRequests(s)
    ensures forall r :: multiset(s)[r] <= 1
    decreases |s|
  {
    if |s| == 0 {
    } else {
      var n := |s| - 1;
      DistinctOnce(s[..n]);
      assert s == s[..n] + [s[n]];
      assert s[n] !in s[..n];
    }
  }

  lemma TwiceCounted(s: seq<LabelRequest>, i: nat, j: nat)
    requires i < j < |s| && s[i] == s[j]
    ensures multiset(s)[s[i]] >= 2
  {
    var a, b := s[..j], s[j..];
    assert s == a + b;
    assert a[i] == s[i] && b[0] == s[j];
    assert s[i] in multiset(a) && s[i] in multiset(b);
  }

  predicate Rearranged(s: seq<LabelRequest>, t: seq<LabelRequest>) {
    multiset(s) == multiset(t)
  }

  /** A rearrangement of a list without duplicates has the same elements and no duplicates either. */
  lemma PermutationOfDistinct(s: seq<LabelRequest>, t: seq<LabelRequest>)
    requires Rearranged(s, t) && DistinctRequests(t)
    ensures DistinctRequests(s) && |s| == |t| && forall r :: r in s <==> r in t
  {
    DistinctOnce(t);
    forall i, j | 0 <= i < j < |s| ensures s[i] != s[j] {
      if s[i] == s[j] {
        TwiceCounted(s, i, j);
      }
    }
    assert |s| == |multiset(s)| && |t| == |multiset(t)|;
    forall r ensures r in s <==> r in t {
      assert r in s <==> r in multiset(s);
      assert r in t <==> r in multiset(t);
    }
  }

  /** One step of the inside-out shuffle: the new request takes place r, the one that was there moves to the end. */
  lemma ShuffleStep(s: seq<LabelRequest>, r: nat, x: LabelRequest)
    requires r <= |s|
    ensures var t := if r == |s| then s + [x] else s[r := x] + [s[r]];
            multiset(t) == multiset(s) + multiset{x}
  {
    if r < |s| {
      assert s == s[..r] + [s[r]] + s[r + 1..];
      assert s[r := x] == s[..r] + [x] + s[r + 1..];
    }
  }

  // -------------------------------------------------------------- slots of requests

  /** The slots that belong to requests: token and posting. */
  function SlotsOf(requests: seq<LabelRequest>): (s: seq<(nat, nat)>)
    ensures |s| == |requests|
  {
    seq(|requests|, i requires 0 <= i < |requests| => (requests[i].token, requests[i].counter))
  }

  /** Every slot of every word of the query is written exactly once, and no other one. */
  ghost predicate WrittenOnce(writes: seq<(nat, nat)>, tokens: seq<IeeToken>) {
    && (forall i, j :: 0 <= i < j < |writes| ==> writes[i] != writes[j])
    && (forall token: nat, counter: nat ::
          (token, counter) in writes <==> IsRequest(tokens, LabelRequest(token, counter)))
  }

  lemma SlotsWrittenOnce(requests: seq<LabelRequest>, tokens: seq<IeeToken>)
    requires DistinctRequests(requests) && forall r :: r in requests <==> IsRequest(tokens, r)
    ensures WrittenOnce(SlotsOf(requests), tokens)
  {
    var slots := SlotsOf(requests);
    forall token: nat, counter: nat ensures (token, counter) in slots <==> LabelRequest(token, counter) in requests {
      if LabelRequest(token, counter) in requests {
        var q :| 0 <= q < |requests| && requests[q] == LabelRequest(token, counter);
        assert slots[q] == (token, counter);
      }
    }
  }

  lemma OneMoreSlot(requests: seq<LabelRequest>, first: nat, i: nat)
    requires first + i < |requests|
    ensures var r := requests[first + i];
            SlotsOf(requests[first..first + i + 1]) == SlotsOf(requests[first..first + i]) + [(r.token, r.counter)]
  {
  }

  lemma SlotsJoin(requests: seq<LabelRequest>, first: nat, n: nat)
    requires first + n <= |requests|
    ensures SlotsOf(requests[..first]) + SlotsOf(requests[first..first + n]) == SlotsOf(requests[..first + n])
  {
  }

  // ------------------------------------------------------------------------ answers

  datatype FoundPosting = FoundPosting(doc: int, frequency: int)

  /** A size_t assigned to an int. */
  function AsInt(x: nat): int {
    var low := x % 0x1_0000_0000;
    if low < 0x8000_0000 then low else low - 0x1_0000_0000
  }

  /** Opening a decrypted entry: it must start with the label it was asked for by. */
  function Opened(plain: Bytes, mac: Bytes): Option<FoundPosting> {
    if |plain| == ENTRY_SIZE && plain[..HASH_SIZE] == mac
    then Some(FoundPosting(AsInt(DecodeSize(plain[36..44])), DecodeInt(plain[32..36])))
    else None
  }

  /** What the server's map answers for a posting; None makes the enclave or the server exit. */
  function Answer(c: Crypto, index: map<Bytes, Bytes>, key: Bytes, counter: nat): Option<FoundPosting> {
    var mac := LabelFor(c, key, counter);
    if mac in index then Opened(c.decrypt(index[mac]), mac) else None
  }

  ghost predicate AllAnswered(c: Crypto, index: map<Bytes, Bytes>, tokens: seq<IeeToken>) {
    forall r :: IsRequest(tokens, r) ==> Answer(c, index, tokens[r.token].key, r.counter).Some?
  }

  function AnswerOr(c: Crypto, index: map<Bytes, Bytes>, key: Bytes, counter: nat): FoundPosting {
    match Answer(c, index, key, counter)
    case Some(p) => p
    case None => FoundPosting(0, 0)
  }

  function AnsweredDocs(c: Crypto, index: map<Bytes, Bytes>, t: IeeToken): (s: seq<int>)
    ensures |s| == t.counter
  {
    seq(t.counter, j requires 0 <= j < t.counter => AnswerOr(c, index, t.key, j).doc)
  }

  function AnsweredFrequencies(c: Crypto, index: map<Bytes, Bytes>, t: IeeToken): (s: seq<int>)
    ensures |s| == t.counter
  {
    seq(t.counter, j requires 0 <= j < t.counter => AnswerOr(c, index, t.key, j).frequency)
  }

  /** A query token when all its postings have been fetched. */
  function Fetched(c: Crypto, index: map<Bytes, Bytes>, t: IeeToken): IeeToken {
    if IsWord(t)
    then t.(docs := AnsweredDocs(c, index, t), frequencies := AnsweredFrequencies(c, index, t))
    else t
  }

  function FetchedAll(c: Crypto, index: map<Bytes, Bytes>, tokens: seq<IeeToken>): (s: seq<IeeToken>)
    ensures |s| == |tokens|
  {
    seq(|tokens|, i requires 0 <= i < |tokens| => Fetched(c, index, tokens[i]))
  }

  // ----------------------------------------------------------------------- progress

  /** Only the lists of a token change while answers come in. */
  predicate SameToken(s: IeeToken, t: IeeToken) {
    && t == s.(docs := t.docs, frequencies := t.frequencies)
    && |s.docs| == |t.docs| && |s.frequencies| == |t.frequencies|
    && (!IsWord(s) ==> t == s)
  }

  predicate SameTokens(orig: seq<IeeToken>, now: seq<IeeToken>) {
    |orig| == |now| && forall i :: 0 <= i < |orig| ==> SameToken(orig[i], now[i])
  }

  /** The slot of a request holds the answer to it. */
  ghost predicate Filled(c: Crypto, index: map<Bytes, Bytes>, now: seq<IeeToken>, r: LabelRequest) {
    && IsRequest(now, r) && Allocated(now)
    && var answer := Answer(c, index, now[r.token].key, r.counter);
       && answer.Some?
       && now[r.token].docs[r.counter] == answer.value.doc
       && now[r.token].frequencies[r.counter] == answer.value.frequency
  }

  ghost predicate Progress(c: Crypto, index: map<Bytes, Bytes>, orig: seq<IeeToken>, now: seq<IeeToken>,
                           requests: seq<LabelRequest>, p: nat)
    requires p <= |requests|
  {
    && SameTokens(orig, now) && Allocated(orig)
    && forall q :: 0 <= q < p ==> Filled(c, index, now, requests[q])
  }

  /** The answer to a request in its slot. */
  function Stored(now: seq<IeeToken>, r: LabelRequest, doc: int, frequency: int): seq<IeeToken>
    requires IsRequest(now, r) && Allocated(now)
  {
    var t := now[r.token];
    now[r.token := t.(docs := t.docs[r.counter := doc], frequencies := t.frequencies[r.counter := frequency])]
  }

  lemma SameKeepsRequests(orig: seq<IeeToken>, now: seq<IeeToken>, r: LabelRequest)
    requires SameTokens(orig, now)
    ensures IsRequest(orig, r) <==> IsRequest(now, r)
    ensures Allocated(orig) <==> Allocated(now)
    ensures r.token < |orig| ==> orig[r.token].key == now[r.token].key
  {
    forall i | 0 <= i < |orig|
      ensures SameToken(orig[i], now[i])
    {
    }
  }

  lemma StoredIs(now: seq<IeeToken>, r: LabelRequest, doc: int, frequency: int)
    requires IsRequest(now, r) && Allocated(now)
    ensures SameTokens(now, Stored(now, r, doc, frequency))
    ensures Allocated(Stored(now, r, doc, frequency))
  {
    var after := Stored(now, r, doc, frequency);
    assert forall i :: 0 <= i < |now| ==> SameToken(now[i], after[i]);
  }

  /** Storing the answer to one request keeps the slots that are filled. */
  lemma StoredKeepsFilled(c: Crypto, index: map<Bytes, Bytes>, now: seq<IeeToken>, r: LabelRequest, q: LabelRequest,
                          a: FoundPosting)
    requires IsRequest(now, r) && Allocated(now) && Answer(c, index, now[r.token].key, r.counter) == Some(a)
    requires q == r || Filled(c, index, now, q)
    ensures Filled(c, index, Stored(now, r, a.doc, a.frequency), q)
  {
    hide Answer;
    StoredIs(now, r, a.doc, a.frequency);
  }

  lemma SameTransitive(a: seq<IeeToken>, b: seq<IeeToken>, c: seq<IeeToken>)
    requires SameTokens(a, b) && SameTokens(b, c)
    ensures SameTokens(a, c)
  {
    forall i | 0 <= i < |a| ensures SameToken(a[i], c[i]) {
      assert SameToken(a[i], b[i]) && SameToken(b[i], c[i]);
    }
  }

  lemma ProgressStep(c: Crypto, index: map<Bytes, Bytes>, orig: seq<IeeToken>, now: seq<IeeToken>,
                     requests: seq<LabelRequest>, p: nat, a: FoundPosting)
    requires p < |requests| && Progress(c, index, orig, now, requests, p) && IsRequest(orig, requests[p])
    requires Answer(c, index, orig[requests[p].token].key, requests[p].counter) == Some(a)
    ensures IsRequest(now, requests[p]) && Allocated(now)
    ensures Progress(c, index, orig, Stored(now, requests[p], a.doc, a.frequency), requests, p + 1)
  {
    hide Answer, Filled, Allocated;
    var r := requests[p];
    SameKeepsRequests(orig, now, r);
    var after := Stored(now, r, a.doc, a.frequency);
    StoredIs(now, r, a.doc, a.frequency);
    SameTransitive(orig, now, after);
    forall q | 0 <= q < p + 1 ensures Filled(c, index, after, requests[q]) {
      StoredKeepsFilled(c, index, now, r, requests[q], a);
    }
  }

  /** Once every request is filled, the tokens are the fetched ones. */
  lemma ProgressDone(c: Crypto, index: map<Bytes, Bytes>, orig: seq<IeeToken>, now: seq<IeeToken>,
                     requests: seq<LabelRequest>)
    requires Progress(c, index, orig, now, requests, |requests|)
    requires forall r :: IsRequest(orig, r) ==> r in requests
    ensures AllAnswered(c, index, orig) && now == FetchedAll(c, index, orig)
  {
    hide Answer;
    forall r | IsRequest(orig, r)
      ensures Filled(c, index, now, r) && Answer(c, index, orig[r.token].key, r.counter).Some?
    {
      SameKeepsRequests(orig, now, r);
      var q :| 0 <= q < |requests| && requests[q] == r;
      assert Filled(c, index, now, requests[q]);
    }
    forall i | 0 <= i < |orig| ensures now[i] == Fetched(c, index, orig[i]) {
      assert SameToken(orig[i], now[i]);
      if IsWord(orig[i]) {
        forall j | 0 <= j < orig[i].counter
          ensures now[i].docs[j] == AnsweredDocs(c, index, orig[i])[j]
          ensures now[i].frequencies[j] == AnsweredFrequencies(c, index, orig[i])[j]
        {
          assert IsRequest(orig, LabelRequest(i, j));
          assert Filled(c, index, now, LabelRequest(i, j));
        }
      }
    }
  }
}
