/**
What the enclave gets for the words of a query from the index of a reachable state:
posting lists, whole or not at all.
*/
module Answers {
  import opened Options
  import opened ByteBuffers
  import opened Index
  import opened IndexRuns
  import opened Messages
  import opened Query
  import opened QueryMessages
  import opened TokenVectors
  import opened Requests

  /** A state as it occurs in runs, over documents that fit the client's integers, without label collisions. */
  ghost predicate Sane(c: Crypto, s: State) {
    Sound(c) && Inv(c, s) && ValidDocuments(s.docs) && NoCollisions(c, s.docs)
  }

  // ---------------------------------------------------------------------- one entry

  lemma EntryFields(mac: Bytes, frequency: int, doc: nat)
    requires |mac| == HASH_SIZE
    ensures var p := PlainEntry(mac, frequency, doc);
            |p| == ENTRY_SIZE && p[..HASH_SIZE] == mac && p[32..36] == EncodeInt(frequency)
              && p[36..44] == EncodeSize(doc)
  {
    hide EncodeInt, EncodeSize;
  }

  /** Opening the entry of a record gives its posting back. */
  lemma EntryOpens(c: Crypto, r: Record)
    requires Sound(c) && IntRecord(r)
    ensures Opened(c.decrypt(EntryOf(c, r)), LabelOf(c, r)) == Some(FoundPosting(r.doc, r.frequency))
  {
    hide EncodeInt, DecodeInt, EncodeSize, DecodeSize, PlainEntry;
    assert |LabelOf(c, r)| == HASH_SIZE;
    EntryFields(LabelOf(c, r), r.frequency, r.doc);
    IntRoundTrip(r.frequency);
    SizeRoundTrip(r.doc);
    assert AsInt(r.doc) == r.doc;
  }

  lemma {:induction false} FrequencyIsInt(docs: seq<Document>, w: string, k: nat)
    requires ValidDocuments(docs) && k < |Postings(docs, w)|
    ensures IsInt(Postings(docs, w)[k].frequency)
    decreases |docs|
  {
    var init, d := docs[..|docs| - 1], docs[|docs| - 1];
    ValidInit(docs);
    if k < |Postings(init, w)| {
      FrequencyIsInt(init, w, k);
    } else {
      var i := LookupFinds(d, w);
    }
  }

  lemma RecordIsInt(docs: seq<Document>, i: nat)
    requires ValidDocuments(docs) && i < |RecordsOf(docs)|
    ensures IntRecord(RecordsOf(docs)[i])
  {
    RecordIsPosting(docs, i);
    var r := RecordsOf(docs)[i];
    FrequencyIsInt(docs, r.word, r.counter);
    PostingDocs(docs, r.word);
  }

  /** The answer for a posting: the posting itself once its record has arrived, nothing before. */
  lemma PostingAnswer(c: Crypto, s: State, w: string, k: nat) returns (i: nat)
    requires Sane(c, s) && k < |Postings(s.docs, w)|
    ensures i < |RecordsOf(s.docs)| && RecordsOf(s.docs)[i].word == w && RecordsOf(s.docs)[i].counter == k
    ensures var p := Postings(s.docs, w)[k];
            Answer(c, s.index, c.key(w), k) == if i < Arrived(s) then Some(FoundPosting(p.doc, p.frequency)) else None
  {
    hide Opened, EntryOf, PlainEntry, EncodeInt, CountersOf;
    i := PostingHasRecord(s.docs, w, k);
    var r := RecordsOf(s.docs)[i];
    RecordIsPosting(s.docs, i);
    RecordIsInt(s.docs, i);
    IndexAfterExact(c, s.docs, Arrived(s));
    EntryOpens(c, r);
    assert PairsOf(c, RecordsOf(s.docs))[i] == PairOf(c, r);
  }

  // ------------------------------------------------------------------------ one word

  predicate Awaited(s: State, w: string) {
    exists i :: 0 <= i < |s.inflight| && s.inflight[i].word == w
  }

  lemma InFlight(c: Crypto, s: State)
    requires Sane(c, s)
    ensures var m, all := Arrived(s), RecordsOf(s.docs);
            && 0 <= m && m + |s.inflight| == |all|
            && (forall j :: 0 <= j < |s.inflight| ==> s.inflight[j] == all[m + j])
            && (forall i :: m <= i < |all| ==> all[i] == s.inflight[i - m])
  {
  }

  lemma AnsweredUnlessAwaited(c: Crypto, s: State, w: string, k: nat)
    requires Sane(c, s) && !Awaited(s, w) && k < |Postings(s.docs, w)|
    ensures Answer(c, s.index, c.key(w), k).Some?
  {
    InFlight(c, s);
    hide Answer, Sane;
    var i := PostingAnswer(c, s, w, k);
  }

  lemma AwaitedUnanswered(c: Crypto, s: State, w: string) returns (k: nat)
    requires Sane(c, s) && Awaited(s, w)
    ensures k < |Postings(s.docs, w)| && Answer(c, s.index, c.key(w), k).None?
  {
    var j :| 0 <= j < |s.inflight| && s.inflight[j].word == w;
    InFlight(c, s);
    var m := Arrived(s);
    RecordIsPosting(s.docs, m + j);
    k := RecordsOf(s.docs)[m + j].counter;
    hide Answer, Inv, NoCollisions;
    var i := PostingAnswer(c, s, w, k);
    SameRecord(s.docs, i, m + j);
  }

  /** All postings of a word are answered exactly when none of its records is on its way. */
  lemma WordAnswered(c: Crypto, s: State, w: string)
    requires Sane(c, s)
    ensures (forall k: nat :: k < |Postings(s.docs, w)| ==> Answer(c, s.index, c.key(w), k).Some?) <==> !Awaited(s, w)
  {
    hide Answer, Sane, Awaited;
    if Awaited(s, w) {
      var k := AwaitedUnanswered(c, s, w);
    } else {
      forall k: nat | k < |Postings(s.docs, w)| ensures Answer(c, s.index, c.key(w), k).Some? {
        AnsweredUnlessAwaited(c, s, w, k);
      }
    }
  }

  lemma SameRecord(docs: seq<Document>, i: nat, j: nat)
    requires ValidDocuments(docs) && i < |RecordsOf(docs)| && j < |RecordsOf(docs)|
    requires SameKey(RecordsOf(docs)[i], RecordsOf(docs)[j])
    ensures i == j
  {
    if i < j {
      RecordsDiffer(docs, i, j);
    } else if j < i {
      RecordsDiffer(docs, j, i);
    }
  }

  /** The token of a word with its whole posting list. */
  function PostingToken(c: Crypto, docs: seq<Document>, w: string): IeeToken {
    IeeToken(WORD_KIND, |Postings(docs, w)|, 0.0, c.key(w), PostingIds(docs, w), PostingFrequencies(docs, w))
  }

  lemma WordFetched(c: Crypto, s: State, w: string)
    requires Sane(c, s) && !Awaited(s, w)
    ensures Fetched(c, s.index, WordOf(|Postings(s.docs, w)|, c.key(w))) == PostingToken(c, s.docs, w)
  {
    hide Answer, NoCollisions, CountersOf, RecordsOf;
    var t := WordOf(|Postings(s.docs, w)|, c.key(w));
    WordAnswered(c, s, w);
    forall k | 0 <= k < t.counter
      ensures AnsweredDocs(c, s.index, t)[k] == PostingIds(s.docs, w)[k]
      ensures AnsweredFrequencies(c, s.index, t)[k] == PostingFrequencies(s.docs, w)[k]
    {
      var i := PostingAnswer(c, s, w, k);
    }
  }

  // ----------------------------------------------------------------------- one query

  lemma CountersArePostings(c: Crypto, s: State, w: string)
    requires Sane(c, s)
    ensures CounterOf(s.counters, w) == |Postings(s.docs, w)|
  {
  }

  /** No record of a word of the query is on its way. */
  predicate Delivered(s: State, tokens: seq<Token>) {
    forall i :: 0 <= i < |tokens| && tokens[i].WordToken? ==> !Awaited(s, tokens[i].word)
  }

  lemma ParsedAt(c: Crypto, s: State, tokens: seq<Token>, i: nat)
    requires Sane(c, s) && i < |tokens|
    ensures var t := ParsedTokens(c, s.counters, tokens)[i];
            && (IsWord(t) <==> tokens[i].WordToken?)
            && (tokens[i].WordToken? ==> t == WordOf(|Postings(s.docs, tokens[i].word)|, c.key(tokens[i].word)))
            && (!tokens[i].WordToken? ==> t == SymbolOf(KindOf(tokens[i])))
  {
    if tokens[i].WordToken? {
      CountersArePostings(c, s, tokens[i].word);
    }
  }

  /** A query is answered exactly when the records of all its words have arrived. */
  lemma AnsweredExactly(c: Crypto, s: State, tokens: seq<Token>)
    requires Sane(c, s)
    ensures AllAnswered(c, s.index, ParsedTokens(c, s.counters, tokens)) <==> Delivered(s, tokens)
  {
    hide Answer, Sane, Awaited;
    var parsed := ParsedTokens(c, s.counters, tokens);
    if Delivered(s, tokens) {
      forall r | IsRequest(parsed, r) ensures Answer(c, s.index, parsed[r.token].key, r.counter).Some? {
        ParsedAt(c, s, tokens, r.token);
        WordAnswered(c, s, tokens[r.token].word);
      }
    } else {
      var i :| 0 <= i < |tokens| && tokens[i].WordToken? && Awaited(s, tokens[i].word);
      ParsedAt(c, s, tokens, i);
      WordAnswered(c, s, tokens[i].word);
      var k: nat :| k < |Postings(s.docs, tokens[i].word)| && Answer(c, s.index, c.key(tokens[i].word), k).None?;
      assert IsRequest(parsed, LabelRequest(i, k));
    }
  }

  /** The enclave's token for a client token, with everything fetched. */
  function Complete(c: Crypto, docs: seq<Document>, t: Token): IeeToken {
    if t.WordToken? then PostingToken(c, docs, t.word) else SymbolOf(KindOf(t))
  }

  function CompleteAll(c: Crypto, docs: seq<Document>, tokens: seq<Token>): (s: seq<IeeToken>)
    ensures |s| == |tokens|
  {
    seq(|tokens|, i requires 0 <= i < |tokens| => Complete(c, docs, tokens[i]))
  }

  /** What the enclave has fetched for an answered query: the posting lists of its words. */
  lemma FetchedExactly(c: Crypto, s: State, tokens: seq<Token>)
    requires Sane(c, s) && Delivered(s, tokens)
    ensures FetchedAll(c, s.index, ParsedTokens(c, s.counters, tokens)) == CompleteAll(c, s.docs, tokens)
  {
    hide Sane, Awaited, AnsweredDocs, AnsweredFrequencies, PostingIds, PostingFrequencies;
    var fetched := FetchedAll(c, s.index, ParsedTokens(c, s.counters, tokens));
    forall i | 0 <= i < |tokens| ensures fetched[i] == Complete(c, s.docs, tokens[i]) {
      ParsedAt(c, s, tokens, i);
      if tokens[i].WordToken? {
        WordFetched(c, s, tokens[i].word);
      }
    }
  }
}
