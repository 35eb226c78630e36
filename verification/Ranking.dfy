/**
Scoring of the documents found, ordering by score and the cut to the ten best.

Scores are reals, the logarithm of the idf is any function; a double is eight bytes that
some function writes and another one reads.
*/
module Ranking {
  import opened IntVectors
  import opened ByteBuffers
  import opened Messages
  import opened TokenVectors
  import opened Requests

  datatype Scored = Scored(doc: int, score: real)

  const THRESHOLD := 10

  /** The logarithm of the share of documents with the word, 0 for a word of no document. */
  function IdfOf(log: real -> real, nDocs: nat, t: IeeToken): real {
    if |t.docs| == 0 then 0.0 else log(nDocs as real / |t.docs| as real)
  }

  function WithIdf(log: real -> real, nDocs: nat, tokens: seq<IeeToken>): (s: seq<IeeToken>)
    ensures |s| == |tokens|
  {
    seq(|tokens|, i requires 0 <= i < |tokens| =>
      if IsWord(tokens[i]) then tokens[i].(idf := IdfOf(log, nDocs, tokens[i])) else tokens[i])
  }

  /** Where an id stands first in a list. */
  function FirstIndex(docs: seq<int>, d: int): (i: nat)
    requires d in docs
    ensures i < |docs| && docs[i] == d && d !in docs[..i]
  {
    if docs[0] == d then 0
    else
      var i := FirstIndex(docs[1..], d);
      assert docs[..i + 1] == [docs[0]] + docs[1..][..i];
      i + 1
  }

  /** What one token adds to the score of a document. */
  function Contribution(t: IeeToken, d: int): real
    requires IsWord(t) ==> |t.docs| == |t.frequencies|
  {
    if IsWord(t) && d in t.docs then t.frequencies[FirstIndex(t.docs, d)] as real * t.idf else 0.0
  }

  /** The sum over all word occurrences of the query. */
  function Score(tokens: seq<IeeToken>, d: int): real
    requires Allocated(tokens)
    decreases |tokens|
  {
    if |tokens| == 0 then 0.0
    else Score(tokens[..|tokens| - 1], d) + Contribution(tokens[|tokens| - 1], d)
  }

  function Scores(tokens: seq<IeeToken>, docs: seq<int>): (s: seq<Scored>)
    requires Allocated(tokens)
    ensures |s| == |docs|
  {
    seq(|docs|, i requires 0 <= i < |docs| => Scored(docs[i], Score(tokens, docs[i])))
  }

  /** calc_idf */
  method CalcIdf(query: VecToken, nDocs: nat, log: real -> real)
    requires query.Valid()
    modifies query.elems
    ensures query.Valid() && query.Contents() == WithIdf(log, nDocs, old(query.Contents()))
  {
    ghost var tokens := query.Contents();
    for i := 0 to query.counter
      invariant query.Valid() && |query.Contents()| == |tokens|
      invariant query.Contents()[..i] == WithIdf(log, nDocs, tokens)[..i]
      invariant query.Contents()[i..] == tokens[i..]
    {
      assert query.Contents()[i] == tokens[i..][0];
      if query.elems[i].kind != 'w' {
        continue;
      }
      var t := query.elems[i];
      query.SetIdf(i, if |t.docs| == 0 then 0.0 else log(nDocs as real / |t.docs| as real));
    }
  }

  lemma ScoreNext(tokens: seq<IeeToken>, j: nat, d: int)
    requires Allocated(tokens) && j < |tokens|
    ensures Allocated(tokens[..j]) && Allocated(tokens[..j + 1])
    ensures Score(tokens[..j + 1], d) == Score(tokens[..j], d) + Contribution(tokens[j], d)
  {
    assert tokens[..j + 1][..j] == tokens[..j];
  }

  /** The inner loop of calc_tfidf: the score of one document. */
  method ScoreDocument(query: VecToken, doc: int) returns (score: real)
    requires query.Valid() && Allocated(query.Contents())
    ensures score == Score(query.Contents(), doc)
  {
    hide Allocated, FirstIndex;
    ghost var tokens := query.Contents();
    score := 0.0;
    NothingAllocated(tokens);
    for j := 0 to query.counter
      invariant Allocated(tokens[..j]) && score == Score(tokens[..j], doc)
    {
      var t := query.elems[j];
      ScoreNext(tokens, j, doc);
      if t.kind != 'w' {
        continue;
      }
      WordAllocated(tokens, j);
      var pos := IndexOf(t.docs, doc);
      if pos != -1 {
        FirstIndexIs(t.docs, doc, pos);
        score := score + t.frequencies[pos] as real * t.idf;
      }
    }
    assert tokens[..query.counter] == tokens;
  }

  lemma NothingAllocated(tokens: seq<IeeToken>)
    ensures Allocated(tokens[..0])
  {
  }

  lemma WordAllocated(tokens: seq<IeeToken>, j: nat)
    requires Allocated(tokens) && j < |tokens| && IsWord(tokens[j])
    ensures |tokens[j].docs| == |tokens[j].frequencies|
  {
  }

  lemma FirstIndexIs(docs: seq<int>, d: int, i: nat)
    requires i < |docs| && docs[i] == d && d !in docs[..i]
    ensures d in docs && FirstIndex(docs, d) == i
  {
    assert docs[i] in docs;
    NotBefore(docs, d, i, FirstIndex(docs, d));
    NotBefore(docs, d, FirstIndex(docs, d), i);
  }

  lemma NotBefore(docs: seq<int>, d: int, i: nat, k: nat)
    requires i < |docs| && k <= |docs| && docs[i] == d && d !in docs[..k]
    ensures k <= i
  {
  }

  /** calc_tfidf */
  method CalcTfidf(query: VecToken, docs: seq<int>) returns (results: seq<Scored>)
    requires query.Valid() && Allocated(query.Contents())
    ensures results == Scores(query.Contents(), docs)
  {
    results := [];
    for i := 0 to |docs|
      invariant results == Scores(query.Contents(), docs)[..i]
    {
      var score := ScoreDocument(query, docs[i]);
      results := results + [Scored(docs[i], score)];
    }
  }

  // ------------------------------------------------------------------------ sorting

  /** compare_results_rbisen */
  function Compare(a: Scored, b: Scored): int {
    if a.score == b.score then 0 else if a.score < b.score then 1 else -1
  }

  predicate Descending(s: seq<Scored>) {
    forall i, j :: 0 <= i < j < |s| ==> Compare(s[i], s[j]) <= 0
  }

  /** Where an element goes in a sorted list. */
  method Place(s: seq<Scored>, x: Scored) returns (k: nat)
    requires Descending(s)
    ensures k <= |s|
    ensures forall i :: 0 <= i < k ==> Compare(s[i], x) <= 0
    ensures forall i :: k <= i < |s| ==> Compare(x, s[i]) <= 0
  {
    k := 0;
    while k < |s| && Compare(s[k], x) <= 0
      invariant k <= |s| && forall i :: 0 <= i < k ==> Compare(s[i], x) <= 0
    {
      k := k + 1;
    }
  }

  lemma Inserted(s: seq<Scored>, k: nat, x: Scored)
    requires k <= |s|
    ensures multiset(s[..k] + [x] + s[k..]) == multiset(s) + multiset{x}
  {
    assert s == s[..k] + s[k..];
  }

  /** qsort with that comparison; the contract fits every correct sorting procedure. */
  method QSort(pairs: seq<Scored>) returns (sorted: seq<Scored>)
    ensures Descending(sorted) && multiset(sorted) == multiset(pairs)
  {
    sorted := [];
    for i := 0 to |pairs|
      invariant Descending(sorted) && multiset(sorted) == multiset(pairs[..i])
    {
      var k := Place(sorted, pairs[i]);
      Inserted(sorted, k, pairs[i]);
      assert pairs[..i + 1] == pairs[..i] + [pairs[i]];
      sorted := sorted[..k] + [pairs[i]] + sorted[k..];
    }
    assert pairs[..|pairs|] == pairs;
  }

  // ----------------------------------------------------------------------- response

  /** The ten best of `all`, or all of them: in order of score, and none left out scores above one of them. */
  ghost predicate TopTen(out: seq<Scored>, all: seq<Scored>) {
    && |out| == (if |all| < 10 then |all| else 10)
    && multiset(out) <= multiset(all)
    && (forall i, j :: 0 <= i < j < |out| ==> out[i].score >= out[j].score)
    && (forall p, i :: p in multiset(all) - multiset(out) && 0 <= i < |out| ==> p.score <= out[i].score)
  }

  lemma LeftOut(out: seq<Scored>, rest: seq<Scored>, all: seq<Scored>)
    requires multiset(out + rest) == multiset(all)
    ensures |all| == |out| + |rest| && multiset(out) <= multiset(all)
    ensures forall p :: p in multiset(all) - multiset(out) ==> p in rest
  {
    assert multiset(out + rest) == multiset(out) + multiset(rest);
    assert |multiset(all)| == |all| && |multiset(out + rest)| == |out + rest|;
  }

  lemma AcrossTheCut(out: seq<Scored>, rest: seq<Scored>, i: nat, p: Scored)
    requires Descending(out + rest) && i < |out| && p in rest
    ensures p.score <= out[i].score
  {
    var j :| 0 <= j < |rest| && rest[j] == p;
    var s := out + rest;
    assert s[i] == out[i] && s[|out| + j] == p;
    assert Compare(s[i], s[|out| + j]) <= 0;
  }

  lemma DescendingPrefix(out: seq<Scored>, rest: seq<Scored>)
    requires Descending(out + rest)
    ensures forall i, j :: 0 <= i < j < |out| ==> out[i].score >= out[j].score
  {
    var s := out + rest;
    forall i, j | 0 <= i < j < |out| ensures out[i].score >= out[j].score {
      assert s[i] == out[i] && s[j] == out[j];
      assert Compare(s[i], s[j]) <= 0;
    }
  }

  /** The first ten of a sorted rearrangement are the ten best. */
  lemma PrefixIsTop(sorted: seq<Scored>, all: seq<Scored>, k: nat)
    requires Descending(sorted) && multiset(sorted) == multiset(all)
    requires k == if |sorted| < 10 then |sorted| else 10
    ensures TopTen(sorted[..k], all)
  {
    hide Descending;
    var out, rest := sorted[..k], sorted[k..];
    assert sorted == out + rest;
    LeftOut(out, rest, all);
    DescendingPrefix(out, rest);
    forall p, i | p in multiset(all) - multiset(out) && 0 <= i < |out| ensures p.score <= out[i].score {
      AcrossTheCut(out, rest, i, p);
    }
  }

  const SCORED_SIZE := INT_SIZE + 8

  /** How a double is laid out in memory, and read back from there. */
  datatype DoubleFormat = DoubleFormat(write: real -> Bytes, read: Bytes -> real)

  ghost predicate EightBytes(f: DoubleFormat) {
    forall x :: |f.write(x)| == 8
  }

  function ScoredBytes(f: DoubleFormat, p: Scored): Bytes {
    EncodeInt(p.doc) + f.write(p.score)
  }

  function ScoredBlocks(f: DoubleFormat, pairs: seq<Scored>): (b: seq<Bytes>)
    ensures |b| == |pairs|
  {
    seq(|pairs|, i requires 0 <= i < |pairs| => ScoredBytes(f, pairs[i]))
  }

  function Zeros(n: nat): (s: Bytes)
    ensures |s| == n
  {
    seq(n, i => 0)
  }

  /** The answer to the client: a count, the scoring flag, the pairs, and zeros up to ten of them. */
  function ResponseBytes(f: DoubleFormat, pairs: seq<Scored>): Bytes
    requires |pairs| <= 10
  {
    EncodeSize(|pairs|) + [1] + Flatten(ScoredBlocks(f, pairs)) + Zeros(12 * (10 - |pairs|))
  }

  /** The bytes are the response with the ten best of `all`. */
  ghost predicate Responds(out: Bytes, f: DoubleFormat, all: seq<Scored>) {
    exists top :: |top| <= 10 && TopTen(top, all) && out == ResponseBytes(f, top)
  }

  lemma ScoredSized(f: DoubleFormat, pairs: seq<Scored>)
    requires EightBytes(f)
    ensures AllSized(ScoredBlocks(f, pairs), SCORED_SIZE) && |Flatten(ScoredBlocks(f, pairs))| == SCORED_SIZE * |pairs|
  {
    hide ScoredBytes;
    forall i | 0 <= i < |pairs| ensures |ScoredBytes(f, pairs[i])| == SCORED_SIZE {
      OneScoredSized(f, pairs[i]);
    }
    FlattenSize(ScoredBlocks(f, pairs), SCORED_SIZE);
  }

  lemma OneScoredSized(f: DoubleFormat, p: Scored)
    requires EightBytes(f)
    ensures |ScoredBytes(f, p)| == SCORED_SIZE
  {
  }

  /** The end of search(): cut to the threshold, copy, leave the rest zero. */
  method Respond(f: DoubleFormat, sorted: seq<Scored>, ghost all: seq<Scored>) returns (out: Bytes)
    requires EightBytes(f) && Descending(sorted) && multiset(sorted) == multiset(all)
    ensures Responds(out, f, all)
  {
    hide TopTen, Descending, EncodeSize, Flatten, ScoredBlocks, EightBytes, ScoredBytes, AllSized, Responds,
         ResponseBytes;
    var outLen := SIZE_T_SIZE + 1 + THRESHOLD * SCORED_SIZE;
    var buffer := new Byte[outLen](i => 0);
    var elements := if THRESHOLD < |sorted| then THRESHOLD else |sorted|;
    PrefixIsTop(sorted, all, elements);
    ghost var top := sorted[..elements];
    ScoredSized(f, top);
    assert buffer[..0] == [] && buffer[0..] == Zeros(outLen);
    var pos := AddToZeros(EncodeSize(elements), buffer, 0);
    pos := AddToZeros([1], buffer, pos);
    pos := AddToZeros(Flatten(ScoredBlocks(f, sorted[..elements])), buffer, pos);
    out := buffer[..];
    assert out == buffer[..pos] + buffer[pos..];
    IsResponse(f, top, all, out);
  }

  lemma IsResponse(f: DoubleFormat, top: seq<Scored>, all: seq<Scored>, out: Bytes)
    requires |top| <= 10 && TopTen(top, all)
    requires out == EncodeSize(|top|) + [1] + Flatten(ScoredBlocks(f, top)) + Zeros(12 * (10 - |top|))
    ensures Responds(out, f, all)
  {
    hide TopTen, EncodeSize, Flatten, ScoredBlocks, Zeros;
  }

  /** Copies val to a place of a buffer that is zero from there on. */
  method AddToZeros(val: Bytes, buffer: array<Byte>, pos: nat) returns (next: nat)
    requires pos + |val| <= buffer.Length && buffer[pos..] == Zeros(buffer.Length - pos)
    modifies buffer
    ensures next == pos + |val| && buffer[..next] == old(buffer[..pos]) + val
    ensures buffer[next..] == Zeros(buffer.Length - next)
  {
    next := AddToArr(val, buffer, pos);
    assert buffer[next..] == Zeros(buffer.Length - next);
  }

  /** A pair as the client reads it: the id, and the score as its double. */
  function AsRead(f: DoubleFormat, p: Scored): Scored {
    Scored(p.doc, f.read(f.write(p.score)))
  }

  function AllAsRead(f: DoubleFormat, pairs: seq<Scored>): (s: seq<Scored>)
    ensures |s| == |pairs|
  {
    seq(|pairs|, i requires 0 <= i < |pairs| => AsRead(f, pairs[i]))
  }

  /** The bytes b stand in s from `start` on. */
  predicate StandsAt(s: Bytes, start: nat, b: Bytes) {
    start + |b| <= |s| && s[start..start + |b|] == b
  }

  /** Both parts of pair i stand in a response. */
  lemma PairInResponse(f: DoubleFormat, pairs: seq<Scored>, i: nat)
    requires EightBytes(f) && i < |pairs| <= 10
    ensures StandsAt(ResponseBytes(f, pairs), 9 + 12 * i, EncodeInt(pairs[i].doc))
    ensures StandsAt(ResponseBytes(f, pairs), 9 + 12 * i + 4, f.write(pairs[i].score))
  {
    hide EncodeInt, EncodeSize, Flatten;
    ScoredSized(f, pairs);
    var blocks := ScoredBlocks(f, pairs);
    FlattenBlock(blocks, SCORED_SIZE, i);
    OneScoredSized(f, pairs[i]);
    InMiddle(EncodeSize(|pairs|) + [1], Flatten(blocks), Zeros(12 * (10 - |pairs|)), 12 * i,
             EncodeInt(pairs[i].doc), f.write(pairs[i].score));
  }

  lemma InMiddle(a: Bytes, b: Bytes, c: Bytes, from: nat, x: Bytes, y: Bytes)
    requires StandsAt(b, from, x + y)
    ensures StandsAt(a + b + c, |a| + from, x) && StandsAt(a + b + c, |a| + from + |x|, y)
  {
    var s, n := a + b + c, |x| + |y|;
    assert s[|a| + from..|a| + from + n] == b[from..from + n];
    assert s[|a| + from..|a| + from + n][..|x|] == x && s[|a| + from..|a| + from + n][|x|..] == y;
  }

  lemma ResponseHead(f: DoubleFormat, pairs: seq<Scored>)
    requires |pairs| <= 10
    ensures var s := ResponseBytes(f, pairs); |s| > 8 && DecodeSize(s[..8]) == |pairs| && s[8] == 1
  {
    hide EncodeSize, DecodeSize, Flatten;
    SizeRoundTrip(|pairs|);
    assert ResponseBytes(f, pairs)[..8] == EncodeSize(|pairs|);
  }

  /** The response always has 129 bytes, and those that no pair needs are zero. */
  lemma ResponseSize(f: DoubleFormat, pairs: seq<Scored>)
    requires EightBytes(f) && |pairs| <= 10
    ensures var s := ResponseBytes(f, pairs);
            |s| == 129 && forall k :: 9 + 12 * |pairs| <= k < 129 ==> s[k] == 0
  {
    hide EncodeSize, Flatten, ScoredBlocks, EightBytes;
    ScoredSized(f, pairs);
  }

  /** The client's decoding loop reads the ids and the doubles of the pairs that are there. */
  method DecodeResponse(f: DoubleFormat, out: Bytes, ghost top: seq<Scored>) returns (pairs: seq<Scored>)
    requires EightBytes(f) && |top| <= 10 && out == ResponseBytes(f, top)
    requires forall i :: 0 <= i < |top| ==> IsInt(top[i].doc)
    ensures pairs == AllAsRead(f, top)
  {
    hide ResponseBytes, EncodeInt, DecodeInt, DecodeSize;
    ResponseHead(f, top);
    var nDocs := DecodeSize(out[..SIZE_T_SIZE]);
    var hasScoring := out[SIZE_T_SIZE];
    var pairLen := if hasScoring != 0 then INT_SIZE + 8 else INT_SIZE;
    pairs := [];
    for i := 0 to nDocs
      invariant pairs == AllAsRead(f, top)[..i]
    {
      PairInResponse(f, top, i);
      IntRoundTrip(top[i].doc);
      var doc, next := ReadIntFromArr(out, SIZE_T_SIZE + 1 + pairLen * i);
      var bytes;
      bytes, next := ReadFromArr(8, out, next);
      pairs := pairs + [Scored(doc, f.read(bytes))];
    }
  }
}
