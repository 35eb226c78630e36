/**
The index over all runs: the client adds documents, and records travel to the server.

A state holds the client's word counters and document count, the records on their way
and the server's map. Records arrive in order, any number at a time, so that every way
of bundling messages and cutting them into batches is a run.
*/
module IndexRuns {
  import opened Options
  import opened ByteBuffers
  import opened Index

  // ------------------------------------------------------------- labels and entries

  function LabelFor(c: Crypto, key: Bytes, counter: nat): Bytes {
    c.mac(key, EncodeInt(counter))
  }

  function LabelOf(c: Crypto, r: Record): Bytes {
    LabelFor(c, c.key(r.word), r.counter)
  }

  /** What an entry encrypts: its label, the frequency and the document id. */
  function PlainEntry(mac: Bytes, frequency: int, doc: nat): (p: Bytes)
    ensures |p| == |mac| + INT_SIZE + SIZE_T_SIZE
  {
    mac + EncodeInt(frequency) + EncodeSize(doc)
  }

  function EntryOf(c: Crypto, r: Record): Bytes {
    c.encrypt(PlainEntry(LabelOf(c, r), r.frequency, r.doc))
  }

  datatype Pair = Pair(key: Bytes, entry: Bytes)

  function PairOf(c: Crypto, r: Record): Pair {
    Pair(LabelOf(c, r), EntryOf(c, r))
  }

  function PairsOf(c: Crypto, records: seq<Record>): (p: seq<Pair>)
    ensures |p| == |records|
  {
    seq(|records|, i requires 0 <= i < |records| => PairOf(c, records[i]))
  }

  /** The server's map after storing pairs one by one. */
  function InsertAll(index: map<Bytes, Bytes>, pairs: seq<Pair>): map<Bytes, Bytes>
    decreases |pairs|
  {
    if |pairs| == 0 then index
    else
      var n := |pairs| - 1;
      InsertAll(index, pairs[..n])[pairs[n].key := pairs[n].entry]
  }

  lemma {:induction false} InsertConcat(index: map<Bytes, Bytes>, p: seq<Pair>, q: seq<Pair>)
    ensures InsertAll(index, p + q) == InsertAll(InsertAll(index, p), q)
    decreases |q|
  {
    if |q| == 0 {
      assert p + q == p;
    } else {
      var n := |q| - 1;
      assert (p + q)[..|p + q| - 1] == p + q[..n];
      InsertConcat(index, p, q[..n]);
    }
  }

  /** No two records of the collection collide in their labels. */
  ghost predicate NoCollisions(c: Crypto, docs: seq<Document>) {
    forall i, j :: 0 <= i < j < |RecordsOf(docs)| ==>
      LabelOf(c, RecordsOf(docs)[i]) != LabelOf(c, RecordsOf(docs)[j])
  }

  /** The server's map when the first m records have arrived. */
  function IndexAfter(c: Crypto, docs: seq<Document>, m: nat): map<Bytes, Bytes>
    requires m <= |RecordsOf(docs)|
  {
    InsertAll(map[], PairsOf(c, RecordsOf(docs)[..m]))
  }

  /** The map holds exactly the first m of the pairs, each under its own label. */
  ghost predicate Stores(index: map<Bytes, Bytes>, pairs: seq<Pair>, m: nat) {
    && |index| == m <= |pairs|
    && (forall i :: 0 <= i < |pairs| ==> (pairs[i].key in index <==> i < m))
    && (forall i :: 0 <= i < m ==> index[pairs[i].key] == pairs[i].entry)
  }

  ghost predicate DistinctKeys(pairs: seq<Pair>) {
    forall i, j :: 0 <= i < j < |pairs| ==> pairs[i].key != pairs[j].key
  }

  lemma MapGrows(index: map<Bytes, Bytes>, key: Bytes, entry: Bytes)
    requires key !in index
    ensures |index[key := entry]| == |index| + 1
  {
    assert index[key := entry].Keys == index.Keys + {key};
    assert |index[key := entry].Keys| == |index[key := entry]| && |index.Keys| == |index|;
  }

  lemma StoreOne(index: map<Bytes, Bytes>, pairs: seq<Pair>, m: nat)
    requires DistinctKeys(pairs) && m < |pairs| && Stores(index, pairs, m)
    ensures Stores(index[pairs[m].key := pairs[m].entry], pairs, m + 1)
  {
    var after := index[pairs[m].key := pairs[m].entry];
    MapGrows(index, pairs[m].key, pairs[m].entry);
    forall i | 0 <= i < |pairs| ensures pairs[i].key in after <==> i < m + 1 {
      KeyElsewhere(pairs, i, m);
    }
    forall i | 0 <= i < m + 1 ensures after[pairs[i].key] == pairs[i].entry {
      KeyElsewhere(pairs, i, m);
    }
  }

  lemma KeyElsewhere(pairs: seq<Pair>, i: nat, m: nat)
    requires DistinctKeys(pairs) && i < |pairs| && m < |pairs|
    ensures pairs[i].key == pairs[m].key <==> i == m
  {
  }

  lemma {:induction false} InsertStores(pairs: seq<Pair>, m: nat)
    requires DistinctKeys(pairs) && m <= |pairs|
    ensures Stores(InsertAll(map[], pairs[..m]), pairs, m)
    decreases m
  {
    hide Stores, DistinctKeys;
    if m == 0 {
      StoresNothing(pairs);
    } else {
      InsertStores(pairs, m - 1);
      assert pairs[..m][..m - 1] == pairs[..m - 1];
      StoreOne(InsertAll(map[], pairs[..m - 1]), pairs, m - 1);
    }
  }

  lemma StoresNothing(pairs: seq<Pair>)
    ensures Stores(map[], pairs, 0)
  {
  }

  /**
  The labels stored are exactly those of the records that arrived, each with its own entry; none
  overwrites another.
  */
  lemma IndexAfterExact(c: Crypto, docs: seq<Document>, m: nat)
    requires m <= |RecordsOf(docs)| && NoCollisions(c, docs)
    ensures Stores(IndexAfter(c, docs, m), PairsOf(c, RecordsOf(docs)), m)
  {
    hide LabelOf, EntryOf, RecordsOf;
    var pairs := PairsOf(c, RecordsOf(docs));
    InsertStores(pairs, m);
    assert PairsOf(c, RecordsOf(docs)[..m]) == pairs[..m];
  }

  // --------------------------------------------------------------- the state machine

  datatype State = State(
    docs: seq<Document>,         // history: all documents added so far
    counters: map<string, nat>,  // the client's map W
    nDocs: nat,
    inflight: seq<Record>,
    index: map<Bytes, Bytes>
  )

  datatype Step = AddDocument(d: Document) | Deliver(n: nat)

  const INITIAL := State([], map[], 0, [], map[])

  /** The client's loop over the words of a document: bump the counter, emit a record. */
  function ClientRecords(counters: map<string, nat>, id: nat, d: Document): (r: (map<string, nat>, seq<Record>))
    ensures |r.1| == |d|
    decreases |d|
  {
    if |d| == 0 then (counters, [])
    else
      var n := |d| - 1;
      var (w, f) := d[n];
      var before := ClientRecords(counters, id, d[..n]);
      var c := if w in before.0 then before.0[w] + 1 else 1;
      (before.0[w := c], before.1 + [Record(id, c - 1, f, w)])
  }

  function Next(c: Crypto, s: State, step: Step): Option<State> {
    match step
    case AddDocument(d) =>
      var made := ClientRecords(s.counters, s.nDocs, d);
      Some(State(s.docs + [d], made.0, s.nDocs + 1, s.inflight + made.1, s.index))
    case Deliver(n) =>
      if n <= |s.inflight| then
        Some(s.(inflight := s.inflight[n..], index := InsertAll(s.index, PairsOf(c, s.inflight[..n]))))
      else None
  }

  // -------------------------------------------------------------------- the invariant

  /** The counter of every word is the length of its posting list; unseen words have none. */
  ghost predicate CountersOf(counters: map<string, nat>, docs: seq<Document>) {
    forall w :: (if w in counters then counters[w] else 0) == |Postings(docs, w)|
                && (w in counters ==> counters[w] > 0)
  }

  /** The number of records that have arrived at the server. */
  function Arrived(s: State): int {
    |RecordsOf(s.docs)| - |s.inflight|
  }

  ghost predicate Inv(c: Crypto, s: State) {
    && s.nDocs == |s.docs|
    && CountersOf(s.counters, s.docs)
    && 0 <= Arrived(s)
    && s.inflight == RecordsOf(s.docs)[Arrived(s)..]
    && s.index == IndexAfter(c, s.docs, Arrived(s))
  }

  /** Part of a document that the client has gone through. */
  ghost predicate CountersWith(counters: map<string, nat>, docs: seq<Document>, d: Document) {
    forall w :: (if w in counters then counters[w] else 0) == |Postings(docs, w)| + (if HasWord(d, w) then 1 else 0)
                && (w in counters ==> counters[w] > 0)
  }

  lemma LookupInit(d: Document, n: nat, w: string)
    requires ValidDocument(d) && n < |d|
    ensures HasWord(d[..n + 1], w) <==> HasWord(d[..n], w) || w == d[n].0
    ensures !HasWord(d[..n], d[n].0)
  {
    if HasWord(d[..n], w) {
      var i := LookupFinds(d[..n], w);
      assert ValidDocument(d[..n + 1]);
      LookupIs(d[..n + 1], i);
      assert d[..n + 1][i] == d[i];
    }
    if HasWord(d[..n + 1], w) {
      var i := LookupFinds(d[..n + 1], w);
      if i < n {
        assert ValidDocument(d[..n]);
        assert d[..n][i] == d[i];
        LookupIs(d[..n], i);
      }
    }
    assert ValidDocument(d[..n + 1]);
    LookupIs(d[..n + 1], n);
    if HasWord(d[..n], d[n].0) {
      var i := LookupFinds(d[..n], d[n].0);
    }
  }

  lemma CountOne(counters: map<string, nat>, docs: seq<Document>, d: Document, n: nat)
    requires ValidDocument(d) && n < |d| && CountersWith(counters, docs, d[..n])
    ensures var w := d[n].0;
            var k := if w in counters then counters[w] + 1 else 1;
            k == |Postings(docs, w)| + 1 && CountersWith(counters[w := k], docs, d[..n + 1])
  {
    hide HasWord, ValidDocument;
    var w := d[n].0;
    LookupInit(d, n, w);
    forall v ensures HasWord(d[..n + 1], v) <==> HasWord(d[..n], v) || v == w {
      LookupInit(d, n, v);
    }
  }

  lemma CountNone(counters: map<string, nat>, docs: seq<Document>, d: Document)
    requires CountersOf(counters, docs)
    ensures CountersWith(counters, docs, d[..0])
  {
    assert forall w :: !HasWord(d[..0], w);
  }

  lemma {:induction false} ClientRecordsExact(counters: map<string, nat>, docs: seq<Document>, d: Document, n: nat)
    requires CountersOf(counters, docs) && ValidDocument(d) && n <= |d|
    ensures var made := ClientRecords(counters, |docs|, d[..n]);
            CountersWith(made.0, docs, d[..n]) && made.1 == DocRecords(docs, d)[..n]
    decreases n
  {
    hide CountersWith, ValidDocument, CountersOf;
    if n == 0 {
      CountNone(counters, docs, d);
    } else {
      ClientRecordsExact(counters, docs, d, n - 1);
      assert d[..n][..n - 1] == d[..n - 1];
      CountOne(ClientRecords(counters, |docs|, d[..n - 1]).0, docs, d, n - 1);
      assert DocRecords(docs, d)[..n] == DocRecords(docs, d)[..n - 1] + [DocRecords(docs, d)[n - 1]];
    }
  }

  /** The client's loop makes exactly the records of the document and counts its words. */
  lemma ClientRecordsAre(counters: map<string, nat>, docs: seq<Document>, d: Document)
    requires CountersOf(counters, docs) && ValidDocument(d)
    ensures var made := ClientRecords(counters, |docs|, d);
            made.1 == DocRecords(docs, d) && CountersOf(made.0, docs + [d])
  {
    ClientRecordsExact(counters, docs, d, |d|);
    assert d[..|d|] == d;
    forall w ensures |Postings(docs + [d], w)| == |Postings(docs, w)| + if HasWord(d, w) then 1 else 0 {
      PostingsSnoc(docs, d, w);
    }
  }

  /** The step keeps the collection within the integers of the client. */
  ghost predicate Admissible(s: State, step: Step) {
    step.AddDocument? ==> ValidDocument(step.d) && IsInt(|s.docs| + 1)
  }

  lemma PrefixKept(c: Crypto, docs: seq<Document>, d: Document, m: nat)
    requires m <= |RecordsOf(docs)|
    ensures var all := RecordsOf(docs + [d]);
            && |all| == |RecordsOf(docs)| + |d| && m <= |all|
            && all[m..] == RecordsOf(docs)[m..] + DocRecords(docs, d)
            && IndexAfter(c, docs + [d], m) == IndexAfter(c, docs, m)
  {
    RecordsSnoc(docs, d);
    hide RecordsOf, PairsOf, InsertAll;
    assert RecordsOf(docs + [d])[..m] == RecordsOf(docs)[..m];
  }

  lemma AddKeepsInv(c: Crypto, s: State, d: Document)
    requires Inv(c, s) && ValidDocument(d)
    ensures Inv(c, Next(c, s, AddDocument(d)).value)
  {
    hide CountersOf, RecordsOf, ClientRecords, ValidDocument, IndexAfter;
    ClientRecordsAre(s.counters, s.docs, d);
    PrefixKept(c, s.docs, d, Arrived(s));
  }

  lemma DeliverKeepsInv(c: Crypto, s: State, n: nat)
    requires Inv(c, s) && n <= |s.inflight|
    ensures Inv(c, Next(c, s, Deliver(n)).value)
  {
    hide CountersOf, RecordsOf, InsertAll;
    var m, all := Arrived(s), RecordsOf(s.docs);
    assert s.inflight[..n] == all[m..m + n] && s.inflight[n..] == all[m + n..];
    assert PairsOf(c, all[..m + n]) == PairsOf(c, all[..m]) + PairsOf(c, all[m..m + n]);
    InsertConcat(map[], PairsOf(c, all[..m]), PairsOf(c, all[m..m + n]));
  }

  lemma InvKept(c: Crypto, s: State, step: Step)
    requires Inv(c, s) && Admissible(s, step) && Next(c, s, step).Some?
    ensures Inv(c, Next(c, s, step).value)
  {
    match step
    case AddDocument(d) => AddKeepsInv(c, s, d);
    case Deliver(n) => DeliverKeepsInv(c, s, n);
  }

  // ----------------------------------------------------------------------- all runs

  /** `trace` lists the states of a run from the empty index that takes admissible `steps`. */
  ghost predicate IsRun(c: Crypto, trace: seq<State>, steps: seq<Step>) {
    && |trace| == |steps| + 1 && trace[0] == INITIAL
    && forall i :: 0 <= i < |steps| ==>
         Admissible(trace[i], steps[i]) && Next(c, trace[i], steps[i]) == Some(trace[i + 1])
  }

  lemma InitialInv(c: Crypto)
    ensures Inv(c, INITIAL) && ValidDocuments(INITIAL.docs)
  {
  }

  lemma {:induction false} InvAlways(c: Crypto, trace: seq<State>, steps: seq<Step>, i: nat)
    requires IsRun(c, trace, steps) && i < |trace|
    ensures Inv(c, trace[i]) && ValidDocuments(trace[i].docs)
    decreases i
  {
    hide Inv;
    if i == 0 {
      InitialInv(c);
    } else {
      InvAlways(c, trace, steps, i - 1);
      assert Admissible(trace[i - 1], steps[i - 1]) && Next(c, trace[i - 1], steps[i - 1]) == Some(trace[i]);
      InvKept(c, trace[i - 1], steps[i - 1]);
    }
  }

  /**
  In every state of every run: the server stores exactly the records that have arrived,
  each under its own label and nothing else, and what arrived and what is in flight are
  together the records of all documents, once each.
  */
  lemma IndexInvariant(c: Crypto, trace: seq<State>, steps: seq<Step>, i: nat)
    requires IsRun(c, trace, steps) && i < |trace| && NoCollisions(c, trace[i].docs)
    ensures var s := trace[i];
            && CountersOf(s.counters, s.docs) && s.nDocs == |s.docs|
            && 0 <= Arrived(s) && s.inflight == RecordsOf(s.docs)[Arrived(s)..]
            && Stores(s.index, PairsOf(c, RecordsOf(s.docs)), Arrived(s))
  {
    InvAlways(c, trace, steps, i);
    IndexAfterExact(c, trace[i].docs, Arrived(trace[i]));
  }

  // ------------------------------------------------------------ the size of the index

  /** The sum of all counters of the client. */
  ghost function SumOf(m: map<string, nat>): nat
    decreases |m|
  {
    if |m| == 0 then 0
    else
      var w :| w in m;
      assert |m - {w}| < |m| by { Without(m, w); }
      m[w] + SumOf(m - {w})
  }

  lemma Without(m: map<string, nat>, w: string)
    requires w in m
    ensures |m - {w}| == |m| - 1
  {
    assert (m - {w}).Keys == m.Keys - {w};
    assert |m.Keys| == |m| && |(m - {w}).Keys| == |m - {w}|;
  }

  lemma PickOne(m: map<string, nat>) returns (v: string)
    requires |m| > 0
    ensures v in m && SumOf(m) == m[v] + SumOf(m - {v})
  {
    v :| v in m && SumOf(m) == m[v] + SumOf(m - {v});
  }

  lemma {:induction false} SumWithout(m: map<string, nat>, w: string)
    requires w in m
    ensures SumOf(m) == m[w] + SumOf(m - {w})
    decreases |m|
  {
    hide SumOf;
    var v := PickOne(m);
    if v == w {
    } else {
      Without(m, v);
      Without(m, w);
      SumWithout(m - {v}, w);
      SumWithout(m - {w}, v);
      assert m - {v} - {w} == m - {w} - {v};
    }
  }

  lemma SumOfUpdate(m: map<string, nat>, w: string, k: nat)
    ensures SumOf(m[w := k]) == SumOf(m) + k - if w in m then m[w] else 0
  {
    hide SumOf;
    SumWithout(m[w := k], w);
    if w in m {
      SumWithout(m, w);
      assert m[w := k] - {w} == m - {w};
    } else {
      assert m[w := k] - {w} == m;
    }
  }

  lemma {:induction false} ClientCounts(counters: map<string, nat>, id: nat, d: Document)
    ensures SumOf(ClientRecords(counters, id, d).0) == SumOf(counters) + |d|
    decreases |d|
  {
    hide SumOf;
    if |d| == 0 {
    } else {
      var n := |d| - 1;
      ClientCounts(counters, id, d[..n]);
      var before, w := ClientRecords(counters, id, d[..n]).0, d[n].0;
      var k := if w in before then before[w] + 1 else 1;
      assert ClientRecords(counters, id, d).0 == before[w := k];
      SumOfUpdate(before, w, k);
    }
  }

  lemma StepAddsUp(c: Crypto, s: State, step: Step)
    requires Next(c, s, step).Some? && SumOf(s.counters) == |RecordsOf(s.docs)|
    ensures var s' := Next(c, s, step).value; SumOf(s'.counters) == |RecordsOf(s'.docs)|
  {
    if step.AddDocument? {
      ClientCounts(s.counters, s.nDocs, step.d);
      RecordsSnoc(s.docs, step.d);
    }
  }

  lemma StartsEmpty()
    ensures SumOf(INITIAL.counters) == |RecordsOf(INITIAL.docs)|
  {
  }

  lemma {:induction false} CountersAreRecords(c: Crypto, trace: seq<State>, steps: seq<Step>, i: nat)
    requires IsRun(c, trace, steps) && i < |trace|
    ensures SumOf(trace[i].counters) == |RecordsOf(trace[i].docs)|
    decreases i
  {
    StartsEmpty();
    hide Next, SumOf, RecordsOf, Admissible;
    if i == 0 {
    } else {
      assert Next(c, trace[i - 1], steps[i - 1]) == Some(trace[i]);
      CountersAreRecords(c, trace, steps, i - 1);
      StepAddsUp(c, trace[i - 1], steps[i - 1]);
    }
  }

  /** In every state of every run the client's counters add up to the size of the index plus what is in flight. */
  lemma CountersAddUp(c: Crypto, trace: seq<State>, steps: seq<Step>, i: nat)
    requires IsRun(c, trace, steps) && i < |trace| && NoCollisions(c, trace[i].docs)
    ensures SumOf(trace[i].counters) == |trace[i].index| + |trace[i].inflight|
  {
    hide IsRun, SumOf, CountersOf, NoCollisions;
    CountersAreRecords(c, trace, steps, i);
    IndexInvariant(c, trace, steps, i);
  }

  // ---------------------------------------------------- the assumptions can be met

  /** Where a word first occurs among the records. */
  function WordNumber(records: seq<Record>, w: string): (n: nat)
    ensures n <= |records|
    ensures n < |records| ==> records[n].word == w
    ensures n == |records| ==> forall i :: 0 <= i < |records| ==> records[i].word != w
  {
    if records == [] then 0
    else if records[0].word == w then 0
    else 1 + WordNumber(records[1..], w)
  }

  function NumberKey(n: nat): (key: Bytes)
    ensures |key| == HASH_SIZE
  {
    LittleEndian(n, 28) + [0, 0, 0, 0]
  }

  function CounterMac(key: Bytes, counter: Bytes): (mac: Bytes)
    ensures |mac| == HASH_SIZE
  {
    if |key| == HASH_SIZE && |counter| == INT_SIZE then key[..28] + counter else NumberKey(0)
  }

  /** Keys that number the words, hashes that append the counter, and no encryption at all. */
  function PlainCrypto(records: seq<Record>): Crypto {
    Crypto((w: string) => NumberKey(WordNumber(records, w)), (k: Bytes, x: Bytes) => CounterMac(k, x),
           (x: Bytes) => x, (x: Bytes) => x)
  }

  lemma PlainLabels(records: seq<Record>, r: Record, s: Record)
    requires r in records && s in records && |records| <= Power256(28) && IsInt(r.counter) && IsInt(s.counter)
    requires LabelOf(PlainCrypto(records), r) == LabelOf(PlainCrypto(records), s)
    ensures SameKey(r, s)
  {
    hide LittleEndian, EncodeInt;
    var m, n := WordNumber(records, r.word), WordNumber(records, s.word);
    var a, b := LabelOf(PlainCrypto(records), r), LabelOf(PlainCrypto(records), s);
    assert a == LittleEndian(m, 28) + EncodeInt(r.counter) && b == LittleEndian(n, 28) + EncodeInt(s.counter);
    assert a[..28] == LittleEndian(m, 28) && b[..28] == LittleEndian(n, 28);
    assert a[28..] == EncodeInt(r.counter) && b[28..] == EncodeInt(s.counter);
    ValueOfLittleEndian(m, 28);
    ValueOfLittleEndian(n, 28);
    IntRoundTrip(r.counter);
    IntRoundTrip(s.counter);
  }

  /**
  For every collection there are functions with all the laws assumed here, as long as its words can be
  numbered in 28 bytes.
  */
  lemma AssumptionsAreMet(docs: seq<Document>) returns (c: Crypto)
    requires ValidDocuments(docs) && |RecordsOf(docs)| <= Power256(28)
    ensures Sound(c) && NoCollisions(c, docs)
  {
    hide Power256, LabelOf, RecordsOf;
    var records := RecordsOf(docs);
    c := PlainCrypto(records);
    forall i, j | 0 <= i < j < |records| ensures LabelOf(c, records[i]) != LabelOf(c, records[j]) {
      CounterIsInt(docs, i);
      CounterIsInt(docs, j);
      RecordsDiffer(docs, i, j);
      if LabelOf(c, records[i]) == LabelOf(c, records[j]) {
        PlainLabels(records, records[i], records[j]);
      }
    }
  }

  lemma CounterIsInt(docs: seq<Document>, i: nat)
    requires ValidDocuments(docs) && i < |RecordsOf(docs)|
    ensures IsInt(RecordsOf(docs)[i].counter)
  {
    RecordIsPosting(docs, i);
  }
}
