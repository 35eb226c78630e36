/**
The searchable index as a protocol between client, enclave and storage server.

The client numbers documents and counts, per word, the documents that contain it. Every
(document, word) pair is one record; the enclave turns the pair of word and counter into
a label and the rest into an encrypted entry; the server maps labels to entries. Records
reach the server in the order in which they were made, in batches of any size.
*/
module Index {
  import opened Options
  import opened IntVectors
  import opened ByteBuffers

  // ------------------------------------------------------------------ cryptography

  /** Client hash of a word, enclave hash of a counter under a word key, and the cipher. */
  datatype Crypto = Crypto(key: string -> Bytes, mac: (Bytes, Bytes) -> Bytes, encrypt: Bytes -> Bytes,
                           decrypt: Bytes -> Bytes)

  /** Hashes have 32 bytes, the cipher keeps the length and decryption undoes encryption. */
  ghost predicate Sound(c: Crypto) {
    && (forall w :: |c.key(w)| == HASH_SIZE)
    && (forall k, x :: |c.mac(k, x)| == HASH_SIZE)
    && (forall x :: |c.encrypt(x)| == |x|)
    && (forall x :: |c.decrypt(x)| == |x|)
    && (forall x :: c.decrypt(c.encrypt(x)) == x)
  }

  // --------------------------------------------------------- documents and records

  /** The words of a document with their frequencies, in the order the client's map lists them. */
  type Document = seq<(string, int)>

  predicate ValidDocument(d: Document) {
    && (forall i :: 0 <= i < |d| ==> IsInt(d[i].1))
    && (forall i, j :: 0 <= i < j < |d| ==> d[i].0 != d[j].0)
  }

  predicate ValidDocuments(docs: seq<Document>) {
    IsInt(|docs|) && forall i :: 0 <= i < |docs| ==> ValidDocument(docs[i])
  }

  /** The frequency of a word in a document, if it occurs. */
  function Lookup(d: Document, w: string): Option<int>
    decreases |d|
  {
    if |d| == 0 then None else if d[0].0 == w then Some(d[0].1) else Lookup(d[1..], w)
  }

  predicate HasWord(d: Document, w: string) {
    Lookup(d, w).Some?
  }

  datatype Posting = Posting(doc: nat, frequency: int)

  datatype Record = Record(doc: nat, counter: nat, frequency: int, word: string)

  /** The posting list of a word: the documents that contain it, in order of their ids. */
  function Postings(docs: seq<Document>, w: string): (p: seq<Posting>)
    ensures |p| <= |docs|
    decreases |docs|
  {
    if |docs| == 0 then []
    else
      var n := |docs| - 1;
      Postings(docs[..n], w) + match Lookup(docs[n], w) case None => [] case Some(f) => [Posting(n, f)]
  }

  /** What the document numbered |docs| adds: the counter of a word is the length of its posting list so far. */
  function DocRecords(docs: seq<Document>, d: Document): (r: seq<Record>)
    ensures |r| == |d|
  {
    seq(|d|, i requires 0 <= i < |d| => Record(|docs|, |Postings(docs, d[i].0)|, d[i].1, d[i].0))
  }

  /** All records of a collection, in the order in which the client makes them. */
  function RecordsOf(docs: seq<Document>): seq<Record>
    decreases |docs|
  {
    if |docs| == 0 then []
    else RecordsOf(docs[..|docs| - 1]) + DocRecords(docs[..|docs| - 1], docs[|docs| - 1])
  }

  lemma DropLast(docs: seq<Document>, d: Document)
    ensures (docs + [d])[..|docs|] == docs && (docs + [d])[|docs|] == d
  {
  }

  lemma RecordsSnoc(docs: seq<Document>, d: Document)
    ensures RecordsOf(docs + [d]) == RecordsOf(docs) + DocRecords(docs, d)
  {
    DropLast(docs, d);
  }

  lemma PostingsSnoc(docs: seq<Document>, d: Document, w: string)
    ensures Postings(docs + [d], w)
         == Postings(docs, w) + match Lookup(d, w) case None => [] case Some(f) => [Posting(|docs|, f)]
  {
    DropLast(docs, d);
  }

  lemma {:induction false} LookupIs(d: Document, i: nat)
    requires ValidDocument(d) && i < |d|
    ensures Lookup(d, d[i].0) == Some(d[i].1)
    decreases |d|
  {
    if i == 0 {
    } else {
      assert d[1..][i - 1] == d[i];
      assert ValidDocument(d[1..]);
      LookupIs(d[1..], i - 1);
    }
  }

  lemma {:induction false} LookupFinds(d: Document, w: string) returns (i: nat)
    requires Lookup(d, w).Some?
    ensures i < |d| && d[i] == (w, Lookup(d, w).value)
    decreases |d|
  {
    if d[0].0 == w {
      i := 0;
    } else {
      i := LookupFinds(d[1..], w);
      i := i + 1;
    }
  }

  // ------------------------------------------------------ records are the postings

  predicate IsPosting(docs: seq<Document>, r: Record) {
    var p := Postings(docs, r.word);
    r.counter < |p| && p[r.counter] == Posting(r.doc, r.frequency)
  }

  lemma ValidInit(docs: seq<Document>)
    requires ValidDocuments(docs) && |docs| > 0
    ensures ValidDocuments(docs[..|docs| - 1]) && ValidDocument(docs[|docs| - 1])
    ensures docs == docs[..|docs| - 1] + [docs[|docs| - 1]]
  {
  }

  lemma PostingKept(docs: seq<Document>, d: Document, r: Record)
    requires IsPosting(docs, r)
    ensures IsPosting(docs + [d], r)
  {
    PostingsSnoc(docs, d, r.word);
  }

  lemma NewPosting(docs: seq<Document>, d: Document, i: nat)
    requires ValidDocument(d) && i < |d|
    ensures IsPosting(docs + [d], DocRecords(docs, d)[i])
  {
    LookupIs(d, i);
    PostingsSnoc(docs, d, d[i].0);
  }

  /** Record i carries posting `counter` of its word: the id and frequency of that document. */
  lemma {:induction false} RecordIsPosting(docs: seq<Document>, i: nat)
    requires ValidDocuments(docs) && i < |RecordsOf(docs)|
    ensures IsPosting(docs, RecordsOf(docs)[i])
    decreases |docs|
  {
    hide IsPosting;
    var init, d := docs[..|docs| - 1], docs[|docs| - 1];
    ValidInit(docs);
    var m := |RecordsOf(init)|;
    if i < m {
      RecordIsPosting(init, i);
      PostingKept(init, d, RecordsOf(init)[i]);
    } else {
      NewPosting(init, d, i - m);
    }
  }

  /** Every posting has its record. */
  lemma {:induction false} PostingHasRecord(docs: seq<Document>, w: string, c: nat) returns (i: nat)
    requires ValidDocuments(docs) && c < |Postings(docs, w)|
    ensures i < |RecordsOf(docs)| && RecordsOf(docs)[i].word == w && RecordsOf(docs)[i].counter == c
    decreases |docs|
  {
    var init, d := docs[..|docs| - 1], docs[|docs| - 1];
    ValidInit(docs);
    if c < |Postings(init, w)| {
      i := PostingHasRecord(init, w, c);
    } else {
      var k := LookupFinds(d, w);
      i := |RecordsOf(init)| + k;
    }
  }

  predicate SameKey(r: Record, s: Record) {
    r.word == s.word && r.counter == s.counter
  }

  /** No two records share word and counter. */
  lemma {:induction false} RecordsDiffer(docs: seq<Document>, i: nat, j: nat)
    requires ValidDocuments(docs) && i < j < |RecordsOf(docs)|
    ensures !SameKey(RecordsOf(docs)[i], RecordsOf(docs)[j])
    decreases |docs|
  {
    var init, d := docs[..|docs| - 1], docs[|docs| - 1];
    ValidInit(docs);
    var m := |RecordsOf(init)|;
    if j < m {
      RecordsDiffer(init, i, j);
    } else if i < m {
      RecordIsPosting(init, i);
    }
  }

  lemma {:induction false} PostingDocs(docs: seq<Document>, w: string)
    ensures forall c :: 0 <= c < |Postings(docs, w)| ==> 0 <= Postings(docs, w)[c].doc < |docs|
    ensures forall c, e :: 0 <= c < e < |Postings(docs, w)| ==> Postings(docs, w)[c].doc < Postings(docs, w)[e].doc
    decreases |docs|
  {
    if |docs| == 0 {
    } else {
      PostingDocs(docs[..|docs| - 1], w);
    }
  }

  /** The ids on the posting list of a word. */
  function PostingIds(docs: seq<Document>, w: string): (ids: seq<int>)
    ensures |ids| == |Postings(docs, w)|
  {
    var p := Postings(docs, w);
    seq(|p|, c requires 0 <= c < |p| => p[c].doc)
  }

  function PostingFrequencies(docs: seq<Document>, w: string): (fs: seq<int>)
    ensures |fs| == |Postings(docs, w)|
  {
    var p := Postings(docs, w);
    seq(|p|, c requires 0 <= c < |p| => p[c].frequency)
  }

  lemma {:induction false} PostingOf(docs: seq<Document>, w: string, d: int)
    ensures d in PostingIds(docs, w) <==> 0 <= d < |docs| && HasWord(docs[d], w)
    decreases |docs|
  {
    if |docs| == 0 {
      assert PostingIds(docs, w) == [];
    } else {
      var init, last := docs[..|docs| - 1], docs[|docs| - 1];
      PostingOf(init, w, d);
      var more := if Lookup(last, w).Some? then [|docs| - 1] else [];
      assert PostingIds(docs, w) == PostingIds(init, w) + more;
    }
  }

  /**
  A posting list is strictly increasing, below the document count, and lists exactly the
  documents that contain the word; so it has no duplicates, as the set operations need.
  */
  lemma PostingListExact(docs: seq<Document>, w: string)
    ensures Increasing(PostingIds(docs, w)) && Distinct(PostingIds(docs, w)) && InRange(PostingIds(docs, w), |docs|)
    ensures forall d :: d in PostingIds(docs, w) <==> 0 <= d < |docs| && HasWord(docs[d], w)
  {
    PostingDocs(docs, w);
    forall d ensures d in PostingIds(docs, w) <==> 0 <= d < |docs| && HasWord(docs[d], w) {
      PostingOf(docs, w, d);
    }
  }
}
