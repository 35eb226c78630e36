/**
The byte formats that client, enclave and server exchange.
*/
module Messages {
  import opened IntVectors
  import opened ByteBuffers
  import opened Index
  import opened IndexRuns

  const OP_ADD: Byte := 0x61
  const OP_SRC: Byte := 0x73
  const OP_RBISEN: Byte := 0x31 // '1'
  const OP_BULK: Byte := 0x7A   // 'z'

  const WORD_KIND: char := 'w'
  const META_KIND: char := 'z'

  const RECORD_SIZE := 3 * INT_SIZE + HASH_SIZE
  const ENTRY_SIZE := HASH_SIZE + INT_SIZE + SIZE_T_SIZE
  const PAIR_SIZE := HASH_SIZE + ENTRY_SIZE

  /** How many labels the enclave sends at a time: 1000, and at last what is left. */
  function BatchSizes(total: nat): seq<nat> {
    if total == 0 then [] else if total <= 1000 then [total] else [1000] + BatchSizes(total - 1000)
  }

  lemma NoBatchSizes()
    ensures BatchSizes(0) == []
  {
  }

  lemma NextBatch(sent: seq<nat>, left: nat, size: nat)
    requires left > 0 && size == if left < 1000 then left else 1000
    ensures sent + BatchSizes(left) == sent + [size] + BatchSizes(left - size)
  {
    assert BatchSizes(left) == [size] + BatchSizes(left - size);
  }

  // ---------------------------------------------------------- buffers of equal blocks

  /** Blocks one after the other. */
  function Flatten(blocks: seq<Bytes>): Bytes
    decreases |blocks|
  {
    if |blocks| == 0 then [] else Flatten(blocks[..|blocks| - 1]) + blocks[|blocks| - 1]
  }

  lemma FlattenSnoc(blocks: seq<Bytes>, b: Bytes)
    ensures Flatten(blocks + [b]) == Flatten(blocks) + b
  {
    assert (blocks + [b])[..|blocks|] == blocks;
  }

  lemma {:induction false} FlattenConcat(a: seq<Bytes>, b: seq<Bytes>)
    ensures Flatten(a + b) == Flatten(a) + Flatten(b)
    decreases |b|
  {
    if |b| == 0 {
      assert a + b == a;
    } else {
      var n := |b| - 1;
      assert a + b == (a + b[..n]) + [b[n]];
      FlattenSnoc(a + b[..n], b[n]);
      FlattenConcat(a, b[..n]);
    }
  }

  predicate AllSized(blocks: seq<Bytes>, size: nat) {
    forall i :: 0 <= i < |blocks| ==> |blocks[i]| == size
  }

  lemma {:induction false} FlattenSize(blocks: seq<Bytes>, size: nat)
    requires AllSized(blocks, size)
    ensures |Flatten(blocks)| == size * |blocks|
    decreases |blocks|
  {
    if |blocks| == 0 {
    } else {
      var n := |blocks| - 1;
      FlattenSize(blocks[..n], size);
      Distribute(size, n, 1);
    }
  }

  lemma Distribute(a: int, b: int, c: int)
    ensures a * (b + c) == a * b + a * c
  {
  }

  lemma ProductNotNegative(a: nat, b: nat)
    ensures 0 <= a * b
  {
  }

  lemma Slot(size: nat, i: nat, n: nat)
    requires i < n
    ensures 0 <= size * i <= size * (i + 1) <= size * n && size * (i + 1) == size * i + size
  {
    var before, here, after := size * i, size * (i + 1), size * (n - i - 1);
    Distribute(size, i, 1);
    Distribute(size, i + 1, n - i - 1);
    ProductNotNegative(size, i);
    ProductNotNegative(size, n - i - 1);
    assert here == before + size && size * n == here + after;
  }

  /** Block i of a buffer of equal blocks starts at i times the size. */
  lemma {:induction false} FlattenBlock(blocks: seq<Bytes>, size: nat, i: nat)
    requires AllSized(blocks, size) && i < |blocks|
    ensures 0 <= size * i <= size * i + size <= |Flatten(blocks)|
    ensures Flatten(blocks)[size * i..size * i + size] == blocks[i]
    decreases |blocks|
  {
    var n := |blocks| - 1;
    FlattenSize(blocks, size);
    FlattenSize(blocks[..n], size);
    Slot(size, i, |blocks|);
    if i == n {
    } else {
      Slot(size, i, n);
      FlattenBlock(blocks[..n], size, i);
      var init := Flatten(blocks[..n]);
      assert Flatten(blocks)[size * i..size * i + size] == init[size * i..size * i + size];
    }
  }

  /** The first n blocks of a buffer. */
  function Blocks(s: Bytes, size: nat, n: nat): (b: seq<Bytes>)
    requires size * n <= |s|
    ensures |b| == n
  {
    seq(n, i requires 0 <= i < n => BlockAt(s, size, n, i))
  }

  function BlockAt(s: Bytes, size: nat, n: nat, i: nat): (b: Bytes)
    requires size * n <= |s| && i < n
    ensures |b| == size
  {
    Slot(size, i, n);
    s[size * i..size * i + size]
  }

  lemma BlocksSized(s: Bytes, size: nat, n: nat)
    requires size * n <= |s|
    ensures AllSized(Blocks(s, size, n), size)
  {
    hide BlockAt;
    var b := Blocks(s, size, n);
    forall i | 0 <= i < n ensures |b[i]| == size {
      assert b[i] == BlockAt(s, size, n, i);
    }
  }

  lemma BlocksOfFlatten(blocks: seq<Bytes>, size: nat)
    requires AllSized(blocks, size)
    ensures |Flatten(blocks)| == size * |blocks| && Blocks(Flatten(blocks), size, |blocks|) == blocks
  {
    FlattenSize(blocks, size);
    forall i | 0 <= i < |blocks| ensures BlockAt(Flatten(blocks), size, |blocks|, i) == blocks[i] {
      FlattenBlock(blocks, size, i);
    }
    hide BlockAt, Flatten;
    assert Blocks(Flatten(blocks), size, |blocks|) == blocks;
  }

  // ------------------------------------------------------------------ add messages

  /** One record as the client writes it: document, counter, frequency, word key. */
  function RecordBytes(c: Crypto, r: Record): Bytes {
    EncodeInt(r.doc) + EncodeInt(r.counter) + EncodeInt(r.frequency) + c.key(r.word)
  }

  function RecordBlocks(c: Crypto, records: seq<Record>): (b: seq<Bytes>)
    ensures |b| == |records|
  {
    seq(|records|, i requires 0 <= i < |records| => RecordBytes(c, records[i]))
  }

  function AddMessage(c: Crypto, records: seq<Record>): Bytes {
    [OP_ADD] + Flatten(RecordBlocks(c, records))
  }

  /** The (label, entry) pair the enclave makes of the bytes of one record. */
  function PairFromBlock(c: Crypto, block: Bytes): Pair
    requires |block| == RECORD_SIZE
  {
    var doc, counter, frequency := DecodeInt(block[..4]), DecodeInt(block[4..8]), DecodeInt(block[8..12]);
    var mac := c.mac(block[12..], EncodeInt(counter));
    Pair(mac, c.encrypt(PlainEntry(mac, frequency, doc % 0x1_0000_0000_0000_0000)))
  }

  function PairsFromBlocks(c: Crypto, blocks: seq<Bytes>): (p: seq<Pair>)
    requires AllSized(blocks, RECORD_SIZE)
    ensures |p| == |blocks|
  {
    seq(|blocks|, i requires 0 <= i < |blocks| => PairFromBlock(c, blocks[i]))
  }

  predicate IntRecord(r: Record) {
    IsInt(r.doc) && IsInt(r.counter) && IsInt(r.frequency)
  }

  lemma FourFields(a: Bytes, b: Bytes, c: Bytes, d: Bytes)
    requires |a| == 4 && |b| == 4 && |c| == 4
    ensures var s := a + b + c + d;
            |s| == 12 + |d| && s[..4] == a && s[4..8] == b && s[8..12] == c && s[12..] == d
  {
  }

  /** The enclave recovers a record completely. */
  lemma RecordRoundTrip(c: Crypto, r: Record)
    requires Sound(c) && IntRecord(r)
    ensures |RecordBytes(c, r)| == RECORD_SIZE && PairFromBlock(c, RecordBytes(c, r)) == PairOf(c, r)
  {
    hide EncodeInt, DecodeInt, PlainEntry;
    IntRoundTrip(r.doc);
    IntRoundTrip(r.counter);
    IntRoundTrip(r.frequency);
    FourFields(EncodeInt(r.doc), EncodeInt(r.counter), EncodeInt(r.frequency), c.key(r.word));
    assert |c.key(r.word)| == HASH_SIZE;
    assert r.doc % 0x1_0000_0000_0000_0000 == r.doc;
  }

  predicate IntRecords(records: seq<Record>) {
    forall i :: 0 <= i < |records| ==> IntRecord(records[i])
  }

  /** Parsing an add message gives one pair per record, in order. */
  lemma AddMessageRoundTrip(c: Crypto, records: seq<Record>)
    requires Sound(c) && IntRecords(records)
    ensures AddMessage(c, records)[0] == OP_ADD
    ensures |AddMessage(c, records)| == 1 + RECORD_SIZE * |records|
    ensures var blocks := Blocks(AddMessage(c, records)[1..], RECORD_SIZE, |records|);
            AllSized(blocks, RECORD_SIZE) && PairsFromBlocks(c, blocks) == PairsOf(c, records)
  {
    hide RecordBytes, PairFromBlock, PairOf, Flatten, Blocks;
    var blocks := RecordBlocks(c, records);
    forall i | 0 <= i < |records|
      ensures |blocks[i]| == RECORD_SIZE && PairFromBlock(c, blocks[i]) == PairOf(c, records[i])
    {
      RecordRoundTrip(c, records[i]);
    }
    BlocksOfFlatten(blocks, RECORD_SIZE);
    assert AddMessage(c, records)[1..] == Flatten(blocks);
  }

  function PairBytes(p: Pair): Bytes {
    p.key + p.entry
  }

  function PairBlocks(pairs: seq<Pair>): (b: seq<Bytes>)
    ensures |b| == |pairs|
  {
    seq(|pairs|, i requires 0 <= i < |pairs| => PairBytes(pairs[i]))
  }

  predicate SizedPair(p: Pair) {
    |p.key| == HASH_SIZE && |p.entry| == ENTRY_SIZE
  }
}
