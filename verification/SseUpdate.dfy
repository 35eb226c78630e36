/**
The enclave's side of an update: it turns the records of an add message into pairs of
label and entry and hands them to the server in batches.
*/
module SseUpdate {
  import opened IntVectors
  import opened ByteBuffers
  import opened Index
  import opened IndexRuns
  import opened Messages
  import opened SseServer

  const MAX_BATCH_UPDATE := 1000

  /** Batches handed to the server, joined. */
  function Join(batches: seq<seq<Pair>>): seq<Pair>
    decreases |batches|
  {
    if |batches| == 0 then [] else Join(batches[..|batches| - 1]) + batches[|batches| - 1]
  }

  lemma JoinSnoc(batches: seq<seq<Pair>>, b: seq<Pair>)
    ensures Join(batches + [b]) == Join(batches) + b
  {
    assert (batches + [b])[..|batches|] == batches;
  }

  predicate BatchesBounded(batches: seq<seq<Pair>>) {
    forall i :: 0 <= i < |batches| ==> 0 < |batches[i]| <= 1000
  }

  function SizesOf(batches: seq<seq<Pair>>): (s: seq<nat>)
    ensures |s| == |batches|
  {
    seq(|batches|, i requires 0 <= i < |batches| => |batches[i]|)
  }

  /** How many records the bytes behind the operation hold. */
  function RecordCount(message: Bytes): nat
    requires |message| > 0
  {
    (|message| - 1) / RECORD_SIZE
  }

  /** The pairs an add message stands for. */
  function PairsOfMessage(c: Crypto, message: Bytes): (p: seq<Pair>)
    requires |message| > 0
    ensures |p| == RecordCount(message)
  {
    var n := RecordCount(message);
    BlocksSized(message[1..], RECORD_SIZE, n);
    PairsFromBlocks(c, Blocks(message[1..], RECORD_SIZE, n))
  }

  /** For a message of the client they are the pairs of its records. */
  lemma PairsOfAddMessage(c: Crypto, records: seq<Record>)
    requires Sound(c) && IntRecords(records)
    ensures |AddMessage(c, records)| > 0 && AddMessage(c, records)[0] == OP_ADD
    ensures PairsOfMessage(c, AddMessage(c, records)) == PairsOf(c, records)
  {
    hide PairsFromBlocks, PairsOf, Blocks, AddMessage;
    AddMessageRoundTrip(c, records);
    assert RecordCount(AddMessage(c, records)) == |records|;
  }

  lemma PairSized(c: Crypto, block: Bytes)
    requires Sound(c) && |block| == RECORD_SIZE
    ensures SizedPair(PairFromBlock(c, block)) && |PairBytes(PairFromBlock(c, block))| == PAIR_SIZE
  {
  }

  lemma PairAt(c: Crypto, message: Bytes, i: nat)
    requires |message| > 0 && i < RecordCount(message)
    ensures 0 <= 1 + RECORD_SIZE * i <= |message| - RECORD_SIZE
    ensures PairsOfMessage(c, message)[i]
            == PairFromBlock(c, message[1 + RECORD_SIZE * i..1 + RECORD_SIZE * i + RECORD_SIZE])
  {
    var n := RecordCount(message);
    Slot(RECORD_SIZE, i, n);
    assert BlockAt(message[1..], RECORD_SIZE, n, i) == message[1 + RECORD_SIZE * i..1 + RECORD_SIZE * i + RECORD_SIZE];
  }

  /** The bytes of the pairs from..to, as they stand in a batch buffer. */
  function BatchBytes(pairs: seq<Pair>, from: nat, to: nat): Bytes
    requires from <= to <= |pairs|
  {
    Flatten(PairBlocks(pairs[from..to]))
  }

  lemma AppendPair(pairs: seq<Pair>, from: nat, to: nat)
    requires from <= to < |pairs|
    ensures BatchBytes(pairs, from, to + 1) == BatchBytes(pairs, from, to) + PairBytes(pairs[to])
  {
    hide PairBytes;
    assert PairBlocks(pairs[from..to + 1]) == PairBlocks(pairs[from..to]) + [PairBytes(pairs[to])];
    FlattenSnoc(PairBlocks(pairs[from..to]), PairBytes(pairs[to]));
  }

  predicate AllSizedPairs(pairs: seq<Pair>) {
    forall i :: 0 <= i < |pairs| ==> SizedPair(pairs[i])
  }

  /** The server finds in a batch buffer the pairs that were written to it. */
  lemma PairsInBuffer(pairs: seq<Pair>, from: nat, to: nat)
    requires from <= to <= |pairs| && AllSizedPairs(pairs)
    ensures |BatchBytes(pairs, from, to)| == PAIR_SIZE * (to - from)
    ensures PairsIn(BatchBytes(pairs, from, to), to - from) == pairs[from..to]
  {
    var some, n := pairs[from..to], to - from;
    var blocks := PairBlocks(some);
    assert AllSized(blocks, PAIR_SIZE);
    FlattenSize(blocks, PAIR_SIZE);
    forall i | 0 <= i < n ensures BlockAt(Flatten(blocks), PAIR_SIZE, n, i) == PairBytes(some[i]) {
      FlattenBlock(blocks, PAIR_SIZE, i);
    }
    hide BlockAt, Flatten;
    forall i | 0 <= i < n ensures PairsIn(Flatten(blocks), n)[i] == some[i] {
      var b := BlockAt(Flatten(blocks), PAIR_SIZE, n, i);
      assert b[..HASH_SIZE] == some[i].key && b[HASH_SIZE..] == some[i].entry;
    }
  }

  lemma MessagePairsSized(c: Crypto, message: Bytes)
    requires Sound(c) && |message| > 0
    ensures AllSizedPairs(PairsOfMessage(c, message))
  {
    hide PairFromBlock, SizedPair, Sound;
    var pairs := PairsOfMessage(c, message);
    forall i | 0 <= i < |pairs| ensures SizedPair(pairs[i]) {
      PairAt(c, message, i);
      PairSized(c, message[1 + RECORD_SIZE * i..1 + RECORD_SIZE * i + RECORD_SIZE]);
    }
  }

  lemma SubSlice(s: Bytes, pos: nat, from: nat, to: nat)
    requires from <= to <= RECORD_SIZE && pos + RECORD_SIZE <= |s|
    ensures s[pos..pos + RECORD_SIZE][from..to] == s[pos + from..pos + to]
  {
    var t := s[pos..pos + RECORD_SIZE];
    assert |t[from..to]| == to - from;
    assert forall i :: 0 <= i < to - from ==> t[from..to][i] == s[pos + from..pos + to][i];
  }

  /** Reads one record at the cursor and computes its pair. */
  method ReadRecord(c: Crypto, message: Bytes, pos: nat) returns (p: Pair)
    requires Sound(c) && pos + RECORD_SIZE <= |message|
    ensures p == PairFromBlock(c, message[pos..pos + RECORD_SIZE])
  {
    hide DecodeInt, EncodeInt, PlainEntry;
    ghost var block := message[pos..pos + RECORD_SIZE];
    SubSlice(message, pos, 0, 4);
    SubSlice(message, pos, 4, 8);
    SubSlice(message, pos, 8, 12);
    SubSlice(message, pos, 12, RECORD_SIZE);
    var doc := DecodeInt(message[pos..pos + 4]);
    var counter := DecodeInt(message[pos + 4..pos + 8]);
    var frequency := DecodeInt(message[pos + 8..pos + 12]);
    var key := message[pos + 12..pos + RECORD_SIZE];
    var mac := c.mac(key, EncodeInt(counter));
    p := Pair(mac, c.encrypt(PlainEntry(mac, frequency, doc % 0x1_0000_0000_0000_0000)));
  }

  lemma SizedAt(c: Crypto, message: Bytes, i: nat)
    requires Sound(c) && |message| > 0 && i < RecordCount(message)
    ensures SizedPair(PairsOfMessage(c, message)[i])
  {
    MessagePairsSized(c, message);
  }

  /** Fills the batch buffer with the pairs of the next records. */
  method FillBatch(c: Crypto, message: Bytes, first: nat, batchSize: nat, buffer: array<Byte>)
    requires Sound(c) && |message| > 0 && first + batchSize <= RecordCount(message)
    requires PAIR_SIZE * batchSize <= buffer.Length
    modifies buffer
    ensures buffer[..PAIR_SIZE * batchSize] == BatchBytes(PairsOfMessage(c, message), first, first + batchSize)
  {
    hide PairFromBlock, PairBytes, PairsOfMessage, Sound, BatchBytes, SizedPair;
    var pos := 0;
    NoPairs(PairsOfMessage(c, message), first);
    for i := 0 to batchSize
      invariant pos == PAIR_SIZE * i <= buffer.Length
      invariant buffer[..pos] == BatchBytes(PairsOfMessage(c, message), first, first + i)
    {
      Slot(PAIR_SIZE, i, batchSize);
      PairAt(c, message, first + i);
      SizedAt(c, message, first + i);
      AppendPair(PairsOfMessage(c, message), first, first + i);
      var p := ReadRecord(c, message, 1 + RECORD_SIZE * (first + i));
      pos := WritePair(p, buffer, pos);
    }
  }

  lemma NoPairs(pairs: seq<Pair>, first: nat)
    requires first <= |pairs|
    ensures BatchBytes(pairs, first, first) == []
  {
  }

  method WritePair(p: Pair, buffer: array<Byte>, pos: nat) returns (next: nat)
    requires SizedPair(p) && pos + PAIR_SIZE <= buffer.Length
    modifies buffer
    ensures next == pos + PAIR_SIZE && buffer[..next] == old(buffer[..pos]) + PairBytes(p)
  {
    next := AddToArr(p.key, buffer, pos);
    next := AddToArr(p.entry, buffer, next);
  }

  /** One round of the loop of update(): fill the buffer, send it. */
  method SendBatch(c: Crypto, message: Bytes, first: nat, batchSize: nat, buffer: array<Byte>, server: Server)
    requires Sound(c) && |message| > 0 && first + batchSize <= RecordCount(message) && server.Valid()
    requires PAIR_SIZE * batchSize <= buffer.Length
    modifies buffer, server
    ensures server.Valid()
    ensures var batch := PairsOfMessage(c, message)[first..first + batchSize];
            server.index == InsertAll(old(server.index), batch) && server.batches == old(server.batches) + [batch]
  {
    hide PairsOfMessage, BatchBytes, PairsIn, RecordCount, Sound, AllSizedPairs, InsertAll;
    FillBatch(c, message, first, batchSize, buffer);
    MessagePairsSized(c, message);
    PairsInBuffer(PairsOfMessage(c, message), first, first + batchSize);
    server.Add(batchSize, buffer[..PAIR_SIZE * batchSize]);
  }

  lemma NoBatches(index: map<Bytes, Bytes>, pairs: seq<Pair>)
    ensures Join([]) == pairs[..0] && BatchesBounded([]) && InsertAll(index, pairs[..0]) == index
  {
  }

  lemma OneMoreBatch(index: map<Bytes, Bytes>, pairs: seq<Pair>, sent: seq<seq<Pair>>, first: nat, n: nat)
    requires first + n <= |pairs| && 0 < n <= 1000
    requires Join(sent) == pairs[..first] && BatchesBounded(sent)
    ensures var batch := pairs[first..first + n];
            && Join(sent + [batch]) == pairs[..first + n] && BatchesBounded(sent + [batch])
            && SizesOf(sent + [batch]) == SizesOf(sent) + [n]
            && InsertAll(index, pairs[..first + n]) == InsertAll(InsertAll(index, pairs[..first]), batch)
  {
    var batch := pairs[first..first + n];
    assert pairs[..first + n] == pairs[..first] + batch;
    InsertConcat(index, pairs[..first], batch);
    JoinSnoc(sent, batch);
  }

  /**
  update(): all pairs of the message reach the server in order, each once, in batches of
  1000 and a last one of what is left.
  */
  method Update(c: Crypto, message: Bytes, server: Server) returns (ghost sent: seq<seq<Pair>>)
    requires Sound(c) && |message| > 0 && server.Valid()
    modifies server
    ensures server.Valid()
    ensures server.index == InsertAll(old(server.index), PairsOfMessage(c, message))
    ensures server.batches == old(server.batches) + sent && BatchesBounded(sent)
    ensures Join(sent) == PairsOfMessage(c, message) && SizesOf(sent) == BatchSizes(|PairsOfMessage(c, message)|)
  {
    hide PairsOfMessage, Sound, InsertAll, Join, BatchesBounded, Server.Valid, BatchSizes;
    var toRecv := (|message| - 1) / RECORD_SIZE;
    var buffer := new Byte[MAX_BATCH_UPDATE * PAIR_SIZE];
    ghost var pairs := PairsOfMessage(c, message);
    var first := 0;
    sent := [];
    NoBatches(server.index, pairs);
    assert SizesOf(sent) + BatchSizes(toRecv) == BatchSizes(|pairs|);
    while toRecv > 0
      invariant 0 <= toRecv && first + toRecv == |pairs| && server.Valid()
      invariant Join(sent) == pairs[..first] && BatchesBounded(sent)
      invariant server.index == InsertAll(old(server.index), pairs[..first])
      invariant server.batches == old(server.batches) + sent
      invariant SizesOf(sent) + BatchSizes(toRecv) == BatchSizes(|pairs|)
      decreases toRecv
    {
      var batchSize := if toRecv < MAX_BATCH_UPDATE then toRecv else MAX_BATCH_UPDATE;
      SendBatch(c, message, first, batchSize, buffer, server);
      OneMoreBatch(old(server.index), pairs, sent, first, batchSize);
      NextBatch(SizesOf(sent), toRecv, batchSize);
      sent := sent + [pairs[first..first + batchSize]];
      first := first + batchSize;
      toRecv := toRecv - batchSize;
    }
    assert pairs[..first] == pairs;
    NoBatchSizes();
  }
}
