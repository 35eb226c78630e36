/**
Bulk updates: the client packs add messages into one buffer, the enclave takes the
buffer apart and updates the index with each of them.
*/
module BulkUpdates {
  import opened IntVectors
  import opened ByteBuffers
  import opened Index
  import opened IndexRuns
  import opened Messages
  import opened SseClient
  import opened SseServer
  import opened SseUpdate

  /** A message behind its length. */
  function Framed(m: Bytes): Bytes {
    EncodeSize(|m|) + m
  }

  function FramedAll(messages: seq<Bytes>): (b: seq<Bytes>)
    ensures |b| == |messages|
  {
    seq(|messages|, i requires 0 <= i < |messages| => Framed(messages[i]))
  }

  /** What the enclave sees of a bulk message: the count, then the framed messages. */
  function BulkBody(messages: seq<Bytes>): Bytes {
    EncodeSize(|messages|) + Flatten(FramedAll(messages))
  }

  function BulkMessage(messages: seq<Bytes>): Bytes {
    [OP_BULK] + BulkBody(messages)
  }

  lemma OneMoreFrame(messages: seq<Bytes>, i: nat)
    requires i < |messages|
    ensures Flatten(FramedAll(messages[..i + 1]))
            == Flatten(FramedAll(messages[..i])) + EncodeSize(|messages[i]|) + messages[i]
  {
    hide EncodeSize;
    assert FramedAll(messages[..i + 1]) == FramedAll(messages[..i]) + [Framed(messages[i])];
    FlattenSnoc(FramedAll(messages[..i]), Framed(messages[i]));
  }

  /** Frame i stands behind the first i frames. */
  lemma FrameAt(messages: seq<Bytes>, i: nat)
    requires i < |messages|
    ensures var pos := SIZE_T_SIZE + |Flatten(FramedAll(messages[..i]))|;
            var s := BulkBody(messages);
            && pos + SIZE_T_SIZE + |messages[i]| <= |s|
            && s[pos..pos + SIZE_T_SIZE] == EncodeSize(|messages[i]|)
            && s[pos + SIZE_T_SIZE..pos + SIZE_T_SIZE + |messages[i]|] == messages[i]
            && pos + SIZE_T_SIZE + |messages[i]| == SIZE_T_SIZE + |Flatten(FramedAll(messages[..i + 1]))|
  {
    hide EncodeSize, Flatten;
    var before, after := FramedAll(messages[..i]), FramedAll(messages[i + 1..]);
    assert FramedAll(messages) == before + [Framed(messages[i])] + after;
    FlattenConcat(before + [Framed(messages[i])], after);
    FlattenSnoc(before, Framed(messages[i]));
    OneMoreFrame(messages, i);
    Embedded(EncodeSize(|messages|), Flatten(before), EncodeSize(|messages[i]|), messages[i], Flatten(after));
  }

  lemma Embedded(a: Bytes, b: Bytes, c: Bytes, d: Bytes, e: Bytes)
    ensures var s := a + (b + (c + d) + e);
            var pos := |a| + |b|;
            s[pos..pos + |c|] == c && s[pos + |c|..pos + |c| + |d|] == d
  {
  }

  lemma NoFrames(messages: seq<Bytes>)
    ensures Flatten(FramedAll(messages[..0])) == []
  {
  }

  lemma {:induction false} FramesGrow(messages: seq<Bytes>, i: nat)
    requires i <= |messages|
    ensures |Flatten(FramedAll(messages[..i]))| <= |Flatten(FramedAll(messages))|
  {
    hide EncodeSize, Flatten;
    assert FramedAll(messages) == FramedAll(messages[..i]) + FramedAll(messages[i..]);
    FlattenConcat(FramedAll(messages[..i]), FramedAll(messages[i..]));
  }

  // ---------------------------------------------------------------------- the client

  /** The bytes of all messages together. */
  function TotalSize(messages: seq<Bytes>): nat
    decreases |messages|
  {
    if |messages| == 0 then 0 else TotalSize(messages[..|messages| - 1]) + |messages[|messages| - 1]|
  }

  lemma {:induction false} BulkSize(messages: seq<Bytes>)
    ensures |Flatten(FramedAll(messages))| == SIZE_T_SIZE * |messages| + TotalSize(messages)
    decreases |messages|
  {
    if |messages| == 0 {
    } else {
      var n := |messages| - 1;
      BulkSize(messages[..n]);
      OneMoreFrame(messages, n);
      assert messages[..n + 1] == messages;
    }
  }

  /** Packs the messages into a buffer of exactly the computed size. */
  method PackBulk(messages: seq<Bytes>, totalSize: nat) returns (data: Bytes)
    requires totalSize == TotalSize(messages)
    ensures data == BulkMessage(messages)
  {
    hide EncodeSize, Flatten;
    BulkSize(messages);
    var bufferLen := 1 + SIZE_T_SIZE + |messages| * SIZE_T_SIZE + totalSize;
    var buffer := new Byte[bufferLen];
    var pos: nat := AddToArr([OP_BULK], buffer, 0);
    pos := AddToArr(EncodeSize(|messages|), buffer, pos);
    NoFrames(messages);
    for i := 0 to |messages|
      invariant pos == 1 + SIZE_T_SIZE + |Flatten(FramedAll(messages[..i]))| <= buffer.Length
      invariant buffer[..pos] == [OP_BULK] + EncodeSize(|messages|) + Flatten(FramedAll(messages[..i]))
    {
      OneMoreFrame(messages, i);
      FramesGrow(messages, i + 1);
      pos := AddToArr(EncodeSize(|messages[i]|), buffer, pos);
      pos := AddToArr(messages[i], buffer, pos);
    }
    assert messages[..|messages|] == messages;
    data := buffer[..];
  }

  /** The counters and the records after the client went through `docs`, the first with number `id`. */
  function Made(counters: map<string, nat>, id: nat, docs: seq<Document>): (map<string, nat>, seq<seq<Record>>)
    decreases |docs|
  {
    if |docs| == 0 then (counters, [])
    else
      var n := |docs| - 1;
      var before := Made(counters, id, docs[..n]);
      var made := ClientRecords(before.0, id + n, docs[n]);
      (made.0, before.1 + [made.1])
  }

  function AddMessages(c: Crypto, records: seq<seq<Record>>): (m: seq<Bytes>)
    ensures |m| == |records|
  {
    seq(|records|, i requires 0 <= i < |records| => AddMessage(c, records[i]))
  }

  lemma MadeNext(counters: map<string, nat>, id: nat, docs: seq<Document>, i: nat)
    requires i < |docs|
    ensures var before := Made(counters, id, docs[..i]);
            var made := ClientRecords(before.0, id + i, docs[i]);
            Made(counters, id, docs[..i + 1]) == (made.0, before.1 + [made.1])
  {
    assert docs[..i + 1][..i] == docs[..i];
  }

  lemma TotalSizeSnoc(messages: seq<Bytes>, m: Bytes)
    ensures TotalSize(messages + [m]) == TotalSize(messages) + |m|
  {
    assert (messages + [m])[..|messages|] == messages;
  }

  /** The client's part of bisen_update(): add every document, pack all messages. */
  method MakeBulk(client: Client, docs: seq<Document>) returns (data: Bytes)
    requires Sound(client.crypto)
    modifies client
    ensures var made := Made(old(client.counters), old(client.nDocs), docs);
            client.counters == made.0 && data == BulkMessage(AddMessages(client.crypto, made.1))
    ensures client.nDocs == old(client.nDocs) + |docs|
  {
    hide Made, AddMessage, BulkMessage, ClientRecords, Sound;
    var messages: seq<Bytes> := [];
    var totalSize := 0;
    ghost var counters, id := client.counters, client.nDocs;
    ghost var records: seq<seq<Record>> := [];
    MadeNone(counters, id, docs);
    for i := 0 to |docs|
      invariant Made(counters, id, docs[..i]) == (client.counters, records)
      invariant client.nDocs == id + i
      invariant messages == AddMessages(client.crypto, records) && totalSize == TotalSize(messages)
    {
      MadeNext(counters, id, docs, i);
      ghost var made := ClientRecords(client.counters, client.nDocs, docs[i]);
      var message := client.AddNewDocument(docs[i]);
      TotalSizeSnoc(messages, message);
      messages := messages + [message];
      totalSize := totalSize + |message|;
      records := records + [made.1];
    }
    assert docs[..|docs|] == docs;
    data := PackBulk(messages, totalSize);
  }

  lemma MadeNone(counters: map<string, nat>, id: nat, docs: seq<Document>)
    ensures Made(counters, id, docs[..0]) == (counters, []) && TotalSize([]) == 0
  {
  }

  // --------------------------------------------------------------------- the enclave

  /** The pairs of all messages, one message after the other. */
  function PairsOfAll(c: Crypto, messages: seq<Bytes>): seq<Pair>
    requires AreUpdates(messages)
    decreases |messages|
  {
    if |messages| == 0 then []
    else PairsOfAll(c, messages[..|messages| - 1]) + PairsOfMessage(c, messages[|messages| - 1])
  }

  predicate AreUpdates(messages: seq<Bytes>) {
    forall i :: 0 <= i < |messages| ==> 0 < |messages[i]| && IsSize(|messages[i]|) && messages[i][0] == OP_ADD
  }

  lemma UpdateAt(c: Crypto, messages: seq<Bytes>, i: nat)
    requires AreUpdates(messages) && i < |messages|
    ensures AreUpdates(messages[..i]) && AreUpdates(messages[..i + 1])
    ensures 0 < |messages[i]| && IsSize(|messages[i]|) && messages[i][0] == OP_ADD
    ensures PairsOfAll(c, messages[..i + 1]) == PairsOfAll(c, messages[..i]) + PairsOfMessage(c, messages[i])
  {
    assert messages[..i + 1][..i] == messages[..i];
  }

  lemma UpdateNone(c: Crypto, messages: seq<Bytes>, index: map<Bytes, Bytes>)
    ensures AreUpdates(messages[..0]) && PairsOfAll(c, messages[..0]) == [] && InsertAll(index, []) == index
    ensures Join([]) == [] && BatchesBounded([])
  {
  }

  lemma {:induction false} JoinConcat(a: seq<seq<Pair>>, b: seq<seq<Pair>>)
    ensures Join(a + b) == Join(a) + Join(b)
    decreases |b|
  {
    if |b| == 0 {
      assert a + b == a;
    } else {
      var n := |b| - 1;
      JoinConcat(a, b[..n]);
      assert a + b == (a + b[..n]) + [b[n]];
      JoinSnoc(a + b[..n], b[n]);
    }
  }

  lemma BoundedConcat(a: seq<seq<Pair>>, b: seq<seq<Pair>>)
    requires BatchesBounded(a) && BatchesBounded(b)
    ensures BatchesBounded(a + b)
  {
  }

  /**
  The bulk case of process_message: every record of every message reaches the server once
  and in order, in batches of at most 1000.
  */
  method ProcessBulk(c: Crypto, server: Server, input: Bytes, ghost messages: seq<Bytes>)
    returns (ghost sent: seq<seq<Pair>>)
    requires Sound(c) && server.Valid() && input == BulkBody(messages) && AreUpdates(messages)
    requires |messages| < 0x1_0000_0000 // the loop counter is an unsigned
    modifies server
    ensures server.Valid() && server.index == InsertAll(old(server.index), PairsOfAll(c, messages))
    ensures server.batches == old(server.batches) + sent && BatchesBounded(sent)
    ensures Join(sent) == PairsOfAll(c, messages)
  {
    hide Flatten, EncodeSize, DecodeSize, InsertAll, Sound, AreUpdates, PairsOfAll, PairsOfMessage, Join,
         BatchesBounded, Server.Valid, FramedAll;
    SizeRoundTrip(|messages|);
    assert input[..SIZE_T_SIZE] == EncodeSize(|messages|);
    var nrUpds := DecodeSize(input[..SIZE_T_SIZE]);
    var pos := SIZE_T_SIZE;
    sent := [];
    NoFrames(messages);
    UpdateNone(c, messages, server.index);
    ghost var start := server.index;
    ghost var pairs: seq<Pair> := [];
    for i := 0 to nrUpds
      invariant server.Valid() && AreUpdates(messages[..i])
      invariant pos == SIZE_T_SIZE + |Flatten(FramedAll(messages[..i]))|
      invariant pairs == PairsOfAll(c, messages[..i]) && server.index == InsertAll(start, pairs)
      invariant server.batches == old(server.batches) + sent && BatchesBounded(sent) && Join(sent) == pairs
    {
      FrameAt(messages, i);
      UpdateAt(c, messages, i);
      SizeRoundTrip(|messages[i]|);
      var lenBytes, len;
      lenBytes, pos := ReadFromArr(SIZE_T_SIZE, input, pos);
      len := DecodeSize(lenBytes);
      ghost var before := server.index;
      ghost var more := Update(c, input[pos..pos + len], server);
      InsertConcat(start, pairs, PairsOfMessage(c, messages[i]));
      JoinConcat(sent, more);
      BoundedConcat(sent, more);
      sent := sent + more;
      pairs := pairs + PairsOfMessage(c, messages[i]);
      pos := pos + len;
    }
    assert messages[..nrUpds] == messages;
  }

  // ------------------------------------------------------------------- conservation

  function Records(made: seq<seq<Record>>): seq<Record>
    decreases |made|
  {
    if |made| == 0 then [] else Records(made[..|made| - 1]) + made[|made| - 1]
  }

  predicate IntRecordLists(made: seq<seq<Record>>) {
    forall i :: 0 <= i < |made| ==> IntRecords(made[i]) && IsSize(1 + RECORD_SIZE * |made[i]|)
  }

  lemma AddMessagesAreUpdates(c: Crypto, made: seq<seq<Record>>)
    requires Sound(c) && IntRecordLists(made)
    ensures AreUpdates(AddMessages(c, made))
  {
    hide AddMessage, IntRecords, Sound;
    forall i | 0 <= i < |made|
      ensures var m := AddMessage(c, made[i]); 0 < |m| && IsSize(|m|) && m[0] == OP_ADD
    {
      AddMessageRoundTrip(c, made[i]);
    }
  }

  lemma PairsConcat(c: Crypto, a: seq<Record>, b: seq<Record>)
    ensures PairsOf(c, a + b) == PairsOf(c, a) + PairsOf(c, b)
  {
    hide PairOf;
  }

  /** Through all packing and unpacking, the pairs are those of the records, in order. */
  lemma {:induction false} BulkConserves(c: Crypto, made: seq<seq<Record>>)
    requires Sound(c) && IntRecordLists(made)
    ensures AreUpdates(AddMessages(c, made)) && PairsOfAll(c, AddMessages(c, made)) == PairsOf(c, Records(made))
    decreases |made|
  {
    hide AddMessage, PairsOf, PairsOfMessage, IntRecords, Sound;
    AddMessagesAreUpdates(c, made);
    if |made| == 0 {
      NoPairsOf(c);
    } else {
      var n := |made| - 1;
      BulkConserves(c, made[..n]);
      assert AddMessages(c, made)[..n] == AddMessages(c, made[..n]);
      PairsOfAddMessage(c, made[n]);
      PairsConcat(c, Records(made[..n]), made[n]);
    }
  }

  lemma NoPairsOf(c: Crypto)
    ensures PairsOf(c, []) == []
  {
  }
}
