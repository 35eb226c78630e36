/**
Where every field of every message stands, byte by byte and in numbers.
*/
module WireFormat {
  import opened ByteBuffers
  import opened BulkUpdates
  import opened Index
  import opened IndexRuns
  import opened IntVectors
  import opened Messages
  import opened Options
  import opened Query
  import opened QueryMessages
  import opened Ranking
  import opened Requests

  // ------------------------------------------------------------------------ numbers

  lemma FourBytes(x: nat)
    ensures LittleEndian(x, 4) == [(x % 256) as Byte, (x / 256 % 256) as Byte, (x / 256 / 256 % 256) as Byte,
                                   (x / 256 / 256 / 256 % 256) as Byte]
  {
    hide LittleEndian;
    OneByte(x, 4);
    OneByte(x / 256, 3);
    OneByte(x / 256 / 256, 2);
    OneByte(x / 256 / 256 / 256, 1);
    NoBytes(x / 256 / 256 / 256 / 256);
  }

  lemma OneByte(x: nat, n: nat)
    requires n > 0
    ensures LittleEndian(x, n) == [(x % 256) as Byte] + LittleEndian(x / 256, n - 1)
  {
  }

  lemma NoBytes(x: nat)
    ensures LittleEndian(x, 0) == []
  {
  }

  /** An int takes four bytes, the lowest first, a negative one as its complement to 2^32. */
  lemma IntBytes(x: int)
    requires -0x8000_0000 <= x < 0x8000_0000
    ensures var n: nat := if x < 0 then x + 0x1_0000_0000 else x;
            EncodeInt(x) == [(n % 256) as Byte, (n / 256 % 256) as Byte, (n / 256 / 256 % 256) as Byte,
                             (n / 256 / 256 / 256 % 256) as Byte]
  {
    var n := if x < 0 then x + 0x1_0000_0000 else x;
    IntIs(x, n);
    FourBytes(n);
    hide EncodeInt, LittleEndian;
  }

  lemma IntIs(x: int, n: nat)
    requires -0x8000_0000 <= x < 0x8000_0000 && n == if x < 0 then x + 0x1_0000_0000 else x
    ensures EncodeInt(x) == LittleEndian(n, 4)
  {
    hide LittleEndian;
    assert x % 0x1_0000_0000 == n;
  }

  /** A size takes eight, so a small one is its four lowest bytes and four zeros. */
  lemma {:induction false} SizeBytes(x: nat)
    requires x < 0x1_0000_0000
    ensures EncodeSize(x) == LittleEndian(x, 4) + [0, 0, 0, 0]
  {
    hide LittleEndian;
    var y := x / 256 / 256 / 256 / 256;
    FourBytes(x);
    FourBytes(y);
    assert y == 0;
    OneByte(x, 8);
    OneByte(x / 256, 7);
    OneByte(x / 256 / 256, 6);
    OneByte(x / 256 / 256 / 256, 5);
  }

  // -------------------------------------------------------------------- add messages

  lemma RecordParts(c: Crypto, r: Record)
    requires Sound(c)
    ensures RecordBytes(c, r) == EncodeInt(r.doc) + EncodeInt(r.counter) + EncodeInt(r.frequency) + c.key(r.word)
    ensures |RecordBytes(c, r)| == 44
  {
    assert |c.key(r.word)| == HASH_SIZE;
  }

  /** 'a', then 44 bytes for each record: its document, counter and frequency and the hash of its word. */
  lemma AddMessageLayout(c: Crypto, records: seq<Record>, i: nat)
    requires Sound(c) && i < |records|
    ensures var m, r := AddMessage(c, records), records[i];
            && |m| == 1 + 44 * |records| && m[0] == 'a' as int as Byte
            && StandsAt(m, 1 + 44 * i, EncodeInt(r.doc)) && StandsAt(m, 5 + 44 * i, EncodeInt(r.counter))
            && StandsAt(m, 9 + 44 * i, EncodeInt(r.frequency)) && StandsAt(m, 13 + 44 * i, c.key(r.word))
  {
    hide EncodeInt, RecordBytes, Flatten, Sound;
    var blocks := RecordBlocks(c, records);
    forall k | 0 <= k < |records| ensures |blocks[k]| == 44 {
      RecordParts(c, records[k]);
    }
    FlattenSize(blocks, 44);
    FlattenBlock(blocks, 44, i);
    RecordParts(c, records[i]);
    var r := records[i];
    FourStand([OP_ADD] + Flatten(blocks), 1 + 44 * i, EncodeInt(r.doc), EncodeInt(r.counter), EncodeInt(r.frequency),
              c.key(r.word));
  }

  lemma FourStand(s: Bytes, at: nat, a: Bytes, b: Bytes, c: Bytes, d: Bytes)
    requires |a| == |b| == |c| == 4 && StandsAt(s, at, a + b + c + d)
    ensures StandsAt(s, at, a) && StandsAt(s, at + 4, b) && StandsAt(s, at + 8, c) && StandsAt(s, at + 12, d)
  {
    hide StandsAt;
    TwoStand(s, at, a + b + c, d);
    TwoStand(s, at, a + b, c);
    TwoStand(s, at, a, b);
  }

  lemma TwoStand(s: Bytes, at: nat, a: Bytes, b: Bytes)
    requires StandsAt(s, at, a + b)
    ensures StandsAt(s, at, a) && StandsAt(s, at + |a|, b)
  {
    var t, n := s[at..at + |a + b|], |a|;
    assert t[..n] == a && t[n..] == b;
    assert t[..n] == s[at..at + n] && t[n..] == s[at + n..at + n + |b|];
  }

  // ------------------------------------------------------------- labels and entries

  /** The label of a record, 32 bytes, and the 44 bytes its entry decrypts to. */
  lemma PairLayout(c: Crypto, r: Record)
    requires Sound(c)
    ensures var p := PairOf(c, r);
            && p.key == c.mac(c.key(r.word), EncodeInt(r.counter)) && |p.key| == 32
            && c.decrypt(p.entry) == p.key + EncodeInt(r.frequency) + EncodeSize(r.doc) && |p.entry| == 44
  {
    hide EncodeInt, EncodeSize;
  }

  /** A decrypted entry is taken exactly when it starts with the label that was asked for. */
  lemma EntryIsOpened(mac: Bytes, wanted: Bytes, frequency: int, doc: nat)
    requires |mac| == |wanted| == 32 && IsInt(frequency) && doc < 0x8000_0000
    ensures var plain := mac + EncodeInt(frequency) + EncodeSize(doc);
            Opened(plain, wanted) == if mac == wanted then Some(FoundPosting(doc, frequency)) else None
  {
    hide EncodeInt, EncodeSize, DecodeInt, DecodeSize;
    var plain := mac + EncodeInt(frequency) + EncodeSize(doc);
    IntRoundTrip(frequency);
    SizeRoundTrip(doc);
    assert plain[..32] == mac && plain[32..36] == EncodeInt(frequency) && plain[36..44] == EncodeSize(doc);
  }

  /** The server keeps under a label what came last for it. */
  lemma {:induction false} LastPairWins(index: map<Bytes, Bytes>, pairs: seq<Pair>, i: nat)
    requires i < |pairs| && forall j :: i < j < |pairs| ==> pairs[j].key != pairs[i].key
    ensures pairs[i].key in InsertAll(index, pairs) && InsertAll(index, pairs)[pairs[i].key] == pairs[i].entry
    decreases |pairs|
  {
    var n := |pairs| - 1;
    if i == n {
    } else {
      LastPairWins(index, pairs[..n], i);
      assert pairs[..n][i] == pairs[i] && pairs[n].key != pairs[i].key;
    }
  }

  /** And what it had when nothing came. */
  lemma {:induction false} OtherLabelsStay(index: map<Bytes, Bytes>, pairs: seq<Pair>, key: Bytes)
    requires forall i :: 0 <= i < |pairs| ==> pairs[i].key != key
    ensures key in InsertAll(index, pairs) <==> key in index
    ensures key in index ==> InsertAll(index, pairs)[key] == index[key]
    decreases |pairs|
  {
    if |pairs| == 0 {
    } else {
      var n := |pairs| - 1;
      assert forall i :: 0 <= i < n ==> pairs[..n][i] == pairs[i];
      OtherLabelsStay(index, pairs[..n], key);
    }
  }

  // ----------------------------------------------------------------- search messages

  /** Words as 'w', their counter and their hash, operators as themselves. */
  lemma TokenLayout(c: Crypto, counters: map<string, nat>, w: string)
    ensures TokenBytes(c, counters, WordToken(w))
         == ['w' as int as Byte] + EncodeInt(if w in counters then counters[w] else 0) + c.key(w)
    ensures TokenBytes(c, counters, AndToken) == ['&' as int as Byte]
    ensures TokenBytes(c, counters, OrToken) == ['|' as int as Byte]
    ensures TokenBytes(c, counters, NotToken) == ['!' as int as Byte]
  {
    hide EncodeInt;
    assert ['w' as int as Byte] + (EncodeInt(CounterOf(counters, w)) + c.key(w))
        == ['w' as int as Byte] + EncodeInt(CounterOf(counters, w)) + c.key(w);
  }

  /** '1' and 's', the tokens one after the other, 'z' and the number of documents. */
  lemma QueryMessageLayout(c: Crypto, counters: map<string, nat>, nDocs: nat, tokens: seq<Token>)
    ensures QueryMessage(c, counters, nDocs, tokens)
         == ['1' as int as Byte, 's' as int as Byte] + Flatten(TokenBlocks(c, counters, tokens))
            + ['z' as int as Byte] + EncodeInt(nDocs)
  {
    hide EncodeInt, Flatten, TokenBlocks;
    var head := ['1' as int as Byte, 's' as int as Byte] + Flatten(TokenBlocks(c, counters, tokens));
    assert head + (['z' as int as Byte] + EncodeInt(nDocs)) == head + ['z' as int as Byte] + EncodeInt(nDocs);
  }

  // ------------------------------------------------------------------- bulk messages

  /** 'z', the number of messages, and each message behind its length. */
  lemma BulkMessageLayout(messages: seq<Bytes>)
    ensures BulkMessage(messages) == ['z' as int as Byte] + EncodeSize(|messages|) + Flatten(FramedAll(messages))
    ensures forall i :: 0 <= i < |messages| ==> FramedAll(messages)[i] == EncodeSize(|messages[i]|) + messages[i]
  {
    hide EncodeSize, Flatten;
    var z := ['z' as int as Byte];
    var n, frames := EncodeSize(|messages|), Flatten(FramedAll(messages));
    assert z + (n + frames) == z + n + frames;
  }

  // ------------------------------------------------------------------------ response

  /** The number of pairs, 1, and 12 bytes for each of ten pairs, zero where there is none. */
  lemma ResponseLayout(f: DoubleFormat, pairs: seq<Scored>)
    requires EightBytes(f) && |pairs| <= 10
    ensures var s := ResponseBytes(f, pairs);
            && |s| == 129 && StandsAt(s, 0, EncodeSize(|pairs|)) && s[8] == 1
            && (forall i :: 0 <= i < |pairs| ==>
                  StandsAt(s, 9 + 12 * i, EncodeInt(pairs[i].doc)) && StandsAt(s, 13 + 12 * i, f.write(pairs[i].score)))
            && (forall k :: 9 + 12 * |pairs| <= k < 129 ==> s[k] == 0)
  {
    hide EncodeSize, EncodeInt, EightBytes, Flatten, StandsAt;
    ResponseSize(f, pairs);
    CountStands(f, pairs);
    hide ResponseBytes;
    forall i | 0 <= i < |pairs|
      ensures StandsAt(ResponseBytes(f, pairs), 9 + 12 * i, EncodeInt(pairs[i].doc))
      ensures StandsAt(ResponseBytes(f, pairs), 13 + 12 * i, f.write(pairs[i].score))
    {
      PairInResponse(f, pairs, i);
    }
  }

  lemma CountStands(f: DoubleFormat, pairs: seq<Scored>)
    requires |pairs| <= 10
    ensures var s := ResponseBytes(f, pairs); |s| > 8 && StandsAt(s, 0, EncodeSize(|pairs|)) && s[8] == 1
  {
    hide EncodeSize, Flatten;
  }
}
