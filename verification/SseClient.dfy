/**
The client: it numbers documents, counts words and writes add and search messages.
*/
module SseClient {
  import opened IntVectors
  import opened ByteBuffers
  import opened Index
  import opened IndexRuns
  import opened Messages
  import opened Query
  import opened QueryMessages
  import ShuntingYard
  import Tokenizer

  datatype SearchMessage =
    | Message(data: Bytes)
    | InvalidQuery   // the parser throws for mismatched parentheses
    | UndefinedQuery // the parser reads the top of an empty stack

  /** What the client sends for a token list. */
  function SearchFor(c: Crypto, counters: map<string, nat>, nDocs: nat, tokens: seq<Token>): SearchMessage {
    match ShuntingYard.Yard(tokens, [], [])
    case Parsed(rpn) => Message(QueryMessage(c, counters, nDocs, rpn))
    case Mismatched => InvalidQuery
    case NoTop => UndefinedQuery
  }

  class Client {
    const crypto: Crypto
    var counters: map<string, nat>
    var nDocs: nat

    constructor (crypto: Crypto)
      ensures this.crypto == crypto && counters == map[] && nDocs == 0
    {
      this.crypto := crypto;
      counters := map[];
      nDocs := 0;
    }

    /** new_doc */
    method NewDoc() returns (id: nat)
      modifies this`nDocs
      ensures id == old(nDocs) && nDocs == old(nDocs) + 1
    {
      id := nDocs;
      nDocs := nDocs + 1;
    }

    /** Writes one record at the cursor. */
    method WriteRecord(r: Record, data: array<Byte>, pos: nat) returns (next: nat)
      requires Sound(crypto) && pos + RECORD_SIZE <= data.Length
      modifies data
      ensures next == pos + RECORD_SIZE
      ensures data[..next] == old(data[..pos]) + RecordBytes(crypto, r)
    {
      hide EncodeInt;
      assert |crypto.key(r.word)| == HASH_SIZE;
      next := AddIntToArr(r.doc, data, pos);
      next := AddIntToArr(r.counter, data, next);
      next := AddIntToArr(r.frequency, data, next);
      next := AddToArr(crypto.key(r.word), data, next);
    }

    /** The next counter of a word: one more than the last one, 1 for a new word. */
    method BumpCounter(word: string) returns (c: nat)
      modifies this`counters
      ensures c == (if word in old(counters) then old(counters)[word] + 1 else 1)
      ensures counters == old(counters)[word := c]
    {
      c := 1;
      if word in counters {
        c := counters[word] + 1;
      }
      counters := counters[word := c];
    }

    /** One round of the loop: bump the counter of the word, write its record. */
    method AddRecord(docId: nat, word: string, frequency: int, data: array<Byte>, pos: nat)
      returns (next: nat, ghost r: Record)
      requires Sound(crypto) && pos + RECORD_SIZE <= data.Length
      modifies this`counters, data
      ensures var c := if word in old(counters) then old(counters)[word] + 1 else 1;
              counters == old(counters)[word := c] && r == Record(docId, c - 1, frequency, word)
      ensures next == pos + RECORD_SIZE && data[..next] == old(data[..pos]) + RecordBytes(crypto, r)
    {
      hide RecordBytes, Sound;
      var c := BumpCounter(word);
      r := Record(docId, c - 1, frequency, word);
      next := WriteRecord(Record(docId, c - 1, frequency, word), data, pos);
    }

    /** generate_add_msg: bumps the counter of every word and writes its record. */
    method GenerateAddMsg(docId: nat, words: Document) returns (data: Bytes)
      requires Sound(crypto)
      modifies this`counters
      ensures var made := ClientRecords(old(counters), docId, words);
              counters == made.0 && data == AddMessage(crypto, made.1)
    {
      var dataSize := 1 + |words| * RECORD_SIZE;
      var buffer := new Byte[dataSize];
      var pos := AddToArr([OP_ADD], buffer, 0);
      hide RecordBytes, Sound, WrittenFor;
      WrittenNothing(crypto, counters, docId, words);
      for i := 0 to |words|
        invariant pos == 1 + RECORD_SIZE * i
        invariant WrittenFor(crypto, old(counters), docId, words[..i], counters, buffer[..pos])
      {
        Slot(RECORD_SIZE, i, |words|);
        WrittenNext(crypto, old(counters), docId, words, i, counters, buffer[..pos]);
        ghost var r;
        pos, r := AddRecord(docId, words[i].0, words[i].1, buffer, pos);
      }
      assert words[..|words|] == words;
      data := buffer[..pos];
      WrittenAll(crypto, old(counters), docId, words, counters, data);
    }

    /** add_new_document */
    method AddNewDocument(words: Document) returns (data: Bytes)
      requires Sound(crypto)
      modifies this`counters, this`nDocs
      ensures var made := ClientRecords(old(counters), old(nDocs), words);
              counters == made.0 && data == AddMessage(crypto, made.1)
      ensures nDocs == old(nDocs) + 1
    {
      var id := NewDoc();
      data := GenerateAddMsg(id, words);
    }

    /** The size of the search message, computed before it is written. */
    method MessageSize(rpn: seq<Token>) returns (size: nat)
      requires Sound(crypto)
      ensures size == |QueryMessage(crypto, counters, nDocs, rpn)|
    {
      size := 2;
      hide TokenBytes;
      for i := 0 to |rpn|
        invariant size == |QueryPrefix(crypto, counters, rpn[..i])|
      {
        AppendToken(crypto, counters, rpn, i);
        if rpn[i].WordToken? {
          size := size + 1 + INT_SIZE + HASH_SIZE;
        } else {
          size := size + 1;
        }
      }
      assert rpn[..|rpn|] == rpn;
      PrefixFits(crypto, counters, nDocs, rpn, |rpn|);
      size := size + 1 + INT_SIZE;
    }

    /** Writes one token of the query at the cursor. */
    method WriteToken(t: Token, data: array<Byte>, pos: nat) returns (next: nat)
      requires Sound(crypto) && pos + |TokenBytes(crypto, counters, t)| <= data.Length
      modifies data
      ensures next == pos + |TokenBytes(crypto, counters, t)|
      ensures data[..next] == old(data[..pos]) + TokenBytes(crypto, counters, t)
    {
      hide EncodeInt;
      next := AddToArr([KindByte(KindOf(t))], data, pos);
      if t.WordToken? {
        next := AddIntToArr(CounterOf(counters, t.word), data, next);
        next := AddToArr(crypto.key(t.word), data, next);
      }
    }

    /** The second pass of search(): writes all tokens behind the two operation bytes. */
    method WriteTokens(rpn: seq<Token>, data: array<Byte>, start: nat) returns (pos: nat)
      requires Sound(crypto) && data.Length == |QueryMessage(crypto, counters, nDocs, rpn)|
      requires start <= data.Length && data[..start] == [OP_RBISEN] + [OP_SRC]
      modifies data
      ensures pos + 1 + INT_SIZE == data.Length && data[..pos] == QueryPrefix(crypto, counters, rpn)
    {
      hide TokenBytes, QueryPrefix, QueryMessage, Sound;
      pos := start;
      EmptyQuery(crypto, counters, rpn);
      for i := 0 to |rpn|
        invariant pos <= data.Length
        invariant data[..pos] == QueryPrefix(crypto, counters, rpn[..i])
      {
        AppendToken(crypto, counters, rpn, i);
        PrefixFits(crypto, counters, nDocs, rpn, i + 1);
        pos := WriteToken(rpn[i], data, pos);
      }
      assert rpn[..|rpn|] == rpn;
      PrefixFits(crypto, counters, nDocs, rpn, |rpn|);
    }

    /** The part of search() that follows the parser; the buffer is filled to its last byte. */
    method WriteQuery(rpn: seq<Token>) returns (data: Bytes)
      requires Sound(crypto)
      ensures data == QueryMessage(crypto, counters, nDocs, rpn)
    {
      hide QueryPrefix, QueryMessage, MetaBytes, Sound;
      var dataSize := MessageSize(rpn);
      var buffer := new Byte[dataSize];
      PrefixFits(crypto, counters, nDocs, rpn, 0);
      EmptyQuery(crypto, counters, rpn);
      var pos := AddToArr([OP_RBISEN], buffer, 0);
      pos := AddToArr([OP_SRC], buffer, pos);
      pos := WriteTokens(rpn, buffer, pos);
      MetaIs(nDocs);
      pos := AddToArr([KindByte(META_KIND)], buffer, pos);
      pos := AddIntToArr(nDocs, buffer, pos);
      WholeQuery(crypto, counters, nDocs, rpn);
      data := buffer[..];
    }

    /** search: tokenise, translate to postfix, serialise. */
    method Search(query: string) returns (m: SearchMessage)
      requires Sound(crypto)
      ensures m == SearchFor(crypto, counters, nDocs, Tokenizer.Lex(query))
    {
      hide QueryMessage, Sound;
      var infix := Tokenizer.Tokenize(query);
      var outcome := ShuntingYard.ShuntingYard(infix);
      match outcome
      case Parsed(rpn) =>
        var data := WriteQuery(rpn);
        m := Message(data);
      case Mismatched => m := InvalidQuery;
      case NoTop => m := UndefinedQuery;
    }
  }

  /** The counters and the bytes of the message after the words of d, from the counters before. */
  ghost predicate WrittenFor(c: Crypto, first: map<string, nat>, id: nat, d: Document, counters: map<string, nat>,
                             data: Bytes) {
    var made := ClientRecords(first, id, d);
    counters == made.0 && data == AddMessage(c, made.1)
  }

  lemma WrittenNothing(c: Crypto, counters: map<string, nat>, id: nat, words: Document)
    ensures WrittenFor(c, counters, id, words[..0], counters, [OP_ADD])
  {
  }

  lemma WrittenNext(c: Crypto, first: map<string, nat>, id: nat, words: Document, i: nat, counters: map<string, nat>,
                    data: Bytes)
    requires i < |words| && WrittenFor(c, first, id, words[..i], counters, data)
    ensures var count := if words[i].0 in counters then counters[words[i].0] + 1 else 1;
            WrittenFor(c, first, id, words[..i + 1], counters[words[i].0 := count],
                       data + RecordBytes(c, Record(id, count - 1, words[i].1, words[i].0)))
  {
    hide RecordBytes, AddMessage;
    var count := if words[i].0 in counters then counters[words[i].0] + 1 else 1;
    assert words[..i + 1][..i] == words[..i];
    AppendRecord(c, ClientRecords(first, id, words[..i]).1, Record(id, count - 1, words[i].1, words[i].0));
  }

  lemma WrittenAll(c: Crypto, first: map<string, nat>, id: nat, words: Document, counters: map<string, nat>,
                   data: Bytes)
    requires WrittenFor(c, first, id, words, counters, data)
    ensures var made := ClientRecords(first, id, words); counters == made.0 && data == AddMessage(c, made.1)
  {
  }

  lemma AppendRecord(c: Crypto, records: seq<Record>, r: Record)
    ensures AddMessage(c, records + [r]) == AddMessage(c, records) + RecordBytes(c, r)
  {
    hide RecordBytes;
    assert RecordBlocks(c, records + [r]) == RecordBlocks(c, records) + [RecordBytes(c, r)];
    FlattenSnoc(RecordBlocks(c, records), RecordBytes(c, r));
  }

  /** The message up to the document count. */
  function QueryPrefix(c: Crypto, counters: map<string, nat>, tokens: seq<Token>): Bytes {
    [OP_RBISEN, OP_SRC] + Flatten(TokenBlocks(c, counters, tokens))
  }

  lemma EmptyQuery(c: Crypto, counters: map<string, nat>, tokens: seq<Token>)
    ensures QueryPrefix(c, counters, tokens[..0]) == [OP_RBISEN] + [OP_SRC]
  {
  }

  lemma TokenSize(c: Crypto, counters: map<string, nat>, t: Token)
    requires Sound(c)
    ensures |TokenBytes(c, counters, t)| == if t.WordToken? then 1 + INT_SIZE + HASH_SIZE else 1
  {
    assert t.WordToken? ==> |c.key(t.word)| == HASH_SIZE;
  }

  lemma AppendToken(c: Crypto, counters: map<string, nat>, tokens: seq<Token>, i: nat)
    requires Sound(c) && i < |tokens|
    ensures QueryPrefix(c, counters, tokens[..i + 1])
         == QueryPrefix(c, counters, tokens[..i]) + TokenBytes(c, counters, tokens[i])
    ensures |TokenBytes(c, counters, tokens[i])| == if tokens[i].WordToken? then 1 + INT_SIZE + HASH_SIZE else 1
  {
    hide TokenBytes, Flatten, Sound;
    TokenSize(c, counters, tokens[i]);
    var last := TokenBytes(c, counters, tokens[i]);
    assert TokenBlocks(c, counters, tokens[..i + 1]) == TokenBlocks(c, counters, tokens[..i]) + [last];
    FlattenSnoc(TokenBlocks(c, counters, tokens[..i]), last);
  }

  lemma MetaIs(nDocs: nat)
    ensures MetaBytes(nDocs) == [KindByte(META_KIND)] + EncodeInt(nDocs) && |MetaBytes(nDocs)| == 1 + INT_SIZE
  {
  }

  lemma WholeQuery(c: Crypto, counters: map<string, nat>, nDocs: nat, tokens: seq<Token>)
    ensures QueryMessage(c, counters, nDocs, tokens) == QueryPrefix(c, counters, tokens) + MetaBytes(nDocs)
  {
  }

  /** The first i tokens leave room for the document count, which ends the message. */
  lemma PrefixFits(c: Crypto, counters: map<string, nat>, nDocs: nat, tokens: seq<Token>, i: nat)
    requires i <= |tokens|
    ensures |QueryPrefix(c, counters, tokens[..i])| + 1 + INT_SIZE <= |QueryMessage(c, counters, nDocs, tokens)|
    ensures i == |tokens| ==>
              |QueryPrefix(c, counters, tokens[..i])| + 1 + INT_SIZE == |QueryMessage(c, counters, nDocs, tokens)|
  {
    hide TokenBytes;
    MetaIs(nDocs);
    assert TokenBlocks(c, counters, tokens)
           == TokenBlocks(c, counters, tokens[..i]) + TokenBlocks(c, counters, tokens[i..]);
    FlattenConcat(TokenBlocks(c, counters, tokens[..i]), TokenBlocks(c, counters, tokens[i..]));
    assert i == |tokens| ==> tokens[..i] == tokens;
  }
}
