/**
The query as it travels from the client to the enclave: a postfix token list, words with
their counter and key, closed by the number of documents.
*/
module QueryMessages {
  import opened IntVectors
  import opened ByteBuffers
  import opened Index
  import opened Messages
  import opened Query
  import opened TokenVectors

  function KindOf(t: Token): (kind: char)
    ensures kind == WORD_KIND <==> t.WordToken?
    ensures kind != META_KIND
    ensures kind < 256 as char
  {
    match t
    case WordToken(_) => WORD_KIND
    case AndToken => '&'
    case OrToken => '|'
    case NotToken => '!'
    case OpenToken => '('
    case CloseToken => ')'
  }

  function KindByte(kind: char): Byte
    requires kind < 256 as char
  {
    kind as int as Byte
  }

  function KindOfByte(b: Byte): char {
    b as int as char
  }

  function CounterOf(counters: map<string, nat>, w: string): nat {
    if w in counters then counters[w] else 0
  }

  function TokenBytes(c: Crypto, counters: map<string, nat>, t: Token): Bytes {
    [KindByte(KindOf(t))] + if t.WordToken? then EncodeInt(CounterOf(counters, t.word)) + c.key(t.word) else []
  }

  function TokenBlocks(c: Crypto, counters: map<string, nat>, tokens: seq<Token>): (b: seq<Bytes>)
    ensures |b| == |tokens|
  {
    seq(|tokens|, i requires 0 <= i < |tokens| => TokenBytes(c, counters, tokens[i]))
  }

  function MetaBytes(nDocs: nat): Bytes {
    [KindByte(META_KIND)] + EncodeInt(nDocs)
  }

  /** The whole message; the first byte tells the enclave that it is for the index, the second that it is a search. */
  function QueryMessage(c: Crypto, counters: map<string, nat>, nDocs: nat, tokens: seq<Token>): Bytes {
    [OP_RBISEN, OP_SRC] + Flatten(TokenBlocks(c, counters, tokens)) + MetaBytes(nDocs)
  }

  // ------------------------------------------------------------------------- parsing

  /** A list the enclave has allocated but not yet filled. */
  function Unfilled(n: nat): (s: seq<int>)
    ensures |s| == n
  {
    seq(n, i => 0)
  }

  function WordOf(counter: nat, key: Bytes): IeeToken {
    IeeToken(WORD_KIND, counter, 0.0, key, Unfilled(counter), Unfilled(counter))
  }

  function SymbolOf(kind: char): IeeToken {
    IeeToken(kind, 0, 0.0, [], [], [])
  }

  /** An int read into an unsigned. */
  function Unsigned(x: int): nat {
    x % 0x1_0000_0000
  }

  datatype Parsed = Tokens(tokens: seq<IeeToken>, nDocs: nat) | Truncated

  /** The parse loop as a function of the bytes left, the tokens so far and the document count. */
  function Parse(s: Bytes, tokens: seq<IeeToken>, nDocs: nat): Parsed
    decreases |s|
  {
    if |s| == 0 then Tokens(tokens, nDocs)
    else
      var kind := KindOfByte(s[0]);
      if kind == WORD_KIND then
        if |s| < 1 + INT_SIZE + HASH_SIZE then Truncated
        else Parse(s[37..], tokens + [WordOf(Unsigned(DecodeInt(s[1..5])), s[5..37])], nDocs)
      else if kind == META_KIND then
        if |s| < 1 + INT_SIZE then Truncated
        else Parse(s[5..], tokens, Unsigned(DecodeInt(s[1..5])))
      else Parse(s[1..], tokens + [SymbolOf(kind)], nDocs)
  }

  /** What the enclave should make of a client token. */
  function ParsedToken(c: Crypto, counters: map<string, nat>, t: Token): IeeToken {
    if t.WordToken? then WordOf(CounterOf(counters, t.word), c.key(t.word)) else SymbolOf(KindOf(t))
  }

  function ParsedTokens(c: Crypto, counters: map<string, nat>, tokens: seq<Token>): (p: seq<IeeToken>)
    ensures |p| == |tokens|
  {
    seq(|tokens|, i requires 0 <= i < |tokens| => ParsedToken(c, counters, tokens[i]))
  }

  ghost predicate IntCounters(counters: map<string, nat>) {
    forall w :: w in counters ==> IsInt(counters[w])
  }

  lemma UnsignedNat(x: nat)
    requires IsInt(x)
    ensures Unsigned(DecodeInt(EncodeInt(x))) == x
  {
    IntRoundTrip(x);
  }

  lemma ParseWord(counter: nat, key: Bytes, rest: Bytes, tokens: seq<IeeToken>, nDocs: nat)
    requires |key| == HASH_SIZE && IsInt(counter)
    ensures Parse([KindByte(WORD_KIND)] + (EncodeInt(counter) + key) + rest, tokens, nDocs)
         == Parse(rest, tokens + [WordOf(counter, key)], nDocs)
  {
    hide EncodeInt, DecodeInt;
    UnsignedNat(counter);
    var s := [KindByte(WORD_KIND)] + (EncodeInt(counter) + key) + rest;
    assert s[1..5] == EncodeInt(counter) && s[5..37] == key && s[37..] == rest;
  }

  lemma ParseMeta(nDocs: nat, tokens: seq<IeeToken>)
    requires IsInt(nDocs)
    ensures Parse(MetaBytes(nDocs), tokens, 0) == Tokens(tokens, nDocs)
  {
    hide EncodeInt, DecodeInt;
    UnsignedNat(nDocs);
    var s := MetaBytes(nDocs);
    assert s[1..5] == EncodeInt(nDocs) && s[5..] == [];
  }

  lemma ParseToken(c: Crypto, counters: map<string, nat>, t: Token, rest: Bytes, tokens: seq<IeeToken>, nDocs: nat)
    requires Sound(c) && IntCounters(counters)
    ensures Parse(TokenBytes(c, counters, t) + rest, tokens, nDocs)
         == Parse(rest, tokens + [ParsedToken(c, counters, t)], nDocs)
  {
    if t.WordToken? {
      ParseWord(CounterOf(counters, t.word), c.key(t.word), rest, tokens, nDocs);
    } else {
      var s := TokenBytes(c, counters, t) + rest;
      assert s[0] == KindByte(KindOf(t)) && s[1..] == rest;
    }
  }

  lemma {:induction false} ParseTokens(c: Crypto, counters: map<string, nat>, tokens: seq<Token>, rest: Bytes,
                                       before: seq<IeeToken>, nDocs: nat)
    requires Sound(c) && IntCounters(counters)
    ensures Parse(Flatten(TokenBlocks(c, counters, tokens)) + rest, before, nDocs)
         == Parse(rest, before + ParsedTokens(c, counters, tokens), nDocs)
    decreases |tokens|
  {
    hide Parse, TokenBytes, ParsedToken, Sound;
    if |tokens| == 0 {
      assert Flatten(TokenBlocks(c, counters, tokens)) + rest == rest;
      assert before + ParsedTokens(c, counters, tokens) == before;
    } else {
      var n := |tokens| - 1;
      var init, t := tokens[..n], tokens[n];
      var last := TokenBytes(c, counters, t);
      assert TokenBlocks(c, counters, tokens) == TokenBlocks(c, counters, init) + [last];
      FlattenSnoc(TokenBlocks(c, counters, init), last);
      assert Flatten(TokenBlocks(c, counters, tokens)) + rest
             == Flatten(TokenBlocks(c, counters, init)) + (last + rest);
      ParseTokens(c, counters, init, last + rest, before, nDocs);
      ParseToken(c, counters, t, rest, before + ParsedTokens(c, counters, init), nDocs);
      assert before + ParsedTokens(c, counters, init) + [ParsedToken(c, counters, t)]
          == before + ParsedTokens(c, counters, tokens);
    }
  }

  /** The enclave recovers tokens, counters, keys and the document count, and consumes every byte. */
  lemma QueryRoundTrip(c: Crypto, counters: map<string, nat>, nDocs: nat, tokens: seq<Token>)
    requires Sound(c) && IntCounters(counters) && IsInt(nDocs)
    ensures Parse(QueryMessage(c, counters, nDocs, tokens)[2..], [], 0)
         == Tokens(ParsedTokens(c, counters, tokens), nDocs)
  {
    hide Parse, MetaBytes, TokenBlocks, Sound;
    ParseTokens(c, counters, tokens, MetaBytes(nDocs), [], 0);
    ParseMeta(nDocs, [] + ParsedTokens(c, counters, tokens));
    assert QueryMessage(c, counters, nDocs, tokens)[2..]
        == Flatten(TokenBlocks(c, counters, tokens)) + MetaBytes(nDocs);
    assert [] + ParsedTokens(c, counters, tokens) == ParsedTokens(c, counters, tokens);
  }
}
