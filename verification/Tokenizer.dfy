/**
The client's tokeniser: from the text of a query to tokens.

`Lex` is the loop as a function of the text that is left, `Tokenize` the loop itself.
Words are lower-cased and stemmed. The text ends at its first NUL character, if any.
*/
module Tokenizer {
  import opened PorterRules
  import opened PorterStemmer
  import opened Query

  predicate IsOperator(c: char) {
    c == '&' || c == '|' || c == '!' || c == '(' || c == ')'
  }

  predicate IsWordChar(c: char) {
    c != '\0' && c != ' ' && !IsOperator(c)
  }

  function OperatorToken(c: char): Token
    requires IsOperator(c)
  {
    match c
    case '&' => AndToken
    case '|' => OrToken
    case '!' => NotToken
    case '(' => OpenToken
    case _ => CloseToken
  }

  function LowerChar(c: char): char {
    if 'A' <= c <= 'Z' then c - 'A' + 'a' else c
  }

  function Lower(w: string): (l: string)
    ensures |l| == |w|
  {
    seq(|w|, i requires 0 <= i < |w| => LowerChar(w[i]))
  }

  /** What becomes of a word of the query: lower case, then its stem. */
  function Normalise(w: string): string {
    Stem(Lower(w))
  }

  /** How many word characters the text starts with. */
  function WordLength(text: string): (n: nat)
    ensures n <= |text|
    ensures forall i :: 0 <= i < n ==> IsWordChar(text[i])
    ensures n < |text| ==> !IsWordChar(text[n])
  {
    if |text| > 0 && IsWordChar(text[0]) then 1 + WordLength(text[1..]) else 0
  }

  /** How many characters an operator takes: `&&` and `||` count as one operator. */
  function OperatorLength(text: string): (n: nat)
    requires |text| > 0
    ensures 0 < n <= |text|
  {
    if (text[0] == '&' || text[0] == '|') && |text| > 1 && text[1] == text[0] then 2 else 1
  }

  function Lex(text: string): seq<Token>
    decreases |text|
  {
    if |text| == 0 || text[0] == '\0' then []
    else if text[0] == ' ' then Lex(text[1..])
    else if IsOperator(text[0]) then [OperatorToken(text[0])] + Lex(text[OperatorLength(text)..])
    else [WordToken(Normalise(text[..WordLength(text)]))] + Lex(text[WordLength(text)..])
  }

  // -------------------------------------------------------------------- the loop

  /** The character at i; past the end a string reads as NUL. */
  function CharAt(query: string, i: nat): char {
    if i < |query| then query[i] else '\0'
  }

  lemma WordLengthAt(query: string, start: nat, i: nat)
    requires start <= i <= |query| && !IsWordChar(CharAt(query, i))
    requires forall x :: start <= x < i ==> IsWordChar(query[x])
    ensures WordLength(query[start..]) == i - start
  {
    var text := query[start..];
    assert forall x :: 0 <= x < i - start ==> text[x] == query[start + x];
    assert i < |query| ==> text[i - start] == query[i];
  }

  lemma LexSpaceAt(query: string, i: nat)
    requires i < |query| && query[i] == ' '
    ensures Lex(query[i..]) == Lex(query[i + 1..])
  {
    assert query[i..][1..] == query[i + 1..];
  }

  lemma LexOperatorAt(query: string, i: nat)
    requires i < |query| && IsOperator(query[i])
    ensures var doubled := (query[i] == '&' || query[i] == '|') && CharAt(query, i + 1) == query[i];
            var next := if doubled then i + 2 else i + 1;
            next <= |query| && Lex(query[i..]) == [OperatorToken(query[i])] + Lex(query[next..])
  {
    var n := OperatorLength(query[i..]);
    assert query[i..][n..] == query[i + n..];
  }

  lemma LexWordStart(text: string)
    requires text != "" && IsWordChar(text[0])
    ensures Lex(text) == [WordToken(Normalise(text[..WordLength(text)]))] + Lex(text[WordLength(text)..])
  {
    hide Normalise;
  }

  lemma LexWordAt(query: string, start: nat, i: nat)
    requires start < i <= |query| && !IsWordChar(CharAt(query, i))
    requires forall x :: start <= x < i ==> IsWordChar(query[x])
    ensures Lex(query[start..]) == [WordToken(Normalise(query[start..i]))] + Lex(query[i..])
  {
    WordLengthAt(query, start, i);
    hide Normalise;
    var text, n := query[start..], i - start;
    assert text[0] == query[start] && text[..n] == query[start..i] && text[n..] == query[i..];
    LexWordStart(text);
  }

  lemma LexEndAt(query: string, i: nat)
    requires i <= |query| && CharAt(query, i) == '\0'
    ensures Lex(query[i..]) == []
  {
  }

  lemma EmptyLower(query: string, i: nat)
    requires i <= |query|
    ensures Lower(query[i..i]) == ""
  {
  }

  lemma LowerSnoc(query: string, start: nat, i: nat)
    requires start <= i < |query|
    ensures Lower(query[start..i + 1]) == Lower(query[start..i]) + [LowerChar(query[i])]
  {
    assert query[start..i + 1] == query[start..i] + [query[i]];
  }

  lemma LowerTwice(w: string)
    ensures Lower(Lower(w)) == Lower(w)
  {
  }

  /** EnglishAnalyzer::stemWord: lower-cases a copy of the word and stems it in place. */
  method StemWord(word: string) returns (stemmed: string)
    ensures stemmed == Normalise(word)
  {
    hide Stem;
    var original := new char[|word|];
    for i := 0 to |word|
      invariant forall x :: 0 <= x < i ==> original[x] == LowerChar(word[x])
    {
      original[i] := LowerChar(word[i]);
    }
    assert original[0..|word|] == Lower(word);
    var stemmer := new Stemmer();
    var last := stemmer.StemInPlace(original, 0, |word| - 1);
    stemmed := original[0..last + 1];
  }

  method Tokenize(query: string) returns (result: seq<Token>)
    ensures result == Lex(query)
  {
    hide Lex, Lower, Stem, OperatorToken;
    result := [];
    var i := 0;
    assert query[0..] == query;
    while CharAt(query, i) != '\0'
      invariant 0 <= i <= |query|
      invariant Lex(query) == result + Lex(query[i..])
      decreases |query| - i
    {
      if query[i] == ' ' {
        LexSpaceAt(query, i);
        i := i + 1;
        continue;
      }
      var token: Token;
      if IsOperator(query[i]) {
        LexOperatorAt(query, i);
        token := OperatorToken(query[i]);
        if (query[i] == '&' || query[i] == '|') && CharAt(query, i + 1) == query[i] {
          i := i + 1;
        }
        i := i + 1;
      } else {
        var word := "";
        ghost var start := i;
        EmptyLower(query, i);
        while CharAt(query, i) != '\0' && CharAt(query, i) != ' ' && !IsOperator(CharAt(query, i))
          invariant start <= i <= |query|
          invariant i == start ==> IsWordChar(CharAt(query, i))
          invariant word == Lower(query[start..i])
          invariant forall x :: start <= x < i ==> IsWordChar(query[x])
          decreases |query| - i
        {
          LowerSnoc(query, start, i);
          word := word + [LowerChar(query[i])];
          i := i + 1;
        }
        LexWordAt(query, start, i);
        LowerTwice(query[start..i]);
        var stemmed := StemWord(word);
        token := WordToken(stemmed);
      }
      result := result + [token];
    }
    LexEndAt(query, i);
  }

  // ------------------------------------------------------ tokenising undoes writing

  /** What may stand in a word: everything but the operators, the space and NUL. */
  predicate IsWordText(text: string) {
    text != "" && forall i :: 0 <= i < |text| ==> text[i] !in " &|!()\0"
  }

  const CAPITALS := "ABCDEFGHIJKLMNOPQRSTUVWXYZ"
  const SMALL := "abcdefghijklmnopqrstuvwxyz"

  ghost function SmallLetter(c: char): char {
    if k :| 0 <= k < 26 && CAPITALS[k] == c then SMALL[k] else c
  }

  /** A word in small letters. */
  ghost function InSmallLetters(text: string): (w: string)
    ensures |w| == |text|
  {
    seq(|text|, i requires 0 <= i < |text| => SmallLetter(text[i]))
  }

  /** The ways to write an operator or a parenthesis. */
  function OperatorText(t: Token, doubled: bool): string
    requires !t.WordToken?
  {
    match t
    case AndToken => if doubled then "&&" else "&"
    case OrToken => if doubled then "||" else "|"
    case NotToken => "!"
    case OpenToken => "("
    case CloseToken => ")"
  }

  /** A token as a user writes it: some spaces, then a word or an operator, `&` and `|` possibly doubled. */
  datatype Piece =
    | WordPiece(spaces: nat, text: string)
    | OperatorPiece(spaces: nat, token: Token, doubled: bool)

  predicate CanDouble(t: Token) {
    t == AndToken || t == OrToken
  }

  predicate ValidPiece(p: Piece) {
    match p
    case WordPiece(_, text) => IsWordText(text)
    case OperatorPiece(_, t, doubled) => !t.WordToken? && (doubled ==> CanDouble(t))
  }

  function Spaces(n: nat): (s: string)
    ensures |s| == n
  {
    seq(n, i => ' ')
  }

  function PieceText(p: Piece): string
    requires ValidPiece(p)
  {
    match p
    case WordPiece(_, text) => text
    case OperatorPiece(_, t, doubled) => OperatorText(t, doubled)
  }

  function Spell(p: Piece): string
    requires ValidPiece(p)
  {
    Spaces(p.spaces) + PieceText(p)
  }

  predicate ValidPieces(pieces: seq<Piece>) {
    forall i :: 0 <= i < |pieces| ==> ValidPiece(pieces[i])
  }

  function SpellAll(pieces: seq<Piece>): string
    requires ValidPieces(pieces)
  {
    if pieces == [] then "" else Spell(pieces[0]) + SpellAll(pieces[1..])
  }

  /** The token a piece is meant as; a word counts by the stem of its small letters. */
  ghost function TokenOfPiece(p: Piece): Token
    requires ValidPiece(p)
  {
    match p
    case WordPiece(_, text) => WordToken(Stem(InSmallLetters(text)))
    case OperatorPiece(_, t, _) => t
  }

  ghost function TokensOf(pieces: seq<Piece>): seq<Token>
    requires ValidPieces(pieces)
  {
    seq(|pieces|, i requires 0 <= i < |pieces| => TokenOfPiece(pieces[i]))
  }

  /** The two pieces run together when no space stands between them. */
  predicate Merge(p: Piece, q: Piece) {
    || (p.WordPiece? && q.WordPiece?)
    || (p.OperatorPiece? && q.OperatorPiece? && p.token == q.token && CanDouble(p.token) && !p.doubled)
  }

  predicate WellSpaced(pieces: seq<Piece>) {
    && ValidPieces(pieces)
    && (forall i :: 0 < i < |pieces| && Merge(pieces[i - 1], pieces[i]) ==> pieces[i].spaces > 0)
  }

  lemma WordChars(text: string)
    ensures IsWordText(text) <==> text != "" && forall i :: 0 <= i < |text| ==> IsWordChar(text[i])
  {
  }

  lemma AlphabetAt(k: nat)
    requires k < 26
    ensures CAPITALS[k] == 'A' + k as char && SMALL[k] == 'a' + k as char
  {
  }

  lemma SmallLetterIs(c: char)
    ensures LowerChar(c) == SmallLetter(c)
  {
    if k :| 0 <= k < 26 && CAPITALS[k] == c {
      forall i | 0 <= i < 26 && CAPITALS[i] == c ensures i == k {
        AlphabetAt(i);
        AlphabetAt(k);
      }
      AlphabetAt(k);
    } else if 'A' <= c <= 'Z' {
      AlphabetAt((c - 'A') as nat);
    }
  }

  lemma SmallLettersAre(text: string)
    ensures Normalise(text) == Stem(InSmallLetters(text))
  {
    hide Stem;
    forall i | 0 <= i < |text| ensures Lower(text)[i] == InSmallLetters(text)[i] {
      SmallLetterIs(text[i]);
    }
    assert Lower(text) == InSmallLetters(text);
  }

  /** What may follow a word without becoming part of it. */
  predicate EndsWord(rest: string) {
    rest != "" ==> rest[0] in " &|!()\0"
  }

  lemma {:induction false} LexSpaces(n: nat, rest: string)
    ensures Lex(Spaces(n) + rest) == Lex(rest)
  {
    if n == 0 {
      assert Spaces(0) + rest == rest;
    } else {
      assert (Spaces(n) + rest)[1..] == Spaces(n - 1) + rest;
      LexSpaces(n - 1, rest);
    }
  }

  lemma LexWord(text: string, rest: string)
    requires IsWordText(text) && EndsWord(rest)
    ensures Lex(text + rest) == [WordToken(Stem(InSmallLetters(text)))] + Lex(rest)
  {
    hide Normalise, Stem, InSmallLetters;
    WordChars(text);
    SmallLettersAre(text);
    var all := text + rest;
    assert IsWordChar(all[0]);
    WordLengthAt(all, 0, |text|);
    assert all[0..] == all && all[..|text|] == text && all[|text|..] == rest;
  }

  lemma LexOperator(t: Token, doubled: bool, rest: string)
    requires ValidPiece(OperatorPiece(0, t, doubled))
    requires !doubled && t == AndToken && rest != "" ==> rest[0] != '&'
    requires !doubled && t == OrToken && rest != "" ==> rest[0] != '|'
    ensures Lex(OperatorText(t, doubled) + rest) == [t] + Lex(rest)
  {
    var text := OperatorText(t, doubled);
    var all := text + rest;
    assert all[0] == text[0];
    assert OperatorLength(all) == |text|;
    assert all[|text|..] == rest;
  }

  lemma LexPiece(p: Piece, rest: string)
    requires ValidPiece(p) && (p.WordPiece? ==> EndsWord(rest))
    requires p.OperatorPiece? && !p.doubled && p.token == AndToken && rest != "" ==> rest[0] != '&'
    requires p.OperatorPiece? && !p.doubled && p.token == OrToken && rest != "" ==> rest[0] != '|'
    ensures Lex(Spell(p) + rest) == [TokenOfPiece(p)] + Lex(rest)
  {
    hide Lex, Stem, InSmallLetters, EndsWord;
    assert Spell(p) + rest == Spaces(p.spaces) + (PieceText(p) + rest);
    LexSpaces(p.spaces, PieceText(p) + rest);
    match p
    case WordPiece(_, text) => LexWord(text, rest);
    case OperatorPiece(_, t, doubled) => LexOperator(t, doubled, rest);
  }

  lemma FirstChar(pieces: seq<Piece>, trailing: nat)
    requires WellSpaced(pieces)
    ensures var rest := SpellAll(pieces) + Spaces(trailing);
            rest != "" ==> rest[0] == if pieces == [] || pieces[0].spaces > 0 then ' ' else PieceText(pieces[0])[0]
  {
    if pieces != [] {
      assert SpellAll(pieces) == Spell(pieces[0]) + SpellAll(pieces[1..]);
    }
  }

  lemma WellSpacedTail(pieces: seq<Piece>)
    requires WellSpaced(pieces) && pieces != []
    ensures WellSpaced(pieces[1..])
    ensures pieces[1..] != [] && Merge(pieces[0], pieces[1..][0]) ==> pieces[1..][0].spaces > 0
  {
    var more := pieces[1..];
    assert forall i :: 0 <= i < |more| ==> more[i] == pieces[i + 1];
    assert forall i :: 0 < i < |more| ==> more[i - 1] == pieces[i];
  }

  /** Tokenising any admissible spelling of a token list gives the list back. */
  lemma {:induction false} LexUndoesSpelling(pieces: seq<Piece>, trailing: nat)
    requires WellSpaced(pieces)
    ensures Lex(SpellAll(pieces) + Spaces(trailing)) == TokensOf(pieces)
    decreases |pieces|
  {
    hide Lex, Spaces, Spell, TokenOfPiece, IsWordText, EndsWord;
    if pieces == [] {
      LexOnlySpaces(trailing);
    } else {
      var p, more := pieces[0], pieces[1..];
      WellSpacedTail(pieces);
      var rest := SpellAll(more) + Spaces(trailing);
      LexUndoesSpelling(more, trailing);
      StartsApart(p, more, trailing);
      assert SpellAll(pieces) + Spaces(trailing) == Spell(p) + rest;
      LexPiece(p, rest);
      assert TokensOf(pieces) == [TokenOfPiece(p)] + TokensOf(more);
    }
  }

  lemma LexOnlySpaces(trailing: nat)
    ensures Lex(SpellAll([]) + Spaces(trailing)) == []
  {
    assert SpellAll([]) + Spaces(trailing) == Spaces(trailing) + "";
    LexSpaces(trailing, "");
  }

  /** What follows a piece does not run together with it. */
  lemma StartsApart(p: Piece, more: seq<Piece>, trailing: nat)
    requires ValidPiece(p) && WellSpaced(more) && (more != [] && Merge(p, more[0]) ==> more[0].spaces > 0)
    ensures var rest := SpellAll(more) + Spaces(trailing);
            && (p.WordPiece? ==> EndsWord(rest))
            && (p.OperatorPiece? && !p.doubled && p.token == AndToken && rest != "" ==> rest[0] != '&')
            && (p.OperatorPiece? && !p.doubled && p.token == OrToken && rest != "" ==> rest[0] != '|')
  {
    hide Spaces, SpellAll;
    FirstChar(more, trailing);
  }

  // ----------------------------------------------------- every text is such a writing

  /** The piece a text starts with, if it does not start with a space. */
  lemma FirstPiece(text: string) returns (p: Piece, n: nat)
    requires text != "" && text[0] != ' ' && text[0] != '\0'
    ensures 0 < n <= |text| && ValidPiece(p) && p.spaces == 0 && text[..n] == PieceText(p)
    ensures p.WordPiece? ==> EndsWord(text[n..])
    ensures p.OperatorPiece? && !p.doubled && n < |text| ==> !(CanDouble(p.token) && text[n] == text[0])
  {
    if IsOperator(text[0]) {
      n := OperatorLength(text);
      p := OperatorPiece(0, OperatorToken(text[0]), n == 2);
      assert text[..n] == if n == 2 then [text[0], text[1]] else [text[0]];
    } else {
      n := WordLength(text);
      p := WordPiece(0, text[..n]);
      WordChars(text[..n]);
    }
  }

  lemma Prepend(p: Piece, more: seq<Piece>)
    requires ValidPiece(p) && WellSpaced(more) && (more != [] && Merge(p, more[0]) ==> more[0].spaces > 0)
    ensures WellSpaced([p] + more) && SpellAll([p] + more) == Spell(p) + SpellAll(more)
  {
    hide Spell, ValidPiece, Merge;
    assert ([p] + more)[1..] == more;
  }

  /** Pieces that stand apart in the text do not run together. */
  lemma StandsApart(p: Piece, more: seq<Piece>, trailing: nat)
    requires ValidPiece(p) && WellSpaced(more)
    requires var rest := SpellAll(more) + Spaces(trailing);
             && (p.WordPiece? ==> EndsWord(rest))
             && (p.OperatorPiece? && !p.doubled && rest != "" ==> !(CanDouble(p.token) && rest[0] == PieceText(p)[0]))
    ensures more != [] && Merge(p, more[0]) ==> more[0].spaces > 0
  {
    FirstChar(more, trailing);
    if more != [] {
      SomeText(more);
    }
    hide SpellAll, Spaces;
  }

  lemma SomeText(pieces: seq<Piece>)
    requires ValidPieces(pieces) && pieces != []
    ensures SpellAll(pieces) != ""
  {
    assert Spell(pieces[0]) != "";
  }

  lemma PieceFits(p: Piece, n: nat, text: string, more: seq<Piece>, trailing: nat)
    requires ValidPiece(p) && p.spaces == 0 && 0 < n <= |text| && text[..n] == PieceText(p)
    requires WellSpaced(more) && text[n..] == SpellAll(more) + Spaces(trailing)
    requires p.WordPiece? ==> EndsWord(text[n..])
    requires p.OperatorPiece? && !p.doubled && n < |text| ==> !(CanDouble(p.token) && text[n] == text[0])
    ensures WellSpaced([p] + more) && text == SpellAll([p] + more) + Spaces(trailing)
  {
    hide SpellAll, PieceText, WellSpaced, ValidPiece, EndsWord, CanDouble;
    assert text[..n][0] == text[0];
    StandsApart(p, more, trailing);
    Prepend(p, more);
    assert Spell(p) == PieceText(p);
    assert text == text[..n] + text[n..];
  }

  lemma OneMoreSpace(text: string, pieces: seq<Piece>, trailing: nat) returns (pieces': seq<Piece>, trailing': nat)
    requires text != "" && text[0] == ' ' && WellSpaced(pieces) && text[1..] == SpellAll(pieces) + Spaces(trailing)
    ensures WellSpaced(pieces') && text == SpellAll(pieces') + Spaces(trailing')
  {
    assert text == [' '] + text[1..];
    if pieces == [] {
      pieces', trailing' := [], trailing + 1;
    } else {
      var p, more := pieces[0].(spaces := pieces[0].spaces + 1), pieces[1..];
      WellSpacedTail(pieces);
      OneSpace(pieces[0], p);
      FirstSpelled(pieces);
      hide Spell, ValidPiece, SpellAll, Spaces, WellSpaced, Merge;
      Prepend(p, more);
      Regroup([' '], Spell(pieces[0]), SpellAll(more), Spaces(trailing));
      pieces', trailing' := [p] + more, trailing;
    }
  }

  lemma Regroup(a: string, b: string, c: string, d: string)
    ensures a + (b + c + d) == a + b + c + d
  {
  }

  lemma FirstSpelled(pieces: seq<Piece>)
    requires ValidPieces(pieces) && pieces != []
    ensures ValidPieces(pieces[1..]) && SpellAll(pieces) == Spell(pieces[0]) + SpellAll(pieces[1..])
  {
  }

  lemma OneSpace(p: Piece, q: Piece)
    requires ValidPiece(p) && q == p.(spaces := p.spaces + 1)
    ensures ValidPiece(q) && Spell(q) == [' '] + Spell(p)
    ensures forall r :: Merge(q, r) <==> Merge(p, r)
  {
  }

  /** The admissible writings of token lists are all texts up to the first NUL. */
  lemma {:induction false} EveryTextIsWritten(text: string) returns (pieces: seq<Piece>, trailing: nat)
    requires '\0' !in text
    ensures WellSpaced(pieces) && text == SpellAll(pieces) + Spaces(trailing)
    decreases |text|
  {
    hide WellSpaced, SpellAll, ValidPiece, EndsWord;
    if text == "" {
      pieces, trailing := [], 0;
      NothingWritten();
    } else if text[0] == ' ' {
      var more, n := EveryTextIsWritten(text[1..]);
      pieces, trailing := OneMoreSpace(text, more, n);
    } else {
      assert text[0] in text;
      var p, n := FirstPiece(text);
      var more;
      more, trailing := EveryTextIsWritten(text[n..]);
      PieceFits(p, n, text, more, trailing);
      pieces := [p] + more;
    }
  }

  lemma NothingWritten()
    ensures WellSpaced([]) && "" == SpellAll([]) + Spaces(0)
  {
  }

  /** What stands behind a NUL is not read. */
  lemma {:induction false} LexStopsAtNul(text: string, rest: string)
    ensures Lex(text + "\0" + rest) == Lex(text)
    decreases |text|
  {
    hide Normalise;
    var all := text + "\0" + rest;
    if text == "" {
      assert all[0] == '\0';
    } else if text[0] == '\0' {
    } else {
      var n := if text[0] == ' ' then 1 else if IsOperator(text[0]) then OperatorLength(text) else WordLength(text);
      if !IsOperator(text[0]) && text[0] != ' ' {
        assert forall i :: 0 <= i < n ==> all[i] == text[i];
        assert n == |text| ==> all[n] == '\0';
        WordLengthAt(all, 0, n);
        assert all[0..] == all && all[..n] == text[..n];
      }
      assert all[n..] == text[n..] + "\0" + rest;
      LexStopsAtNul(text[n..], rest);
    }
  }
}
