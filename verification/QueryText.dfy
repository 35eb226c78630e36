/**
The text of a query, what it asks for, and that the tokeniser reads it that way.

The three datatypes are the grammar: a query is conjunctions joined by `|` or `||`, a
conjunction is factors joined by `&` or `&&`, a factor is a word, a `!` and a factor, or a
query in parentheses. Any number of spaces may stand before a token.
*/
module QueryText {
  import opened Index
  import opened PorterRules
  import opened Query
  import opened Tokenizer

  datatype Disjunction =
    | OneConjunction(only: Conjunction)
    | OrElse(left: Disjunction, spaces: nat, doubled: bool, right: Conjunction)

  datatype Conjunction =
    | OneFactor(only: Factor)
    | AndAlso(left: Conjunction, spaces: nat, doubled: bool, right: Factor)

  datatype Factor =
    | Keyword(spaces: nat, text: string)
    | Bang(spaces: nat, arg: Factor)
    | Parentheses(spaces: nat, inner: Disjunction, closing: nat)

  // ------------------------------------------------------------------------ the text

  function TextOf(q: Disjunction): string {
    match q
    case OneConjunction(c) => TextOfConjunction(c)
    case OrElse(l, n, doubled, r) => TextOf(l) + (Spaces(n) + (if doubled then "||" else "|") + TextOfConjunction(r))
  }

  function TextOfConjunction(c: Conjunction): string {
    match c
    case OneFactor(f) => TextOfFactor(f)
    case AndAlso(l, n, doubled, r) =>
      TextOfConjunction(l) + (Spaces(n) + (if doubled then "&&" else "&") + TextOfFactor(r))
  }

  function TextOfFactor(f: Factor): string {
    match f
    case Keyword(n, text) => Spaces(n) + text
    case Bang(n, arg) => Spaces(n) + "!" + TextOfFactor(arg)
    case Parentheses(n, q, m) => Spaces(n) + "(" + (TextOf(q) + (Spaces(m) + ")"))
  }

  /** All words are words: not empty, without operators, spaces or NUL. */
  predicate Proper(q: Disjunction) {
    match q
    case OneConjunction(c) => ProperConjunction(c)
    case OrElse(l, _, _, r) => Proper(l) && ProperConjunction(r)
  }

  predicate ProperConjunction(c: Conjunction) {
    match c
    case OneFactor(f) => ProperFactor(f)
    case AndAlso(l, _, _, r) => ProperConjunction(l) && ProperFactor(r)
  }

  predicate ProperFactor(f: Factor) {
    match f
    case Keyword(_, text) => IsWordText(text)
    case Bang(_, arg) => ProperFactor(arg)
    case Parentheses(_, q, _) => Proper(q)
  }

  // --------------------------------------------------------------------- the meaning

  /** The word of the index that is looked up for a word of the text. */
  ghost function Term(text: string): string {
    Stem(InSmallLetters(text))
  }

  /** The document has the word. */
  ghost predicate Occurs(d: Document, w: string) {
    exists i :: 0 <= i < |d| && d[i].0 == w
  }

  /** The document is one of those that the query asks for. */
  ghost predicate Satisfies(d: Document, q: Disjunction) {
    match q
    case OneConjunction(c) => SatisfiesConjunction(d, c)
    case OrElse(l, _, _, r) => Satisfies(d, l) || SatisfiesConjunction(d, r)
  }

  ghost predicate SatisfiesConjunction(d: Document, c: Conjunction) {
    match c
    case OneFactor(f) => SatisfiesFactor(d, f)
    case AndAlso(l, _, _, r) => SatisfiesConjunction(d, l) && SatisfiesFactor(d, r)
  }

  ghost predicate SatisfiesFactor(d: Document, f: Factor) {
    match f
    case Keyword(_, text) => Occurs(d, Term(text))
    case Bang(_, arg) => !SatisfiesFactor(d, arg)
    case Parentheses(_, q, _) => Satisfies(d, q)
  }

  // ------------------------------------------------------------------------ the tree

  ghost function TreeOf(q: Disjunction): (e: Infix)
    ensures WellFormed(e)
  {
    match q
    case OneConjunction(c) => TreeOfConjunction(c)
    case OrElse(l, _, _, r) => Disj(TreeOf(l), TreeOfConjunction(r))
  }

  ghost function TreeOfConjunction(c: Conjunction): (e: Infix)
    ensures WellFormed(e) && Level(e) >= 2
  {
    match c
    case OneFactor(f) => TreeOfFactor(f)
    case AndAlso(l, _, _, r) => Conj(TreeOfConjunction(l), TreeOfFactor(r))
  }

  ghost function TreeOfFactor(f: Factor): (e: Infix)
    ensures WellFormed(e) && Level(e) >= 3
  {
    match f
    case Keyword(_, text) => Word(Term(text))
    case Bang(_, arg) => Neg(TreeOfFactor(arg))
    case Parentheses(_, q, _) => Group(TreeOf(q))
  }

  // ----------------------------------------------------------- the text is read back

  lemma FactorStarts(f: Factor)
    requires ProperFactor(f)
    ensures TextOfFactor(f) != "" && TextOfFactor(f)[0] != '&' && TextOfFactor(f)[0] != '|'
  {
  }

  lemma {:induction false} ConjunctionStarts(c: Conjunction)
    requires ProperConjunction(c)
    ensures TextOfConjunction(c) != "" && TextOfConjunction(c)[0] != '&' && TextOfConjunction(c)[0] != '|'
  {
    hide TextOfFactor, ProperFactor;
    match c
    case OneFactor(f) => FactorStarts(f);
    case AndAlso(l, _, _, _) => ConjunctionStarts(l);
  }

  /** An operator behind spaces, in front of a text that starts with neither `&` nor `|`. */
  lemma LexSpacedOperator(n: nat, t: Token, doubled: bool, rest: string)
    requires !t.WordToken? && (doubled ==> CanDouble(t))
    requires CanDouble(t) ==> rest != "" && rest[0] != '&' && rest[0] != '|'
    ensures Lex(Spaces(n) + OperatorText(t, doubled) + rest) == [t] + Lex(rest)
    ensures EndsWord(Spaces(n) + OperatorText(t, doubled) + rest)
  {
    LexPiece(OperatorPiece(n, t, doubled), rest);
    hide Lex;
    var all := Spaces(n) + OperatorText(t, doubled) + rest;
    assert all[0] == if n > 0 then ' ' else OperatorText(t, doubled)[0];
  }

  lemma LexKeyword(n: nat, text: string, rest: string)
    requires IsWordText(text) && EndsWord(rest)
    ensures Lex(Spaces(n) + text + rest) == [WordToken(Term(text))] + Lex(rest)
  {
    hide Lex, Stem;
    LexPiece(WordPiece(n, text), rest);
  }

  /** What stands behind is read for itself. */
  lemma {:induction false} LexQuery(q: Disjunction, rest: string)
    requires Proper(q) && EndsWord(rest)
    ensures Lex(TextOf(q) + rest) == Print(TreeOf(q)) + Lex(rest)
    decreases q
  {
    hide Lex, EndsWord, TextOfConjunction, TreeOfConjunction, ProperConjunction;
    match q
    case OneConjunction(c) => LexConjunction(c, rest);
    case OrElse(l, n, doubled, r) =>
      var more := TextOfConjunction(r) + rest;
      ConjunctionStarts(r);
      LexSpacedOperator(n, OrToken, doubled, more);
      LexQuery(l, Spaces(n) + OperatorText(OrToken, doubled) + more);
      LexConjunction(r, rest);
      Regrouped(TextOf(l), Spaces(n), OperatorText(OrToken, doubled), TextOfConjunction(r), rest);
  }

  lemma {:induction false} LexConjunction(c: Conjunction, rest: string)
    requires ProperConjunction(c) && EndsWord(rest)
    ensures Lex(TextOfConjunction(c) + rest) == Print(TreeOfConjunction(c)) + Lex(rest)
    decreases c
  {
    hide Lex, EndsWord, TextOfFactor, TreeOfFactor, ProperFactor;
    match c
    case OneFactor(f) => LexFactor(f, rest);
    case AndAlso(l, n, doubled, r) =>
      var more := TextOfFactor(r) + rest;
      FactorStarts(r);
      LexSpacedOperator(n, AndToken, doubled, more);
      LexConjunction(l, Spaces(n) + OperatorText(AndToken, doubled) + more);
      LexFactor(r, rest);
      Regrouped(TextOfConjunction(l), Spaces(n), OperatorText(AndToken, doubled), TextOfFactor(r), rest);
  }

  lemma {:induction false} LexFactor(f: Factor, rest: string)
    requires ProperFactor(f) && EndsWord(rest)
    ensures Lex(TextOfFactor(f) + rest) == Print(TreeOfFactor(f)) + Lex(rest)
    decreases f
  {
    hide Lex, EndsWord, TextOf, TreeOf, Proper, Spaces, Print;
    match f
    case Keyword(n, text) =>
      LexKeyword(n, text, rest);
      PrintOfWord(Term(text));
    case Bang(n, arg) =>
      LexFactor(arg, rest);
      LexBang(n, TextOfFactor(arg), TreeOfFactor(arg), rest);
    case Parentheses(n, q, m) =>
      LexSpacedOperator(m, CloseToken, false, rest);
      LexQuery(q, Spaces(m) + ")" + rest);
      LexParentheses(n, TextOf(q), m, TreeOf(q), rest);
  }

  lemma PrintOfWord(w: string)
    ensures Print(Word(w)) == [WordToken(w)]
  {
  }

  lemma LexBang(n: nat, text: string, e: Infix, rest: string)
    requires Lex(text + rest) == Print(e) + Lex(rest)
    ensures Lex(Spaces(n) + "!" + text + rest) == Print(Neg(e)) + Lex(rest)
  {
    LexSpacedOperator(n, NotToken, false, text + rest);
    hide Lex, Spaces;
    assert Spaces(n) + "!" + text + rest == Spaces(n) + "!" + (text + rest);
  }

  lemma LexParentheses(n: nat, text: string, m: nat, e: Infix, rest: string)
    requires Lex(text + (Spaces(m) + ")" + rest)) == Print(e) + Lex(Spaces(m) + ")" + rest)
    ensures Lex(Spaces(n) + "(" + (text + (Spaces(m) + ")")) + rest) == Print(Group(e)) + Lex(rest)
  {
    LexSpacedOperator(m, CloseToken, false, rest);
    LexSpacedOperator(n, OpenToken, false, text + (Spaces(m) + ")" + rest));
    hide Lex, Spaces;
    Bracketed(Spaces(n) + "(", text, Spaces(m) + ")", rest);
  }

  lemma Regrouped(a: string, b: string, c: string, d: string, e: string)
    ensures a + (b + c + d) + e == a + (b + c + (d + e))
  {
  }

  lemma Bracketed(a: string, b: string, c: string, d: string)
    ensures a + (b + c) + d == a + (b + (c + d))
  {
  }

  /** The tokeniser reads the text of every query as the tokens of its tree. */
  lemma TextIsRead(q: Disjunction, trailing: nat)
    requires Proper(q)
    ensures Lex(TextOf(q) + Spaces(trailing)) == Print(TreeOf(q))
  {
    LexQuery(q, Spaces(trailing));
    LexSpaces(trailing, "");
    assert Spaces(trailing) + "" == Spaces(trailing);
  }

  // ------------------------------------------------------ the meaning is that of the tree

  lemma {:induction false} OccursIs(d: Document, w: string)
    ensures HasWord(d, w) <==> Occurs(d, w)
    decreases |d|
  {
    if |d| == 0 {
    } else {
      OccursIs(d[1..], w);
      if Occurs(d[1..], w) {
        var i :| 0 <= i < |d[1..]| && d[1..][i].0 == w;
        assert d[i + 1].0 == w;
      }
    }
  }

  // ------------------------------------------------------------------------ `!!`

  /** No `!` stands directly before another one. */
  predicate NoBangBang(q: Disjunction) {
    match q
    case OneConjunction(c) => NoBangBangInConjunction(c)
    case OrElse(l, _, _, r) => NoBangBang(l) && NoBangBangInConjunction(r)
  }

  predicate NoBangBangInConjunction(c: Conjunction) {
    match c
    case OneFactor(f) => NoBangBangInFactor(f)
    case AndAlso(l, _, _, r) => NoBangBangInConjunction(l) && NoBangBangInFactor(r)
  }

  predicate NoBangBangInFactor(f: Factor) {
    match f
    case Keyword(_, _) => true
    case Bang(_, arg) => !arg.Bang? && NoBangBangInFactor(arg)
    case Parentheses(_, q, _) => NoBangBang(q)
  }

  lemma {:induction false} NoBangBangIs(q: Disjunction)
    ensures NoBangBang(q) <==> NoDoubleNegation(TreeOf(q))
    decreases q
  {
    match q
    case OneConjunction(c) => NoBangBangIsInConjunction(c);
    case OrElse(l, _, _, r) =>
      NoBangBangIs(l);
      NoBangBangIsInConjunction(r);
  }

  lemma {:induction false} NoBangBangIsInConjunction(c: Conjunction)
    ensures NoBangBangInConjunction(c) <==> NoDoubleNegation(TreeOfConjunction(c))
    decreases c
  {
    match c
    case OneFactor(f) => NoBangBangIsInFactor(f);
    case AndAlso(l, _, _, r) =>
      NoBangBangIsInConjunction(l);
      NoBangBangIsInFactor(r);
  }

  lemma {:induction false} NoBangBangIsInFactor(f: Factor)
    ensures NoBangBangInFactor(f) <==> NoDoubleNegation(TreeOfFactor(f))
    decreases f
  {
    match f
    case Keyword(_, _) =>
    case Bang(_, arg) => NoBangBangIsInFactor(arg);
    case Parentheses(_, q, _) => NoBangBangIs(q);
  }
}
