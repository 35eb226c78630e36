/**
The client's query language: tokens, infix expressions and how they are written.

An `Infix` tree records every pair of parentheses of a query, so that any admissible
parenthesisation of a formula is the printing of some tree. `!` binds tighter than
`&`, `&` tighter than `|`, and both binary operators associate to the left.
*/
module Query {
  import opened Formula

  datatype Token = WordToken(word: string) | AndToken | OrToken | NotToken | OpenToken | CloseToken

  datatype Infix =
    | Word(word: string)
    | Group(inner: Infix)
    | Neg(arg: Infix)
    | Conj(left: Infix, right: Infix)
    | Disj(left: Infix, right: Infix)

  function Level(e: Infix): nat {
    match e
    case Word(_) => 4
    case Group(_) => 4
    case Neg(_) => 3
    case Conj(_, _) => 2
    case Disj(_, _) => 1
  }

  /** The tree is what the grammar reads back from its printing. */
  predicate WellFormed(e: Infix) {
    match e
    case Word(_) => true
    case Group(a) => WellFormed(a)
    case Neg(a) => Level(a) >= 3 && WellFormed(a)
    case Conj(l, r) => Level(l) >= 2 && Level(r) >= 3 && WellFormed(l) && WellFormed(r)
    case Disj(l, r) => Level(r) >= 2 && WellFormed(l) && WellFormed(r)
  }

  function Print(e: Infix): seq<Token> {
    match e
    case Word(w) => [WordToken(w)]
    case Group(a) => [OpenToken] + Print(a) + [CloseToken]
    case Neg(a) => [NotToken] + Print(a)
    case Conj(l, r) => Print(l) + [AndToken] + Print(r)
    case Disj(l, r) => Print(l) + [OrToken] + Print(r)
  }

  /** The formula a query stands for. */
  function Erase(e: Infix): Expr<string> {
    match e
    case Word(w) => Leaf(w)
    case Group(a) => Erase(a)
    case Neg(a) => Not(Erase(a))
    case Conj(l, r) => And(Erase(l), Erase(r))
    case Disj(l, r) => Or(Erase(l), Erase(r))
  }

  /** No `!` is applied to an unparenthesised `!`. */
  predicate NoDoubleNegation(e: Infix) {
    match e
    case Word(_) => true
    case Group(a) => NoDoubleNegation(a)
    case Neg(a) => !a.Neg? && NoDoubleNegation(a)
    case Conj(l, r) => NoDoubleNegation(l) && NoDoubleNegation(r)
    case Disj(l, r) => NoDoubleNegation(l) && NoDoubleNegation(r)
  }

  /** The same condition on the token list: no `!` follows a `!`. */
  predicate NoAdjacentNots(tokens: seq<Token>) {
    forall i :: 0 < i < |tokens| ==> !(tokens[i - 1] == NotToken && tokens[i] == NotToken)
  }

  /** Only a negation starts with `!`, unless a longer query does; nothing ends with `!`. */
  lemma {:induction false} PrintEnds(e: Infix)
    ensures |Print(e)| > 0 && Print(e)[|Print(e)| - 1] != NotToken
    ensures Level(e) >= 3 ==> (Print(e)[0] == NotToken <==> e.Neg?)
  {
    match e
    case Word(_) =>
    case Group(a) => LastOfConcat([OpenToken] + Print(a), [CloseToken]);
    case Neg(a) =>
      PrintEnds(a);
      LastOfConcat([NotToken], Print(a));
    case Conj(l, r) =>
      PrintEnds(r);
      LastOfConcat(Print(l) + [AndToken], Print(r));
    case Disj(l, r) =>
      PrintEnds(r);
      LastOfConcat(Print(l) + [OrToken], Print(r));
  }

  lemma LastOfConcat(a: seq<Token>, b: seq<Token>)
    requires |b| > 0
    ensures (a + b)[|a + b| - 1] == b[|b| - 1]
  {
  }

  lemma AdjacentInConcat(a: seq<Token>, b: seq<Token>)
    requires |a| > 0 && |b| > 0
    ensures NoAdjacentNots(a + b)
       <==> NoAdjacentNots(a) && NoAdjacentNots(b) && !(a[|a| - 1] == NotToken && b[0] == NotToken)
  {
    var c := a + b;
    if NoAdjacentNots(c) {
      forall i | 0 < i < |a| ensures !(a[i - 1] == NotToken && a[i] == NotToken) {
        assert c[i - 1] == a[i - 1] && c[i] == a[i];
      }
      forall i | 0 < i < |b| ensures !(b[i - 1] == NotToken && b[i] == NotToken) {
        assert c[|a| + i - 1] == b[i - 1] && c[|a| + i] == b[i];
      }
      assert c[|a| - 1] == a[|a| - 1] && c[|a|] == b[0];
    }
  }

  lemma {:induction false} DoubleNegationIsAdjacency(e: Infix)
    requires WellFormed(e)
    ensures NoAdjacentNots(Print(e)) <==> NoDoubleNegation(e)
  {
    match e
    case Word(_) =>
    case Group(a) =>
      DoubleNegationIsAdjacency(a);
      PrintEnds(a);
      AdjacentInConcat([OpenToken] + Print(a), [CloseToken]);
      AdjacentInConcat([OpenToken], Print(a));
    case Neg(a) =>
      DoubleNegationIsAdjacency(a);
      PrintEnds(a);
      AdjacentInConcat([NotToken], Print(a));
    case Conj(l, r) =>
      DoubleNegationIsAdjacency(l);
      DoubleNegationIsAdjacency(r);
      PrintBinary(l, AndToken, r);
    case Disj(l, r) =>
      DoubleNegationIsAdjacency(l);
      DoubleNegationIsAdjacency(r);
      PrintBinary(l, OrToken, r);
  }

  lemma PrintBinary(l: Infix, op: Token, r: Infix)
    requires op != NotToken
    ensures NoAdjacentNots(Print(l) + [op] + Print(r)) <==> NoAdjacentNots(Print(l)) && NoAdjacentNots(Print(r))
  {
    PrintEnds(l);
    PrintEnds(r);
    AdjacentInConcat(Print(l) + [op], Print(r));
    AdjacentInConcat(Print(l), [op]);
  }

  // ------------------------------------------------------------------ postfix tokens

  predicate NoParentheses(output: seq<Token>) {
    forall i :: 0 <= i < |output| ==> output[i] != OpenToken && output[i] != CloseToken
  }

  function SymbolOfToken(t: Token): Symbol<string>
    requires t != OpenToken && t != CloseToken
  {
    match t
    case WordToken(w) => Operand(w)
    case AndToken => AndSymbol
    case OrToken => OrSymbol
    case NotToken => NotSymbol
  }

  function SymbolsOf(tokens: seq<Token>): (p: seq<Symbol<string>>)
    requires NoParentheses(tokens)
    ensures |p| == |tokens|
  {
    seq(|tokens|, i requires 0 <= i < |tokens| => SymbolOfToken(tokens[i]))
  }

  /** Puts parentheses around an operand that binds too loosely for its place. */
  function AtLevel(e: Infix, level: nat): (r: Infix)
    requires level <= 4
    ensures Level(r) >= level && Erase(r) == Erase(e)
    ensures WellFormed(e) ==> WellFormed(r)
    ensures NoDoubleNegation(e) ==> NoDoubleNegation(r)
  {
    if Level(e) >= level then e else Group(e)
  }

  /** Writes a formula with as few parentheses as the grammar and the parser allow. */
  function Write(e: Expr<string>): (i: Infix)
    ensures WellFormed(i) && NoDoubleNegation(i) && Erase(i) == e
  {
    match e
    case Leaf(w) => Word(w)
    case Not(a) => Neg(AtLevel(Write(a), 4))
    case And(l, r) => Conj(AtLevel(Write(l), 2), AtLevel(Write(r), 3))
    case Or(l, r) => Disj(Write(l), AtLevel(Write(r), 2))
  }
}
