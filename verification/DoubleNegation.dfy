/**
What becomes of queries with `!!`: which of them are refused, for which formula the others
are answered, and when that formula still means the same.
*/
module DoubleNegation {
  import opened Formula
  import opened Query
  import opened ShuntingYard

  /** Two adjacent `!` stand before the first word. */
  predicate LeadingDoubleNot(tokens: seq<Token>)
    decreases |tokens|
  {
    |tokens| >= 2 && !tokens[0].WordToken?
    && ((tokens[0] == NotToken && tokens[1] == NotToken) || LeadingDoubleNot(tokens[1..]))
  }

  /** How many `!` the translation of e sends out before the first word. */
  function Nots(e: Infix): nat {
    match e
    case Word(_) => 0
    case Group(a) => Nots(a)
    case Neg(a) => Nots(a) + if a.Neg? then 1 else 0
    case Conj(l, _) => Nots(l)
    case Disj(l, _) => Nots(l)
  }

  function Negated(e: Expr<string>, n: nat): Expr<string>
    decreases n
  {
    if n == 0 then e else Negated(Not(e), n - 1)
  }

  /** The formula the translation stands for: what the right operand sends out ahead negates the left one. */
  function Translated(e: Infix): Expr<string> {
    match e
    case Word(w) => Leaf(w)
    case Group(a) => Translated(a)
    case Neg(a) => if a.Neg? then Translated(a) else Not(Translated(a))
    case Conj(l, r) => And(Negated(Translated(l), Nots(r)), Translated(r))
    case Disj(l, r) => Or(Negated(Translated(l), Nots(r)), Translated(r))
  }

  function NotTokens(n: nat): (s: seq<Token>)
    ensures |s| == n
  {
    seq(n, i => NotToken)
  }

  lemma {:induction false} PostfixOfNegated(e: Expr<string>, n: nat)
    ensures PostfixTokens(Negated(e, n)) == PostfixTokens(e) + NotTokens(n)
    decreases n
  {
    hide PostfixTokens;
    if n == 0 {
      assert PostfixTokens(e) + [] == PostfixTokens(e);
    } else {
      PostfixTokensOf(Not(e));
      PostfixOfNegated(Not(e), n - 1);
      assert NotTokens(n) == [NotToken] + NotTokens(n - 1);
    }
  }

  lemma BinaryAhead(a: seq<Token>, b: seq<Token>, m: nat, c: seq<Token>, d: seq<Token>, n: nat, op: Token)
    requires a == NotTokens(m) + b && c == NotTokens(n) + d
    ensures a + c + [op] == NotTokens(m) + (b + NotTokens(n) + d + [op])
  {
  }

  /** The output for every printed query: the `!` sent out ahead, then the postfix form of the translated formula. */
  lemma {:induction false} ShuntedIsTranslated(e: Infix)
    ensures Shunted(e) == NotTokens(Nots(e)) + PostfixTokens(Translated(e))
  {
    hide PostfixTokens, NotTokens, Negated;
    PostfixTokensOf(Translated(e));
    match e
    case Word(w) =>
      NothingAhead(Shunted(e));
    case Group(a) =>
      ShuntedIsTranslated(a);
    case Neg(a) =>
      ShuntedIsTranslated(a);
      OneAhead(Nots(a));
    case _ =>
      var l, r, op := e.left, e.right, if e.Conj? then AndToken else OrToken;
      ShuntedIsTranslated(l);
      ShuntedIsTranslated(r);
      PostfixOfNegated(Translated(l), Nots(r));
      BinaryAhead(Shunted(l), PostfixTokens(Translated(l)), Nots(l), Shunted(r), PostfixTokens(Translated(r)), Nots(r),
                  op);
  }

  lemma NothingAhead(s: seq<Token>)
    ensures NotTokens(0) + s == s
  {
  }

  lemma OneAhead(n: nat)
    ensures [NotToken] + NotTokens(n) == NotTokens(n + 1)
  {
  }

  // ------------------------------------------------------------ which are refused

  predicate HasWordToken(tokens: seq<Token>) {
    exists i :: 0 <= i < |tokens| && tokens[i].WordToken?
  }

  lemma {:induction false} PrintHasWord(e: Infix)
    ensures HasWordToken(Print(e))
  {
    match e
    case Word(w) => assert Print(e)[0].WordToken?;
    case Group(a) =>
      PrintHasWord(a);
      HasWordInside([OpenToken], Print(a), [CloseToken]);
    case Neg(a) =>
      PrintHasWord(a);
      HasWordInside([NotToken], Print(a), []);
      assert [NotToken] + Print(a) + [] == [NotToken] + Print(a);
    case Conj(l, r) =>
      PrintHasWord(l);
      HasWordInside([], Print(l), [AndToken] + Print(r));
      assert [] + Print(l) + ([AndToken] + Print(r)) == Print(l) + [AndToken] + Print(r);
    case Disj(l, r) =>
      PrintHasWord(l);
      HasWordInside([], Print(l), [OrToken] + Print(r));
      assert [] + Print(l) + ([OrToken] + Print(r)) == Print(l) + [OrToken] + Print(r);
  }

  lemma HasWordInside(a: seq<Token>, b: seq<Token>, c: seq<Token>)
    requires HasWordToken(b)
    ensures HasWordToken(a + b + c)
  {
    var i :| 0 <= i < |b| && b[i].WordToken?;
    assert (a + b + c)[|a| + i] == b[i];
  }

  /** What follows the first word does not matter. */
  lemma {:induction false} LeadingOfPrefix(a: seq<Token>, b: seq<Token>)
    requires HasWordToken(a)
    ensures LeadingDoubleNot(a + b) <==> LeadingDoubleNot(a)
    decreases |a|
  {
    if a[0].WordToken? {
    } else {
      var i :| 0 <= i < |a| && a[i].WordToken?;
      assert a[1..][i - 1] == a[i];
      assert (a + b)[1..] == a[1..] + b;
      LeadingOfPrefix(a[1..], b);
    }
  }

  /** Two `!` before the first word are just what makes the translation send one out ahead. */
  lemma {:induction false} LeadingIsNots(e: Infix)
    requires WellFormed(e)
    ensures LeadingDoubleNot(Print(e)) <==> Nots(e) > 0
  {
    if e.Word? {
    } else {
      hide LeadingDoubleNot;
      match e
      case Group(a) =>
        LeadingIsNots(a);
        LeadingInGroup(a);
      case Neg(a) =>
        LeadingIsNots(a);
        PrintEnds(a);
        LeadingAfter(NotToken, Print(a));
      case Conj(l, r) =>
        LeadingIsNots(l);
        LeadingInBinary(l, AndToken, r);
      case Disj(l, r) =>
        LeadingIsNots(l);
        LeadingInBinary(l, OrToken, r);
    }
  }

  lemma LeadingInGroup(a: Infix)
    ensures LeadingDoubleNot([OpenToken] + Print(a) + [CloseToken]) <==> LeadingDoubleNot(Print(a))
  {
    hide LeadingDoubleNot, Print;
    PrintHasWord(a);
    LeadingOfPrefix(Print(a), [CloseToken]);
    LeadingAfter(OpenToken, Print(a) + [CloseToken]);
    assert [OpenToken] + Print(a) + [CloseToken] == [OpenToken] + (Print(a) + [CloseToken]);
  }

  lemma LeadingInBinary(l: Infix, op: Token, r: Infix)
    ensures LeadingDoubleNot(Print(l) + [op] + Print(r)) <==> LeadingDoubleNot(Print(l))
  {
    hide LeadingDoubleNot, Print;
    PrintHasWord(l);
    LeadingOfPrefix(Print(l), [op] + Print(r));
    assert Print(l) + [op] + Print(r) == Print(l) + ([op] + Print(r));
  }

  lemma LeadingAfter(t: Token, rest: seq<Token>)
    requires !t.WordToken? && |rest| > 0
    ensures LeadingDoubleNot([t] + rest) <==> (t == NotToken && rest[0] == NotToken) || LeadingDoubleNot(rest)
  {
    assert ([t] + rest)[1..] == rest;
  }

  /**
  For every query of the grammar: the output is the postfix form of some formula if and only if no
  two adjacent `!` stand before the first word, and then of the translated formula.
  */
  lemma RefusedExactly(e: Infix)
    requires WellFormed(e)
    ensures Yard(Print(e), [], []) == Parsed(Shunted(e)) && NoParentheses(Shunted(e))
    ensures IsPostfix(SymbolsOf(Shunted(e))) <==> !LeadingDoubleNot(Print(e))
    ensures !LeadingDoubleNot(Print(e)) ==> SymbolsOf(Shunted(e)) == Postfix(Translated(e))
  {
    YardOfQuery(e);
    ShuntedIsTranslated(e);
    LeadingIsNots(e);
    hide Yard, PostfixTokens, Shunted;
    SymbolsOfPostfix(Translated(e));
    AheadOfPostfix(Nots(e), PostfixTokens(Translated(e)));
  }

  lemma AheadOfPostfix(n: nat, tokens: seq<Token>)
    requires NoParentheses(tokens) && IsPostfix(SymbolsOf(tokens))
    ensures NoParentheses(NotTokens(n) + tokens)
    ensures IsPostfix(SymbolsOf(NotTokens(n) + tokens)) <==> n == 0
    ensures n == 0 ==> SymbolsOf(NotTokens(n) + tokens) == SymbolsOf(tokens)
  {
    var all := NotTokens(n) + tokens;
    if n == 0 {
      assert all == tokens;
    } else {
      assert SymbolsOf(all)[0] == NotSymbol;
      assert SymbolsOf(all) == [NotSymbol] + SymbolsOf(all)[1..];
      LeadingNotIsRejected(SymbolsOf(all)[1..]);
    }
  }

  /** Without `!!` the translated formula is the one that was asked. */
  lemma {:induction false} TranslatedIsErased(e: Infix)
    requires NoDoubleNegation(e)
    ensures Nots(e) == 0 && Translated(e) == Erase(e)
  {
    match e
    case Word(_) =>
    case Group(a) => TranslatedIsErased(a);
    case Neg(a) => TranslatedIsErased(a);
    case Conj(l, r) => TranslatedIsErased(l); TranslatedIsErased(r);
    case Disj(l, r) => TranslatedIsErased(l); TranslatedIsErased(r);
  }

  // -------------------------------------------------------- when the meaning is kept

  /** The translated formula, taken by itself, is the negation of the one that was asked. */
  predicate Flipped(e: Infix) {
    match e
    case Word(_) => false
    case Group(a) => Flipped(a)
    case Neg(a) => if a.Neg? then !Flipped(a) else Flipped(a)
    case Conj(_, _) => false
    case Disj(_, _) => false
  }

  /** At every binary operator the `!` sent over to the left operand make up for what it lacks. */
  predicate Straight(e: Infix) {
    match e
    case Word(_) => true
    case Group(a) => Straight(a)
    case Neg(a) => Straight(a)
    case Conj(l, r) => Straight(l) && Straight(r) && (Flipped(l) <==> Nots(r) % 2 == 1) && !Flipped(r)
    case Disj(l, r) => Straight(l) && Straight(r) && (Flipped(l) <==> Nots(r) % 2 == 1) && !Flipped(r)
  }

  /** e and f agree under every truth assignment, or disagree under every one. */
  ghost predicate Same(e: Expr<string>, f: Expr<string>, flipped: bool) {
    forall truth: string -> bool :: Holds(e, truth) == (Holds(f, truth) != flipped)
  }

  lemma {:induction false} NegatedHolds(e: Expr<string>, n: nat, truth: string -> bool)
    ensures Holds(Negated(e, n), truth) == (Holds(e, truth) != (n % 2 == 1))
    decreases n
  {
    if n == 0 {
    } else {
      NegatedHolds(Not(e), n - 1, truth);
    }
  }

  lemma {:induction false} StraightHolds(e: Infix, truth: string -> bool)
    requires Straight(e)
    ensures Holds(Translated(e), truth) == (Holds(Erase(e), truth) != Flipped(e))
  {
    hide Negated;
    match e
    case Word(_) =>
    case Group(a) => StraightHolds(a, truth);
    case Neg(a) => StraightHolds(a, truth);
    case Conj(l, r) =>
      StraightHolds(l, truth);
      StraightHolds(r, truth);
      NegatedHolds(Translated(l), Nots(r), truth);
    case Disj(l, r) =>
      StraightHolds(l, truth);
      StraightHolds(r, truth);
      NegatedHolds(Translated(l), Nots(r), truth);
  }

  /** No word occurs in both operands of an operator. */
  predicate ReadOnce(e: Expr<string>) {
    match e
    case Leaf(_) => true
    case Not(a) => ReadOnce(a)
    case And(l, r) => Leaves(l) !! Leaves(r) && ReadOnce(l) && ReadOnce(r)
    case Or(l, r) => Leaves(l) !! Leaves(r) && ReadOnce(l) && ReadOnce(r)
  }

  lemma {:induction false} HoldsAgree(e: Expr<string>, truth: string -> bool, truth': string -> bool)
    requires forall w :: w in Leaves(e) ==> truth(w) == truth'(w)
    ensures Holds(e, truth) == Holds(e, truth')
  {
    match e
    case Leaf(_) =>
    case Not(a) => HoldsAgree(a, truth, truth');
    case And(l, r) => HoldsAgree(l, truth, truth'); HoldsAgree(r, truth, truth');
    case Or(l, r) => HoldsAgree(l, truth, truth'); HoldsAgree(r, truth, truth');
  }

  /** One assignment on the words of e, another one elsewhere. */
  function Merge(e: Expr<string>, inside: string -> bool, outside: string -> bool): string -> bool {
    var words := Leaves(e);
    (w: string) => if w in words then inside(w) else outside(w)
  }

  lemma MergeHolds(l: Expr<string>, r: Expr<string>, inside: string -> bool, outside: string -> bool)
    requires Leaves(l) !! Leaves(r)
    ensures Holds(l, Merge(l, inside, outside)) == Holds(l, inside)
    ensures Holds(r, Merge(l, inside, outside)) == Holds(r, outside)
  {
    HoldsAgree(l, Merge(l, inside, outside), inside);
    HoldsAgree(r, Merge(l, inside, outside), outside);
  }

  /** A formula that reads every word once takes both truth values. */
  lemma {:induction false} Attains(e: Expr<string>, value: bool) returns (truth: string -> bool)
    requires ReadOnce(e)
    ensures Holds(e, truth) == value
  {
    match e
    case Leaf(_) =>
      truth := (w: string) => value;
    case Not(a) =>
      truth := Attains(a, !value);
    case _ =>
      var inside := Attains(e.left, value);
      var outside := Attains(e.right, value);
      MergeHolds(e.left, e.right, inside, outside);
      truth := Merge(e.left, inside, outside);
  }

  /** The two sides of a conjunction can be told apart: they agree one by one, and are not negated. */
  lemma SplitAnd(a: Expr<string>, b: Expr<string>, x: Expr<string>, y: Expr<string>, flipped: bool)
    requires ReadOnce(a) && ReadOnce(b) && ReadOnce(x) && Leaves(a) == Leaves(x) && Leaves(b) == Leaves(y)
    requires Leaves(a) !! Leaves(b) && Same(And(a, b), And(x, y), flipped)
    ensures !flipped && Same(a, x, false) && Same(b, y, false)
  {
    hide ReadOnce, Same;
    var trueA := Attains(a, true);
    var trueB := Attains(b, true);
    var falseX := Attains(x, false);
    var falseB := Attains(b, false);
    SplitAt(a, b, x, y, flipped, falseX, falseB);
    SplitAt(a, b, x, y, flipped, trueA, trueB);
    forall truth: string -> bool ensures Holds(b, truth) == Holds(y, truth) {
      SplitAt(a, b, x, y, flipped, trueA, truth);
    }
    forall truth: string -> bool ensures Holds(a, truth) == Holds(x, truth) {
      SplitAt(a, b, x, y, flipped, truth, trueB);
    }
    AllSame(a, x);
    AllSame(b, y);
  }

  lemma AllSame(e: Expr<string>, f: Expr<string>)
    requires forall truth: string -> bool :: Holds(e, truth) == Holds(f, truth)
    ensures Same(e, f, false)
  {
  }

  lemma SplitAt(a: Expr<string>, b: Expr<string>, x: Expr<string>, y: Expr<string>, flipped: bool,
                inside: string -> bool, outside: string -> bool)
    requires Leaves(a) == Leaves(x) && Leaves(b) == Leaves(y) && Leaves(a) !! Leaves(b)
    requires Same(And(a, b), And(x, y), flipped)
    ensures (Holds(a, inside) && Holds(b, outside)) == ((Holds(x, inside) && Holds(y, outside)) != flipped)
  {
    MergeHolds(a, b, inside, outside);
    MergeHolds(x, y, inside, outside);
    var truth := Merge(a, inside, outside);
    assert Holds(And(a, b), truth) == (Holds(And(x, y), truth) != flipped);
  }

  /** The same for a disjunction, by De Morgan. */
  lemma SplitOr(a: Expr<string>, b: Expr<string>, x: Expr<string>, y: Expr<string>, flipped: bool)
    requires ReadOnce(a) && ReadOnce(b) && ReadOnce(x) && Leaves(a) == Leaves(x) && Leaves(b) == Leaves(y)
    requires Leaves(a) !! Leaves(b) && Same(Or(a, b), Or(x, y), flipped)
    ensures !flipped && Same(a, x, false) && Same(b, y, false)
  {
    forall truth: string -> bool
      ensures Holds(And(Not(a), Not(b)), truth) == (Holds(And(Not(x), Not(y)), truth) != flipped)
    {
      assert Holds(Or(a, b), truth) == (Holds(Or(x, y), truth) != flipped);
      DeMorgan(a, b, truth);
      DeMorgan(x, y, truth);
    }
    SplitAnd(Not(a), Not(b), Not(x), Not(y), flipped);
    NotSame(a, x, false);
    NotSame(b, y, false);
  }

  lemma DeMorgan(a: Expr<string>, b: Expr<string>, truth: string -> bool)
    ensures Holds(And(Not(a), Not(b)), truth) == !Holds(Or(a, b), truth)
  {
    assert Holds(Not(a), truth) == !Holds(a, truth) && Holds(Not(b), truth) == !Holds(b, truth);
  }

  lemma NotSame(e: Expr<string>, f: Expr<string>, flipped: bool)
    ensures Same(Not(e), Not(f), flipped) ==> Same(e, f, flipped)
    ensures Same(e, Not(f), flipped) ==> Same(e, f, !flipped)
  {
    if Same(Not(e), Not(f), flipped) {
      forall truth: string -> bool ensures Holds(e, truth) == (Holds(f, truth) != flipped) {
        assert Holds(Not(e), truth) == (Holds(Not(f), truth) != flipped);
      }
    }
    if Same(e, Not(f), flipped) {
      forall truth: string -> bool ensures Holds(e, truth) == (Holds(f, truth) != !flipped) {
        assert Holds(e, truth) == (Holds(Not(f), truth) != flipped);
      }
    }
  }

  lemma NegatedSame(e: Expr<string>, n: nat, f: Expr<string>)
    requires Same(Negated(e, n), f, false)
    ensures Same(e, f, n % 2 == 1)
  {
    forall truth: string -> bool ensures Holds(e, truth) == (Holds(f, truth) != (n % 2 == 1)) {
      NegatedHolds(e, n, truth);
      assert Holds(Negated(e, n), truth) == (Holds(f, truth) != false);
    }
  }

  lemma {:induction false} NegatedLeaves(e: Expr<string>, n: nat)
    ensures Leaves(Negated(e, n)) == Leaves(e) && ReadOnce(Negated(e, n)) == ReadOnce(e)
    decreases n
  {
    if n == 0 {
    } else {
      NegatedLeaves(Not(e), n - 1);
    }
  }

  lemma {:induction false} TranslatedLeaves(e: Infix)
    ensures Leaves(Translated(e)) == Leaves(Erase(e)) && ReadOnce(Translated(e)) == ReadOnce(Erase(e))
  {
    hide Negated;
    match e
    case Word(_) =>
    case Group(a) => TranslatedLeaves(a);
    case Neg(a) => TranslatedLeaves(a);
    case Conj(l, r) =>
      TranslatedLeaves(l);
      TranslatedLeaves(r);
      NegatedLeaves(Translated(l), Nots(r));
    case Disj(l, r) =>
      TranslatedLeaves(l);
      TranslatedLeaves(r);
      NegatedLeaves(Translated(l), Nots(r));
  }

  lemma {:induction false} SameIsStraight(e: Infix, flipped: bool)
    requires ReadOnce(Erase(e)) && Same(Translated(e), Erase(e), flipped)
    ensures Straight(e) && Flipped(e) == flipped
  {
    hide Same, Negated, Holds;
    match e
    case Word(w) =>
      WordNotFlipped(w, flipped);
    case Group(a) =>
      SameIsStraight(a, flipped);
    case Neg(a) =>
      NotSame(Translated(a), Erase(a), flipped);
      SameIsStraight(a, if a.Neg? then !flipped else flipped);
    case _ =>
      var l, r := e.left, e.right;
      TranslatedLeaves(l);
      TranslatedLeaves(r);
      NegatedLeaves(Translated(l), Nots(r));
      if e.Conj? {
        SplitAnd(Negated(Translated(l), Nots(r)), Translated(r), Erase(l), Erase(r), flipped);
      } else {
        SplitOr(Negated(Translated(l), Nots(r)), Translated(r), Erase(l), Erase(r), flipped);
      }
      NegatedSame(Translated(l), Nots(r), Erase(l));
      SameIsStraight(l, Nots(r) % 2 == 1);
      SameIsStraight(r, false);
  }

  lemma WordNotFlipped(w: string, flipped: bool)
    requires Same(Leaf(w), Leaf(w), flipped)
    ensures !flipped
  {
    var truth := (v: string) => true;
    assert Holds(Leaf(w), truth) == (Holds(Leaf(w), truth) != flipped);
  }

  /** A query whose `!` make up for each other is answered as it was meant. */
  lemma MeaningKept(e: Infix)
    requires Straight(e) && !Flipped(e)
    ensures Same(Translated(e), Erase(e), false)
  {
    forall truth: string -> bool ensures Holds(Translated(e), truth) == Holds(Erase(e), truth) {
      StraightHolds(e, truth);
    }
    AllSame(Translated(e), Erase(e));
  }

  /** When no word is repeated these are the only queries whose meaning survives the translation. */
  lemma MeaningKeptExactly(e: Infix)
    requires ReadOnce(Erase(e))
    ensures Same(Translated(e), Erase(e), false) <==> Straight(e) && !Flipped(e)
  {
    if Straight(e) && !Flipped(e) {
      MeaningKept(e);
    }
    if Same(Translated(e), Erase(e), false) {
      SameIsStraight(e, false);
    }
  }

  lemma NotsOfWord(b: string)
    ensures var three := Neg(Neg(Neg(Word(b))));
            Nots(three) == 2 && Translated(three) == Not(Leaf(b)) && WellFormed(three) && !Flipped(three)
              && Straight(three)
  {
    var one := Neg(Word(b));
    assert Nots(one) == 0 && Translated(one) == Not(Leaf(b)) && WellFormed(one) && !Flipped(one) && Straight(one);
    var two := Neg(one);
    assert Nots(two) == 1 && Translated(two) == Not(Leaf(b)) && WellFormed(two) && Flipped(two) && Straight(two);
  }

  /** `a & !!!b` is translated to another formula, `!!a & !b`, of the same meaning. */
  lemma ThreeNotsKeepTheMeaning(a: string, b: string)
    ensures var query := Conj(Word(a), Neg(Neg(Neg(Word(b)))));
            && WellFormed(query) && !NoAdjacentNots(Print(query)) && !LeadingDoubleNot(Print(query))
            && Translated(query) == And(Not(Not(Leaf(a))), Not(Leaf(b))) != Erase(query)
            && Same(Translated(query), Erase(query), false)
  {
    var three := Neg(Neg(Neg(Word(b))));
    var query := Conj(Word(a), three);
    NotsOfWord(b);
    assert Negated(Leaf(a), 2) == Not(Not(Leaf(a)));
    DoubleNegationIsAdjacency(query);
    LeadingIsNots(query);
    MeaningKept(query);
  }
}
