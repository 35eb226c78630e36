/**
The client's shunting-yard translation from infix to postfix tokens.

`Yard` is the loop as a function of its three variables, `ShuntingYard` the loop itself.
Popping at `)` reads the top of the operator stack before it tests for emptiness; the
outcome `NoTop` marks the queries for which that read has no element to return.
*/
module ShuntingYard {
  import opened Formula
  import opened Query

  datatype Outcome =
    | Parsed(output: seq<Token>)
    | Mismatched        // the exception thrown for mismatched parentheses
    | NoTop             // `)` met an empty operator stack

  function Precedence(op: Token): int {
    match op
    case NotToken => 3
    case AndToken => 2
    case OrToken => 1
    case _ => -1
  }

  /** The precedence the loop compares with; an empty stack counts as -1. */
  function TopPrecedence(ops: seq<Token>): int {
    if ops == [] then -1 else Precedence(ops[|ops| - 1])
  }

  /** Moves operators that bind at least as tightly as `bound` to the output. */
  function PopTighter(ops: seq<Token>, output: seq<Token>, bound: int): (r: (seq<Token>, seq<Token>))
    requires bound >= 0
    decreases |ops|
  {
    if TopPrecedence(ops) >= bound
    then PopTighter(ops[..|ops| - 1], output + [ops[|ops| - 1]], bound)
    else (ops, output)
  }

  datatype Closing = Closed(ops: seq<Token>, output: seq<Token>) | Unclosed | Empty

  /** Moves operators to the output up to the matching `(`, which is dropped. */
  function PopGroup(ops: seq<Token>, output: seq<Token>): Closing
    decreases |ops|
  {
    if |ops| == 0 then Empty
    else
      var top, rest := ops[|ops| - 1], ops[..|ops| - 1];
      if top == OpenToken then Closed(rest, output)
      else if |rest| == 0 then Unclosed
      else PopGroup(rest, output + [top])
  }

  /** Moves what is left to the output; a parenthesis among it is an error. */
  function PopAll(ops: seq<Token>, output: seq<Token>): Outcome
    decreases |ops|
  {
    if |ops| == 0 then Parsed(output)
    else
      var top := ops[|ops| - 1];
      if top == OpenToken || top == CloseToken then Mismatched
      else PopAll(ops[..|ops| - 1], output + [top])
  }

  function Yard(tokens: seq<Token>, ops: seq<Token>, output: seq<Token>): Outcome
    decreases |tokens|
  {
    if |tokens| == 0 then PopAll(ops, output)
    else
      match tokens[0]
      case WordToken(_) => Yard(tokens[1..], ops, output + [tokens[0]])
      case OpenToken => Yard(tokens[1..], ops + [OpenToken], output)
      case CloseToken =>
        (match PopGroup(ops, output)
         case Closed(ops', output') => Yard(tokens[1..], ops', output')
         case Unclosed => Mismatched
         case Empty => NoTop)
      case _ =>
        var popped := PopTighter(ops, output, Precedence(tokens[0]));
        Yard(tokens[1..], popped.0 + [tokens[0]], popped.1)
  }

  // -------------------------------------------------------------- the loop

  method ShuntingYard(infix: seq<Token>) returns (outcome: Outcome)
    ensures outcome == Yard(infix, [], [])
  {
    var operators: seq<Token> := [];
    var output: seq<Token> := [];
    for i := 0 to |infix|
      invariant Yard(infix, [], []) == Yard(infix[i..], operators, output)
    {
      var token := infix[i];
      assert infix[i..][1..] == infix[i + 1..];
      if token.WordToken? {
        output := output + [token];
      } else if token == AndToken || token == OrToken || token == NotToken {
        var current := TopPrecedence(operators);
        while current >= Precedence(token)
          invariant current == TopPrecedence(operators)
          invariant Yard(infix, [], []) ==
                    (var popped := PopTighter(operators, output, Precedence(token));
                     Yard(infix[i + 1..], popped.0 + [token], popped.1))
          decreases |operators|
        {
          output := output + [operators[|operators| - 1]];
          operators := operators[..|operators| - 1];
          current := TopPrecedence(operators);
        }
        operators := operators + [token];
      } else if token == OpenToken {
        operators := operators + [token];
      } else {
        if operators == [] {
          return NoTop;
        }
        while operators[|operators| - 1] != OpenToken
          invariant operators != []
          invariant Yard(infix, [], []) ==
                    match PopGroup(operators, output)
                    case Closed(ops', output') => Yard(infix[i + 1..], ops', output')
                    case Unclosed => Mismatched
                    case Empty => NoTop
          decreases |operators|
        {
          output := output + [operators[|operators| - 1]];
          operators := operators[..|operators| - 1];
          if operators == [] {
            return Mismatched;
          }
        }
        operators := operators[..|operators| - 1];
      }
    }
    while operators != []
      invariant Yard(infix, [], []) == PopAll(operators, output)
      decreases |operators|
    {
      var top := operators[|operators| - 1];
      operators := operators[..|operators| - 1];
      if top == OpenToken || top == CloseToken {
        return Mismatched;
      }
      output := output + [top];
    }
    return Parsed(output);
  }

  // ------------------------------------------------ what the loop makes of a query

  function TokenOf(symbol: Symbol<string>): Token {
    match symbol
    case Operand(w) => WordToken(w)
    case AndSymbol => AndToken
    case OrSymbol => OrToken
    case NotSymbol => NotToken
  }

  function PostfixTokens(e: Expr<string>): seq<Token> {
    var p := Postfix(e);
    seq(|p|, i requires 0 <= i < |p| => TokenOf(p[i]))
  }

  /** The output for a printed tree: postfix, except that a `!` before a `!` is not delayed. */
  function Shunted(e: Infix): seq<Token> {
    match e
    case Word(w) => [WordToken(w)]
    case Group(a) => Shunted(a)
    case Neg(a) => if a.Neg? then [NotToken] + Shunted(a) else Shunted(a) + [NotToken]
    case Conj(l, r) => Shunted(l) + Shunted(r) + [AndToken]
    case Disj(l, r) => Shunted(l) + Shunted(r) + [OrToken]
  }

  /** The operators a printed tree leaves on the stack, and the output it produces before them. */
  function Pending(e: Infix): seq<Token> {
    match e
    case Word(_) => []
    case Group(_) => []
    case Neg(a) => if a.Neg? then Pending(a) else [NotToken]
    case Conj(_, r) => [AndToken] + Pending(r)
    case Disj(_, r) => [OrToken] + Pending(r)
  }

  function Emitted(e: Infix): seq<Token> {
    match e
    case Word(w) => [WordToken(w)]
    case Group(a) => Shunted(a)
    case Neg(a) => if a.Neg? then [NotToken] + Emitted(a) else Shunted(a)
    case Conj(l, r) => Shunted(l) + Emitted(r)
    case Disj(l, r) => Shunted(l) + Emitted(r)
  }

  function Reverse(s: seq<Token>): seq<Token> {
    if s == [] then [] else Reverse(s[1..]) + [s[0]]
  }

  lemma {:induction false} ReverseSnoc(s: seq<Token>, t: Token)
    ensures Reverse(s + [t]) == [t] + Reverse(s)
  {
    if s == [] {
      assert s + [t] == [t];
      assert Reverse([t]) == Reverse([]) + [t];
    } else {
      assert (s + [t])[1..] == s[1..] + [t];
      ReverseSnoc(s[1..], t);
    }
  }

  predicate AllTighter(ops: seq<Token>, bound: int) {
    forall i :: 0 <= i < |ops| ==> Precedence(ops[i]) >= bound
  }

  lemma {:induction false} PendingTighter(e: Infix)
    requires WellFormed(e)
    ensures AllTighter(Pending(e), if Level(e) < 3 then Level(e) else 3)
  {
    match e
    case Word(_) =>
    case Group(_) =>
    case Neg(a) => PendingTighter(a);
    case Conj(_, r) => PendingTighter(r);
    case Disj(_, r) => PendingTighter(r);
  }

  lemma ReverseCons(t: Token, s: seq<Token>)
    ensures Reverse([t] + s) == Reverse(s) + [t]
  {
    assert ([t] + s)[1..] == s;
  }

  lemma {:induction false} EmittedThenPending(e: Infix)
    requires WellFormed(e)
    ensures Emitted(e) + Reverse(Pending(e)) == Shunted(e)
  {
    hide Reverse;
    match e
    case Word(w) =>
      ReverseNone();
      assert Emitted(e) + [] == Shunted(e);
    case Group(a) =>
      ReverseNone();
      assert Emitted(e) + [] == Shunted(e);
    case Neg(a) =>
      EmittedThenPending(a);
      ReverseOne(NotToken);
    case Conj(l, r) =>
      EmittedThenPending(r);
      ReverseCons(AndToken, Pending(r));
      FourParts(Shunted(l), Emitted(r), Reverse(Pending(r)), [AndToken]);
    case Disj(l, r) =>
      EmittedThenPending(r);
      ReverseCons(OrToken, Pending(r));
      FourParts(Shunted(l), Emitted(r), Reverse(Pending(r)), [OrToken]);
  }

  lemma FourParts(a: seq<Token>, b: seq<Token>, c: seq<Token>, d: seq<Token>)
    ensures a + b + (c + d) == a + (b + c) + d
  {
  }

  lemma ReverseNone()
    ensures Reverse([]) == []
  {
  }

  lemma PopOne(ops: seq<Token>, top: Token, output: seq<Token>, bound: int)
    requires bound >= 0 && Precedence(top) >= bound
    ensures PopTighter(ops + [top], output, bound) == PopTighter(ops, output + [top], bound)
  {
    assert (ops + [top])[..|ops|] == ops;
  }

  lemma {:induction false} PopPending(ops: seq<Token>, pending: seq<Token>, output: seq<Token>, bound: int)
    requires bound >= 0 && TopPrecedence(ops) < bound && AllTighter(pending, bound)
    ensures PopTighter(ops + pending, output, bound) == (ops, output + Reverse(pending))
    decreases |pending|
  {
    if pending == [] {
      assert ops + pending == ops && output + Reverse(pending) == output;
    } else {
      var n := |pending| - 1;
      var top := pending[n];
      var rest := pending[..n];
      assert ops + pending == (ops + rest) + [top] && pending == rest + [top];
      PopOne(ops + rest, top, output, bound);
      PopPending(ops, rest, output + [top], bound);
      ReverseSnoc(rest, top);
      assert output + [top] + Reverse(rest) == output + ([top] + Reverse(rest));
    }
  }

  lemma {:induction false} PopPendingGroup(ops: seq<Token>, pending: seq<Token>, output: seq<Token>)
    requires AllTighter(pending, 0)
    ensures PopGroup(ops + [OpenToken] + pending, output) == Closed(ops, output + Reverse(pending))
    decreases |pending|
  {
    var all := ops + [OpenToken] + pending;
    if pending == [] {
      assert all == ops + [OpenToken];
    } else {
      var n := |pending| - 1;
      var top := pending[n];
      assert all[..|all| - 1] == ops + [OpenToken] + pending[..n];
      PopPendingGroup(ops, pending[..n], output + [top]);
      assert pending == pending[..n] + [top];
      ReverseSnoc(pending[..n], top);
    }
  }

  lemma {:induction false} PopPendingAll(pending: seq<Token>, output: seq<Token>)
    requires AllTighter(pending, 0)
    ensures PopAll(pending, output) == Parsed(output + Reverse(pending))
    decreases |pending|
  {
    if pending == [] {
    } else {
      var n := |pending| - 1;
      PopPendingAll(pending[..n], output + [pending[n]]);
      assert pending == pending[..n] + [pending[n]];
      ReverseSnoc(pending[..n], pending[n]);
    }
  }

  lemma YardStep(token: Token, rest: seq<Token>)
    ensures ([token] + rest)[0] == token && ([token] + rest)[1..] == rest
  {
  }

  /** Reading a printed tree, wherever it stands in a query. */
  lemma {:induction false} YardOfPrint(e: Infix, rest: seq<Token>, ops: seq<Token>, output: seq<Token>)
    requires WellFormed(e) && TopPrecedence(ops) < Level(e)
    ensures Yard(Print(e) + rest, ops, output) == Yard(rest, ops + Pending(e), output + Emitted(e))
    decreases e, 1
  {
    match e
    case Word(w) =>
      YardStep(WordToken(w), rest);
      assert ops + [] == ops;
    case Group(a) =>
      assert Print(e) + rest == [OpenToken] + (Print(a) + ([CloseToken] + rest));
      YardStep(OpenToken, Print(a) + ([CloseToken] + rest));
      YardOfPrint(a, [CloseToken] + rest, ops + [OpenToken], output);
      YardStep(CloseToken, rest);
      PendingTighter(a);
      PopPendingGroup(ops, Pending(a), output + Emitted(a));
      EmittedThenPending(a);
      assert output + Emitted(a) + Reverse(Pending(a)) == output + Shunted(a);
      assert ops + [] == ops;
    case Neg(a) =>
      YardOfNeg(e, rest, ops, output);
    case _ =>
      YardOfBinary(e, rest, ops, output);
  }

  /** An operator sends the pending ones that bind at least as tightly to the output. */
  lemma OperatorStep(op: Token, more: seq<Token>, ops: seq<Token>, pending: seq<Token>, output: seq<Token>)
    requires op == AndToken || op == OrToken || op == NotToken
    requires TopPrecedence(ops) < Precedence(op) && AllTighter(pending, Precedence(op))
    ensures Yard([op] + more, ops + pending, output) == Yard(more, ops + [op], output + Reverse(pending))
  {
    YardStep(op, more);
    PopPending(ops, pending, output, Precedence(op));
  }

  lemma ReverseOne(t: Token)
    ensures Reverse([t]) == [t]
  {
    assert Reverse([]) + [t] == [t];
  }

  lemma {:induction false} YardOfNeg(e: Infix, rest: seq<Token>, ops: seq<Token>, output: seq<Token>)
    requires e.Neg? && WellFormed(e) && TopPrecedence(ops) < 3
    ensures Yard(Print(e) + rest, ops, output) == Yard(rest, ops + Pending(e), output + Emitted(e))
    decreases e, 0
  {
    hide Yard;
    var a := e.arg;
    assert Print(e) + rest == [NotToken] + (Print(a) + rest);
    if a.Neg? {
      YardOfTwoNots(Print(a.arg) + rest, ops, output);
      assert Print(a) + rest == [NotToken] + (Print(a.arg) + rest);
      YardOfPrint(a, rest, ops, output + [NotToken]);
      assert output + [NotToken] + Emitted(a) == output + Emitted(e);
    } else {
      YardOfNot(Print(a) + rest, ops, output);
      YardOfPrint(a, rest, ops + [NotToken], output);
      assert ops + [NotToken] + Pending(a) == ops + [NotToken];
    }
  }

  lemma YardOfNot(more: seq<Token>, ops: seq<Token>, output: seq<Token>)
    requires TopPrecedence(ops) < 3
    ensures Yard([NotToken] + more, ops, output) == Yard(more, ops + [NotToken], output)
  {
    OperatorStep(NotToken, more, ops, [], output);
    assert ops + [] == ops && output + Reverse([]) == output;
  }

  /** Of two adjacent `!` the second one sends the first one to the output. */
  lemma YardOfTwoNots(more: seq<Token>, ops: seq<Token>, output: seq<Token>)
    requires TopPrecedence(ops) < 3
    ensures Yard([NotToken] + ([NotToken] + more), ops, output) == Yard([NotToken] + more, ops, output + [NotToken])
  {
    hide Yard;
    YardOfNot([NotToken] + more, ops, output);
    OperatorStep(NotToken, more, ops, [NotToken], output);
    ReverseOne(NotToken);
    YardOfNot(more, ops, output + [NotToken]);
  }

  lemma {:induction false} YardOfBinary(e: Infix, rest: seq<Token>, ops: seq<Token>, output: seq<Token>)
    requires (e.Conj? || e.Disj?) && WellFormed(e) && TopPrecedence(ops) < Level(e)
    ensures Yard(Print(e) + rest, ops, output) == Yard(rest, ops + Pending(e), output + Emitted(e))
    decreases e, 0
  {
    hide Yard, AllTighter, Reverse;
    var l, r, op := e.left, e.right, if e.Conj? then AndToken else OrToken;
    var more := Print(r) + rest;
    assert Print(e) + rest == Print(l) + ([op] + more);
    YardOfPrint(l, [op] + more, ops, output);
    PendingTighter(l);
    OperatorStep(op, more, ops, Pending(l), output + Emitted(l));
    EmittedThenPending(l);
    assert output + Emitted(l) + Reverse(Pending(l)) == output + Shunted(l);
    YardOfPrint(r, rest, ops + [op], output + Shunted(l));
    assert ops + [op] + Pending(r) == ops + Pending(e);
    assert output + Shunted(l) + Emitted(r) == output + Emitted(e);
  }

  /** The complete translation of any printed query. */
  lemma YardOfQuery(e: Infix)
    requires WellFormed(e)
    ensures Yard(Print(e), [], []) == Parsed(Shunted(e))
  {
    assert Print(e) + [] == Print(e);
    YardOfPrint(e, [], [], []);
    assert [] + Pending(e) == Pending(e) && [] + Emitted(e) == Emitted(e);
    PendingTighter(e);
    PopPendingAll(Pending(e), Emitted(e));
    EmittedThenPending(e);
  }

  // ---------------------------------------------- exactly when that is postfix

  lemma PostfixTokensOf(e: Expr<string>)
    ensures PostfixTokens(e) ==
            match e
            case Leaf(w) => [WordToken(w)]
            case Not(a) => PostfixTokens(a) + [NotToken]
            case And(l, r) => PostfixTokens(l) + PostfixTokens(r) + [AndToken]
            case Or(l, r) => PostfixTokens(l) + PostfixTokens(r) + [OrToken]
  {
  }

  /** Read as symbols, the postfix tokens are the postfix form. */
  lemma SymbolsOfPostfix(e: Expr<string>)
    ensures NoParentheses(PostfixTokens(e)) && SymbolsOf(PostfixTokens(e)) == Postfix(e)
  {
  }

  lemma {:induction false} ShuntedIsPostfix(e: Infix)
    requires WellFormed(e) && NoDoubleNegation(e)
    ensures Shunted(e) == PostfixTokens(Erase(e))
  {
    PostfixTokensOf(Erase(e));
    match e
    case Word(_) =>
    case Group(a) => ShuntedIsPostfix(a);
    case Neg(a) => ShuntedIsPostfix(a);
    case Conj(l, r) => ShuntedIsPostfix(l); ShuntedIsPostfix(r);
    case Disj(l, r) => ShuntedIsPostfix(l); ShuntedIsPostfix(r);
  }

  function WordCount(tokens: seq<Token>): nat {
    if tokens == [] then 0 else (if tokens[0].WordToken? then 1 else 0) + WordCount(tokens[1..])
  }

  /** Counts, for every `!`, the words before it; `before` words precede the list. */
  function NotWeight(tokens: seq<Token>, before: nat): nat
    decreases |tokens|
  {
    if |tokens| == 0 then 0
    else if tokens[0] == NotToken then before + NotWeight(tokens[1..], before)
    else NotWeight(tokens[1..], before + if tokens[0].WordToken? then 1 else 0)
  }

  lemma {:induction false} WeightConcat(a: seq<Token>, b: seq<Token>, before: nat)
    ensures WordCount(a + b) == WordCount(a) + WordCount(b)
    ensures NotWeight(a + b, before) == NotWeight(a, before) + NotWeight(b, before + WordCount(a))
    decreases |a|
  {
    if a == [] {
      assert a + b == b;
    } else {
      assert (a + b)[1..] == a[1..] + b;
      WeightConcat(a[1..], b, if a[0].WordToken? then before + 1 else before);
    }
  }

  lemma WeightOne(t: Token, before: nat)
    ensures WordCount([t]) == if t.WordToken? then 1 else 0
    ensures NotWeight([t], before) == if t == NotToken then before else 0
  {
    assert [t][1..] == [];
  }

  /** The two operands and the operator of a binary node, weighed one after the other. */
  lemma WeightBinary(a: seq<Token>, b: seq<Token>, op: Token, before: nat)
    requires op == AndToken || op == OrToken
    ensures WordCount(a + b + [op]) == WordCount(a) + WordCount(b)
    ensures NotWeight(a + b + [op], before) == NotWeight(a, before) + NotWeight(b, before + WordCount(a))
  {
    WeightConcat(a + b, [op], before);
    WeightConcat(a, b, before);
    WeightOne(op, before + WordCount(a + b));
  }

  /** The tokens of a list weigh no more than those of another with as many words; `strict` says less. */
  predicate Lighter(a: seq<Token>, b: seq<Token>, before: nat, strict: bool) {
    && WordCount(a) == WordCount(b) > 0
    && NotWeight(a, before) <= NotWeight(b, before)
    && (strict ==> NotWeight(a, before) < NotWeight(b, before))
  }

  lemma LighterNot(a: seq<Token>, b: seq<Token>, before: nat, strict: bool)
    requires Lighter(a, b, before, strict)
    ensures Lighter(a + [NotToken], b + [NotToken], before, strict)
    ensures Lighter([NotToken] + a, b + [NotToken], before, true)
  {
    WeightConcat(a, [NotToken], before);
    WeightConcat(b, [NotToken], before);
    WeightConcat([NotToken], a, before);
    WeightOne(NotToken, before);
    WeightOne(NotToken, before + WordCount(b));
  }

  lemma LighterBinary(a: seq<Token>, b: seq<Token>, c: seq<Token>, d: seq<Token>, op: Token, before: nat, s: bool,
                      t: bool)
    requires op == AndToken || op == OrToken
    requires Lighter(a, b, before, s) && Lighter(c, d, before + WordCount(a), t)
    ensures Lighter(a + c + [op], b + d + [op], before, s || t)
  {
    WeightBinary(a, c, op, before);
    WeightBinary(b, d, op, before);
  }

  /** Every double negation brings a `!` before a word it follows in the postfix form. */
  lemma {:induction false} ShuntedWeight(e: Infix, before: nat)
    requires WellFormed(e)
    ensures Lighter(Shunted(e), PostfixTokens(Erase(e)), before, !NoDoubleNegation(e))
    decreases e
  {
    hide Lighter, PostfixTokens;
    PostfixTokensOf(Erase(e));
    match e
    case Word(w) =>
      LighterRefl(w, before);
    case Group(a) =>
      ShuntedWeight(a, before);
    case Neg(a) =>
      ShuntedWeight(a, before);
      LighterNot(Shunted(a), PostfixTokens(Erase(a)), before, !NoDoubleNegation(a));
    case _ =>
      var l, r, op := e.left, e.right, if e.Conj? then AndToken else OrToken;
      ShuntedWeight(l, before);
      ShuntedWeight(r, before + WordCount(Shunted(l)));
      LighterBinary(Shunted(l), PostfixTokens(Erase(l)), Shunted(r), PostfixTokens(Erase(r)), op, before,
                    !NoDoubleNegation(l), !NoDoubleNegation(r));
  }

  lemma LighterRefl(w: string, before: nat)
    ensures Lighter([WordToken(w)], [WordToken(w)], before, false)
  {
    WeightOne(WordToken(w), before);
  }

  /**
  The output is the postfix form of the very formula the query stands for if and only if no `!`
  directly follows a `!`.
  */
  lemma YardIsPostfixExactly(e: Infix)
    requires WellFormed(e)
    ensures Yard(Print(e), [], []) == Parsed(PostfixTokens(Erase(e))) <==> NoAdjacentNots(Print(e))
  {
    YardOfQuery(e);
    DoubleNegationIsAdjacency(e);
    if NoDoubleNegation(e) {
      ShuntedIsPostfix(e);
    } else {
      ShuntedWeight(e, 0);
    }
  }

  /** Every formula can be asked: some printing of it is translated correctly. */
  lemma EveryFormulaCanBeAsked(e: Expr<string>)
    ensures Yard(Print(Write(e)), [], []) == Parsed(PostfixTokens(e))
  {
    YardIsPostfixExactly(Write(e));
    DoubleNegationIsAdjacency(Write(e));
  }

  lemma NotWord(a: string)
    ensures var n := Neg(Word(a));
            && WellFormed(n) && Print(n) == [NotToken, WordToken(a)] && Shunted(n) == [WordToken(a), NotToken]
            && Erase(n) == Not(Leaf(a))
  {
    assert WellFormed(Word(a)) && Print(Word(a)) == [WordToken(a)] && Shunted(Word(a)) == [WordToken(a)];
  }

  lemma NotNotWord(a: string)
    ensures var n := Neg(Neg(Word(a)));
            && WellFormed(n) && Print(n) == [NotToken, NotToken, WordToken(a)]
            && Shunted(n) == [NotToken, WordToken(a), NotToken] && Erase(n) == Not(Not(Leaf(a)))
  {
    NotWord(a);
  }

  /** A list that starts with `!` is the postfix form of nothing. */
  lemma LeadingNotIsRejected(rest: seq<Symbol<string>>)
    ensures !IsPostfix([NotSymbol] + rest)
  {
    AcceptsExactlyPostfix([NotSymbol] + rest);
  }

  /** `!!a` comes out as `! a !`, which is the postfix form of nothing. */
  lemma TwoNotsAreNotPostfix(a: string)
    ensures var rpn := [NotToken, WordToken(a), NotToken];
            && Yard([NotToken, NotToken, WordToken(a)], [], []) == Parsed(rpn)
            && NoParentheses(rpn) && !IsPostfix(SymbolsOf(rpn))
  {
    hide Yard;
    NotNotWord(a);
    YardOfQuery(Neg(Neg(Word(a))));
    var p := SymbolsOf([NotToken, WordToken(a), NotToken]);
    assert p == [NotSymbol] + p[1..];
    LeadingNotIsRejected(p[1..]);
  }

  /** `a & !!b` comes out as the postfix form of another formula, `!a & !b`. */
  lemma TwoNotsChangeTheFormula(a: string, b: string)
    ensures var query := Conj(Word(a), Neg(Neg(Word(b))));
            && WellFormed(query) && Erase(query) == And(Leaf(a), Not(Not(Leaf(b))))
            && Yard(Print(query), [], []) == Parsed(PostfixTokens(And(Not(Leaf(a)), Not(Leaf(b)))))
  {
    NotNotWord(b);
    assert WellFormed(Word(a)) && Shunted(Word(a)) == [WordToken(a)];
    YardOfQuery(Conj(Word(a), Neg(Neg(Word(b)))));
    PostfixTokensOf(And(Not(Leaf(a)), Not(Leaf(b))));
    PostfixTokensOf(Not(Leaf(a)));
    PostfixTokensOf(Not(Leaf(b)));
    PostfixTokensOf(Leaf(a));
    PostfixTokensOf(Leaf(b));
  }

  /** Those two formulas differ wherever `b` holds. */
  lemma TwoNotsChangeTheMeaning(a: string, b: string, truth: string -> bool)
    requires truth(a) && truth(b)
    ensures Holds(And(Leaf(a), Not(Not(Leaf(b)))), truth) && !Holds(And(Not(Leaf(a)), Not(Leaf(b))), truth)
  {
    assert Holds(Leaf(a), truth) && Holds(Leaf(b), truth);
    assert !Holds(Not(Leaf(b)), truth);
  }
}
