/**
What the shunting-yard loop does with token lists that need not be queries at all.
*/
module YardOnAnyTokens {
  import opened Query
  import opened ShuntingYard

  /** Parentheses match, `depth` of them being open before the list. */
  predicate Balanced(tokens: seq<Token>, depth: nat)
    decreases |tokens|
  {
    if |tokens| == 0 then depth == 0
    else if tokens[0] == OpenToken then Balanced(tokens[1..], depth + 1)
    else if tokens[0] == CloseToken then depth > 0 && Balanced(tokens[1..], depth - 1)
    else Balanced(tokens[1..], depth)
  }

  function Opens(ops: seq<Token>): nat
    decreases |ops|
  {
    if |ops| == 0 then 0 else Opens(ops[..|ops| - 1]) + if ops[|ops| - 1] == OpenToken then 1 else 0
  }

  predicate IsStack(ops: seq<Token>) {
    forall i :: 0 <= i < |ops| ==> !ops[i].WordToken? && ops[i] != CloseToken
  }

  /** The words of a list, in order. */
  function WordsOf(tokens: seq<Token>): seq<Token>
    decreases |tokens|
  {
    if |tokens| == 0 then [] else (if tokens[0].WordToken? then [tokens[0]] else []) + WordsOf(tokens[1..])
  }

  function CountOf(tokens: seq<Token>, t: Token): nat
    decreases |tokens|
  {
    if |tokens| == 0 then 0 else (if tokens[0] == t then 1 else 0) + CountOf(tokens[1..], t)
  }

  lemma {:induction false} WordsConcat(a: seq<Token>, b: seq<Token>)
    ensures WordsOf(a + b) == WordsOf(a) + WordsOf(b)
    decreases |a|
  {
    if |a| == 0 {
      assert a + b == b;
    } else {
      var all := a + b;
      assert all[0] == a[0] && all[1..] == a[1..] + b;
      WordsConcat(a[1..], b);
      var head := if a[0].WordToken? then [a[0]] else [];
      assert head + (WordsOf(a[1..]) + WordsOf(b)) == head + WordsOf(a[1..]) + WordsOf(b);
    }
  }

  lemma WordsSnoc(a: seq<Token>, t: Token)
    ensures WordsOf(a + [t]) == WordsOf(a) + if t.WordToken? then [t] else []
  {
    WordsConcat(a, [t]);
    assert WordsOf([t][1..]) == [];
  }

  lemma {:induction false} CountConcat(a: seq<Token>, b: seq<Token>, t: Token)
    ensures CountOf(a + b, t) == CountOf(a, t) + CountOf(b, t)
    decreases |a|
  {
    if |a| == 0 {
      assert a + b == b;
    } else {
      assert (a + b)[1..] == a[1..] + b;
      CountConcat(a[1..], b, t);
    }
  }

  lemma CountSnoc(a: seq<Token>, x: Token, t: Token)
    ensures CountOf(a + [x], t) == CountOf(a, t) + if x == t then 1 else 0
  {
    CountConcat(a, [x], t);
    assert CountOf([x][1..], t) == 0;
  }

  lemma SplitLast(ops: seq<Token>)
    requires |ops| > 0
    ensures ops == ops[..|ops| - 1] + [ops[|ops| - 1]]
  {
  }

  lemma OpensSnoc(ops: seq<Token>, t: Token)
    ensures Opens(ops + [t]) == Opens(ops) + if t == OpenToken then 1 else 0
  {
    assert (ops + [t])[..|ops|] == ops;
  }

  // -------------------------------------------------------- the three pop loops

  lemma {:induction false} PopTighterKeeps(ops: seq<Token>, output: seq<Token>, bound: int, t: Token)
    requires bound >= 0 && IsStack(ops) && NoParentheses(output)
    ensures var r := PopTighter(ops, output, bound);
            && IsStack(r.0) && NoParentheses(r.1) && Opens(r.0) == Opens(ops) && WordsOf(r.1) == WordsOf(output)
            && CountOf(r.0, t) + CountOf(r.1, t) == CountOf(ops, t) + CountOf(output, t)
    decreases |ops|
  {
    if TopPrecedence(ops) < bound {
    } else {
      var rest, top := ops[..|ops| - 1], ops[|ops| - 1];
      SplitLast(ops);
      WordsSnoc(output, top);
      CountSnoc(output, top, t);
      CountSnoc(rest, top, t);
      PopTighterKeeps(rest, output + [top], bound, t);
    }
  }

  lemma {:induction false} PopGroupKeeps(ops: seq<Token>, output: seq<Token>, t: Token)
    requires IsStack(ops) && NoParentheses(output) && t != OpenToken
    ensures PopGroup(ops, output).Closed? <==> Opens(ops) > 0
    ensures var r := PopGroup(ops, output);
            r.Closed? ==>
              && IsStack(r.ops) && NoParentheses(r.output) && Opens(r.ops) + 1 == Opens(ops)
              && WordsOf(r.output) == WordsOf(output)
              && CountOf(r.ops, t) + CountOf(r.output, t) == CountOf(ops, t) + CountOf(output, t)
    decreases |ops|
  {
    if |ops| == 0 {
    } else {
      var rest, top := ops[..|ops| - 1], ops[|ops| - 1];
      SplitLast(ops);
      CountSnoc(rest, top, t);
      if top != OpenToken {
        WordsSnoc(output, top);
        CountSnoc(output, top, t);
        PopGroupKeeps(rest, output + [top], t);
      }
    }
  }

  lemma {:induction false} PopAllKeeps(ops: seq<Token>, output: seq<Token>, t: Token)
    requires IsStack(ops) && NoParentheses(output)
    ensures PopAll(ops, output).Parsed? <==> Opens(ops) == 0
    ensures var r := PopAll(ops, output);
            r.Parsed? ==> NoParentheses(r.output) && WordsOf(r.output) == WordsOf(output)
                          && CountOf(r.output, t) == CountOf(ops, t) + CountOf(output, t)
    decreases |ops|
  {
    if |ops| == 0 {
    } else {
      var rest, top := ops[..|ops| - 1], ops[|ops| - 1];
      SplitLast(ops);
      CountSnoc(rest, top, t);
      if top != OpenToken {
        WordsSnoc(output, top);
        CountSnoc(output, top, t);
        PopAllKeeps(rest, output + [top], t);
      }
    }
  }

  // ---------------------------------------------------------------- the main loop

  /** `r` is a result for `tokens` that started with `ops` and `output`, as far as token t is concerned. */
  predicate Kept(r: Outcome, tokens: seq<Token>, ops: seq<Token>, output: seq<Token>, t: Token) {
    && (r.Parsed? <==> Balanced(tokens, Opens(ops)))
    && (r.Parsed? ==>
          && NoParentheses(r.output) && WordsOf(r.output) == WordsOf(output) + WordsOf(tokens)
          && CountOf(r.output, t) == CountOf(output, t) + CountOf(ops, t) + CountOf(tokens, t))
  }

  lemma KeptWord(r: Outcome, tokens: seq<Token>, ops: seq<Token>, output: seq<Token>, t: Token)
    requires |tokens| > 0 && tokens[0].WordToken?
    requires Kept(r, tokens[1..], ops, output + [tokens[0]], t)
    ensures Kept(r, tokens, ops, output, t)
  {
    WordsSnoc(output, tokens[0]);
    CountSnoc(output, tokens[0], t);
  }

  lemma KeptOpen(r: Outcome, tokens: seq<Token>, ops: seq<Token>, output: seq<Token>, t: Token)
    requires |tokens| > 0 && tokens[0] == OpenToken && t != OpenToken
    requires Kept(r, tokens[1..], ops + [OpenToken], output, t)
    ensures Kept(r, tokens, ops, output, t)
  {
    OpensSnoc(ops, OpenToken);
    CountSnoc(ops, OpenToken, t);
  }

  lemma KeptClose(r: Outcome, tokens: seq<Token>, ops: seq<Token>, output: seq<Token>, t: Token)
    requires |tokens| > 0 && tokens[0] == CloseToken && t != OpenToken && t != CloseToken
    requires IsStack(ops) && NoParentheses(output)
    requires match PopGroup(ops, output)
             case Closed(ops', output') => Kept(r, tokens[1..], ops', output', t)
             case _ => !r.Parsed?
    ensures Kept(r, tokens, ops, output, t)
  {
    PopGroupKeeps(ops, output, t);
    CloseStep(tokens, Opens(ops), t);
    hide PopGroup, Opens, IsStack, NoParentheses, Balanced, WordsOf, CountOf;
  }

  lemma CloseStep(tokens: seq<Token>, depth: nat, t: Token)
    requires |tokens| > 0 && tokens[0] == CloseToken && t != CloseToken
    ensures Balanced(tokens, depth) <==> depth > 0 && Balanced(tokens[1..], depth - 1)
    ensures WordsOf(tokens) == WordsOf(tokens[1..]) && CountOf(tokens, t) == CountOf(tokens[1..], t)
  {
  }

  lemma KeptOperator(r: Outcome, tokens: seq<Token>, ops: seq<Token>, output: seq<Token>, t: Token)
    requires |tokens| > 0 && Precedence(tokens[0]) > 0
    requires IsStack(ops) && NoParentheses(output)
    requires var popped := PopTighter(ops, output, Precedence(tokens[0]));
             Kept(r, tokens[1..], popped.0 + [tokens[0]], popped.1, t)
    ensures Kept(r, tokens, ops, output, t)
  {
    var popped := PopTighter(ops, output, Precedence(tokens[0]));
    PopTighterKeeps(ops, output, Precedence(tokens[0]), t);
    OpensSnoc(popped.0, tokens[0]);
    CountSnoc(popped.0, tokens[0], t);
  }

  lemma {:induction false} YardKeeps(tokens: seq<Token>, ops: seq<Token>, output: seq<Token>, t: Token)
    requires IsStack(ops) && NoParentheses(output) && t != OpenToken && t != CloseToken
    ensures Kept(Yard(tokens, ops, output), tokens, ops, output, t)
    decreases |tokens|
  {
    var r := Yard(tokens, ops, output);
    if |tokens| == 0 {
      PopAllKeeps(ops, output, t);
    } else {
      hide Kept;
      var x, rest := tokens[0], tokens[1..];
      match x
      case WordToken(_) =>
        YardKeeps(rest, ops, output + [x], t);
        KeptWord(r, tokens, ops, output, t);
      case OpenToken =>
        YardKeeps(rest, ops + [x], output, t);
        KeptOpen(r, tokens, ops, output, t);
      case CloseToken =>
        PopGroupKeeps(ops, output, t);
        if PopGroup(ops, output).Closed? {
          YardKeeps(rest, PopGroup(ops, output).ops, PopGroup(ops, output).output, t);
        }
        KeptClose(r, tokens, ops, output, t);
      case _ =>
        var popped := PopTighter(ops, output, Precedence(x));
        PopTighterKeeps(ops, output, Precedence(x), t);
        YardKeeps(rest, popped.0 + [x], popped.1, t);
        KeptOperator(r, tokens, ops, output, t);
    }
  }

  // ------------------------------------------------- the read of an empty stack

  /**
  Some `)` without a partner comes before any operator outside parentheses: `depth` parentheses
  are open, and `pending` says whether there has been such an operator.
  */
  predicate ClosesNothing(tokens: seq<Token>, depth: nat, pending: bool)
    decreases |tokens|
  {
    if |tokens| == 0 then false
    else
      match tokens[0]
      case WordToken(_) => ClosesNothing(tokens[1..], depth, pending)
      case OpenToken => ClosesNothing(tokens[1..], depth + 1, pending)
      case CloseToken => if depth == 0 then !pending else ClosesNothing(tokens[1..], depth - 1, pending)
      case _ => ClosesNothing(tokens[1..], depth, pending || depth == 0)
  }

  /** The lowest operator on the stack stands outside parentheses. */
  predicate Based(ops: seq<Token>) {
    |ops| > 0 && ops[0] != OpenToken
  }

  lemma {:induction false} OpensNone(ops: seq<Token>)
    requires Opens(ops) == 0 && |ops| > 0
    ensures Based(ops)
    decreases |ops|
  {
    if |ops| == 1 {
    } else {
      OpensNone(ops[..|ops| - 1]);
    }
  }

  lemma {:induction false} PopTighterPrefix(ops: seq<Token>, output: seq<Token>, bound: int)
    requires bound >= 0
    ensures PopTighter(ops, output, bound).0 <= ops
    decreases |ops|
  {
    if TopPrecedence(ops) < bound {
    } else {
      PopTighterPrefix(ops[..|ops| - 1], output + [ops[|ops| - 1]], bound);
    }
  }

  lemma {:induction false} PopGroupPrefix(ops: seq<Token>, output: seq<Token>)
    ensures PopGroup(ops, output).Empty? <==> |ops| == 0
    ensures PopGroup(ops, output).Closed? ==> PopGroup(ops, output).ops + [OpenToken] <= ops
    decreases |ops|
  {
    if |ops| == 0 {
    } else {
      var rest, top := ops[..|ops| - 1], ops[|ops| - 1];
      SplitLast(ops);
      if top == OpenToken {
      } else {
        PopGroupPrefix(rest, output + [top]);
      }
    }
  }

  lemma {:induction false} PopAllHasTop(ops: seq<Token>, output: seq<Token>)
    ensures !PopAll(ops, output).NoTop?
    decreases |ops|
  {
    if |ops| == 0 {
    } else {
      PopAllHasTop(ops[..|ops| - 1], output + [ops[|ops| - 1]]);
    }
  }

  /** An operator outside parentheses stays below everything that follows. */
  lemma OperatorBase(ops: seq<Token>, output: seq<Token>, t: Token)
    requires IsStack(ops) && NoParentheses(output) && (t == AndToken || t == OrToken || t == NotToken)
    ensures var popped := PopTighter(ops, output, Precedence(t));
            && IsStack(popped.0 + [t]) && NoParentheses(popped.1) && Opens(popped.0 + [t]) == Opens(ops)
            && (Based(popped.0 + [t]) <==> Based(ops) || Opens(ops) == 0)
  {
    var popped := PopTighter(ops, output, Precedence(t));
    PopTighterKeeps(ops, output, Precedence(t), t);
    PopTighterPrefix(ops, output, Precedence(t));
    OpensSnoc(popped.0, t);
    if Opens(ops) == 0 {
      OpensNone(popped.0 + [t]);
    }
  }

  lemma CloseBase(ops: seq<Token>, output: seq<Token>)
    requires IsStack(ops) && NoParentheses(output)
    ensures var r := PopGroup(ops, output);
            && (r.Closed? <==> Opens(ops) > 0)
            && (r.Empty? <==> Opens(ops) == 0 && !Based(ops))
            && (r.Closed? ==>
                  IsStack(r.ops) && NoParentheses(r.output) && Opens(r.ops) + 1 == Opens(ops)
                    && (Based(r.ops) <==> Based(ops)))
  {
    PopGroupKeeps(ops, output, AndToken);
    PopGroupPrefix(ops, output);
    if Opens(ops) == 0 && |ops| > 0 {
      OpensNone(ops);
    }
  }

  lemma {:induction false} YardReadsEmptyStack(tokens: seq<Token>, ops: seq<Token>, output: seq<Token>)
    requires IsStack(ops) && NoParentheses(output)
    ensures Yard(tokens, ops, output).NoTop? <==> ClosesNothing(tokens, Opens(ops), Based(ops))
    decreases |tokens|
  {
    if |tokens| == 0 {
      PopAllHasTop(ops, output);
    } else {
      hide PopTighter, PopGroup, Opens, IsStack, Based;
      var t, rest := tokens[0], tokens[1..];
      match t
      case WordToken(_) =>
        YardReadsEmptyStack(rest, ops, output + [t]);
      case OpenToken =>
        OpenBase(ops);
        YardReadsEmptyStack(rest, ops + [t], output);
      case CloseToken =>
        CloseBase(ops, output);
        if PopGroup(ops, output).Closed? {
          YardReadsEmptyStack(rest, PopGroup(ops, output).ops, PopGroup(ops, output).output);
        }
      case _ =>
        var popped := PopTighter(ops, output, Precedence(t));
        OperatorBase(ops, output, t);
        YardReadsEmptyStack(rest, popped.0 + [t], popped.1);
    }
  }

  lemma OpenBase(ops: seq<Token>)
    requires IsStack(ops)
    ensures IsStack(ops + [OpenToken]) && Opens(ops + [OpenToken]) == Opens(ops) + 1
    ensures Based(ops + [OpenToken]) <==> Based(ops)
  {
    OpensSnoc(ops, OpenToken);
  }

  /**
  For every token list: the three outcomes with the exact condition of each, and after a success the
  output has no parenthesis, the words in their order and all the operators.
  */
  lemma YardOnAnyTokens(tokens: seq<Token>)
    ensures var r := Yard(tokens, [], []);
            && (r.NoTop? <==> ClosesNothing(tokens, 0, false))
            && (r.Parsed? <==> Balanced(tokens, 0))
            && (r.Mismatched? <==> !ClosesNothing(tokens, 0, false) && !Balanced(tokens, 0))
    ensures var r := Yard(tokens, [], []);
            r.Parsed? ==>
              && NoParentheses(r.output) && WordsOf(r.output) == WordsOf(tokens)
              && forall t :: t != OpenToken && t != CloseToken ==> CountOf(r.output, t) == CountOf(tokens, t)
  {
    YardReadsEmptyStack(tokens, [], []);
    YardKeeps(tokens, [], [], AndToken);
    forall t | t != OpenToken && t != CloseToken && Yard(tokens, [], []).Parsed?
      ensures CountOf(Yard(tokens, [], []).output, t) == CountOf(tokens, t)
    {
      YardKeeps(tokens, [], [], t);
    }
  }

  /** `a)` reads the top of the empty stack, `a&b)` does not but is refused. */
  lemma EmptyStackIsRead(a: string, b: string)
    ensures Yard([WordToken(a), CloseToken], [], []) == NoTop
    ensures Yard([WordToken(a), AndToken, WordToken(b), CloseToken], [], []) == Mismatched
  {
    hide Yard;
    var one, two := [WordToken(a), CloseToken], [WordToken(a), AndToken, WordToken(b), CloseToken];
    YardOnAnyTokens(one);
    YardOnAnyTokens(two);
    assert one[1..] == [CloseToken];
    assert two[1..] == [AndToken, WordToken(b), CloseToken];
    assert two[1..][1..] == [WordToken(b), CloseToken];
    assert two[1..][1..][1..] == [CloseToken];
    assert ClosesNothing(one[1..], 0, false);
    assert !ClosesNothing(two[1..][1..][1..], 0, true) && !Balanced(two[1..][1..][1..], 0);
    assert !ClosesNothing(two[1..], 0, false) && !Balanced(two[1..], 0);
  }
}
