/**
The enclave's evaluation of a postfix query on a stack of document lists.
*/
module QueryEvaluator {
  import opened Options
  import opened Formula
  import opened IntVectors
  import opened TokenVectors

  datatype Outcome = Docs(docs: seq<int>) | Exit(message: string)

  /** Tokens of any kind but the three operators are operands. */
  function Shape(t: IeeToken): Symbol<IeeToken> {
    if t.kind == '&' then AndSymbol
    else if t.kind == '|' then OrSymbol
    else if t.kind == '!' then NotSymbol
    else Operand(t)
  }

  function Shapes(tokens: seq<IeeToken>): (s: seq<Symbol<IeeToken>>)
    ensures |s| == |tokens|
  {
    seq(|tokens|, i requires 0 <= i < |tokens| => Shape(tokens[i]))
  }

  /** The list a query tree evaluates to; operators list their result in increasing order. */
  function EvalDocs(e: Expr<IeeToken>, n: nat): seq<int> {
    match e
    case Leaf(t) => t.docs
    case Not(a) => Select(Range(n) - ToSet(EvalDocs(a, n)), n)
    case And(l, r) => Select(ToSet(EvalDocs(l, n)) * ToSet(EvalDocs(r, n)), n)
    case Or(l, r) => Select(ToSet(EvalDocs(l, n)) + ToSet(EvalDocs(r, n)), n)
  }

  predicate Operable(docs: seq<int>, n: nat) {
    Distinct(docs) && InRange(docs, n)
  }

  /** All operands list existing documents, each once. */
  predicate LeavesOperable(e: Expr<IeeToken>, n: nat) {
    match e
    case Leaf(t) => Operable(t.docs, n)
    case Not(a) => LeavesOperable(a, n)
    case And(l, r) => LeavesOperable(l, n) && LeavesOperable(r, n)
    case Or(l, r) => LeavesOperable(l, n) && LeavesOperable(r, n)
  }

  lemma SelectOperable(s: set<int>, n: nat)
    ensures Operable(Select(s, n), n)
  {
    SelectIs(s, n);
    IncreasingIsDistinct(Select(s, n));
  }

  lemma EvalOperable(e: Expr<IeeToken>, n: nat)
    requires LeavesOperable(e, n)
    ensures Operable(EvalDocs(e, n), n)
  {
    match e
    case Leaf(_) =>
    case Not(a) => SelectOperable(Range(n) - ToSet(EvalDocs(a, n)), n);
    case And(l, r) => SelectOperable(ToSet(EvalDocs(l, n)) * ToSet(EvalDocs(r, n)), n);
    case Or(l, r) => SelectOperable(ToSet(EvalDocs(l, n)) + ToSet(EvalDocs(r, n)), n);
  }

  lemma SelectElements(s: set<int>, n: nat)
    ensures forall d :: d in ToSet(Select(s, n)) <==> d in s && 0 <= d < n
  {
    SelectIs(s, n);
  }

  /** A document is in the result exactly when it satisfies the formula. */
  lemma {:induction false} EvalMeaning(e: Expr<IeeToken>, n: nat, d: int)
    requires LeavesOperable(e, n)
    ensures d in ToSet(EvalDocs(e, n)) <==> 0 <= d < n && Holds(e, (t: IeeToken) => d in t.docs)
  {
    hide ToSet, Select, Range, Operable;
    match e
    case Leaf(t) =>
      LeafMeaning(t, n, d);
    case Not(a) =>
      EvalMeaning(a, n, d);
      RangeIs(n);
      SelectElements(Range(n) - ToSet(EvalDocs(a, n)), n);
    case And(l, r) =>
      EvalMeaning(l, n, d);
      EvalMeaning(r, n, d);
      SelectElements(ToSet(EvalDocs(l, n)) * ToSet(EvalDocs(r, n)), n);
    case Or(l, r) =>
      EvalMeaning(l, n, d);
      EvalMeaning(r, n, d);
      SelectElements(ToSet(EvalDocs(l, n)) + ToSet(EvalDocs(r, n)), n);
  }

  lemma LeafMeaning(t: IeeToken, n: nat, d: int)
    requires Operable(t.docs, n)
    ensures d in ToSet(t.docs) <==> 0 <= d < n && d in t.docs
  {
  }

  /** The result is in increasing order when the operands are. */
  lemma EvalIncreasing(e: Expr<IeeToken>, n: nat)
    requires e.Leaf? ==> Increasing(e.value.docs)
    ensures Increasing(EvalDocs(e, n))
  {
    match e
    case Leaf(_) =>
    case Not(a) => SelectIs(Range(n) - ToSet(EvalDocs(a, n)), n);
    case And(l, r) => SelectIs(ToSet(EvalDocs(l, n)) * ToSet(EvalDocs(r, n)), n);
    case Or(l, r) => SelectIs(ToSet(EvalDocs(l, n)) + ToSet(EvalDocs(r, n)), n);
  }

  // ------------------------------------------------------------------ the machine

  /** The stack of lists is the evaluation of a stack of trees. */
  ghost predicate Represents(stack: seq<IeeToken>, trees: seq<Expr<IeeToken>>, n: nat) {
    && |stack| == |trees|
    && forall i :: 0 <= i < |stack| ==> stack[i].docs == EvalDocs(trees[i], n) && LeavesOperable(trees[i], n)
  }

  lemma RepresentsPop(stack: seq<IeeToken>, trees: seq<Expr<IeeToken>>, n: nat)
    requires Represents(stack, trees, n) && |stack| > 0
    ensures Represents(stack[..|stack| - 1], trees[..|trees| - 1], n)
    ensures var top := trees[|trees| - 1];
            stack[|stack| - 1].docs == EvalDocs(top, n) && LeavesOperable(top, n) && Operable(EvalDocs(top, n), n)
  {
    EvalOperable(trees[|trees| - 1], n);
  }

  lemma RepresentsPush(stack: seq<IeeToken>, trees: seq<Expr<IeeToken>>, n: nat, t: IeeToken, e: Expr<IeeToken>)
    requires Represents(stack, trees, n) && t.docs == EvalDocs(e, n) && LeavesOperable(e, n)
    ensures Represents(stack + [t], trees + [e], n)
  {
  }

  function ResultToken(docs: seq<int>): IeeToken {
    IeeToken('r', 0, 0.0, [], docs, [])
  }

  /** Pops the operand on top of the stack. */
  method PopOperand(stack: VecToken, ghost trees: seq<Expr<IeeToken>>, ghost n: nat) returns (docs: seq<int>)
    requires stack.Valid() && Represents(stack.Contents(), trees, n) && |trees| > 0
    modifies stack`counter
    ensures stack.Valid() && Represents(stack.Contents(), trees[..|trees| - 1], n)
    ensures docs == EvalDocs(trees[|trees| - 1], n) && Operable(docs, n)
    ensures LeavesOperable(trees[|trees| - 1], n)
  {
    RepresentsPop(stack.Contents(), trees, n);
    var top := stack.PeekBack();
    docs := top.docs;
    stack.PopBack();
  }

  method PushResult(stack: VecToken, docs: seq<int>, ghost trees: seq<Expr<IeeToken>>, ghost e: Expr<IeeToken>,
                    ghost n: nat)
    requires stack.Valid() && Represents(stack.Contents(), trees, n)
    requires docs == EvalDocs(e, n) && LeavesOperable(e, n)
    modifies stack, stack.elems
    ensures stack.Valid() && (stack.elems == old(stack.elems) || fresh(stack.elems))
    ensures Represents(stack.Contents(), trees + [e], n)
  {
    RepresentsPush(stack.Contents(), trees, n, ResultToken(docs), e);
    stack.PushBack(ResultToken(docs));
  }

  /** One round of the loop for `&` and `|`, both operands being there. */
  method BinaryStep(stack: VecToken, n: nat, count: array<Byte>, isAnd: bool, ghost trees: seq<Expr<IeeToken>>)
    returns (ghost trees': seq<Expr<IeeToken>>)
    requires stack.Valid() && Represents(stack.Contents(), trees, n) && |trees| >= 2 && n <= count.Length
    modifies stack, stack.elems, count
    ensures stack.Valid() && (stack.elems == old(stack.elems) || fresh(stack.elems))
    ensures ReadSymbol(if isAnd then AndSymbol else OrSymbol, trees) == Some(trees')
    ensures Represents(stack.Contents(), trees', n)
  {
    hide Represents, Operable, EvalDocs, LeavesOperable;
    ghost var m := |trees|;
    ghost var l, r := trees[m - 2], trees[m - 1];
    var right := PopOperand(stack, trees, n);
    var left := PopOperand(stack, trees[..m - 1], n);
    assert trees[..m - 1][..m - 2] == trees[..m - 2];
    OperableIs(right, n);
    OperableIs(left, n);
    ghost var e := if isAnd then And(l, r) else Or(l, r);
    BinaryDocs(l, r, n, left, right);
    var v: VecInt;
    if isAnd {
      v := VecIntersection(right, left, count, n);
    } else {
      v := VecUnion(right, left, count, n);
    }
    PushResult(stack, v.elems[..v.counter], trees[..m - 2], e, n);
    trees' := trees[..m - 2] + [e];
  }

  lemma OperableIs(docs: seq<int>, n: nat)
    requires Operable(docs, n)
    ensures Distinct(docs) && InRange(docs, n)
  {
  }

  lemma BinaryDocs(l: Expr<IeeToken>, r: Expr<IeeToken>, n: nat, left: seq<int>, right: seq<int>)
    requires left == EvalDocs(l, n) && right == EvalDocs(r, n) && LeavesOperable(l, n) && LeavesOperable(r, n)
    ensures EvalDocs(And(l, r), n) == Select(ToSet(right) * ToSet(left), n) && LeavesOperable(And(l, r), n)
    ensures EvalDocs(Or(l, r), n) == Select(ToSet(right) + ToSet(left), n) && LeavesOperable(Or(l, r), n)
  {
    assert ToSet(left) * ToSet(right) == ToSet(right) * ToSet(left);
    assert ToSet(left) + ToSet(right) == ToSet(right) + ToSet(left);
  }

  method NotStep(stack: VecToken, n: nat, count: array<Byte>, ghost trees: seq<Expr<IeeToken>>)
    returns (ghost trees': seq<Expr<IeeToken>>)
    requires stack.Valid() && Represents(stack.Contents(), trees, n) && |trees| >= 1 && n <= count.Length
    modifies stack, stack.elems, count
    ensures stack.Valid() && (stack.elems == old(stack.elems) || fresh(stack.elems))
    ensures ReadSymbol(NotSymbol, trees) == Some(trees')
    ensures Represents(stack.Contents(), trees', n)
  {
    ghost var m := |trees|;
    ghost var a := trees[m - 1];
    var negate := PopOperand(stack, trees, n);
    var v := NotDocs(n, negate, count);
    PushResult(stack, v.elems[..v.counter], trees[..m - 1], Not(a), n);
    trees' := trees[..m - 1] + [Not(a)];
  }

  /** The operands among the tokens list existing documents, each once. */
  predicate TokensOperable(tokens: seq<IeeToken>, n: nat) {
    forall i :: 0 <= i < |tokens| && Shape(tokens[i]).Operand? ==> Operable(tokens[i].docs, n)
  }

  /**
  evaluate(): it exits without a result exactly when the tokens are not in postfix form;
  otherwise the result is the evaluation of the one tree they are the form of.
  */
  method Evaluate(query: VecToken, n: nat, count: array<Byte>) returns (outcome: Outcome)
    requires query.Valid() && n <= count.Length && TokensOperable(query.Contents(), n)
    modifies count
    ensures outcome.Docs? <==> IsPostfix(Shapes(query.Contents()))
    ensures forall e :: Postfix<IeeToken>(e) == Shapes(query.Contents()) ==>
              outcome == Docs(EvalDocs(e, n)) && LeavesOperable(e, n)
  {
    ghost var tokens := query.Contents();
    ghost var p := Shapes(tokens);
    var stack := new VecToken(MAX_QUERY_TOKENS);
    ghost var trees: seq<Expr<IeeToken>> := [];
    hide Represents, LeavesOperable, EvalDocs;
    StartEvaluation(p, n);
    AcceptsExactlyPostfix(p);
    for i := 0 to query.counter
      invariant stack.Valid() && fresh(stack) && fresh(stack.elems)
      invariant Represents(stack.Contents(), trees, n)
      invariant Read(p, []) == Read(p[i..], trees)
      invariant query.Valid() && query.Contents() == tokens
    {
      var token := query.elems[i];
      assert p[i] == Shape(token) && p[i..][0] == p[i] && p[i..][1..] == p[i + 1..];
      StackHeight(stack.Contents(), trees, n);
      if token.kind == '&' {
        if stack.counter < 2 {
          return Exit("Insufficient operands for AND!");
        }
        trees := BinaryStep(stack, n, count, true, trees);
      } else if token.kind == '|' {
        if stack.counter < 2 {
          return Exit("Insufficient operands for OR!");
        }
        trees := BinaryStep(stack, n, count, false, trees);
      } else if token.kind == '!' {
        if stack.counter < 1 {
          return Exit("Insufficient operands for NOT!");
        }
        trees := NotStep(stack, n, count, trees);
      } else {
        LeafRepresents(tokens, i, n);
        RepresentsPush(stack.Contents(), trees, n, token, Leaf(token));
        stack.PushBack(token);
        trees := trees + [Leaf(token)];
      }
    }
    StackHeight(stack.Contents(), trees, n);
    assert p[query.counter..] == [];
    if stack.counter != 1 {
      return Exit("Wrong number of operands left");
    }
    var top := stack.PeekBack();
    TopRepresents(stack.Contents(), trees, n);
    return Docs(top.docs);
  }

  lemma StartEvaluation(p: seq<Symbol<IeeToken>>, n: nat)
    ensures Represents([], [], n) && p[0..] == p
  {
  }

  lemma StackHeight(stack: seq<IeeToken>, trees: seq<Expr<IeeToken>>, n: nat)
    requires Represents(stack, trees, n)
    ensures |stack| == |trees|
  {
  }

  lemma LeafRepresents(tokens: seq<IeeToken>, i: nat, n: nat)
    requires i < |tokens| && TokensOperable(tokens, n) && Shape(tokens[i]).Operand?
    ensures EvalDocs(Leaf(tokens[i]), n) == tokens[i].docs && LeavesOperable(Leaf(tokens[i]), n)
  {
  }

  lemma TopRepresents(stack: seq<IeeToken>, trees: seq<Expr<IeeToken>>, n: nat)
    requires Represents(stack, trees, n) && |stack| == 1
    ensures trees == [trees[0]] && stack[0].docs == EvalDocs(trees[0], n) && LeavesOperable(trees[0], n)
  {
  }
}
