/**
Boolean formulas over any kind of operand, and their postfix form.

The client turns a query into postfix, the enclave evaluates postfix on a stack. Both
are specified by the tree in between: `Postfix` writes a tree down, `Read` is the
stack machine that reads one back.
*/
module Formula {
  import opened Options

  datatype Expr<T> =
    | Leaf(value: T)
    | Not(arg: Expr<T>)
    | And(left: Expr<T>, right: Expr<T>)
    | Or(left: Expr<T>, right: Expr<T>)

  datatype Symbol<T> = Operand(value: T) | AndSymbol | OrSymbol | NotSymbol

  function Postfix<T>(e: Expr<T>): seq<Symbol<T>> {
    match e
    case Leaf(v) => [Operand(v)]
    case Not(a) => Postfix(a) + [NotSymbol]
    case And(l, r) => Postfix(l) + Postfix(r) + [AndSymbol]
    case Or(l, r) => Postfix(l) + Postfix(r) + [OrSymbol]
  }

  /** The truth value of a formula when `truth` says which operands hold. */
  predicate Holds<T>(e: Expr<T>, truth: T -> bool) {
    match e
    case Leaf(v) => truth(v)
    case Not(a) => !Holds(a, truth)
    case And(l, r) => Holds(l, truth) && Holds(r, truth)
    case Or(l, r) => Holds(l, truth) || Holds(r, truth)
  }

  function Leaves<T>(e: Expr<T>): set<T> {
    match e
    case Leaf(v) => {v}
    case Not(a) => Leaves(a)
    case And(l, r) => Leaves(l) + Leaves(r)
    case Or(l, r) => Leaves(l) + Leaves(r)
  }

  /** One step of the stack machine on trees; None is an operator that lacks operands. */
  function ReadSymbol<T>(symbol: Symbol<T>, stack: seq<Expr<T>>): Option<seq<Expr<T>>> {
    var n := |stack|;
    match symbol
    case Operand(v) => Some(stack + [Leaf(v)])
    case NotSymbol => if n < 1 then None else Some(stack[..n - 1] + [Not(stack[n - 1])])
    case AndSymbol => if n < 2 then None else Some(stack[..n - 2] + [And(stack[n - 2], stack[n - 1])])
    case OrSymbol => if n < 2 then None else Some(stack[..n - 2] + [Or(stack[n - 2], stack[n - 1])])
  }

  function Read<T>(p: seq<Symbol<T>>, stack: seq<Expr<T>>): Option<seq<Expr<T>>>
    decreases |p|
  {
    if |p| == 0 then Some(stack)
    else
      match ReadSymbol(p[0], stack)
      case None => None
      case Some(next) => Read(p[1..], next)
  }

  ghost predicate IsPostfix<T(!new)>(p: seq<Symbol<T>>) {
    exists e :: Postfix<T>(e) == p
  }

  lemma {:induction false} ReadConcat<T>(p: seq<Symbol<T>>, q: seq<Symbol<T>>, stack: seq<Expr<T>>)
    ensures Read(p + q, stack) == match Read(p, stack) case None => None case Some(next) => Read(q, next)
    decreases |p|
  {
    if p == [] {
      assert p + q == q;
    } else {
      assert (p + q)[1..] == p[1..] + q;
      match ReadSymbol(p[0], stack)
      case None =>
      case Some(next) => ReadConcat(p[1..], q, next);
    }
  }

  /** Reading the postfix form of a tree pushes that tree. */
  lemma {:induction false} ReadPostfix<T>(e: Expr<T>, stack: seq<Expr<T>>)
    ensures Read(Postfix(e), stack) == Some(stack + [e])
    decreases e
  {
    match e
    case Leaf(v) =>
      assert Postfix(e)[1..] == [];
    case Not(a) =>
      ReadConcat(Postfix(a), [NotSymbol], stack);
      ReadPostfix(a, stack);
      ReadLast(NotSymbol, stack + [a]);
    case And(l, r) =>
      ReadPostfix(l, stack);
      ReadPostfix(r, stack + [l]);
      ReadPair(l, r, AndSymbol, stack);
    case Or(l, r) =>
      ReadPostfix(l, stack);
      ReadPostfix(r, stack + [l]);
      ReadPair(l, r, OrSymbol, stack);
  }

  lemma ReadLast<T>(symbol: Symbol<T>, stack: seq<Expr<T>>)
    ensures Read([symbol], stack) == ReadSymbol(symbol, stack)
  {
    assert [symbol][1..] == [];
  }

  lemma ReadPair<T>(l: Expr<T>, r: Expr<T>, symbol: Symbol<T>, stack: seq<Expr<T>>)
    requires symbol == AndSymbol || symbol == OrSymbol
    requires Read(Postfix(l), stack) == Some(stack + [l])
    requires Read(Postfix(r), stack + [l]) == Some(stack + [l] + [r])
    ensures Read(Postfix(l) + Postfix(r) + [symbol], stack)
         == Some(stack + [if symbol == AndSymbol then And(l, r) else Or(l, r)])
  {
    ReadConcat(Postfix(l) + Postfix(r), [symbol], stack);
    ReadConcat(Postfix(l), Postfix(r), stack);
    ReadLast(symbol, stack + [l] + [r]);
    assert (stack + [l] + [r])[..|stack|] == stack;
  }

  function PostfixAll<T>(stack: seq<Expr<T>>): seq<Symbol<T>> {
    if stack == [] then [] else PostfixAll(stack[..|stack| - 1]) + Postfix(stack[|stack| - 1])
  }

  lemma PostfixAllSnoc<T>(stack: seq<Expr<T>>, e: Expr<T>)
    ensures PostfixAll(stack + [e]) == PostfixAll(stack) + Postfix(e)
  {
    assert (stack + [e])[..|stack|] == stack;
  }

  lemma ReadSymbolInverse<T>(symbol: Symbol<T>, stack: seq<Expr<T>>)
    requires ReadSymbol(symbol, stack).Some?
    ensures PostfixAll(ReadSymbol(symbol, stack).value) == PostfixAll(stack) + [symbol]
  {
    var n := |stack|;
    if symbol.Operand? {
      PostfixAllSnoc(stack, Leaf(symbol.value));
    } else if symbol == NotSymbol {
      PostfixAllSnoc(stack[..n - 1], Not(stack[n - 1]));
    } else {
      var l, r := stack[n - 2], stack[n - 1];
      assert stack[..n - 1][..n - 2] == stack[..n - 2];
      PostfixAllSnoc(stack[..n - 2], if symbol == AndSymbol then And(l, r) else Or(l, r));
    }
  }

  /** Whatever the stack machine accepts is the postfix form of what it leaves on the stack. */
  lemma {:induction false} ReadInverse<T>(p: seq<Symbol<T>>, stack: seq<Expr<T>>)
    requires Read(p, stack).Some?
    ensures PostfixAll(Read(p, stack).value) == PostfixAll(stack) + p
    decreases |p|
  {
    if p == [] {
    } else {
      var next := ReadSymbol(p[0], stack).value;
      ReadSymbolInverse(p[0], stack);
      ReadInverse(p[1..], next);
      assert [p[0]] + p[1..] == p;
    }
  }

  lemma PostfixAllOne<T>(e: Expr<T>)
    ensures PostfixAll([e]) == Postfix(e)
  {
    assert [e][..0] == [];
  }

  /** The machine accepts exactly the postfix forms of trees, and finds the tree. */
  lemma AcceptsExactlyPostfix<T(!new)>(p: seq<Symbol<T>>)
    ensures IsPostfix(p) <==> Read(p, []).Some? && |Read(p, []).value| == 1
    ensures forall e :: Postfix<T>(e) == p ==> Read(p, []) == Some([e])
  {
    forall e | Postfix<T>(e) == p ensures Read(p, []) == Some([e]) {
      ReadPostfix(e, []);
      assert [] + [e] == [e];
    }
    if Read(p, []).Some? && |Read(p, []).value| == 1 {
      var stack := Read(p, []).value;
      ReadInverse(p, []);
      assert stack == [stack[0]];
      PostfixAllOne(stack[0]);
      assert Postfix(stack[0]) == p;
    }
  }

  /** A postfix list is the form of one tree only. */
  lemma PostfixUnique<T(!new)>(e: Expr<T>, f: Expr<T>)
    requires Postfix(e) == Postfix(f)
    ensures e == f
  {
    AcceptsExactlyPostfix(Postfix(e));
    assert Read(Postfix(e), []) == Some([e]);
    assert Read(Postfix(e), []) == Some([f]);
  }

  /** Renames the operands of a formula. */
  function Map<S, T>(e: Expr<S>, f: S -> T): Expr<T> {
    match e
    case Leaf(v) => Leaf(f(v))
    case Not(a) => Not(Map(a, f))
    case And(l, r) => And(Map(l, f), Map(r, f))
    case Or(l, r) => Or(Map(l, f), Map(r, f))
  }
}
