/**
 find's parser accepts exactly the grammar, and its trees mean what the grammar says.
 */
module FindProof {
  import opened Basics
  import opened FindGrammar
  import opened FindParse

  /** The words with every -a. */
  function Full(e: Expr): seq<Tok>
  {
    match e
    case Primary(p) => [PRIM(p)]
    case Paren(e) => [LPAR] + Full(e) + [RPAR]
    case Not(e) => [NOT] + Full(e)
    case And(l, r, w) => Full(l) + [AND(w)] + Full(r)
    case Or(l, r) => Full(l) + [OR] + Full(r)
  }

  /** The tree of an expression: parentheses are gone. */
  function Strip(e: Expr): Tree
  {
    match e
    case Primary(p) => Leaf(p)
    case Paren(e) => Strip(e)
    case Not(e) => NotNode(Strip(e))
    case And(l, r, _) => AndNode(Strip(l), Strip(r))
    case Or(l, r) => OrNode(Strip(l), Strip(r))
  }

  lemma {:induction false} StripMeans(e: Expr, run: Runner, trace: seq<Prim>)
    ensures Eval(Strip(e), run, trace) == Meaning(e, run, trace)
  {
    match e
    case Primary(p) =>
    case Paren(e) => StripMeans(e, run, trace);
    case Not(e) => StripMeans(e, run, trace);
    case And(l, r, _) =>
      StripMeans(l, run, trace);
      StripMeans(r, run, Meaning(l, run, trace).trace);
    case Or(l, r) =>
      StripMeans(l, run, trace);
      StripMeans(r, run, Meaning(l, run, trace).trace);
  }

  // ----- implicit -a

  function Last(ts: seq<Tok>, last: Option<Tok>): Option<Tok>
  {
    if ts == [] then last else Some(ts[|ts| - 1])
  }

  lemma {:induction false} InfixConcat(a: seq<Tok>, b: seq<Tok>, last: Option<Tok>)
    requires Infix(a, last).Some? && Infix(b, Last(a, last)).Some?
    ensures Infix(a + b, last) == Some(Infix(a, last).value + Infix(b, Last(a, last)).value)
    decreases |a|
  {
    hide EndsOperand, StartsOperand;
    if a == [] {
      assert a + b == b && [] + Infix(b, last).value == Infix(b, last).value;
    } else {
      assert (a + b)[0] == a[0] && (a + b)[1..] == a[1..] + b;
      InfixConcat(a[1..], b, Some(a[0]));
      var pre: seq<Tok> := if EndsOperand(last) && StartsOperand(a[0]) then [AND(false)] else [];
      Regroup(pre, [a[0]], Infix(a[1..], Some(a[0])).value, Infix(b, Last(a, last)).value);
    }
  }

  /** Expressions begin and end with operands. */
  lemma {:induction false} WordsEnds(e: Expr)
    ensures Words(e) != [] && StartsOperand(Words(e)[0]) && EndsOperand(Some(Words(e)[|Words(e)| - 1]))
    ensures Full(e) != [] && StartsOperand(Full(e)[0])
  {
    match e
    case Primary(p) =>
    case Paren(e) =>
    case Not(e) => WordsEnds(e);
    case And(l, r, _) => WordsEnds(l); WordsEnds(r);
    case Or(l, r) => WordsEnds(l); WordsEnds(r);
  }

  /** An -a goes before an operand that follows an operand. */
  function Joint(last: Option<Tok>): seq<Tok> { if EndsOperand(last) then [AND(false)] else [] }

  lemma InfixOne(t: Tok, last: Option<Tok>)
    requires last == Some(LPAR) ==> !t.RPAR?
    ensures Infix([t], last) == Some((if StartsOperand(t) then Joint(last) else []) + [t])
  {
    assert Infix([t][1..], Some(t)) == Some([]);
    var pre := if StartsOperand(t) then Joint(last) else [];
    assert pre + [t] + [] == pre + [t];
  }

  /** The first loop writes every -a that was left out, and no other. */
  lemma {:induction false} InfixIsFull(e: Expr, last: Option<Tok>)
    ensures Infix(Words(e), last) == Some(Joint(last) + Full(e))
  {
    hide Infix, Joint;
    WordsEnds(e);
    match e
    case Primary(p) => InfixOne(PRIM(p), last);
    case Paren(e') =>
      InfixIsFull(e', Some(LPAR));
      InfixParen(e', last);
    case Not(e') =>
      InfixIsFull(e', Some(NOT));
      InfixNot(e', last);
    case And(l, r, w) =>
      InfixIsFull(l, last);
      WordsEnds(l);
      InfixIsFull(r, if w then Some(AND(true)) else Last(Words(l), None));
      InfixBinary(l, r, if w then [AND(true)] else [], AND(w), last);
    case Or(l, r) =>
      InfixIsFull(l, last);
      InfixIsFull(r, Some(OR));
      InfixBinary(l, r, [OR], OR, last);
  }

  lemma InfixParen(e: Expr, last: Option<Tok>)
    requires Infix(Words(e), Some(LPAR)) == Some(Joint(Some(LPAR)) + Full(e))
    ensures Infix([LPAR] + Words(e) + [RPAR], last) == Some(Joint(last) + ([LPAR] + Full(e) + [RPAR]))
  {
    hide Infix, Full, Words;
    WordsEnds(e);
    InfixOne(LPAR, last);
    Regroup(Joint(last), [LPAR], Full(e), [RPAR]);
    assert Joint(Some(LPAR)) + Full(e) == Full(e);
    InfixConcat([LPAR], Words(e), last);
    var w := Last([LPAR] + Words(e), last);
    InfixOne(RPAR, w);
    assert [] + [RPAR] == [RPAR];
    InfixConcat([LPAR] + Words(e), [RPAR], last);
  }

  lemma InfixNot(e: Expr, last: Option<Tok>)
    requires Infix(Words(e), Some(NOT)) == Some(Joint(Some(NOT)) + Full(e))
    ensures Infix([NOT] + Words(e), last) == Some(Joint(last) + ([NOT] + Full(e)))
  {
    hide Infix, Full, Words;
    InfixOne(NOT, last);
    assert Joint(last) + [NOT] + Full(e) == Joint(last) + ([NOT] + Full(e));
    assert Joint(Some(NOT)) + Full(e) == Full(e);
    InfixConcat([NOT], Words(e), last);
  }

  lemma Regroup<T>(a: seq<T>, b: seq<T>, c: seq<T>, d: seq<T>)
    ensures a + b + c + d == a + (b + c + d) == a + b + (c + d)
  {
  }

  lemma InfixBinary(l: Expr, r: Expr, op: seq<Tok>, t: Tok, last: Option<Tok>)
    requires (op == [t] && (t == AND(true) || t == OR)) || (op == [] && t == AND(false))
    requires var last' := Last(op, Last(Words(l), None));
             Infix(Words(l), last) == Some(Joint(last) + Full(l))
               && Infix(Words(r), last') == Some(Joint(last') + Full(r))
    ensures Infix(Words(l) + op + Words(r), last) == Some(Joint(last) + (Full(l) + [t] + Full(r)))
  {
    hide Infix, Full, Words;
    WordsEnds(l);
    var w := Last(Words(l), None);
    Regroup(Joint(last), Full(l), [t], Full(r));
    if op == [] {
      assert Words(l) + op == Words(l) && Joint(w) == [t];
      InfixConcat(Words(l), Words(r), last);
    } else {
      InfixOne(t, w);
      InfixConcat(Words(l), op, last);
      assert Joint(Some(t)) + Full(r) == Full(r);
      assert Infix(Words(l) + op, last) == Some(Joint(last) + Full(l) + [t]) by {
        assert [] + [t] == [t];
      }
      InfixConcat(Words(l) + op, Words(r), last);
    }
  }

  // ----- reading an expression of the grammar

  /** The last n operators are popped. */
  function Pops(y: Yard, n: nat): Yard
    requires n <= |y.ops|
    decreases n
  {
    if n == 0 then y else Pops(Pop(y), n - 1)
  }

  lemma {:induction false} PopsOps(y: Yard, n: nat)
    requires n <= |y.ops|
    ensures Pops(y, n).ops == y.ops[..|y.ops| - n]
    decreases n
  {
    if n > 0 {
      PopsOps(Pop(y), n - 1);
    }
  }

  lemma {:induction false} PopsLast(y: Yard, n: nat)
    requires n < |y.ops|
    ensures Pops(y, n).ops != [] && Pops(y, n + 1) == Pop(Pops(y, n))
    decreases n
  {
    PopsOps(y, n);
    if n > 0 {
      PopsLast(Pop(y), n - 1);
    }
  }

  /** The top n operators have at least precedence p. */
  ghost predicate Pending(ops: seq<Tok>, n: nat, p: int)
  {
    n <= |ops| && forall k :: |ops| - n <= k < |ops| ==> IsOp(ops[k]) && Prec(ops[k]) >= p
  }

  /** Nothing below them has. */
  ghost predicate Low(ops: seq<Tok>, p: int)
  {
    ops != [] ==> Prec(ops[|ops| - 1]) < p
  }

  lemma {:induction false} PopForPending(y: Yard, n: nat, t: Tok)
    requires LAssoc(t) && Pending(y.ops, n, Prec(t)) && Low(y.ops[..|y.ops| - n], Prec(t))
    ensures PopFor(y, t) == Pops(y, n)
    decreases n
  {
    if n == 0 {
      assert y.ops[..|y.ops|] == y.ops;
    } else {
      var z := Pop(y);
      assert z.ops[..|z.ops| - (n - 1)] == y.ops[..|y.ops| - n];
      PopForPending(z, n - 1, t);
    }
  }

  lemma {:induction false} PopParenPending(y: Yard, n: nat)
    requires Pending(y.ops, n, 1) && n < |y.ops| && y.ops[|y.ops| - n - 1].LPAR?
    ensures Pops(y, n).ops != []
    ensures PopParen(y) == Some(Yard(Pops(y, n).out, y.ops[..|y.ops| - n - 1]))
    decreases n
  {
    PopsOps(y, n);
    if n > 0 {
      var z := Pop(y);
      assert z.ops[..|z.ops| - (n - 1) - 1] == y.ops[..|y.ops| - n - 1];
      PopParenPending(z, n - 1);
    }
  }

  lemma {:induction false} DrainPending(y: Yard)
    requires Pending(y.ops, |y.ops|, 1)
    ensures Drain(y) == Some(Pops(y, |y.ops|).out)
    decreases |y.ops|
  {
    if y.ops != [] {
      DrainPending(Pop(y));
    }
  }

  lemma {:induction false} ShuntConcat(y: Yard, a: seq<Tok>, b: seq<Tok>)
    requires ShuntAll(y, a).Some?
    ensures ShuntAll(y, a + b) == ShuntAll(ShuntAll(y, a).value, b)
    decreases |a|
  {
    if a == [] {
      assert a + b == b;
    } else {
      assert (a + b)[0] == a[0] && (a + b)[1..] == a[1..] + b;
      ShuntConcat(Shunt(y, a[0]).value, a[1..], b);
    }
  }

  lemma ShuntOne(y: Yard, t: Tok)
    ensures ShuntAll(y, [t]) == Shunt(y, t)
  {
    assert [t][1..] == [];
  }

  lemma TreesNext(out: seq<Tok>, t: Tok)
    requires Trees(out).Some?
    ensures Trees(out + [t]) == Grow(Trees(out).value, t)
  {
    assert (out + [t])[..|out|] == out;
  }

  /** y became z by reading an expression: n operators of it are still on the stack, and
      popping them completes its tree. */
  ghost predicate Read(y: Yard, z: Yard, n: nat, p: int, trees: seq<Tree>, t: Tree)
  {
    && Pending(z.ops, n, p) && z.ops[..|z.ops| - n] == y.ops
    && Trees(Pops(z, n).out) == Some(trees + [t])
  }

  /** y is ready for an expression of level p. */
  ghost predicate Ready(y: Yard, p: int, trees: seq<Tree>)
  {
    Trees(y.out) == Some(trees) && (p < 3 ==> Low(y.ops, p))
  }

  lemma Weaker(y: Yard, z: Yard, n: nat, p: int, q: int, trees: seq<Tree>, t: Tree)
    requires Read(y, z, n, q, trees, t) && p <= q
    ensures Read(y, z, n, p, trees, t)
  {
  }

  /** A binary operator after its left operand. */
  lemma PushBinary(y: Yard, y1: Yard, m: nat, t: Tok, trees: seq<Tree>, tl: Tree) returns (y2: Yard)
    requires LAssoc(t) && Read(y, y1, m, Prec(t), trees, tl) && Low(y.ops, Prec(t))
    ensures Shunt(y1, t) == Some(y2) && y2.ops == y.ops + [t] && Ready(y2, Prec(t) + 1, trees + [tl])
  {
    hide Trees;
    PopForPending(y1, m, t);
    PopsOps(y1, m);
    var w := Pops(y1, m);
    y2 := Yard(w.out, w.ops + [t]);
  }

  /** Operator t was pushed, and its right operand has been read. */
  lemma CloseOp(y: Yard, t: Tok, y2: Yard, z: Yard, k: nat, p: int, q: int, mid: seq<Tree>, tr: Tree, trees: seq<Tree>,
                node: Tree)
    requires y2.ops == y.ops + [t] && Read(y2, z, k, q, mid, tr) && IsOp(t) && p <= Prec(t) && p <= q
    requires Grow(mid + [tr], t) == Some(trees + [node])
    ensures Read(y, z, k + 1, p, trees, node)
  {
    hide Trees, Grow;
    PopsOps(z, k);
    PopsLast(z, k);
    var w := Pops(z, k);
    assert w.ops[|w.ops| - 1] == t && z.ops[|z.ops| - k - 1] == t;
    TreesNext(w.out, t);
    assert z.ops[..|z.ops| - (k + 1)] == y.ops;
  }

  lemma CloseParen(y: Yard, y1: Yard, y2: Yard, m: nat, trees: seq<Tree>, t: Tree) returns (z: Yard)
    requires y1.ops == y.ops + [LPAR] && Read(y1, y2, m, 1, trees, t)
    ensures Shunt(y2, RPAR) == Some(z) && Read(y, z, 0, 3, trees, t)
  {
    hide Trees;
    assert y2.ops[..|y2.ops| - m][|y.ops|] == LPAR;
    PopParenPending(y2, m);
    z := Yard(Pops(y2, m).out, y2.ops[..|y2.ops| - m - 1]);
    assert z.ops == y.ops && z.ops[..|z.ops|] == z.ops;
  }

  lemma ShuntTwo(y: Yard, a: seq<Tok>, t: Tok, b: seq<Tok>)
    requires ShuntAll(y, a).Some? && Shunt(ShuntAll(y, a).value, t).Some?
    ensures ShuntAll(y, a + [t] + b) == ShuntAll(Shunt(ShuntAll(y, a).value, t).value, b)
  {
    hide Shunt;
    var y1 := ShuntAll(y, a).value;
    ShuntOne(y1, t);
    ShuntConcat(y, a, [t]);
    ShuntConcat(y, a + [t], b);
  }

  lemma GrowBinary(trees: seq<Tree>, l: Tree, r: Tree, w: bool)
    ensures Grow(trees + [l] + [r], AND(w)) == Some(trees + [AndNode(l, r)])
    ensures Grow(trees + [l] + [r], OR) == Some(trees + [OrNode(l, r)])
  {
    var s := trees + [l] + [r];
    assert s[..|s| - 2] == trees;
  }

  /** The yard reads any expression of the grammar, in any place where it may stand. */
  lemma {:induction false} ReadExpr(e: Expr, p: int, y: Yard, trees: seq<Tree>) returns (z: Yard, n: nat)
    requires InGrammar(e) && 1 <= p <= Level(e) && Ready(y, p, trees)
    ensures ShuntAll(y, Full(e)) == Some(z) && Read(y, z, n, p, trees, Strip(e))
    decreases e
  {
    hide Read, ShuntAll, Trees, Grow;
    match e
    case Primary(q) =>
      z, n := ReadPrimary(q, p, y, trees);
    case Paren(e') =>
      var y1 := Yard(y.out, y.ops + [LPAR]);
      ShuntOne(y, LPAR);
      var y2, m := ReadExpr(e', 1, y1, trees);
      z := CloseParen(y, y1, y2, m, trees, Strip(e'));
      n := 0;
      Weaker(y, z, 0, p, 3, trees, Strip(e'));
      ShuntConcat(y, [LPAR], Full(e'));
      ShuntOne(y2, RPAR);
      ShuntConcat(y, [LPAR] + Full(e'), [RPAR]);
    case Not(e') =>
      var y1 := Yard(y.out, y.ops + [NOT]);
      PushNot(y);
      ShuntOne(y, NOT);
      var k;
      z, k := ReadExpr(e', 3, y1, trees);
      n := k + 1;
      GrowNot(trees, Strip(e'));
      CloseOp(y, NOT, y1, z, k, p, 3, trees, Strip(e'), trees, NotNode(Strip(e')));
      ShuntConcat(y, [NOT], Full(e'));
    case And(l, r, w) =>
      var y1, m := ReadExpr(l, 2, y, trees);
      var y2 := PushBinary(y, y1, m, AND(w), trees, Strip(l));
      var k;
      z, k := ReadExpr(r, 3, y2, trees + [Strip(l)]);
      n := k + 1;
      GrowBinary(trees, Strip(l), Strip(r), w);
      CloseOp(y, AND(w), y2, z, k, p, 3, trees + [Strip(l)], Strip(r), trees, Strip(e));
      ShuntTwo(y, Full(l), AND(w), Full(r));
    case Or(l, r) =>
      var y1, m := ReadExpr(l, 1, y, trees);
      var y2 := PushBinary(y, y1, m, OR, trees, Strip(l));
      var k;
      z, k := ReadExpr(r, 2, y2, trees + [Strip(l)]);
      n := k + 1;
      GrowBinary(trees, Strip(l), Strip(r), true);
      CloseOp(y, OR, y2, z, k, p, 2, trees + [Strip(l)], Strip(r), trees, Strip(e));
      ShuntTwo(y, Full(l), OR, Full(r));
  }

  lemma ReadPrimary(q: Prim, p: int, y: Yard, trees: seq<Tree>) returns (z: Yard, n: nat)
    requires Ready(y, p, trees)
    ensures ShuntAll(y, [PRIM(q)]) == Some(z) && Read(y, z, n, p, trees, Leaf(q))
  {
    z, n := Yard(y.out + [PRIM(q)], y.ops), 0;
    ShuntOne(y, PRIM(q));
    TreesNext(y.out, PRIM(q));
    assert z.ops[..|z.ops| - n] == y.ops;
  }

  lemma PushNot(y: Yard)
    ensures Shunt(y, NOT) == Some(Yard(y.out, y.ops + [NOT]))
  {
  }

  lemma GrowNot(trees: seq<Tree>, t: Tree)
    ensures Grow(trees + [t], NOT) == Some(trees + [NotNode(t)])
  {
    var s := trees + [t];
    assert s[..|s| - 1] == trees;
  }

  /** Every expression of the grammar becomes its tree. */
  lemma ReadAll(e: Expr)
    requires InGrammar(e)
    ensures var y := ShuntAll(Yard([], []), Full(e));
            y.Some? && Drain(y.value).Some? && Trees(Drain(y.value).value) == Some([Strip(e)])
  {
    var z, n := ReadExpr(e, 1, Yard([], []), []);
    assert n == |z.ops|;
    DrainPending(z);
    assert [] + [Strip(e)] == [Strip(e)];
  }

  /** find with an expression of the grammar runs the primaries that the grammar's meaning
      runs, in the same order and with the same result. */
  lemma ParseMeans(e: Expr, run: Runner, trace: seq<Prim>)
    requires InGrammar(e)
    ensures Parse(Words(e)) == Some(Strip(WithPrint(e)))
    ensures Eval(Parse(Words(e)).value, run, trace) == Meaning(WithPrint(e), run, trace)
  {
    hide Trees, Grow, ShuntAll, Drain, Infix;
    InfixIsFull(e, None);
    assert Joint(None) + Full(e) == Full(e);
    ReadAll(e);
    ActionWords(e);
    WordsEnds(e);
    var out := Drain(ShuntAll(Yard([], []), Full(e)).value).value;
    AddPrint(out, [Strip(e)]);
    assert out + [] == out;
    StripMeans(WithPrint(e), run, trace);
  }

  lemma {:induction false} ActionWords(e: Expr)
    ensures HasAction(e) <==> AnyAction(Words(e))
  {
    match e
    case Primary(p) => assert Words(e)[0] == PRIM(p);
    case Paren(e') => ActionWords(e'); AnyConcat([LPAR], Words(e')); AnyConcat([LPAR] + Words(e'), [RPAR]);
    case Not(e') => ActionWords(e'); AnyConcat([NOT], Words(e'));
    case And(l, r, w) =>
      var op := if w then [AND(true)] else [];
      ActionWords(l);
      ActionWords(r);
      AnyConcat(Words(l), op);
      AnyConcat(Words(l) + op, Words(r));
    case Or(l, r) => ActionWords(l); ActionWords(r); AnyConcat(Words(l), [OR]); AnyConcat(Words(l) + [OR], Words(r));
  }

  lemma AnyConcat(a: seq<Tok>, b: seq<Tok>)
    ensures AnyAction(a + b) <==> AnyAction(a) || AnyAction(b)
  {
    if AnyAction(a) {
      var k :| 0 <= k < |a| && a[k].PRIM? && a[k].p.action;
      assert (a + b)[k] == a[k];
    }
    if AnyAction(b) {
      var k :| 0 <= k < |b| && b[k].PRIM? && b[k].p.action;
      assert (a + b)[|a| + k] == b[k];
    }
  }

  /** What -a -print does to the trees. */
  lemma AddPrint(out: seq<Tok>, s: seq<Tree>)
    requires Trees(out) == Some(s)
    ensures Trees(out + [PRIM(PRINT), AND(true)]) ==
            if s == [] then None else Some(s[..|s| - 1] + [AndNode(s[|s| - 1], Leaf(PRINT))])
  {
    hide Trees;
    TreesNext(out, PRIM(PRINT));
    TreesNext(out + [PRIM(PRINT)], AND(true));
    assert out + [PRIM(PRINT)] + [AND(true)] == out + [PRIM(PRINT), AND(true)];
    if s != [] {
      var s' := s + [Leaf(PRINT)];
      assert s'[..|s'| - 2] == s[..|s| - 1];
    }
  }

  // ----- from an accepted token list back to an expression

  /** An operator on the stack with the operand to its left, if it takes one. */
  datatype Frame = Frame(left: Option<Expr>, op: Tok)

  function FrameOps(fs: seq<Frame>): (r: seq<Tok>)
    ensures |r| == |fs|
  {
    seq(|fs|, i requires 0 <= i < |fs| => fs[i].op)
  }

  function FrameTokens(fs: seq<Frame>): seq<Tok>
  {
    if fs == [] then []
    else
      var f := fs[|fs| - 1];
      FrameTokens(fs[..|fs| - 1]) + OptTokens(f.left) + [f.op]
  }

  function OptTokens(e: Option<Expr>): seq<Tok> { if e.None? then [] else Full(e.value) }

  function OptTree(e: Option<Expr>): seq<Tree> { if e.None? then [] else [Strip(e.value)] }

  function FrameTrees(fs: seq<Frame>): seq<Tree>
  {
    if fs == [] then [] else FrameTrees(fs[..|fs| - 1]) + OptTree(fs[|fs| - 1].left)
  }

  predicate FrameOk(f: Frame)
  {
    match f.op
    case NOT => f.left.None?
    case LPAR => f.left.None?
    case AND(_) => f.left.Some? && InGrammar(f.left.value) && Level(f.left.value) >= 2
    case OR => f.left.Some? && InGrammar(f.left.value)
    case _ => false
  }

  /** A binary operator binds tighter than what is below it. */
  predicate InOrder(below: Tok, t: Tok) { LAssoc(t) ==> Prec(below) < Prec(t) }

  ghost predicate FramesOk(fs: seq<Frame>)
  {
    && (forall i :: 0 <= i < |fs| ==> FrameOk(fs[i]))
    && (forall i, j :: 0 <= i && j == i + 1 && j < |fs| ==> InOrder(fs[i].op, fs[j].op))
  }

  /** The level that an operand above the frames must have. */
  function Need(fs: seq<Frame>): int
  {
    if fs == [] then 1 else match fs[|fs| - 1].op case OR => 2 case AND(_) => 3 case NOT => 3 case _ => 1
  }

  /** The yard after reading done: frames, and an operand above them if one is complete. */
  ghost predicate Shape(y: Yard, fs: seq<Frame>, cur: Option<Expr>, done: seq<Tok>)
  {
    && FramesOk(fs) && y.ops == FrameOps(fs)
    && Trees(y.out) == Some(FrameTrees(fs) + OptTree(cur))
    && FrameTokens(fs) + OptTokens(cur) == done
    && (cur.Some? ==> InGrammar(cur.value) && Level(cur.value) >= Need(fs))
  }

  function Combine(f: Frame, e: Expr): Expr
    requires FrameOk(f) && IsOp(f.op)
  {
    match f.op
    case NOT => Not(e)
    case AND(w) => And(f.left.value, e, w)
    case OR => Or(f.left.value, e)
  }

  lemma CombineTokens(f: Frame, e: Expr, before: seq<Tok>)
    requires FrameOk(f) && IsOp(f.op)
    ensures before + OptTokens(f.left) + [f.op] + Full(e) == before + Full(Combine(f, e))
  {
    if f.op.NOT? {
      assert before + [] + [f.op] + Full(e) == before + ([f.op] + Full(e));
    } else {
      Regroup(before, Full(f.left.value), [f.op], Full(e));
    }
  }

  lemma CombineTree(f: Frame, e: Expr, below: seq<Tree>)
    requires FrameOk(f) && IsOp(f.op)
    ensures Grow(below + OptTree(f.left) + [Strip(e)], f.op) == Some(below + [Strip(Combine(f, e))])
  {
    if f.op.NOT? {
      assert below + OptTree(f.left) == below;
      GrowNot(below, Strip(e));
    } else {
      GrowBinary(below, Strip(f.left.value), Strip(e), if f.op.AND? then f.op.written else true);
    }
  }

  /** Popping an operator completes its expression. */
  lemma PopShape(y: Yard, fs: seq<Frame>, e: Expr, done: seq<Tok>) returns (fs': seq<Frame>, e': Expr)
    requires Shape(y, fs, Some(e), done) && fs != [] && IsOp(fs[|fs| - 1].op)
    ensures y.ops != [] && fs' == fs[..|fs| - 1] && y.ops[|y.ops| - 1] == fs[|fs| - 1].op
    ensures Shape(Pop(y), fs', Some(e'), done) && Level(e') == Prec(fs[|fs| - 1].op)
  {
    hide Trees, Full, Grow;
    var f := fs[|fs| - 1];
    assert FrameOk(f);
    fs', e' := fs[..|fs| - 1], Combine(f, e);
    CombineTokens(f, e, FrameTokens(fs'));
    CombineTree(f, e, FrameTrees(fs'));
    TreesNext(y.out, f.op);
    if fs' != [] {
      var i, j := |fs| - 2, |fs| - 1;
      assert InOrder(fs[i].op, fs[j].op) && FrameOk(fs[i]);
    }
    CombineInGrammar(f, e);
    assert Pop(y).ops == FrameOps(fs');
    assert FramesOk(fs');
  }

  lemma CombineInGrammar(f: Frame, e: Expr)
    requires FrameOk(f) && IsOp(f.op) && InGrammar(e) && Level(e) >= Need([f])
    ensures InGrammar(Combine(f, e)) && Level(Combine(f, e)) == Prec(f.op)
  {
  }

  /** A binary operator pops what binds at least as tightly. */
  lemma {:induction false} PopForShape(y: Yard, fs: seq<Frame>, e: Expr, done: seq<Tok>, t: Tok)
    returns (fs': seq<Frame>, e': Expr)
    requires LAssoc(t) && Shape(y, fs, Some(e), done) && Level(e) >= Prec(t)
    ensures Shape(PopFor(y, t), fs', Some(e'), done) && Level(e') >= Prec(t)
    ensures fs' != [] ==> Prec(fs'[|fs'| - 1].op) < Prec(t)
    decreases |fs|
  {
    hide Trees, FrameTrees, FrameTokens;
    if fs != [] && Yields(fs[|fs| - 1].op, t) {
      assert FrameOk(fs[|fs| - 1]);
      fs', e' := PopShape(y, fs, e, done);
      fs', e' := PopForShape(Pop(y), fs', e', done, t);
    } else {
      fs', e' := fs, e;
    }
  }

  lemma {:induction false} PopParenShape(y: Yard, fs: seq<Frame>, e: Expr, done: seq<Tok>)
    returns (fs': seq<Frame>, e': Expr)
    requires Shape(y, fs, Some(e), done) && PopParen(y).Some?
    ensures Shape(PopParen(y).value, fs', Some(Paren(e')), done + [RPAR])
    decreases |fs|
  {
    hide Trees, Full, FrameTrees, FrameTokens;
    assert FrameOk(fs[|fs| - 1]);
    if fs[|fs| - 1].op.LPAR? {
      fs', e' := CloseShape(y, fs, e, done);
    } else {
      fs', e' := PopShape(y, fs, e, done);
      fs', e' := PopParenShape(Pop(y), fs', e', done);
    }
  }

  lemma CloseShape(y: Yard, fs: seq<Frame>, e: Expr, done: seq<Tok>) returns (fs': seq<Frame>, e': Expr)
    requires Shape(y, fs, Some(e), done) && fs != [] && fs[|fs| - 1].op.LPAR?
    ensures y.ops != [] && Shape(Yard(y.out, y.ops[..|y.ops| - 1]), fs', Some(Paren(e')), done + [RPAR])
  {
    hide Trees, Full, Strip, FrameTokens, FrameTrees;
    var f := fs[|fs| - 1];
    fs', e' := fs[..|fs| - 1], e;
    assert FrameOk(f) && FramesOk(fs');
    OpenFrame(fs', f);
    assert fs == fs' + [f];
    Regroup(FrameTokens(fs'), [LPAR], Full(e), [RPAR]);
    ParenTokens(e);
    assert y.ops[..|y.ops| - 1] == FrameOps(fs');
  }

  lemma OpenFrame(fs: seq<Frame>, f: Frame)
    requires f.op.LPAR? && f.left.None?
    ensures FrameTrees(fs + [f]) == FrameTrees(fs) && FrameTokens(fs + [f]) == FrameTokens(fs) + [LPAR]
  {
    assert (fs + [f])[..|fs|] == fs;
    assert FrameTrees(fs) + [] == FrameTrees(fs) && FrameTokens(fs) + [] == FrameTokens(fs);
  }

  lemma ParenTokens(e: Expr)
    ensures Full(Paren(e)) == [LPAR] + Full(e) + [RPAR] && Strip(Paren(e)) == Strip(e)
  {
  }

  lemma {:induction false} DrainShape(y: Yard, fs: seq<Frame>, e: Expr, done: seq<Tok>) returns (e': Expr)
    requires Shape(y, fs, Some(e), done) && Drain(y).Some?
    ensures InGrammar(e') && Full(e') == done && Trees(Drain(y).value) == Some([Strip(e')])
    decreases |fs|
  {
    if fs == [] {
      e' := e;
      assert [] + Full(e) == Full(e) && [] + [Strip(e)] == [Strip(e)];
    } else {
      hide Trees, Full, FrameTrees, FrameTokens;
      assert FrameOk(fs[|fs| - 1]);
      var fs';
      fs', e' := PopShape(y, fs, e, done);
      e' := DrainShape(Pop(y), fs', e', done);
    }
  }

  /** A new operator on top; the operand goes with it. */
  lemma PushShape(y: Yard, fs: seq<Frame>, cur: Option<Expr>, done: seq<Tok>, t: Tok)
    requires Shape(y, fs, cur, done) && FrameOk(Frame(cur, t)) && (fs != [] ==> InOrder(fs[|fs| - 1].op, t))
    ensures Shape(Yard(y.out, y.ops + [t]), fs + [Frame(cur, t)], None, done + [t])
  {
    hide Trees, Full, FramesOk, FrameTokens, FrameTrees, FrameOk;
    PushFrame(fs, Frame(cur, t));
    FramesAppend(fs, Frame(cur, t));
    assert y.ops + [t] == FrameOps(fs + [Frame(cur, t)]);
  }

  lemma PushFrame(fs: seq<Frame>, f: Frame)
    ensures FrameTrees(fs + [f]) + OptTree(None) == FrameTrees(fs) + OptTree(f.left)
    ensures FrameTokens(fs + [f]) + OptTokens(None) == FrameTokens(fs) + OptTokens(f.left) + [f.op]
  {
    hide Full, Strip;
    var fs' := fs + [f];
    assert fs'[..|fs'| - 1] == fs;
    assert FrameTrees(fs') + [] == FrameTrees(fs');
    assert FrameTokens(fs') + [] == FrameTokens(fs');
  }

  lemma FramesAppend(fs: seq<Frame>, f: Frame)
    requires FramesOk(fs) && FrameOk(f) && (fs != [] ==> InOrder(fs[|fs| - 1].op, f.op))
    ensures FramesOk(fs + [f])
  {
    hide FrameOk, InOrder;
  }

  lemma PrimShape(y: Yard, fs: seq<Frame>, done: seq<Tok>, p: Prim)
    requires Shape(y, fs, None, done)
    ensures Shape(Yard(y.out + [PRIM(p)], y.ops), fs, Some(Primary(p)), done + [PRIM(p)])
  {
    hide Trees;
    TreesNext(y.out, PRIM(p));
    assert FrameTrees(fs) + [] == FrameTrees(fs);
    assert FrameTokens(fs) + [] == FrameTokens(fs);
  }

  /** Operands and binary operators take turns. */
  predicate Alternates(ts: seq<Tok>, expecting: bool)
  {
    if ts == [] then !expecting
    else match ts[0]
      case PRIM(_) => expecting && Alternates(ts[1..], false)
      case LPAR => expecting && Alternates(ts[1..], true)
      case NOT => expecting && Alternates(ts[1..], true)
      case RPAR => !expecting && Alternates(ts[1..], false)
      case _ => !expecting && Alternates(ts[1..], true)
  }

  /** One token of an alternating list. */
  lemma ShuntShape(y: Yard, fs: seq<Frame>, cur: Option<Expr>, done: seq<Tok>, t: Tok)
    returns (fs': seq<Frame>, cur': Option<Expr>)
    requires Shape(y, fs, cur, done) && Shunt(y, t).Some? && (cur.Some? ==> Level(cur.value) == 3)
    requires cur.None? <==> StartsOperand(t)
    ensures Shape(Shunt(y, t).value, fs', cur', done + [t]) && (cur'.Some? ==> Level(cur'.value) == 3)
    ensures cur'.Some? <==> t.PRIM? || t.RPAR?
  {
    hide Shape, PopParen, PopFor;
    match t
    case PRIM(p) =>
      PrimShape(y, fs, done, p);
      fs', cur' := fs, Some(Primary(p));
    case LPAR =>
      PushShape(y, fs, cur, done, t);
      fs', cur' := fs + [Frame(cur, t)], None;
    case NOT =>
      PushNot(y);
      PushShape(y, fs, cur, done, t);
      fs', cur' := fs + [Frame(cur, t)], None;
    case RPAR =>
      var e;
      fs', e := PopParenShape(y, fs, cur.value, done);
      cur' := Some(Paren(e));
    case _ =>
      var gs, e := PopForShape(y, fs, cur.value, done, t);
      ShapeGrammar(PopFor(y, t), gs, e, done);
      PushShape(PopFor(y, t), gs, Some(e), done, t);
      fs', cur' := gs + [Frame(Some(e), t)], None;
  }

  lemma ShapeGrammar(y: Yard, fs: seq<Frame>, e: Expr, done: seq<Tok>)
    requires Shape(y, fs, Some(e), done)
    ensures InGrammar(e)
  {
  }

  lemma {:induction false} Rebuild(y: Yard, fs: seq<Frame>, cur: Option<Expr>, done: seq<Tok>, ts: seq<Tok>)
    returns (e: Expr)
    requires Shape(y, fs, cur, done) && (cur.Some? ==> Level(cur.value) == 3) && Alternates(ts, cur.None?)
    requires ShuntAll(y, ts).Some? && Drain(ShuntAll(y, ts).value).Some?
    ensures InGrammar(e) && Full(e) == done + ts
    ensures Trees(Drain(ShuntAll(y, ts).value).value) == Some([Strip(e)])
    decreases |ts|
  {
    hide Shape, Shunt, Drain, Trees;
    if ts == [] {
      e := DrainShape(y, fs, cur.value, done);
      assert done + ts == done;
    } else {
      var fs', cur' := ShuntShape(y, fs, cur, done, ts[0]);
      e := Rebuild(Shunt(y, ts[0]).value, fs', cur', done + [ts[0]], ts[1..]);
      assert done + [ts[0]] + ts[1..] == done + ts;
    }
  }

  // ----- counting operands

  function Weight(t: Tok): int { if t.PRIM? then 1 else if LAssoc(t) then -1 else 0 }

  function Balance(ts: seq<Tok>): int
  {
    if ts == [] then 0 else Weight(ts[0]) + Balance(ts[1..])
  }

  lemma {:induction false} BalanceConcat(a: seq<Tok>, b: seq<Tok>)
    ensures Balance(a + b) == Balance(a) + Balance(b)
  {
    if a == [] {
      assert a + b == b;
    } else {
      assert (a + b)[0] == a[0] && (a + b)[1..] == a[1..] + b;
      BalanceConcat(a[1..], b);
    }
  }

  lemma BalanceNext(a: seq<Tok>, t: Tok)
    ensures Balance(a + [t]) == Balance(a) + Weight(t)
  {
    BalanceConcat(a, [t]);
    assert [t][1..] == [];
  }

  lemma {:induction false} TreesBalance(rpn: seq<Tok>)
    requires Trees(rpn).Some?
    ensures |Trees(rpn).value| == Balance(rpn)
  {
    if rpn != [] {
      var r, t := rpn[..|rpn| - 1], rpn[|rpn| - 1];
      assert r + [t] == rpn;
      TreesLast(rpn);
      hide Trees, Balance, Grow, Weight;
      TreesBalance(r);
      BalanceNext(r, t);
      GrowWeight(Trees(r).value, t);
    }
  }

  lemma TreesLast(rpn: seq<Tok>)
    requires rpn != [] && Trees(rpn).Some?
    ensures var s := Trees(rpn[..|rpn| - 1]); s.Some? && Trees(rpn) == Grow(s.value, rpn[|rpn| - 1])
  {
    hide Grow;
  }

  lemma GrowWeight(stack: seq<Tree>, t: Tok)
    requires Grow(stack, t).Some?
    ensures |Grow(stack, t).value| == |stack| + Weight(t)
  {
  }

  /** What the yard holds. */
  function Held(y: Yard): int { Balance(y.out) + Balance(y.ops) }

  lemma PopHeld(y: Yard)
    requires y.ops != []
    ensures Held(Pop(y)) == Held(y)
  {
    var t, ops := y.ops[|y.ops| - 1], y.ops[..|y.ops| - 1];
    BalanceNext(y.out, t);
    BalanceNext(ops, t);
    assert ops + [t] == y.ops;
  }

  lemma {:induction false} PopForHeld(y: Yard, t: Tok)
    ensures Held(PopFor(y, t)) == Held(y)
    decreases |y.ops|
  {
    if y.ops != [] && Yields(y.ops[|y.ops| - 1], t) {
      PopHeld(y);
      PopForHeld(Pop(y), t);
    }
  }

  lemma {:induction false} PopParenHeld(y: Yard)
    requires PopParen(y).Some?
    ensures Held(PopParen(y).value) == Held(y)
    decreases |y.ops|
  {
    var t, ops := y.ops[|y.ops| - 1], y.ops[..|y.ops| - 1];
    if t.LPAR? {
      BalanceNext(ops, t);
      assert ops + [t] == y.ops;
    } else {
      PopHeld(y);
      PopParenHeld(Pop(y));
    }
  }

  lemma {:induction false} DrainHeld(y: Yard)
    requires Drain(y).Some?
    ensures Balance(Drain(y).value) == Held(y)
    decreases |y.ops|
  {
    if y.ops != [] {
      PopHeld(y);
      DrainHeld(Pop(y));
    }
  }

  lemma ShuntHeld(y: Yard, t: Tok)
    requires Shunt(y, t).Some?
    ensures Held(Shunt(y, t).value) == Held(y) + Weight(t)
  {
    match t
    case PRIM(_) => BalanceNext(y.out, t);
    case LPAR => BalanceNext(y.ops, t);
    case RPAR => PopParenHeld(y);
    case _ =>
      PopForHeld(y, t);
      BalanceNext(PopFor(y, t).ops, t);
  }

  lemma {:induction false} ShuntAllHeld(y: Yard, ts: seq<Tok>)
    requires ShuntAll(y, ts).Some?
    ensures Held(ShuntAll(y, ts).value) == Held(y) + Balance(ts)
    decreases |ts|
  {
    hide Held, Shunt;
    if ts != [] {
      ShuntHeld(y, ts[0]);
      ShuntAllHeld(Shunt(y, ts[0]).value, ts[1..]);
    }
  }

  /** A list with as many operands as its operators need has them all in place. */
  lemma {:induction false} EnoughOperands(args: seq<Tok>, last: Option<Tok>)
    requires Infix(args, last).Some?
    ensures var ts := Infix(args, last).value; var most := if EndsOperand(last) then 0 else 1;
            Balance(ts) <= most && (Balance(ts) == most ==> Alternates(ts, !EndsOperand(last)))
    decreases |args|
  {
    if args != [] {
      var t, more := args[0], Infix(args[1..], Some(args[0])).value;
      EnoughOperands(args[1..], Some(t));
      var ts := [t] + more;
      assert ts[1..] == more;
      if EndsOperand(last) && StartsOperand(t) {
        var us := [AND(false)] + [t] + more;
        assert us[1..] == ts && us[0] == AND(false);
      } else {
        assert [] + [t] + more == ts;
      }
    }
  }

  // ----- accepted lists are in the grammar

  /** Nobody writes an -a that is not written. */
  predicate Written(args: seq<Tok>) { AND(false) !in args }

  function Erase(ts: seq<Tok>): seq<Tok>
  {
    if ts == [] then [] else (if ts[0] == AND(false) then [] else [ts[0]]) + Erase(ts[1..])
  }

  lemma {:induction false} EraseConcat(a: seq<Tok>, b: seq<Tok>)
    ensures Erase(a + b) == Erase(a) + Erase(b)
  {
    if a == [] {
      assert a + b == b;
    } else {
      assert (a + b)[0] == a[0] && (a + b)[1..] == a[1..] + b;
      EraseConcat(a[1..], b);
    }
  }

  lemma EraseOne(t: Tok)
    ensures Erase([t]) == if t == AND(false) then [] else [t]
  {
    assert [t][1..] == [];
  }

  lemma {:induction false} EraseFull(e: Expr)
    ensures Erase(Full(e)) == Words(e)
  {
    match e
    case Primary(p) => EraseOne(PRIM(p));
    case Paren(e') =>
      EraseFull(e');
      EraseOne(LPAR);
      EraseOne(RPAR);
      EraseConcat([LPAR], Full(e'));
      EraseConcat([LPAR] + Full(e'), [RPAR]);
    case Not(e') =>
      EraseFull(e');
      EraseOne(NOT);
      EraseConcat([NOT], Full(e'));
    case And(l, r, w) =>
      EraseFull(l);
      EraseFull(r);
      EraseOne(AND(w));
      EraseConcat(Full(l), [AND(w)]);
      EraseConcat(Full(l) + [AND(w)], Full(r));
    case Or(l, r) =>
      EraseFull(l);
      EraseFull(r);
      EraseOne(OR);
      EraseConcat(Full(l), [OR]);
      EraseConcat(Full(l) + [OR], Full(r));
  }

  lemma {:induction false} EraseInfix(args: seq<Tok>, last: Option<Tok>)
    requires Written(args) && Infix(args, last).Some?
    ensures Erase(Infix(args, last).value) == args
    decreases |args|
  {
    if args != [] {
      var t, more := args[0], Infix(args[1..], Some(args[0])).value;
      EraseInfix(args[1..], Some(t));
      EraseOne(t);
      EraseOne(AND(false));
      var pre: seq<Tok> := if EndsOperand(last) && StartsOperand(t) then [AND(false)] else [];
      EraseConcat(pre, [t]);
      EraseConcat(pre + [t], more);
      assert args == [t] + args[1..];
    }
  }

  /** If the trees come out as one, there was an expression. */
  lemma Accepted(args: seq<Tok>) returns (e: Expr)
    requires Written(args) && Infix(args, None).Some? && ShuntAll(Yard([], []), Infix(args, None).value).Some?
    requires var out := Drain(ShuntAll(Yard([], []), Infix(args, None).value).value);
             out.Some? && Trees(out.value).Some? && |Trees(out.value).value| == 1
    ensures InGrammar(e) && Words(e) == args
    ensures Trees(Drain(ShuntAll(Yard([], []), Infix(args, None).value).value).value) == Some([Strip(e)])
  {
    hide ShuntAll, Drain, Infix, Trees;
    var ts, y := Infix(args, None).value, Yard([], []);
    TreesBalance(Drain(ShuntAll(y, ts).value).value);
    DrainHeld(ShuntAll(y, ts).value);
    ShuntAllHeld(y, ts);
    assert Held(y) == 0;
    EnoughOperands(args, None);
    StartShape();
    e := Rebuild(y, [], None, [], ts);
    assert [] + ts == ts;
    EraseFull(e);
    EraseInfix(args, None);
  }

  lemma StartShape()
    ensures Shape(Yard([], []), [], None, [])
  {
    assert FrameTrees([]) + OptTree(None) == [] && FrameTokens([]) + OptTokens(None) == [];
  }

  /** find accepts a command line exactly if it is an expression of the grammar, or empty,
      and then its tree is that of the expression with the -print that find adds. */
  lemma ParseExactly(args: seq<Tok>, t: Tree)
    requires Written(args)
    ensures Parse(args) == Some(t)
       <==> (args == [] && t == Leaf(PRINT)) || exists e :: InGrammar(e) && Words(e) == args && t == Strip(WithPrint(e))
  {
    hide Trees, Infix, ShuntAll, Drain, Grow;
    if e :| InGrammar(e) && Words(e) == args && t == Strip(WithPrint(e)) {
      ParseMeans(e, (p, trace) => true, []);
    }
    if args == [] {
      ParseNothing();
    } else if Parse(args) == Some(t) {
      var out := Drain(ShuntAll(Yard([], []), Infix(args, None).value).value).value;
      var s := Trees(out + Added(args)).value;
      assert s == [s[0]] == [t];
      BeforePrint(out, args, t);
      var e := Accepted(args);
      ActionWords(e);
    }
  }

  lemma StartOnly()
    ensures Infix([], None) == Some([]) && ShuntAll(Yard([], []), []) == Some(Yard([], []))
    ensures Trees([PRIM(PRINT)]) == Some([Leaf(PRINT)])
  {
    TreesNext([], PRIM(PRINT));
    assert [] + [PRIM(PRINT)] == [PRIM(PRINT)] && [] + [Leaf(PRINT)] == [Leaf(PRINT)];
  }

  lemma ParseNothing()
    ensures Parse([]) == Some(Leaf(PRINT))
  {
    hide Trees, Infix, ShuntAll;
    StartOnly();
    assert !AnyAction([]);
    assert Added([]) == [PRIM(PRINT)];
    assert [] + [PRIM(PRINT)] == [PRIM(PRINT)];
  }

  lemma {:induction false} TreesPrefix(out: seq<Tok>, more: seq<Tok>)
    requires Trees(out + more).Some?
    ensures Trees(out).Some?
    decreases |more|
  {
    if more == [] {
      assert out + more == out;
    } else {
      var m := more[..|more| - 1];
      assert (out + more)[..|out + more| - 1] == out + m;
      TreesPrefix(out, m);
    }
  }

  /** The single tree without the -print that was added. */
  lemma BeforePrint(out: seq<Tok>, args: seq<Tok>, t: Tree)
    requires args != [] && Trees(out + Added(args)) == Some([t])
    ensures Trees(out).Some? && |Trees(out).value| == 1
    ensures t == if AnyAction(args) then Trees(out).value[0] else AndNode(Trees(out).value[0], Leaf(PRINT))
  {
    hide Trees;
    TreesPrefix(out, Added(args));
    if AnyAction(args) {
      assert out + Added(args) == out;
    } else {
      var s := Trees(out).value;
      AddPrint(out, s);
      var s' := s[..|s| - 1] + [AndNode(s[|s| - 1], Leaf(PRINT))];
      assert [t] == s' && |s'| == |s| && s'[0] == t;
    }
  }

  /** No two expressions that read the same have different trees. */
  lemma Unambiguous(d: Expr, e: Expr)
    requires InGrammar(d) && InGrammar(e) && Words(d) == Words(e)
    ensures Strip(d) == Strip(e)
  {
    hide Parse;
    ParseMeans(d, (p, trace) => true, []);
    ParseMeans(e, (p, trace) => true, []);
    ActionWords(d);
    ActionWords(e);
  }
}
