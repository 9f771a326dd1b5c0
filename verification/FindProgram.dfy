/**
 parse and eval of cmd/posix/find.c as they run: token arrays, two stacks (the
 program keeps both in one array, one after the other), and
 a tree of links between the tokens of the reverse Polish notation.
 */
module FindProgram {
  import opened Basics
  import opened FindGrammar
  import opened FindParse
  import opened FindProof

  // ----- the first loop

  /** The tokens with every -a; at most two for each word. */
  method MakeInfix(args: seq<Tok>) returns (ok: bool, infix: seq<Tok>)
    ensures ok <==> Infix(args, None).Some?
    ensures ok ==> infix == Infix(args, None).value && |infix| <= 2 * |args| && Operators(infix) <= |args|
  {
    infix := [];
    var i, last: Option<Tok> := 0, None;
    while i < |args|
      invariant 0 <= i <= |args| && |infix| <= 2 * i
      invariant Operators(infix) + (if EndsOperand(last) then 1 else 0) <= i
      invariant Infix(args, None).Some? <==> Infix(args[i..], last).Some?
      invariant Infix(args, None).Some? ==> Infix(args, None).value == infix + Infix(args[i..], last).value
    {
      var t := args[i];
      assert args[i..][0] == t && args[i..][1..] == args[i + 1..];
      if last == Some(LPAR) && t.RPAR? {
        return false, infix;
      }
      ghost var before := infix;
      if EndsOperand(last) && StartsOperand(t) {
        OperatorsNext(infix, AND(false));
        infix := infix + [AND(false)];
      }
      OperatorsNext(infix, t);
      infix := infix + [t];
      if Infix(args, None).Some? {
        ghost var pre := if EndsOperand(last) && StartsOperand(t) then [AND(false)] else [];
        NextWord(before, pre, t, Infix(args[i + 1..], Some(t)).value);
      }
      i, last := i + 1, Some(t);
    }
    ok := true;
    assert infix + [] == infix;
  }

  lemma NextWord(infix: seq<Tok>, pre: seq<Tok>, t: Tok, more: seq<Tok>)
    ensures infix + (pre + [t] + more) == infix + pre + [t] + more && infix + [] == infix
  {
  }

  /** The number of tokens that go on the stack. */
  function Operators(ts: seq<Tok>): nat
  {
    if ts == [] then 0
    else Operators(ts[..|ts| - 1]) + (if ts[|ts| - 1].PRIM? || ts[|ts| - 1].RPAR? then 0 else 1)
  }

  lemma OperatorsNext(ts: seq<Tok>, t: Tok)
    ensures Operators(ts + [t]) == Operators(ts) + if t.PRIM? || t.RPAR? then 0 else 1
  {
    assert (ts + [t])[..|ts|] == ts;
  }

  // ----- the second loop

  /** The token list is shunted through a stack of fixed size, which it never overruns. */
  method MakeRpn(infix: seq<Tok>, stack: array<Tok>) returns (ok: bool, out: seq<Tok>)
    requires Operators(infix) <= stack.Length
    modifies stack
    ensures var y := ShuntAll(Yard([], []), infix);
            if ok then y.Some? && Drain(y.value) == Some(out) else y.None? || Drain(y.value).None?
  {
    var top, i := 0, 0;
    out := [];
    while i < |infix|
      invariant 0 <= i <= |infix| && 0 <= top <= stack.Length
        && top + Operators(infix) <= stack.Length + Operators(infix[..i])
      invariant ShuntAll(Yard([], []), infix) == ShuntAll(Yard(out, stack[..top]), infix[i..])
    {
      var t := infix[i];
      assert infix[i..][0] == t && infix[i..][1..] == infix[i + 1..];
      assert infix[..i + 1] == infix[..i] + [t];
      OperatorsNext(infix[..i], t);
      OperatorsGrow(infix, i + 1);
      ok, out, top := ShuntToken(t, out, stack, top);
      if !ok {
        return;
      }
      i := i + 1;
    }
    assert infix[..|infix|] == infix && infix[|infix|..] == [];
    while top > 0
      invariant 0 <= top <= stack.Length
      invariant Drain(ShuntAll(Yard([], []), infix).value) == Drain(Yard(out, stack[..top]))
    {
      assert Pop(Yard(out, stack[..top])) == Yard(out + [stack[top - 1]], stack[..top - 1]);
      top := top - 1;
      if stack[top].LPAR? {
        return false, out;
      }
      out := out + [stack[top]];
    }
    ok := true;
  }

  lemma {:induction false} OperatorsGrow(ts: seq<Tok>, k: nat)
    requires k <= |ts|
    ensures Operators(ts[..k]) <= Operators(ts)
    decreases |ts| - k
  {
    if k == |ts| {
      assert ts[..k] == ts;
    } else {
      OperatorsGrow(ts, k + 1);
      assert ts[..k + 1] == ts[..k] + [ts[k]];
      OperatorsNext(ts[..k], ts[k]);
    }
  }

  /** One round of the second loop. */
  method ShuntToken(t: Tok, out0: seq<Tok>, stack: array<Tok>, top0: int) returns (ok: bool, out: seq<Tok>, top: int)
    requires 0 <= top0 <= stack.Length && (!t.PRIM? && !t.RPAR? ==> top0 < stack.Length)
    modifies stack
    ensures ok ==> 0 <= top <= stack.Length && Shunt(Yard(out0, old(stack[..top0])), t) == Some(Yard(out, stack[..top]))
    ensures ok ==> top <= top0 + if t.PRIM? || t.RPAR? then 0 else 1
    ensures !ok ==> Shunt(Yard(out0, old(stack[..top0])), t).None?
  {
    ok, out, top := true, out0, top0;
    match t
    case PRIM(_) =>
      out := out + [t];
    case LPAR =>
      top := Push(stack, top, t);
    case RPAR =>
      ok, out, top := PopToParen(out, stack, top);
    case _ =>
      out, top := PopYielding(t, out, stack, top);
      top := Push(stack, top, t);
  }

  method Push(stack: array<Tok>, top0: int, t: Tok) returns (top: int)
    requires 0 <= top0 < stack.Length
    modifies stack
    ensures top == top0 + 1 && stack[..top] == old(stack[..top0]) + [t]
  {
    stack[top0] := t;
    top := top0 + 1;
  }

  method PopToParen(out0: seq<Tok>, stack: array<Tok>, top0: int) returns (ok: bool, out: seq<Tok>, top: int)
    requires 0 <= top0 <= stack.Length
    ensures ok ==> 0 <= top <= top0 && PopParen(Yard(out0, stack[..top0])) == Some(Yard(out, stack[..top]))
    ensures !ok ==> PopParen(Yard(out0, stack[..top0])).None?
  {
    out, top := out0, top0;
    while top > 0 && !stack[top - 1].LPAR?
      invariant 0 <= top <= top0 && PopParen(Yard(out0, stack[..top0])) == PopParen(Yard(out, stack[..top]))
    {
      assert Pop(Yard(out, stack[..top])) == Yard(out + [stack[top - 1]], stack[..top - 1]);
      top := top - 1;
      out := out + [stack[top]];
    }
    ok := top > 0;
    if ok {
      top := top - 1;
      assert stack[..top + 1][..top] == stack[..top];
    }
  }

  method PopYielding(t: Tok, out0: seq<Tok>, stack: array<Tok>, top0: int) returns (out: seq<Tok>, top: int)
    requires 0 <= top0 <= stack.Length
    ensures 0 <= top <= top0 && PopFor(Yard(out0, stack[..top0]), t) == Yard(out, stack[..top])
  {
    out, top := out0, top0;
    while top > 0 && Yields(stack[top - 1], t)
      invariant 0 <= top <= top0 && PopFor(Yard(out0, stack[..top0]), t) == PopFor(Yard(out, stack[..top]), t)
    {
      assert Pop(Yard(out, stack[..top])) == Yard(out + [stack[top - 1]], stack[..top - 1]);
      top := top - 1;
      out := out + [stack[top]];
    }
  }

  // ----- the third loop

  /** A token of the reverse Polish notation, and the tokens it is linked to. */
  datatype Node = Node(tok: Tok, left: int, right: int)

  predicate NodeOk(nodes: seq<Node>, i: int)
    requires 0 <= i < |nodes|
  {
    var n := nodes[i];
    match n.tok
    case PRIM(_) => true
    case NOT => n.left == -1 && 0 <= n.right < i
    case AND(_) => 0 <= n.left < i && 0 <= n.right < i
    case OR => 0 <= n.left < i && 0 <= n.right < i
    case _ => false
  }

  ghost predicate NodesOk(nodes: seq<Node>)
  {
    forall i :: 0 <= i < |nodes| ==> NodeOk(nodes, i)
  }

  /** The tree at a node. */
  ghost function TreeAt(nodes: seq<Node>, i: int): Tree
    requires NodesOk(nodes) && 0 <= i < |nodes|
    decreases i
  {
    assert NodeOk(nodes, i);
    var n := nodes[i];
    match n.tok
    case PRIM(p) => Leaf(p)
    case NOT => NotNode(TreeAt(nodes, n.right))
    case AND(_) => AndNode(TreeAt(nodes, n.left), TreeAt(nodes, n.right))
    case OR => OrNode(TreeAt(nodes, n.left), TreeAt(nodes, n.right))
  }

  /** New nodes do not change the trees of old ones. */
  lemma {:induction false} TreeStays(nodes: seq<Node>, n: Node, i: int)
    requires NodesOk(nodes) && NodesOk(nodes + [n]) && 0 <= i < |nodes|
    ensures TreeAt(nodes + [n], i) == TreeAt(nodes, i)
    decreases i
  {
    assert (nodes + [n])[i] == nodes[i] && NodeOk(nodes, i);
    match nodes[i].tok
    case PRIM(_) =>
    case NOT => TreeStays(nodes, n, nodes[i].right);
    case AND(_) => TreeStays(nodes, n, nodes[i].left); TreeStays(nodes, n, nodes[i].right);
    case OR => TreeStays(nodes, n, nodes[i].left); TreeStays(nodes, n, nodes[i].right);
  }

  ghost predicate Indices(stack: seq<int>, n: int) { forall k :: 0 <= k < |stack| ==> 0 <= stack[k] < n }

  ghost function TreesAt(nodes: seq<Node>, stack: seq<int>): (r: seq<Tree>)
    requires NodesOk(nodes) && Indices(stack, |nodes|)
    ensures |r| == |stack| && forall k :: 0 <= k < |stack| ==> r[k] == TreeAt(nodes, stack[k])
  {
    seq(|stack|, k requires 0 <= k < |stack| => TreeAt(nodes, stack[k]))
  }

  lemma NodesGrow(nodes: seq<Node>, n: Node, stack: seq<int>)
    requires NodesOk(nodes) && Indices(stack, |nodes|) && NodeOk(nodes + [n], |nodes|)
    ensures NodesOk(nodes + [n]) && Indices(stack, |nodes + [n]|)
      && TreesAt(nodes + [n], stack) == TreesAt(nodes, stack)
  {
    var nodes' := nodes + [n];
    forall i | 0 <= i < |nodes'|
      ensures NodeOk(nodes', i)
    {
      if i < |nodes| {
        assert NodeOk(nodes, i);
      }
    }
    forall k | 0 <= k < |stack|
      ensures TreeAt(nodes', stack[k]) == TreeAt(nodes, stack[k])
    {
      TreeStays(nodes, n, stack[k]);
    }
  }

  lemma TreesAtPush(nodes: seq<Node>, stack: seq<int>, i: int)
    requires NodesOk(nodes) && Indices(stack, |nodes|) && 0 <= i < |nodes|
    ensures Indices(stack + [i], |nodes|) && TreesAt(nodes, stack + [i]) == TreesAt(nodes, stack) + [TreeAt(nodes, i)]
  {
  }

  lemma TreesAtPrefix(nodes: seq<Node>, stack: seq<int>, k: int)
    requires NodesOk(nodes) && Indices(stack, |nodes|) && 0 <= k <= |stack|
    ensures Indices(stack[..k], |nodes|) && TreesAt(nodes, stack[..k]) == TreesAt(nodes, stack)[..k]
  {
  }

  /** How many operands t takes. */
  function NArgs(t: Tok): int { if t.PRIM? then 0 else if t.NOT? then 1 else 2 }

  function NodeFor(t: Tok, stack: seq<int>): Node
    requires |stack| >= NArgs(t)
  {
    Node(t, if NArgs(t) == 2 then stack[|stack| - 2] else -1, if NArgs(t) == 0 then -1 else stack[|stack| - 1])
  }

  /** Linking a token to the tops of the stack grows the tree that it stands for. */
  lemma LinkGrows(nodes: seq<Node>, stack: seq<int>, t: Tok)
    requires NodesOk(nodes) && Indices(stack, |nodes|) && |stack| >= NArgs(t) && (t.PRIM? || IsOp(t))
    ensures var nodes', stack' := nodes + [NodeFor(t, stack)], stack[..|stack| - NArgs(t)] + [|nodes|];
            && NodesOk(nodes') && Indices(stack', |nodes'|)
            && Grow(TreesAt(nodes, stack), t) == Some(TreesAt(nodes', stack'))
  {
    hide Indices;
    var n := NodeFor(t, stack);
    LinkOk(nodes, stack, t);
    NodesGrow(nodes, n, stack);
    var nodes', rest := nodes + [n], stack[..|stack| - NArgs(t)];
    TreesAtPrefix(nodes', stack, |stack| - NArgs(t));
    TreesAtPush(nodes', rest, |nodes|);
    assert nodes'[|nodes|] == n && NodeOk(nodes', |nodes|);
    var s := TreesAt(nodes, stack);
    assert s[..|s|] == s;
    assert NArgs(t) >= 1 ==> TreeAt(nodes', stack[|stack| - 1]) == s[|s| - 1];
    assert NArgs(t) == 2 ==> TreeAt(nodes', stack[|stack| - 2]) == s[|s| - 2];
  }

  lemma LinkOk(nodes: seq<Node>, stack: seq<int>, t: Tok)
    requires NodesOk(nodes) && Indices(stack, |nodes|) && |stack| >= NArgs(t) && (t.PRIM? || IsOp(t))
    ensures NodeOk(nodes + [NodeFor(t, stack)], |nodes|)
  {
  }

  ghost predicate NoParens(rpn: seq<Tok>) { forall k :: 0 <= k < |rpn| ==> rpn[k].PRIM? || IsOp(rpn[k]) }

  lemma {:induction false} TreesPart(rpn: seq<Tok>, i: nat)
    requires i <= |rpn| && Trees(rpn[..i]).None?
    ensures Trees(rpn).None?
  {
    if Trees(rpn).Some? {
      assert rpn[..i] + rpn[i..] == rpn;
      TreesPrefix(rpn[..i], rpn[i..]);
    }
  }

  /** The links of the third loop make the tree. */
  method LinkTree(rpn: seq<Tok>) returns (ok: bool, nodes: seq<Node>, root: int)
    requires NoParens(rpn)
    ensures ok <==> Trees(rpn).Some? && |Trees(rpn).value| == 1
    ensures ok ==> NodesOk(nodes) && 0 <= root < |nodes| && TreeAt(nodes, root) == Trees(rpn).value[0]
  {
    hide Trees, TreeAt, NodesOk, Grow, NoParens, Indices;
    var stack: seq<int> := [];
    nodes, root := [], -1;
    var i := 0;
    NoNodes(rpn);
    while i < |rpn|
      invariant 0 <= i <= |rpn| && |nodes| == i && NodesOk(nodes) && Indices(stack, i)
      invariant Trees(rpn[..i]) == Some(TreesAt(nodes, stack))
    {
      var t := rpn[i];
      assert rpn[..i + 1] == rpn[..i] + [t];
      TreesNext(rpn[..i], t);
      NoParen(rpn, i);
      if |stack| < NArgs(t) {
        GrowFails(TreesAt(nodes, stack), t);
        TreesPart(rpn, i + 1);
        return false, nodes, root;
      }
      LinkGrows(nodes, stack, t);
      nodes, stack := nodes + [NodeFor(t, stack)], stack[..|stack| - NArgs(t)] + [i];
      i := i + 1;
    }
    assert rpn[..|rpn|] == rpn;
    ok := |stack| == 1;
    if ok {
      root := stack[0];
      StackFits(stack, |nodes|, 0);
    }
  }

  lemma NoNodes(rpn: seq<Tok>)
    ensures NodesOk([]) && Indices([], 0) && rpn[..0] == [] && Trees([]) == Some([]) && TreesAt([], []) == []
  {
  }

  lemma NoParen(rpn: seq<Tok>, i: nat)
    requires NoParens(rpn) && i < |rpn|
    ensures rpn[i].PRIM? || IsOp(rpn[i])
  {
  }

  lemma GrowFails(trees: seq<Tree>, t: Tok)
    requires |trees| < NArgs(t)
    ensures Grow(trees, t).None?
  {
  }

  lemma StackFits(stack: seq<int>, n: int, k: nat)
    requires Indices(stack, n) && k < |stack|
    ensures 0 <= stack[k] < n
  {
  }

  // ----- eval

  /** eval on the linked tokens; -1 is the missing left side of a NOT. */
  method EvalNode(nodes: seq<Node>, i: int, run: Runner, trace0: seq<Prim>) returns (ret: bool, trace: seq<Prim>)
    requires NodesOk(nodes) && -1 <= i < |nodes|
    ensures i == -1 ==> !ret && trace == trace0
    ensures i >= 0 ==> Done(ret, trace) == Eval(TreeAt(nodes, i), run, trace0)
    decreases i
  {
    trace := trace0;
    if i == -1 {
      return false, trace;
    }
    var n := nodes[i];
    assert NodeOk(nodes, i);
    if n.tok.PRIM? {
      return run(n.tok.p, trace), trace + [n.tok.p];
    }
    ret, trace := EvalNode(nodes, n.left, run, trace);
    if (n.tok.AND? && ret) || (n.tok.OR? && !ret) || n.tok.NOT? {
      ret, trace := EvalNode(nodes, n.right, run, trace);
    }
    ret := ret != n.tok.NOT?;
  }

  // ----- all of it

  /** Only operators and open parentheses go on the stack, and no parentheses come out. */
  ghost predicate YardOk(y: Yard)
  {
    NoParens(y.out) && forall k :: 0 <= k < |y.ops| ==> y.ops[k].LPAR? || IsOp(y.ops[k])
  }

  lemma {:induction false} PopForOk(y: Yard, t: Tok)
    requires YardOk(y) && IsOp(t)
    ensures YardOk(PopFor(y, t))
    decreases |y.ops|
  {
    if y.ops != [] && Yields(y.ops[|y.ops| - 1], t) {
      PopForOk(Pop(y), t);
    }
  }

  lemma {:induction false} PopParenOk(y: Yard)
    requires YardOk(y) && PopParen(y).Some?
    ensures YardOk(PopParen(y).value)
    decreases |y.ops|
  {
    if !y.ops[|y.ops| - 1].LPAR? {
      PopParenOk(Pop(y));
    }
  }

  lemma {:induction false} DrainOk(y: Yard)
    requires YardOk(y) && Drain(y).Some?
    ensures NoParens(Drain(y).value)
    decreases |y.ops|
  {
    if y.ops != [] {
      DrainOk(Pop(y));
    }
  }

  lemma {:induction false} ShuntAllOk(y: Yard, ts: seq<Tok>)
    requires YardOk(y) && ShuntAll(y, ts).Some?
    ensures YardOk(ShuntAll(y, ts).value)
    decreases |ts|
  {
    if ts != [] {
      var t := ts[0];
      if IsOp(t) {
        PopForOk(y, t);
      } else if t.RPAR? {
        PopParenOk(y);
      }
      ShuntAllOk(Shunt(y, t).value, ts[1..]);
    }
  }

  method FindAction(args: seq<Tok>) returns (found: bool)
    ensures found <==> AnyAction(args)
  {
    found := false;
    for i := 0 to |args|
      invariant found <==> AnyAction(args[..i])
    {
      assert args[..i + 1] == args[..i] + [args[i]];
      AnyConcat(args[..i], [args[i]]);
      if args[i].PRIM? && args[i].p.action {
        assert args[..i + 1][i] == args[i];
        found := true;
      }
    }
    assert args[..|args|] == args;
  }

  /** parse, then eval of the root: for a command line of the grammar they run what the
      grammar's meaning runs; any other is refused. */
  method ParseThenEval(args: seq<Tok>, run: Runner) returns (ok: bool, ret: bool, trace: seq<Prim>)
    requires Written(args)
    ensures ok <==> args == [] || exists e :: InGrammar(e) && Words(e) == args
    ensures forall e :: InGrammar(e) && Words(e) == args ==> Done(ret, trace) == Meaning(WithPrint(e), run, [])
    ensures args == [] ==> Done(ret, trace) == Meaning(Primary(PRINT), run, [])
  {
    hide Infix, ShuntAll, Drain, Trees, Words, InGrammar;
    ret, trace := false, [];
    var infix, out, nodes, root;
    ok, infix := MakeInfix(args);
    if ok {
      var stack := new Tok[|args|](i => LPAR);
      ok, out := MakeRpn(infix, stack);
    }
    if ok {
      ghost var out0 := out;
      var action := FindAction(args);
      if !action {
        out := out + [PRIM(PRINT)];
        if args != [] {
          out := out + [AND(true)];
        }
      }
      assert out == out0 + Added(args);
      RpnOk(args, infix, out);
      ok, nodes, root := LinkTree(out);
    }
    if ok {
      ret, trace := EvalNode(nodes, root, run, []);
    }
    AllMeanings(args, run);
  }

  lemma RpnOk(args: seq<Tok>, infix: seq<Tok>, out: seq<Tok>)
    requires Infix(args, None) == Some(infix) && Rpn(args) == Some(out)
    ensures NoParens(out)
  {
    hide Infix, ShuntAll, Drain;
    var y := Yard([], []);
    ShuntAllOk(y, infix);
    DrainOk(ShuntAll(y, infix).value);
  }

  lemma AllMeanings(args: seq<Tok>, run: Runner)
    requires Written(args)
    ensures Parse(args).Some? <==> args == [] || exists e :: InGrammar(e) && Words(e) == args
    ensures forall e :: InGrammar(e) && Words(e) == args ==>
      Parse(args).Some? && Eval(Parse(args).value, run, []) == Meaning(WithPrint(e), run, [])
    ensures args == [] ==> Parse(args) == Some(Leaf(PRINT))
  {
    hide Parse, InGrammar, Words;
    forall e | InGrammar(e) && Words(e) == args
      ensures Parse(args).Some? && Eval(Parse(args).value, run, []) == Meaning(WithPrint(e), run, [])
    {
      ParseMeans(e, run, []);
    }
    if Parse(args).Some? {
      ParseExactly(args, Parse(args).value);
    }
    ParseExactly(args, Leaf(PRINT));
  }
}
