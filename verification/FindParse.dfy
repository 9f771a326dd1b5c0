/**
 parse of cmd/posix/find.c: implicit -a, infix to reverse Polish notation, and that to a
 tree.
 */
module FindParse {
  import opened Basics
  import opened FindGrammar

  /** lasttype is PRIM or RPAR. */
  predicate EndsOperand(last: Option<Tok>) { last.Some? && (last.value.PRIM? || last.value.RPAR?) }

  predicate StartsOperand(t: Tok) { t.PRIM? || t.NOT? || t.LPAR? }

  // ----- the first loop: implicit -a

  function Infix(args: seq<Tok>, last: Option<Tok>): Option<seq<Tok>>
  {
    if args == [] then Some([])
    else if last == Some(LPAR) && args[0].RPAR? then None
    else
      var more := Infix(args[1..], Some(args[0]));
      if more.None? then None
      else Some((if EndsOperand(last) && StartsOperand(args[0]) then [AND(false)] else []) + [args[0]] + more.value)
  }

  // ----- the second loop: the shunting yard

  /** What has been put out, and the stack of operators and open parentheses. */
  datatype Yard = Yard(out: seq<Tok>, ops: seq<Tok>)

  function Pop(y: Yard): Yard
    requires y.ops != []
  {
    Yard(y.out + [y.ops[|y.ops| - 1]], y.ops[..|y.ops| - 1])
  }

  /** Operator top leaves the stack before t is pushed. */
  predicate Yields(top: Tok, t: Tok)
  {
    (LAssoc(t) && Prec(t) <= Prec(top)) || (!LAssoc(t) && Prec(t) < Prec(top))
  }

  function PopFor(y: Yard, t: Tok): Yard
    decreases |y.ops|
  {
    if y.ops != [] && Yields(y.ops[|y.ops| - 1], t) then PopFor(Pop(y), t) else y
  }

  /** Back to the open parenthesis, which is dropped. */
  function PopParen(y: Yard): Option<Yard>
    decreases |y.ops|
  {
    if y.ops == [] then None
    else if y.ops[|y.ops| - 1].LPAR? then Some(Yard(y.out, y.ops[..|y.ops| - 1]))
    else PopParen(Pop(y))
  }

  function Shunt(y: Yard, t: Tok): Option<Yard>
  {
    match t
    case PRIM(_) => Some(Yard(y.out + [t], y.ops))
    case LPAR => Some(Yard(y.out, y.ops + [t]))
    case RPAR => PopParen(y)
    case _ => var z := PopFor(y, t); Some(Yard(z.out, z.ops + [t]))
  }

  function ShuntAll(y: Yard, ts: seq<Tok>): Option<Yard>
    decreases |ts|
  {
    if ts == [] then Some(y)
    else
      var z := Shunt(y, ts[0]);
      if z.None? then None else ShuntAll(z.value, ts[1..])
  }

  function Drain(y: Yard): Option<seq<Tok>>
    decreases |y.ops|
  {
    if y.ops == [] then Some(y.out)
    else if y.ops[|y.ops| - 1].LPAR? then None
    else Drain(Pop(y))
  }

  // ----- the third loop: the tree

  datatype Tree = Leaf(p: Prim) | NotNode(right: Tree) | AndNode(left: Tree, right: Tree)
    | OrNode(left: Tree, right: Tree)

  /** One token of the reverse Polish notation. */
  function Grow(stack: seq<Tree>, t: Tok): Option<seq<Tree>>
  {
    var n := |stack|;
    match t
    case PRIM(p) => Some(stack + [Leaf(p)])
    case NOT => if n < 1 then None else Some(stack[..n - 1] + [NotNode(stack[n - 1])])
    case AND(_) => if n < 2 then None else Some(stack[..n - 2] + [AndNode(stack[n - 2], stack[n - 1])])
    case OR => if n < 2 then None else Some(stack[..n - 2] + [OrNode(stack[n - 2], stack[n - 1])])
    case _ => None
  }

  function Trees(rpn: seq<Tok>): Option<seq<Tree>>
  {
    if rpn == [] then Some([])
    else
      var s := Trees(rpn[..|rpn| - 1]);
      if s.None? then None else Grow(s.value, rpn[|rpn| - 1])
  }

  // ----- all of parse

  predicate AnyAction(args: seq<Tok>) { exists k :: 0 <= k < |args| && args[k].PRIM? && args[k].p.action }

  /** What the last step adds to the reverse Polish notation. */
  function Added(args: seq<Tok>): seq<Tok>
  {
    if AnyAction(args) then [] else if args == [] then [PRIM(PRINT)] else [PRIM(PRINT), AND(true)]
  }

  function Rpn(args: seq<Tok>): Option<seq<Tok>>
  {
    var infix := Infix(args, None);
    if infix.None? then None
    else
      var y := ShuntAll(Yard([], []), infix.value);
      if y.None? then None
      else
        var out := Drain(y.value);
        if out.None? then None else Some(out.value + Added(args))
  }

  function Parse(args: seq<Tok>): Option<Tree>
  {
    var rpn := Rpn(args);
    if rpn.None? then None
    else
      var s := Trees(rpn.value);
      if s.None? || |s.value| != 1 then None else Some(s.value[0])
  }

  function Eval(t: Tree, run: Runner, trace: seq<Prim>): Done
  {
    match t
    case Leaf(p) => Done(run(p, trace), trace + [p])
    case NotNode(r) => var d := Eval(r, run, trace); Done(!d.holds, d.trace)
    case AndNode(l, r) => var d := Eval(l, run, trace); if d.holds then Eval(r, run, d.trace) else d
    case OrNode(l, r) => var d := Eval(l, run, trace); if !d.holds then Eval(r, run, d.trace) else d
  }
}
