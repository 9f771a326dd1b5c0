/**
 The expressions of find: tokens, what a well-formed expression is, and what it means.
 */
module FindGrammar {
  import opened Basics

  /** A primary with its arguments; an action turns off the -print that find adds. */
  datatype Prim = Prim(id: int, action: bool)

  const PRINT: Prim := Prim(0, true)

  /** An -a that find puts in itself is marked as not written; nothing depends on it. */
  datatype Tok = PRIM(p: Prim) | LPAR | RPAR | NOT | AND(written: bool) | OR

  // ----- the ops table

  function Prec(t: Tok): int
  {
    match t
    case NOT => 3
    case AND(_) => 2
    case OR => 1
    case _ => 0
  }

  predicate LAssoc(t: Tok) { t.AND? || t.OR? }

  predicate IsOp(t: Tok) { t.NOT? || t.AND? || t.OR? }

  // ----- the grammar

  /** An expression as it is written, with its parentheses. */
  datatype Expr =
    | Primary(p: Prim)
    | Paren(e: Expr)
    | Not(e: Expr)
    | And(l: Expr, r: Expr, written: bool)
    | Or(l: Expr, r: Expr)

  /** 1 for an alternative, 2 for a sequence of factors, 3 for a factor. */
  function Level(e: Expr): int
  {
    match e
    case Or(_, _) => 1
    case And(_, _, _) => 2
    case _ => 3
  }

  /** expr ::= term | expr -o term;  term ::= factor | term factor | term -a factor;
      factor ::= primary | ( expr ) | ! factor */
  predicate InGrammar(e: Expr)
  {
    match e
    case Primary(_) => true
    case Paren(e) => InGrammar(e)
    case Not(e) => InGrammar(e) && Level(e) == 3
    case And(l, r, _) => InGrammar(l) && InGrammar(r) && Level(l) >= 2 && Level(r) == 3
    case Or(l, r) => InGrammar(l) && InGrammar(r) && Level(r) >= 2
  }

  /** The words of an expression; an -a may be left out. */
  function Words(e: Expr): seq<Tok>
  {
    match e
    case Primary(p) => [PRIM(p)]
    case Paren(e) => [LPAR] + Words(e) + [RPAR]
    case Not(e) => [NOT] + Words(e)
    case And(l, r, w) => Words(l) + (if w then [AND(true)] else []) + Words(r)
    case Or(l, r) => Words(l) + [OR] + Words(r)
  }

  /** The result of an expression and the primaries that have been run. Whether a primary
      holds may depend on all that ran before it. */
  type Runner = (Prim, seq<Prim>) -> bool

  datatype Done = Done(holds: bool, trace: seq<Prim>)

  function Meaning(e: Expr, run: Runner, trace: seq<Prim>): Done
  {
    match e
    case Primary(p) => Done(run(p, trace), trace + [p])
    case Paren(e) => Meaning(e, run, trace)
    case Not(e) => var d := Meaning(e, run, trace); Done(!d.holds, d.trace)
    case And(l, r, _) => var d := Meaning(l, run, trace); if d.holds then Meaning(r, run, d.trace) else d
    case Or(l, r) => var d := Meaning(l, run, trace); if d.holds then d else Meaning(r, run, d.trace)
  }

  // ----- what find adds

  predicate HasAction(e: Expr)
  {
    match e
    case Primary(p) => p.action
    case Paren(e) => HasAction(e)
    case Not(e) => HasAction(e)
    case And(l, r, _) => HasAction(l) || HasAction(r)
    case Or(l, r) => HasAction(l) || HasAction(r)
  }

  /** An expression without an action means ( expression ) -a -print. */
  function WithPrint(e: Expr): Expr
  {
    if HasAction(e) then e else And(Paren(e), Primary(PRINT), true)
  }
}
