/** The statement and expression language that src/compiler.c accepts, with names already resolved the way
    resolveLocal does it: a local is its index in the compiler's `locals` array, a literal or global its
    index in the constant pool. */
module Syntax {
  import opened Options

  /** Values a program can name. Class and tuple values are kept apart because exception filters inspect
      them; every other object is an opaque identity. */
  datatype Value =
    | VNone
    | VBool(b: bool)
    | VInt(n: int)
    | VClass(cls: int)
    | VTuple(elems: seq<Value>)
    | VObj(id: int)

  datatype CmpOp = Eq | Ne | Gt | Ge | Lt | Le | Is | IsNot | In | NotIn

  datatype Expr =
    | Literal(lit: Value)                              // None, True and False have their own opcodes
    | Const(index: nat)                                // constant-pool literal
    | Global(name: nat)
    | Local(slot: nat)
    | Assign(target: nat, rhs: Expr)                   // assignment leaves its value
    | Add(left: Expr, right: Expr)
    | Not(operand: Expr)
    | And(left: Expr, right: Expr)
    | Or(left: Expr, right: Expr)
    | Ternary(thenValue: Expr, cond: Expr, elseValue: Expr)
    | Compare(first: Expr, links: Links)
    | Call(callee: Expr, args: Exprs)

  datatype Exprs = NoExpr | MoreExpr(head: Expr, tail: Exprs)

  /** The tail of a comparison chain: at least one operator with its right operand. */
  datatype Links = Link(op: CmpOp, operand: Expr, more: Option<Links>)

  datatype Stmt =
    | Skip
    | Eval(e: Expr)
    | Let(init: Expr)
    | Seq(first: Stmt, second: Stmt)
    | If(cond: Expr, thn: Stmt, els: Option<Stmt>)
    | While(cond: Expr, body: Stmt, orElse: Stmt)
    | For(iterable: Expr, body: Stmt, orElse: Stmt)
    | Try(body: Stmt, handlers: Handlers, els: Option<Stmt>, fin: Stmt)
    | BareTry(body: Stmt)                              // neither `except` nor `finally`
    | Raise(exc: Expr, cause: Option<Expr>)
    | Return(result: Expr)
    | Break
    | Continue

  /** The `except` clauses of a try, in order; `named` says whether the clause has an `as` name. */
  datatype Handlers = NoHandler | Handler(filter: Option<Expr>, named: bool, body: Stmt, more: Handlers)

  /** Which positions of the locals array hold a user-visible variable; the others are anonymous. */
  type Scope = seq<bool>

  // Operands have at most three bytes.
  const OPERAND_LIMIT := 0x1000000

  predicate InScope(i: nat, scope: Scope) {
    i < OPERAND_LIMIT && i < |scope| && scope[i]
  }

  predicate ExprOk(e: Expr, scope: Scope) {
    match e
    case Literal(v) => v == VNone || v.VBool?
    case Const(i) => i < OPERAND_LIMIT
    case Global(i) => i < OPERAND_LIMIT
    case Local(i) => InScope(i, scope)
    case Assign(i, rhs) => InScope(i, scope) && ExprOk(rhs, scope)
    case Add(a, b) => ExprOk(a, scope) && ExprOk(b, scope)
    case Not(a) => ExprOk(a, scope)
    case And(a, b) => ExprOk(a, scope) && ExprOk(b, scope)
    case Or(a, b) => ExprOk(a, scope) && ExprOk(b, scope)
    case Ternary(a, c, b) => ExprOk(a, scope) && ExprOk(c, scope) && ExprOk(b, scope)
    case Compare(a, links) => ExprOk(a, scope) && LinksOk(links, scope)
    case Call(f, args) => ExprOk(f, scope) && ExprsOk(args, scope) && Count(args) < OPERAND_LIMIT
  }

  predicate ExprsOk(es: Exprs, scope: Scope) {
    match es
    case NoExpr => true
    case MoreExpr(e, rest) => ExprOk(e, scope) && ExprsOk(rest, scope)
  }

  predicate LinksOk(links: Links, scope: Scope) {
    ExprOk(links.operand, scope) && (links.more.Some? ==> LinksOk(links.more.value, scope))
  }

  function Count(es: Exprs): nat {
    match es
    case NoExpr => 0
    case MoreExpr(_, rest) => 1 + Count(rest)
  }

  /** How many locals a statement leaves behind in its scope. */
  function Decls(s: Stmt): nat {
    match s
    case Let(_) => 1
    case Seq(a, b) => Decls(a) + Decls(b)
    case _ => 0
  }

  /** Statements the compiler accepts. A Try has a clause or a `finally`; one that has clauses and no `finally` compiles
      like one with an empty `finally`. `inBody` says whether a `break` here belongs to a loop body and
      `inLoop` whether a `continue` does. A `break` in a loop's `else` is refused (src/compiler.c patches
      it to the loop it just left), and so is an `else` on a try without `except`. */
  predicate StmtOk(s: Stmt, scope: Scope, inBody: bool, inLoop: bool)
    decreases s, 0
  {
    |scope| + 2 < OPERAND_LIMIT &&
    match s
    case Skip => true
    case Eval(e) => ExprOk(e, scope)
    case Let(e) => ExprOk(e, scope)
    case Seq(a, b) =>
      StmtOk(a, scope, inBody, inLoop) && StmtOk(b, scope + Declared(Decls(a)), inBody, inLoop)
    case If(c, a, b) =>
      && ExprOk(c, scope) && BlockOk(a, scope, inBody, inLoop)
      && (b.Some? ==> BlockOk(b.value, scope, inBody, inLoop))
    case While(c, body, els) =>
      ExprOk(c, scope) && BlockOk(body, scope, true, true) && BlockOk(els, scope, false, inLoop)
    case For(e, body, els) =>
      && ExprOk(e, scope + [true])
      && BlockOk(body, scope + [true, false], true, true)
      && BlockOk(els, scope + [true, false], false, inLoop)
    case Try(body, hs, els, fin) =>
      && BlockOk(body, scope + [false, false], inBody, inLoop)
      && HandlersOk(hs, scope, inBody, inLoop) && Clauses(hs) <= MAX_CLAUSES
      && (els.Some? ==> hs.Handler? && BlockOk(els.value, scope + [false, false], inBody, inLoop))
      && BlockOk(fin, scope + [false, false], inBody, inLoop)
    case BareTry(body) => BlockOk(body, scope + [false, false], inBody, inLoop)
    case Raise(e, cause) => ExprOk(e, scope) && (cause.Some? ==> ExprOk(cause.value, scope))
    case Return(e) => ExprOk(e, scope)
    case Break => inBody
    case Continue => inLoop
  }

  predicate BlockOk(s: Stmt, scope: Scope, inBody: bool, inLoop: bool)
    decreases s, 1
  {
    StmtOk(s, scope, inBody, inLoop) && Decls(s) < OPERAND_LIMIT
  }

  predicate HandlersOk(hs: Handlers, scope: Scope, inBody: bool, inLoop: bool)
    decreases hs, 1
  {
    match hs
    case NoHandler => true
    case Handler(f, named, body, more) =>
      && (f.Some? ==> ExprOk(f.value, scope + [false, false]))
      && BlockOk(body, scope + [named, false], inBody, inLoop)
      && HandlersOk(more, scope, inBody, inLoop)
  }

  // tryStatement has room for 64 exits, two of them its own.
  const MAX_CLAUSES := 62

  function Clauses(hs: Handlers): nat {
    match hs
    case NoHandler => 0
    case Handler(_, _, _, more) => 1 + Clauses(more)
  }

  function Declared(n: nat): (scope: Scope) {
    seq(n, _ => true)
  }
}
