/** The code src/compiler.c leaves for each construct, as functions: what Emitter must produce and what PreserveExpr
    and PreserveStmt run. `depth` is localCount; a loop context carries loopLocalCount and, once they are known, the
    addresses `break` and `continue` are patched to. */
module Codegen {
  import opened Options
  import opened Syntax
  import opened Bytecode

  datatype Loop = Loop(count: nat, brk: Option<nat>, cont: Option<nat>)

  // Until it is patched, a jump's distance is 0xFFFF.
  const UNPATCHED := 0xFFFF

  function Distance(target: Option<nat>, at: nat): int {
    if target.None? then UNPATCHED else target.value - (at + 3)
  }

  // ----- expressions -----

  function GenExpr(e: Expr): Text
    decreases e, 1
  {
    match e
    case Literal(v) => Emit1(if v == VBool(true) then TRUE else if v == VBool(false) then FALSE else NONE)
    case Const(i) => EmitOperand(CONSTANT, i)
    case Global(i) => EmitOperand(GET_GLOBAL, i)
    case Local(i) => EmitOperand(GET_LOCAL, i)
    case Assign(i, rhs) => GenExpr(rhs) + EmitOperand(SET_LOCAL, i)
    case Add(a, b) => GenExpr(a) + (GenExpr(b) + Emit1(ADD))
    case Not(a) => GenExpr(a) + Emit1(NOT)
    case And(_, _) => GenShortCircuit(e)
    case Or(_, _) => GenShortCircuit(e)
    case Ternary(_, _, _) => GenTernary(e)
    case Compare(a, links) => GenExpr(a) + GenLinks(links, false)
    case Call(f, args) => GenExpr(f) + (GenArgs(args) + EmitOperand(CALL, Count(args)))
  }

  /** and_ and or_. */
  function GenShortCircuit(e: Expr): Text
    requires e.And? || e.Or?
    decreases e, 0
  {
    GenExpr(e.left) + (EmitJump(if e.And? then JUMP_IF_FALSE_OR_POP else JUMP_IF_TRUE_OR_POP, |GenExpr(e.right)|)
    + GenExpr(e.right))
  }

  /** `a if c else b`, with `b` placed before `a`. */
  function GenTernary(e: Expr): Text
    requires e.Ternary?
    decreases e, 0
  {
    GenExpr(e.cond) + (EmitJump(JUMP_IF_TRUE_OR_POP, |GenExpr(e.elseValue)| + 3)
    + (GenExpr(e.elseValue) + (EmitJump(JUMP, 1 + |GenExpr(e.thenValue)|)
    + (Emit1(POP) + GenExpr(e.thenValue)))))
  }

  function GenArgs(args: Exprs): Text
    decreases args, 0
  {
    match args
    case NoExpr => []
    case MoreExpr(e, rest) => GenExpr(e) + GenArgs(rest)
  }

  function GenCompare(op: CmpOp): Text {
    match op
    case Eq => Emit1(EQUAL)
    case Ne => Emit1(EQUAL) + Emit1(NOT)
    case Gt => Emit1(GREATER)
    case Ge => Emit1(GREATER_EQUAL)
    case Lt => Emit1(LESS)
    case Le => Emit1(LESS_EQUAL)
    case Is => Emit1(IS)
    case IsNot => Emit1(IS) + Emit1(NOT)
    case In => Emit1(INVOKE_CONTAINS)
    case NotIn => Emit1(INVOKE_CONTAINS) + Emit1(NOT)
  }

  /** compareChained: a comparison with more to its right keeps its right operand under the result; the last
      one of a longer chain jumps over the outermost chain's clean-up. */
  function GenLinks(links: Links, inner: bool): Text
    decreases links, 0
  {
    if links.more.None? then
      GenExpr(links.operand) + (GenCompare(links.op) + if inner then EmitJump(JUMP, 2) else [])
    else
      var rest := GenLinks(links.more.value, true);
      GenExpr(links.operand) + (Emit1(SWAP) + (EmitOperand(DUP, 1) + (GenCompare(links.op)
      + (EmitJump(JUMP_IF_FALSE_OR_POP, |rest|) + (rest + if inner then [] else Emit1(SWAP) + Emit1(POP))))))
  }

  // ----- statements -----

  /** endScope without captured locals. */
  function GenPops(n: nat): Text {
    if n == 0 then [] else if n == 1 then Emit1(POP) else EmitOperand(POP_MANY, n)
  }

  /** The loop condition src/compiler.c leaves out. */
  predicate AlwaysTrue(e: Expr) {
    e == Literal(VBool(true))
  }

  function GenExit(depth: nat, count: nat): Text {
    if count != depth then EmitOperand(EXIT_LOOP, count) else []
  }

  /** `break` and `continue`: drop the locals of the loop body, unless there are none, and jump. */
  function GenLeaveLoop(depth: nat, count: nat, target: Option<nat>, base: nat): Text {
    GenExit(depth, count) + EmitJump(JUMP, Distance(target, base + |GenExit(depth, count)|))
  }

  // ----- lengths, which depend neither on placement nor on jump targets -----

  function StmtSize(s: Stmt, depth: nat, count: nat): nat
    decreases s, 0
  {
    match s
    case Skip => 0
    case Eval(e) => |GenExpr(e)| + 1
    case Let(e) => |GenExpr(e)|
    case Seq(a, b) => StmtSize(a, depth, count) + StmtSize(b, depth + Decls(a), count)
    case If(c, a, b) =>
      |GenExpr(c)| + 3 + BlockSize(a, depth, count)
      + if b.None? then 0 else 3 + BlockSize(b.value, depth, count)
    case While(c, body, els) =>
      (if AlwaysTrue(c) then 3 else |GenExpr(c)| + 7) + BlockSize(body, depth, depth) + BlockSize(els, depth, count)
    case For(e, body, els) =>
      1 + |GenExpr(e)| + 1 + 3 + |EmitOperand(SET_LOCAL_POP, depth)| + BlockSize(body, depth + 2, depth + 2) + 4
      + BlockSize(els, depth + 2, count) + 2
    case Try(body, hs, els, fin) =>
      9 + BlockSize(body, depth + 2, count) + HandlersSize(hs, depth, count)
      + (if els.None? then 0 else 1 + BlockSize(els.value, depth + 2, count)) + BlockSize(fin, depth + 2, count) + 4
    case BareTry(body) => 9 + BlockSize(body, depth + 2, count) + 2
    case Raise(e, cause) => |GenExpr(e)| + 1 + if cause.None? then 0 else |GenExpr(cause.value)|
    case Return(e) => |GenExpr(e)| + 1
    case Break | Continue => |GenExit(depth, count)| + 3
  }

  function BlockSize(s: Stmt, depth: nat, count: nat): nat
    decreases s, 1
  {
    StmtSize(s, depth, count) + |GenPops(Decls(s))|
  }

  function HandlersSize(hs: Handlers, depth: nat, count: nat): nat
    decreases hs, 0
  {
    match hs
    case NoHandler => 0
    case Handler(f, _, body, more) =>
      (if f.None? then 1 else |GenExpr(f.value)|) + 6 + BlockSize(body, depth + 2, count)
      + HandlersSize(more, depth, count)
  }

  function GenStmt(s: Stmt, depth: nat, lp: Loop, base: nat): Text
    decreases s, 1
  {
    match s
    case Skip => []
    case Eval(e) => GenExpr(e) + Emit1(POP)
    case Let(e) => GenExpr(e)
    case Seq(_, _) => GenSeq(s, depth, lp, base)
    case If(_, _, _) => GenIf(s, depth, lp, base)
    case While(_, _, _) => GenWhile(s, depth, lp, base)
    case For(_, _, _) => GenFor(s, depth, lp, base)
    case Try(_, _, _, _) => GenTry(s, depth, lp, base)
    case BareTry(_) => GenBareTry(s, depth, lp, base)
    case Raise(_, _) => GenRaise(s)
    case Return(e) => GenExpr(e) + Emit1(RETURN)
    case Break => GenLeaveLoop(depth, lp.count, lp.brk, base)
    case Continue => GenLeaveLoop(depth, lp.count, lp.cont, base)
  }

  function GenRaise(s: Stmt): Text
    requires s.Raise?
  {
    if s.cause.None? then GenExpr(s.exc) + Emit1(RAISE)
    else GenExpr(s.exc) + (GenExpr(s.cause.value) + Emit1(RAISE_FROM))
  }

  function GenSeq(s: Stmt, depth: nat, lp: Loop, base: nat): Text
    requires s.Seq?
    decreases s, 0
  {
    var first := GenStmt(s.first, depth, lp, base);
    first + GenStmt(s.second, depth + Decls(s.first), lp, base + |first|)
  }

  function GenIf(s: Stmt, depth: nat, lp: Loop, base: nat): Text
    requires s.If?
    decreases s, 0
  {
    var cond := GenExpr(s.cond);
    var thn := GenBlock(s.thn, depth, lp, base + |cond| + 3);
    if s.els.None? then cond + (EmitJump(POP_JUMP_IF_FALSE, |thn|) + thn)
    else
      var els := GenBlock(s.els.value, depth, lp, base + |cond| + 3 + |thn| + 3);
      cond + (EmitJump(POP_JUMP_IF_FALSE, |thn| + 3) + (thn + (EmitJump(JUMP, |els|) + els)))
  }

  function GenBlock(s: Stmt, depth: nat, lp: Loop, base: nat): Text
    decreases s, 2
  {
    GenStmt(s, depth, lp, base) + GenPops(Decls(s))
  }

  /** The loop context of a while body placed at `at`. */
  function WhileLoop(s: Stmt, depth: nat, lp: Loop, at: nat): Loop
    requires s.While?
  {
    var size := BlockSize(s.body, depth, depth);
    var after := size + (if AlwaysTrue(s.cond) then 3 else 4) + BlockSize(s.orElse, depth, lp.count);
    Loop(depth, Some(at + after), Some(at + size))
  }

  function GenWhile(s: Stmt, depth: nat, lp: Loop, base: nat): Text
    requires s.While?
    decreases s, 0
  {
    var size := BlockSize(s.body, depth, depth);
    if AlwaysTrue(s.cond) then
      GenBlock(s.body, depth, WhileLoop(s, depth, lp, base), base)
      + (EmitJump(LOOP, size + 3) + GenBlock(s.orElse, depth, lp, base + size + 3))
    else
      var cond := GenExpr(s.cond);
      var at := base + |cond| + 3;
      cond + (EmitJump(JUMP_IF_FALSE_OR_POP, size + 3)
      + (GenBlock(s.body, depth, WhileLoop(s, depth, lp, at), at)
      + (EmitJump(LOOP, |cond| + 3 + size + 3)
      + (Emit1(POP) + GenBlock(s.orElse, depth, lp, at + size + 4)))))
  }

  /** The loop context of a for body placed at `at`, just after the loop variable is stored. */
  function ForLoop(s: Stmt, depth: nat, lp: Loop, at: nat): Loop
    requires s.For?
  {
    var size := BlockSize(s.body, depth + 2, depth + 2);
    Loop(depth + 2, Some(at + size + 4 + BlockSize(s.orElse, depth + 2, lp.count)), Some(at + size))
  }

  /** forStatement over an iterator; the loop variable is local `depth`, the iterator the one after it. */
  function GenFor(s: Stmt, depth: nat, lp: Loop, base: nat): Text
    requires s.For?
    decreases s, 0
  {
    var store := EmitOperand(SET_LOCAL_POP, depth);
    var size := BlockSize(s.body, depth + 2, depth + 2);
    var body := base + 1 + |GenExpr(s.iterable)| + 1 + 3 + |store|;
    Emit1(NONE) + (GenExpr(s.iterable) + (Emit1(INVOKE_ITER)
    + (EmitJump(CALL_ITER, |store| + size + 3) + (store
    + (GenBlock(s.body, depth + 2, ForLoop(s, depth, lp, body), body)
    + (EmitJump(LOOP_ITER, |store| + size + 3) + (Emit1(POP)
    + (GenBlock(s.orElse, depth + 2, lp, body + size + 4) + GenPops(2)))))))))
  }

  function ElseSize(els: Option<Stmt>, depth: nat, count: nat): nat {
    if els.None? then 0 else 1 + BlockSize(els.value, depth + 2, count)
  }

  /** tryStatement with neither `except` nor `finally`: the handler's entry goes on to the pops. */
  function GenBareTry(s: Stmt, depth: nat, lp: Loop, base: nat): Text
    requires s.BareTry?
    decreases s, 0
  {
    var size := BlockSize(s.body, depth + 2, lp.count);
    EmitJump(PUSH_TRY, size + 3) + (GenBlock(s.body, depth + 2, lp, base + 3)
    + (EmitJump(JUMP, 3) + (EmitJump(ENTER_EXCEPT, 0) + GenPops(2))))
  }

  /** tryStatement otherwise. A try with `except` and no `finally` gets an empty one. */
  function GenTry(s: Stmt, depth: nat, lp: Loop, base: nat): Text
    requires s.Try?
    decreases s, 0
  {
    var handlers := HandlersSize(s.handlers, depth, lp.count);
    var els := ElseSize(s.els, depth, lp.count);
    var at := base + 9 + BlockSize(s.body, depth + 2, lp.count);
    EmitJump(PUSH_TRY, at - 3 - base - 3) + (GenBlock(s.body, depth + 2, lp, base + 3)
    + (EmitJump(JUMP, 3 + handlers) + (EmitJump(ENTER_EXCEPT, handlers + els)
    + (GenHandlers(s.handlers, depth, lp, at, els) + (GenElse(s.els, depth, lp, at + handlers)
    + GenFinally(s.fin, depth, lp, at + handlers + els))))))
  }

  function GenElse(els: Option<Stmt>, depth: nat, lp: Loop, at: nat): Text
    decreases els, 4
  {
    if els.None? then [] else Emit1(TRY_ELSE) + GenBlock(els.value, depth + 2, lp, at + 1)
  }

  function GenFinally(fin: Stmt, depth: nat, lp: Loop, at: nat): Text
    decreases fin, 4
  {
    Emit1(BEGIN_FINALLY) + (GenBlock(fin, depth + 2, lp, at + 1) + (Emit1(END_FINALLY) + GenPops(2)))
  }

  function GenFilter(f: Option<Expr>): Text {
    if f.None? then Emit1(NONE) else GenExpr(f.value)
  }

  /** The except clauses from address `at`; `tail` bytes of `else` follow them. */
  function GenHandlers(hs: Handlers, depth: nat, lp: Loop, at: nat, tail: nat): Text
    decreases hs, 0
  {
    match hs
    case NoHandler => []
    case Handler(f, _, body, more) =>
      var size := BlockSize(body, depth + 2, lp.count);
      var at1 := at + |GenFilter(f)| + 3;
      GenFilter(f) + (EmitJump(FILTER_EXCEPT, size + 3 + if more.NoHandler? then tail else 0)
      + (GenBlock(body, depth + 2, lp, at1)
      + (EmitJump(JUMP, HandlersSize(more, depth, lp.count) + tail)
      + GenHandlers(more, depth, lp, at1 + size + 3, tail))))
  }

  // ----- handler targets, which are kept in two bytes -----

  /** Every address a handler value will hold is below 0x10000: where each try's handler is entered, and every jump out
      of a loop that a try of the loop's body intercepts. `near` says whether such a try surrounds the statement. */
  predicate TargetsFit(s: Stmt, depth: nat, count: nat, at: nat, near: bool)
    decreases s, 1
  {
    match s
    case Seq(a, b) =>
      TargetsFit(a, depth, count, at, near) && TargetsFit(b, depth + Decls(a), count, at + StmtSize(a, depth, count), near)
    case If(c, a, b) =>
      var at1 := at + |GenExpr(c)| + 3;
      && TargetsFit(a, depth, count, at1, near)
      && (b.Some? ==> TargetsFit(b.value, depth, count, at1 + BlockSize(a, depth, count) + 3, near))
    case While(c, body, els) =>
      var at1 := WhileBodyAt(c, at);
      && TargetsFit(body, depth, depth, at1, false)
      && TargetsFit(els, depth, count, at1 + BlockSize(body, depth, depth) + if AlwaysTrue(c) then 3 else 4, near)
    case For(e, body, els) =>
      var at1 := ForBodyAt(e, depth, at);
      && TargetsFit(body, depth + 2, depth + 2, at1, false)
      && TargetsFit(els, depth + 2, count, at1 + BlockSize(body, depth + 2, depth + 2) + 4, near)
    case Try(body, hs, els, fin) =>
      var at1 := at + 9 + BlockSize(body, depth + 2, count);
      var at2 := at1 + HandlersSize(hs, depth, count);
      && at1 - 3 <= 0xFFFF && TargetsFit(body, depth + 2, count, at + 3, true) && HandlersFit(hs, depth, count, at1)
      && (els.Some? ==> TargetsFit(els.value, depth + 2, count, at2 + 1, true))
      && TargetsFit(fin, depth + 2, count, at2 + ElseSize(els, depth, count) + 1, near)
    case BareTry(body) =>
      at + 6 + BlockSize(body, depth + 2, count) <= 0xFFFF && TargetsFit(body, depth + 2, count, at + 3, true)
    case Break | Continue => near ==> at + |GenExit(depth, count)| <= 0xFFFF
    case _ => true
  }

  predicate HandlersFit(hs: Handlers, depth: nat, count: nat, at: nat)
    decreases hs, 0
  {
    match hs
    case NoHandler => true
    case Handler(f, _, body, more) =>
      var at1 := at + |GenFilter(f)| + 3;
      && TargetsFit(body, depth + 2, count, at1, true)
      && HandlersFit(more, depth, count, at1 + BlockSize(body, depth + 2, count) + 3)
  }

  /** Where a loop's body starts. */
  function WhileBodyAt(cond: Expr, at: nat): nat {
    if AlwaysTrue(cond) then at else at + |GenExpr(cond)| + 3
  }

  function ForBodyAt(iterable: Expr, depth: nat, at: nat): nat {
    at + 1 + |GenExpr(iterable)| + 1 + 3 + |EmitOperand(SET_LOCAL_POP, depth)|
  }

  /** Code of up to 65536 bytes has no other addresses. */
  lemma {:induction false} ShortFits(s: Stmt, depth: nat, count: nat, at: nat, near: bool)
    requires at + StmtSize(s, depth, count) <= 0x10000
    ensures TargetsFit(s, depth, count, at, near)
    decreases s, 1
  {
    hide GenExpr, EmitOperand, AlwaysTrue, GenExit, Decls, BlockSize, HandlersSize, HandlersFit, ElseSize;
    match s
    case Seq(a, b) =>
      ShortFits(a, depth, count, at, near);
      ShortFits(b, depth + Decls(a), count, at + StmtSize(a, depth, count), near);
    case If(_, _, _) => ShortPartsFit(s, depth, count, at, near);
    case While(_, _, _) => ShortPartsFit(s, depth, count, at, near);
    case For(_, _, _) => ShortPartsFit(s, depth, count, at, near);
    case Try(_, _, _, _) => ShortTryFits(s, depth, count, at, near);
    case BareTry(body) => ShortBlockFits(body, depth + 2, count, at + 3, true);
    case _ =>
  }

  lemma {:induction false} ShortPartsFit(s: Stmt, depth: nat, count: nat, at: nat, near: bool)
    requires (s.If? || s.While? || s.For?) && at + StmtSize(s, depth, count) <= 0x10000
    ensures TargetsFit(s, depth, count, at, near)
    decreases s, 0
  {
    hide GenExpr, EmitOperand, AlwaysTrue, BlockSize;
    match s
    case If(c, a, b) =>
      ShortBlockFits(a, depth, count, at + |GenExpr(c)| + 3, near);
      if b.Some? {
        ShortBlockFits(b.value, depth, count, at + |GenExpr(c)| + 3 + BlockSize(a, depth, count) + 3, near);
      }
    case While(c, body, els) =>
      var at1 := WhileBodyAt(c, at);
      ShortBlockFits(body, depth, depth, at1, false);
      ShortBlockFits(els, depth, count, at1 + BlockSize(body, depth, depth) + if AlwaysTrue(c) then 3 else 4, near);
    case For(e, body, els) =>
      var at1 := ForBodyAt(e, depth, at);
      ShortBlockFits(body, depth + 2, depth + 2, at1, false);
      ShortBlockFits(els, depth + 2, count, at1 + BlockSize(body, depth + 2, depth + 2) + 4, near);
  }

  lemma {:induction false} ShortBlockFits(s: Stmt, depth: nat, count: nat, at: nat, near: bool)
    requires at + BlockSize(s, depth, count) <= 0x10000
    ensures TargetsFit(s, depth, count, at, near)
    decreases s, 2
  {
    hide TargetsFit, StmtSize;
    ShortFits(s, depth, count, at, near);
  }

  lemma {:induction false} ShortTryFits(s: Stmt, depth: nat, count: nat, at: nat, near: bool)
    requires s.Try? && at + StmtSize(s, depth, count) <= 0x10000
    ensures TargetsFit(s, depth, count, at, near)
    decreases s, 0
  {
    hide GenExpr, EmitOperand, AlwaysTrue, GenExit, Decls, BlockSize, HandlersSize, HandlersFit;
    var at1 := at + 9 + BlockSize(s.body, depth + 2, count);
    var at2 := at1 + HandlersSize(s.handlers, depth, count);
    ShortBlockFits(s.body, depth + 2, count, at + 3, true);
    ShortHandlersFit(s.handlers, depth, count, at1);
    if s.els.Some? {
      ShortBlockFits(s.els.value, depth + 2, count, at2 + 1, true);
    }
    ShortBlockFits(s.fin, depth + 2, count, at2 + ElseSize(s.els, depth, count) + 1, near);
  }

  lemma {:induction false} ShortHandlersFit(hs: Handlers, depth: nat, count: nat, at: nat)
    requires at + HandlersSize(hs, depth, count) <= 0x10000
    ensures HandlersFit(hs, depth, count, at)
    decreases hs, 0
  {
    hide GenExpr, BlockSize, TargetsFit;
    match hs
    case NoHandler =>
    case Handler(f, _, body, more) =>
      var at1 := at + |GenFilter(f)| + 3;
      ShortBlockFits(body, depth + 2, count, at1, true);
      ShortHandlersFit(more, depth, count, at1 + BlockSize(body, depth + 2, count) + 3);
  }

  /** A whole function: its body, then the implicit `return None` of emitReturn. */
  function GenFunction(body: Stmt, depth: nat): Text {
    GenStmt(body, depth, Loop(0, None, None), 0) + (Emit1(NONE) + Emit1(RETURN))
  }

  // ----- lengths agree -----

  lemma {:induction false} StmtLength(s: Stmt, depth: nat, lp: Loop, base: nat)
    ensures |GenStmt(s, depth, lp, base)| == StmtSize(s, depth, lp.count)
    decreases s, 1
  {
    hide GenBlock, GenSeq, GenIf, GenWhile, GenFor, GenTry, GenBareTry, GenElse, GenFinally, GenHandlers,
      GenFilter, EmitJump, EmitOperand, Emit1, GenExpr, GenPops, Decls, BlockSize, HandlersSize,
      ElseSize, GenExit, AlwaysTrue, WhileLoop, ForLoop, Distance;
    match s
    case Seq(_, _) => SeqLength(s, depth, lp, base);
    case If(_, _, _) => IfLength(s, depth, lp, base);
    case While(_, _, _) => WhileLength(s, depth, lp, base);
    case For(_, _, _) => ForLength(s, depth, lp, base);
    case Try(_, _, _, _) => TryLength(s, depth, lp, base);
    case BareTry(_) => BareTryLength(s, depth, lp, base);
    case _ =>
  }

  lemma {:induction false} SeqLength(s: Stmt, depth: nat, lp: Loop, base: nat)
    requires s.Seq?
    ensures |GenSeq(s, depth, lp, base)| == StmtSize(s, depth, lp.count)
    decreases s, 0
  {
    hide GenStmt, GenBlock, GenIf, GenWhile, GenFor, GenTry, GenElse, GenFinally, GenHandlers,
      GenFilter, EmitJump, EmitOperand, Emit1, GenExpr, GenPops, Decls, BlockSize, HandlersSize,
      ElseSize, GenExit, AlwaysTrue, WhileLoop, ForLoop, Distance;
    StmtLength(s.first, depth, lp, base);
    StmtLength(s.second, depth + Decls(s.first), lp, base + |GenStmt(s.first, depth, lp, base)|);
  }

  lemma {:induction false} BlockLength(s: Stmt, depth: nat, lp: Loop, base: nat)
    ensures |GenBlock(s, depth, lp, base)| == BlockSize(s, depth, lp.count)
    decreases s, 2
  {
    hide GenStmt, GenSeq, GenIf, GenWhile, GenFor, GenTry, GenElse, GenFinally, GenHandlers,
      GenFilter, EmitJump, EmitOperand, Emit1, GenExpr, GenPops, Decls, HandlersSize, ElseSize,
      GenExit, AlwaysTrue, WhileLoop, ForLoop, Distance;
    StmtLength(s, depth, lp, base);
  }

  lemma {:induction false} IfLength(s: Stmt, depth: nat, lp: Loop, base: nat)
    requires s.If?
    ensures |GenIf(s, depth, lp, base)| == StmtSize(s, depth, lp.count)
    decreases s, 0
  {
    hide GenStmt, GenBlock, GenSeq, GenWhile, GenFor, GenTry, GenElse, GenFinally, GenHandlers,
      GenFilter, EmitJump, EmitOperand, Emit1, GenExpr, GenPops, Decls, BlockSize, HandlersSize,
      ElseSize, GenExit, AlwaysTrue, WhileLoop, ForLoop, Distance;
    var n := |GenExpr(s.cond)| + 3;
    BlockLength(s.thn, depth, lp, base + n);
    if s.els.Some? {
      BlockLength(s.els.value, depth, lp, base + n + BlockSize(s.thn, depth, lp.count) + 3);
    }
  }

  lemma {:induction false} WhileLength(s: Stmt, depth: nat, lp: Loop, base: nat)
    requires s.While?
    ensures |GenWhile(s, depth, lp, base)| == StmtSize(s, depth, lp.count)
    decreases s, 0
  {
    hide GenStmt, GenBlock, GenSeq, GenIf, GenFor, GenTry, GenElse, GenFinally, GenHandlers,
      GenFilter, EmitJump, EmitOperand, Emit1, GenExpr, GenPops, Decls, BlockSize, HandlersSize,
      ElseSize, GenExit, AlwaysTrue, ForLoop, Distance;
    var at := if AlwaysTrue(s.cond) then base else base + |GenExpr(s.cond)| + 3;
    var end := at + BlockSize(s.body, depth, depth) + if AlwaysTrue(s.cond) then 3 else 4;
    BlockLength(s.body, depth, WhileLoop(s, depth, lp, at), at);
    BlockLength(s.orElse, depth, lp, end);
  }

  lemma {:induction false} ForLength(s: Stmt, depth: nat, lp: Loop, base: nat)
    requires s.For?
    ensures |GenFor(s, depth, lp, base)| == StmtSize(s, depth, lp.count)
    decreases s, 0
  {
    hide GenStmt, GenBlock, GenSeq, GenIf, GenWhile, GenTry, GenElse, GenFinally, GenHandlers,
      GenFilter, EmitJump, EmitOperand, Emit1, GenExpr, Decls, BlockSize, HandlersSize,
      ElseSize, GenExit, AlwaysTrue, WhileLoop, Distance;
    var body := base + 1 + |GenExpr(s.iterable)| + 1 + 3 + |EmitOperand(SET_LOCAL_POP, depth)|;
    BlockLength(s.body, depth + 2, ForLoop(s, depth, lp, body), body);
    BlockLength(s.orElse, depth + 2, lp, body + BlockSize(s.body, depth + 2, depth + 2) + 4);
  }

  lemma {:induction false} TryLength(s: Stmt, depth: nat, lp: Loop, base: nat)
    requires s.Try?
    ensures |GenTry(s, depth, lp, base)| == StmtSize(s, depth, lp.count)
    decreases s, 0
  {
    hide GenStmt, GenBlock, GenSeq, GenIf, GenWhile, GenFor, GenElse, GenHandlers, GenFilter,
      EmitJump, EmitOperand, Emit1, GenExpr, Decls, BlockSize, HandlersSize, GenExit,
      AlwaysTrue, WhileLoop, ForLoop, Distance;
    var at := base + 9 + BlockSize(s.body, depth + 2, lp.count);
    var end := at + HandlersSize(s.handlers, depth, lp.count);
    BlockLength(s.body, depth + 2, lp, base + 3);
    HandlersLength(s.handlers, depth, lp, at, ElseSize(s.els, depth, lp.count));
    ElseLength(s.els, depth, lp, end);
    BlockLength(s.fin, depth + 2, lp, end + ElseSize(s.els, depth, lp.count) + 1);
  }

  lemma {:induction false} BareTryLength(s: Stmt, depth: nat, lp: Loop, base: nat)
    requires s.BareTry?
    ensures |GenBareTry(s, depth, lp, base)| == StmtSize(s, depth, lp.count)
    decreases s, 0
  {
    hide GenBlock, EmitJump, BlockSize;
    BlockLength(s.body, depth + 2, lp, base + 3);
  }

  lemma {:induction false} ElseLength(els: Option<Stmt>, depth: nat, lp: Loop, at: nat)
    ensures |GenElse(els, depth, lp, at)| == ElseSize(els, depth, lp.count)
    decreases els, 3
  {
    hide GenStmt, GenBlock, GenSeq, GenIf, GenWhile, GenFor, GenTry, GenFinally, GenHandlers,
      GenFilter, EmitJump, EmitOperand, Emit1, GenExpr, GenPops, Decls, BlockSize, HandlersSize,
      GenExit, AlwaysTrue, WhileLoop, ForLoop, Distance;
    if els.Some? {
      BlockLength(els.value, depth + 2, lp, at + 1);
    }
  }

  lemma {:induction false} HandlersLength(hs: Handlers, depth: nat, lp: Loop, at: nat, tail: nat)
    ensures |GenHandlers(hs, depth, lp, at, tail)| == HandlersSize(hs, depth, lp.count)
    decreases hs, 0
  {
    hide GenStmt, GenBlock, GenSeq, GenIf, GenWhile, GenFor, GenTry, GenElse, GenFinally, EmitJump,
      EmitOperand, Emit1, GenExpr, GenPops, Decls, BlockSize, ElseSize, GenExit, AlwaysTrue,
      WhileLoop, ForLoop, Distance;
    match hs
    case NoHandler =>
    case Handler(f, _, body, more) =>
      var at1 := at + |GenFilter(f)| + 3;
      BlockLength(body, depth + 2, lp, at1);
      HandlersLength(more, depth, lp, at1 + BlockSize(body, depth + 2, lp.count) + 3, tail);
  }
}
