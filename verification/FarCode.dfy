/** Code beyond the first 65536 bytes of a function, where a handler's 16 bits are not enough: what becomes of an
    exception and of a loop exit there, and two functions that go wrong, compiled and run. */
module FarCode {
  import opened Options
  import opened Syntax
  import opened Semantics
  import opened Bytecode
  import opened Codegen
  import opened Vm
  import opened PreserveExpr
  import opened PreserveStmt
  import opened Emitter
  import opened RunLoop
  import opened Interpreter

  /** A loop exit inside a try is recorded with the address after its own EXIT_LOOP, and END_FINALLY resumes it there
      exactly if that lies in the first 65536 bytes. */
  lemma ExitResumed(m: Machine, a: State, st: State, count: nat, base: seq<Slot>, saved: Slot, tag: Tag, entry: nat,
                    above: seq<Slot>, base1: seq<Slot>, ip1: nat, tr1: Trace)
    returns (t: State, u: State)
    requires Reaches(m, a, st) && st.mode == Run && 0 <= st.ip && At(m.code, m.table, st.ip, EmitOperand(EXIT_LOOP, count))
    requires count < OPERAND_LIMIT && st.stack == base + [saved, H(tag, entry)] + above && Quiet(above, ForReturn)
    requires m.slots + count <= |base| && tag in {TryPushed, Filtered} && At(m.code, m.table, ip1, Emit1(END_FINALLY))
    ensures var next := st.ip + |EmitOperand(EXIT_LOOP, count)|;
      var pending := [V(VInt(count)), H(LoopExit, next % 0x10000)];
      && Reaches(m, a, t) && t == State(Run, entry, base + pending, st.tr)
      && Reaches(m, State(Run, ip1, base1 + pending, tr1), u)
      && u == State(Popping(count), next % 0x10000, base1 + pending, tr1) && (u.ip == next <==> next < 0x10000)
  {
    hide Reaches, Quiet, EmitOperand, Emit1, At, Fetch, Execute;
    var next := st.ip + |EmitOperand(EXIT_LOOP, count)|;
    var pending := [V(VInt(count)), H(LoopExit, next % 0x10000)];
    var popping := DoExitLoop(m, a, st, count);
    t := PopToTry(m, a, popping, count, base, saved, tag, entry, above);
    var b := State(Run, ip1, base1 + pending, tr1);
    Stay(m, b);
    u := DoEndFinally(m, b, b);
  }

  lemma PopToTry(m: Machine, a: State, st: State, count: nat, base: seq<Slot>, saved: Slot, tag: Tag, entry: nat, above: seq<Slot>)
    returns (t: State)
    requires Reaches(m, a, st) && st.mode == Popping(count) && 0 <= st.ip && st.stack == base + [saved, H(tag, entry)] + above
    requires Quiet(above, ForReturn) && m.slots + count <= |base| && tag in {TryPushed, Filtered}
    ensures Reaches(m, a, t)
    ensures t == State(Run, entry, base + [V(VInt(count)), H(LoopExit, st.ip % 0x10000)], st.tr)
  {
    hide Reaches, Quiet, Fetch, Execute;
    var s1 := base + [saved, H(tag, entry)];
    FindBelow(s1, above, m.slots + count, ForReturn);
    assert FindHandler(s1, m.slots + count, ForReturn) == Some(|base| + 1);
    t := Step(m, st);
    One(m, st);
    Then(m, a, st, t);
    assert st.stack[..|base|] == base;
  }

  // ----- statements of any size -----

  /** Statements that do nothing, in `k` bytes. */
  function Filler(k: nat): Stmt
    requires k >= 2
  {
    if k == 2 then Eval(Literal(VNone))
    else if k == 3 then Eval(Const(0))
    else Seq(Eval(Literal(VNone)), Filler(k - 2))
  }

  lemma SeqSize(first: Stmt, second: Stmt, depth: nat, count: nat)
    requires Decls(first) == 0
    ensures var s := Seq(first, second);
      StmtSize(s, depth, count) == StmtSize(first, depth, count) + StmtSize(second, depth, count) && Decls(s) == Decls(second)
  {
    hide GenExpr, BlockSize, HandlersSize, ElseSize, EmitOperand, GenExit, AlwaysTrue;
  }

  lemma SeqOk(first: Stmt, second: Stmt, scope: Scope, inBody: bool, inLoop: bool)
    requires Decls(first) == 0 && |scope| + 2 < OPERAND_LIMIT
    requires StmtOk(first, scope, inBody, inLoop) && StmtOk(second, scope, inBody, inLoop)
    ensures StmtOk(Seq(first, second), scope, inBody, inLoop)
  {
    assert scope + Declared(0) == scope;
    hide ExprOk, BlockOk, HandlersOk, Declared, Decls;
  }

  lemma SeqFits(first: Stmt, second: Stmt, depth: nat, count: nat, at: nat, near: bool)
    requires Decls(first) == 0 && TargetsFit(first, depth, count, at, near)
    requires TargetsFit(second, depth, count, at + StmtSize(first, depth, count), near)
    ensures TargetsFit(Seq(first, second), depth, count, at, near)
  {
    hide GenExpr, BlockSize, HandlersSize, ElseSize, EmitOperand, GenExit, AlwaysTrue, HandlersFit, StmtSize, Decls;
  }

  /** Expressions thrown away. */
  lemma EvalStep(e: Expr, n: nat, scope: Scope, inBody: bool, inLoop: bool, depth: nat, count: nat, at: nat, near: bool)
    requires (e == Literal(VNone) && n == 2) || (e == Const(0) && n == 3)
    requires |scope| + 2 < OPERAND_LIMIT
    ensures StmtSize(Eval(e), depth, count) == n && Decls(Eval(e)) == 0
    ensures StmtOk(Eval(e), scope, inBody, inLoop) && TargetsFit(Eval(e), depth, count, at, near)
  {
    assert |GenExpr(e)| == n - 1;
    hide GenExpr, BlockSize, HandlersSize, ElseSize, EmitOperand, GenExit, AlwaysTrue, HandlersFit, BlockOk, HandlersOk, Declared;
  }

  lemma {:induction false} FillerFits(k: nat, scope: Scope, inBody: bool, inLoop: bool, depth: nat, count: nat, at: nat, near: bool)
    requires k >= 2 && |scope| + 2 < OPERAND_LIMIT
    ensures StmtSize(Filler(k), depth, count) == k && Decls(Filler(k)) == 0
    ensures StmtOk(Filler(k), scope, inBody, inLoop) && TargetsFit(Filler(k), depth, count, at, near)
    decreases k
  {
    hide StmtSize, Decls, StmtOk, TargetsFit;
    if k == 3 {
      EvalStep(Const(0), 3, scope, inBody, inLoop, depth, count, at, near);
    } else {
      EvalStep(Literal(VNone), 2, scope, inBody, inLoop, depth, count, at, near);
    }
    if k > 3 {
      var first, rest := Eval(Literal(VNone)), Filler(k - 2);
      FillerFits(k - 2, scope, inBody, inLoop, depth, count, at + 2, near);
      SeqSize(first, rest, depth, count);
      SeqOk(first, rest, scope, inBody, inLoop);
      SeqFits(first, rest, depth, count, at, near);
    }
  }

  lemma SeqMeans(w: World, pool: Pool, first: Stmt, second: Stmt, env: Env, tr: Trace, fuel: nat)
    ensures Exec(w, pool, Seq(first, second), env, tr, fuel)
         == var o := Exec(w, pool, first, env, tr, fuel);
            if o.Done? && o.c == Normal then Exec(w, pool, second, o.env, o.tr, fuel) else o
  {
    hide EvalExpr, ExecRaise, ExecIf, ExecWhile, ExecFor, ExecTry, ExecBareTry;
  }

  lemma {:induction false} FillerMeans(w: World, pool: Pool, k: nat, env: Env, tr: Trace, fuel: nat)
    requires k >= 2
    ensures Exec(w, pool, Filler(k), env, tr, fuel) == Done(env, tr, Normal)
    decreases k
  {
    EvalMeans(w, pool, Literal(VNone), VNone, env, tr, fuel);
    EvalMeans(w, pool, Const(0), pool(0), env, tr, fuel);
    hide Exec;
    if k > 3 {
      SeqMeans(w, pool, Eval(Literal(VNone)), Filler(k - 2), env, tr, fuel);
      FillerMeans(w, pool, k - 2, env, tr, fuel);
    }
  }

  lemma EvalMeans(w: World, pool: Pool, e: Expr, v: Value, env: Env, tr: Trace, fuel: nat)
    requires (e == Literal(v)) || (e == Const(0) && v == pool(0))
    ensures Exec(w, pool, Eval(e), env, tr, fuel) == Done(env, tr, Normal)
  {
    assert EvalExpr(w, pool, e, env, tr) == EvalResult(env, tr, Ok(v));
  }

  // ----- an exception that misses its handler -----

  const YES := Literal(VBool(true))

  /** `raise True`, and `k` bytes that are not reached. */
  function RaiseFirst(k: nat): Stmt
    requires k >= 2
  {
    Seq(Stmt.Raise(YES, None), Filler(k))
  }

  /** `try: raise True; ...` and `except: pass`. */
  function FarTry(k: nat): Stmt
    requires k >= 2
  {
    Try(RaiseFirst(k), Handler(None, false, Skip, NoHandler), None, Skip)
  }

  lemma RaiseMeans(w: World, pool: Pool, env: Env, tr: Trace, fuel: nat)
    ensures Exec(w, pool, Stmt.Raise(YES, None), env, tr, fuel) == Done(env, tr, Raises(VBool(true)))
  {
    assert EvalExpr(w, pool, YES, env, tr) == EvalResult(env, tr, Ok(VBool(true)));
  }

  lemma TryMeans(w: World, pool: Pool, s: Stmt, env: Env, tr: Trace, fuel: nat)
    requires s.Try?
    ensures Exec(w, pool, s, env, tr, fuel) == ExecTry(w, pool, s, env, tr, fuel)
  {
    hide EvalExpr, ExecRaise, ExecSeq, ExecIf, ExecWhile, ExecFor, ExecTry, ExecBareTry;
  }

  /** A clause without a filter takes what was raised. */
  lemma HandlersMean(w: World, pool: Pool, hs: Handlers, env: Env, tr: Trace, fuel: nat)
    requires hs.Handler? && hs.filter.None? && !hs.named
    ensures ExecHandlers(w, pool, hs, VBool(true), env, tr, fuel)
         == Leave(ExecBlock(w, pool, hs.body, env + [None, None], tr, fuel), |env|)
  {
    hide ExecBlock;
    assert (env + [None, None])[..|env|] == env;
  }

  lemma FarTryMeans(w: World, pool: Pool, k: nat, tr: Trace)
    requires k >= 2
    ensures Exec(w, pool, FarTry(k), [], tr, 0) == Done([], tr, Normal)
  {
    hide Exec, ExecHandlers, Filler;
    var s := FarTry(k);
    var env: Env := [None, None];
    assert [] + env == env;
    RaiseMeans(w, pool, env, tr, 0);
    SeqMeans(w, pool, s.body.first, s.body.second, env, tr, 0);
    SkipMeans(w, pool, env, tr, 0);
    TryMeans(w, pool, s, [], tr, 0);
    HandlersMean(w, pool, s.handlers, [], tr, 0);
    assert ExecBlock(w, pool, s.body, env, tr, 0) == Done(env, tr, Raises(VBool(true)));
    assert ExecProtected(w, pool, s, [], tr, 0) == Done([], tr, Normal);
  }

  lemma SkipMeans(w: World, pool: Pool, env: Env, tr: Trace, fuel: nat)
    ensures Exec(w, pool, Skip, env, tr, fuel) == Done(env, tr, Normal)
  {
  }

  lemma RaiseParts(code: Code, table: seq<Overlong>, s: Stmt, depth: nat, lp: Loop, at: nat)
    requires s.Seq? && s.first == Stmt.Raise(YES, None) && At(code, table, at, GenBlock(s, depth, lp, at))
    ensures At(code, table, at, Emit1(TRUE)) && At(code, table, at + 1, Emit1(RAISE))
  {
    hide At, Emit1, GenPops, Decls, GenIf, GenWhile, GenFor, GenTry, GenBareTry, GenLeaveLoop;
    var first := GenStmt(s.first, depth, lp, at);
    var second := GenStmt(s.second, depth + Decls(s.first), lp, at + |first|);
    AtSplit(code, table, at, GenStmt(s, depth, lp, at), GenPops(Decls(s)));
    AtSplit(code, table, at, first, second);
    assert GenExpr(YES) == Emit1(TRUE);
    AtSplit(code, table, at, Emit1(TRUE), Emit1(RAISE));
  }

  /** `raise True`, above whatever is on the stack. */
  lemma RaiseTrue(m: Machine, a: State, st: State) returns (t: State)
    requires Reaches(m, a, st) && st.mode == Run && 0 <= st.ip
    requires At(m.code, m.table, st.ip, Emit1(TRUE)) && At(m.code, m.table, st.ip + 1, Emit1(RAISE))
    ensures Reaches(m, a, t) && t == State(Unwinding(VBool(true)), st.ip + 2, st.stack + [V(VBool(true))], st.tr)
  {
    hide Reaches, Emit1, At;
    t := DoPush(m, a, st, TRUE, VBool(true));
    t := DoRaise(m, a, t, st.stack, VBool(true));
  }

  /** The exception comes back to its own raise. */
  lemma RaisedHere(m: Machine, a: State, st: State, s: seq<Slot>, saved: Slot, tag: Tag) returns (t: State)
    requires Reaches(m, a, st) && st == State(Run, 3, s + [saved, H(tag, 3)], st.tr) && m.outSlots <= |s|
    requires At(m.code, m.table, 3, Emit1(TRUE)) && At(m.code, m.table, 4, Emit1(RAISE))
    requires tag in {TryPushed, Raising, InFinallyRaising}
    ensures Reaches(m, a, t) && t == State(Run, 3, s + [V(VBool(true)), H(CaughtTag(tag), 3)], st.tr)
  {
    hide Reaches, Emit1, At;
    t := RaiseTrue(m, a, st);
    QuietValues([V(VBool(true))], ForException);
    t := Catch(m, a, t, s, saved, tag, 3, [V(VBool(true))]);
  }

  /** With 65531 bytes after the raise the except part is at byte 65539, and the exception goes to byte 3, where it is
      raised; the third time the handler does not catch it any more. The clause that catches everything never runs. */
  lemma FarTryRuns(m: Machine, k: nat, s: seq<Slot>, tr: Trace) returns (t: State)
    requires k == 65531 && At(m.code, m.table, 0, GenFunction(FarTry(k), 0))
    requires m.outSlots <= m.slots == |s| && AllValues(s[m.outSlots..])
    ensures Reaches(m, State(Run, 0, s, tr), t)
    ensures t.mode == Uncaught(VBool(true)) && t.tr == tr && t.stack == s[..m.outSlots]
  {
    hide Reaches, Emit1, At, Filler, GenBlock, EmitJump, GenHandlers, GenElse, GenFinally, BlockSize, AllValues, Quiet;
    var stm, lp := FarTry(k), Loop(0, None, None);
    AtSplit(m.code, m.table, 0, GenStmt(stm, 0, lp, 0), Emit1(NONE) + Emit1(RETURN));
    TryParts(m.code, m.table, stm, 0, lp, 0);
    FarTryEntry(k);
    RaiseParts(m.code, m.table, stm.body, 2, lp, 3);
    var a := State(Run, 0, s, tr);
    Stay(m, a);
    t := GoJump(m, a, a, PUSH_TRY, 65536);
    t := RaisedHere(m, a, t, s, V(VNone), TryPushed);
    t := RaisedHere(m, a, t, s, V(VBool(true)), Raising);
    t := RaisedHere(m, a, t, s, V(VBool(true)), InFinallyRaising);
    t := RaiseTrue(m, a, t);
    var above := [V(VBool(true)), H(RaisedInFinally, 3), V(VBool(true))];
    assert t.stack == s + above;
    QuietPassed(above);
    QuietValues(s[m.outSlots..], ForException);
    t := PreserveStmt.Return(m, a, t, s, above);
  }

  lemma QuietPassed(above: seq<Slot>)
    requires above == [V(VBool(true)), H(RaisedInFinally, 3), V(VBool(true))]
    ensures Quiet(above, ForException)
  {
  }

  lemma FarTryEntry(k: nat)
    requires k == 65531
    ensures PlanOf(FarTry(k), 0, Loop(0, None, None), 0).entry == 65539
  {
    hide Filler, StmtSize, Decls;
    var body := RaiseFirst(k);
    FillerFits(k, [], false, false, 2, 0, 0, false);
    RaiseSize(2, 0);
    SeqSize(body.first, body.second, 2, 0);
  }

  lemma RaiseSize(depth: nat, count: nat)
    ensures StmtSize(Stmt.Raise(YES, None), depth, count) == 2 && Decls(Stmt.Raise(YES, None)) == 0
  {
    assert |GenExpr(YES)| == 1;
  }

  lemma FarTryOk(k: nat)
    requires k == 65531
    ensures StmtOk(FarTry(k), [], false, false) && StmtSize(FarTry(k), 0, 0) + 2 < CODE_LIMIT
  {
    hide Filler, Decls, StmtSize, StmtOk;
    var body, scope: Scope := RaiseFirst(k), [false, false];
    assert [] + scope == scope;
    FillerFits(k, scope, false, false, 2, 0, 0, false);
    RaiseOk(scope, false, false);
    RaiseSize(2, 0);
    SeqOk(body.first, body.second, scope, false, false);
    SeqSize(body.first, body.second, 2, 0);
    SkipOk(scope, false, false);
    NoSize(2, 0);
    TryOk(FarTry(k), [], false, false);
    TrySize(FarTry(k), 0, 0);
  }

  lemma RaiseOk(scope: Scope, inBody: bool, inLoop: bool)
    requires |scope| + 2 < OPERAND_LIMIT
    ensures StmtOk(Stmt.Raise(YES, None), scope, inBody, inLoop)
  {
  }

  lemma SkipOk(scope: Scope, inBody: bool, inLoop: bool)
    requires |scope| + 2 < OPERAND_LIMIT
    ensures StmtOk(Skip, scope, inBody, inLoop) && Decls(Skip) == 0
  {
  }

  /** A try with one clause, for everything, and nothing else. */
  predicate CatchesAll(s: Stmt) {
    && s.Try? && s.handlers.Handler? && s.handlers.filter.None? && !s.handlers.named && s.handlers.more == NoHandler
    && s.els.None? && s.fin == Skip
  }

  lemma TryOk(s: Stmt, scope: Scope, inBody: bool, inLoop: bool)
    requires CatchesAll(s)
    requires var inner := scope + [false, false];
      |inner| + 2 < OPERAND_LIMIT && StmtOk(s.body, inner, inBody, inLoop) && StmtOk(s.handlers.body, inner, inBody, inLoop)
    requires Decls(s.body) == 0 && Decls(s.handlers.body) == 0
    ensures StmtOk(s, scope, inBody, inLoop)
  {
    SkipOk(scope + [false, false], inBody, inLoop);
    assert HandlersOk(s.handlers, scope, inBody, inLoop);
    hide ExprOk, Decls;
  }

  lemma TrySize(s: Stmt, depth: nat, count: nat)
    requires CatchesAll(s)
    requires Decls(s.body) == 0 && Decls(s.handlers.body) == 0
    ensures StmtSize(s, depth, count) == 20 + StmtSize(s.body, depth + 2, count) + StmtSize(s.handlers.body, depth + 2, count)
    ensures Decls(s) == 0
  {
    NoSize(depth + 2, count);
    OneSize(s.handlers, depth, count);
    hide GenExpr, ElseSize, EmitOperand, GenExit, AlwaysTrue, HandlersSize;
  }

  lemma NoSize(depth: nat, count: nat)
    ensures BlockSize(Skip, depth, count) == 0 == StmtSize(Skip, depth, count)
  {
  }

  lemma OneSize(hs: Handlers, depth: nat, count: nat)
    requires hs.Handler? && hs.filter.None? && hs.more == NoHandler
    ensures HandlersSize(hs, depth, count) == 7 + BlockSize(hs.body, depth + 2, count)
  {
    hide BlockSize;
  }

  /** That function, compiled and run: its meaning is to return None, and it ends in the exception. */
  method HandlerLostOccurs(w: World, pool: Pool, k: nat, tr: Trace) returns (result: Mode)
    requires k == 65531
    ensures Exec(w, pool, FarTry(k), [], tr, 0) == Done([], tr, Normal) && ResultOf(Normal) == Finished(VNone)
    ensures result == Uncaught(VBool(true))
  {
    hide Exec, FarTry, StmtOk, StmtSize, GenFunction, At, Reaches;
    FarTryMeans(w, pool, k, tr);
    FarTryOk(k);
    var compiler := BeginFunction(0);
    compiler.Function(FarTry(k), []);
    var m := Machine(w, pool, compiler.code, compiler.table, 0, 0);
    ghost var t := FarTryRuns(m, k, [], tr);
    var thread := new Thread(m, State(Run, 0, [], tr));
    thread.RunToEnd(t);
    result := thread.mode;
  }

  // ----- a loop exit that goes on elsewhere -----

  /** `if False: return True`. */
  function Guard(): Stmt {
    If(Literal(VBool(false)), Stmt.Return(YES), None)
  }

  /** `try: raise True` and `except: ...; break`. */
  function LeavingTry(k: nat): Stmt
    requires k >= 2
  {
    Try(Stmt.Raise(YES, None), Handler(None, false, Seq(Filler(k), Break), NoHandler), None, Skip)
  }

  function LeftLoop(k: nat): Stmt
    requires k >= 2
  {
    While(YES, LeavingTry(k), Skip)
  }

  /** `if False: return True` and `while True: try: raise True` and `except: ...; break`. */
  function FarBreak(k: nat): Stmt
    requires k >= 2
  {
    Seq(Guard(), LeftLoop(k))
  }

  lemma GuardMeans(w: World, pool: Pool, env: Env, tr: Trace, fuel: nat)
    ensures Exec(w, pool, Guard(), env, tr, fuel) == Done(env, tr, Normal)
  {
    assert EvalExpr(w, pool, Guard().cond, env, tr) == EvalResult(env, tr, Ok(VBool(false)));
  }

  lemma BreakMeans(w: World, pool: Pool, env: Env, tr: Trace, fuel: nat)
    ensures Exec(w, pool, Break, env, tr, fuel) == Done(env, tr, Breaks)
  {
  }

  lemma LeavingTryMeans(w: World, pool: Pool, k: nat, tr: Trace)
    requires k >= 2
    ensures Exec(w, pool, LeavingTry(k), [], tr, 0) == Done([], tr, Breaks)
  {
    hide Exec, ExecHandlers, Filler;
    var s := LeavingTry(k);
    var env: Env := [None, None];
    assert [] + env == env;
    RaiseMeans(w, pool, env, tr, 0);
    FillerMeans(w, pool, k, env, tr, 0);
    BreakMeans(w, pool, env, tr, 0);
    SeqMeans(w, pool, s.handlers.body.first, s.handlers.body.second, env, tr, 0);
    SkipMeans(w, pool, env, tr, 0);
    TryMeans(w, pool, s, [], tr, 0);
    HandlersMean(w, pool, s.handlers, [], tr, 0);
    assert ExecBlock(w, pool, s.body, env, tr, 0) == Done(env, tr, Raises(VBool(true)));
    assert ExecBlock(w, pool, s.handlers.body, env, tr, 0) == Done(env, tr, Breaks);
    assert ExecProtected(w, pool, s, [], tr, 0) == Done([], tr, Breaks);
  }

  lemma LoopMeans(w: World, pool: Pool, s: Stmt, tr: Trace)
    requires s.While? && s.cond == YES && Exec(w, pool, s.body, [], tr, 0) == Done([], tr, Breaks)
    ensures Exec(w, pool, s, [], tr, 0) == Done([], tr, Normal)
  {
    WhileMeans(w, pool, s, [], tr, 0);
    assert EvalExpr(w, pool, YES, [], tr) == EvalResult([], tr, Ok(VBool(true)));
    hide Exec;
    assert ExecBlock(w, pool, s.body, [], tr, 0) == Done([], tr, Breaks);
  }

  lemma WhileMeans(w: World, pool: Pool, s: Stmt, env: Env, tr: Trace, fuel: nat)
    requires s.While?
    ensures Exec(w, pool, s, env, tr, fuel) == ExecWhile(w, pool, s, env, tr, fuel)
  {
    hide EvalExpr, ExecRaise, ExecSeq, ExecIf, ExecWhile, ExecFor, ExecTry, ExecBareTry;
  }

  lemma FarBreakMeans(w: World, pool: Pool, k: nat, tr: Trace)
    requires k >= 2
    ensures Exec(w, pool, FarBreak(k), [], tr, 0) == Done([], tr, Normal)
  {
    hide Exec, Filler, LeavingTry;
    GuardMeans(w, pool, [], tr, 0);
    LeavingTryMeans(w, pool, k, tr);
    LoopMeans(w, pool, LeftLoop(k), tr);
    SeqMeans(w, pool, Guard(), LeftLoop(k), [], tr, 0);
  }

  lemma GuardText(lp: Loop)
    ensures GenStmt(Guard(), 0, lp, 0) == Emit1(FALSE) + (EmitJump(POP_JUMP_IF_FALSE, 2) + (Emit1(TRUE) + Emit1(RETURN)))
    ensures |GenStmt(Guard(), 0, lp, 0)| == 6 && Decls(Guard()) == 0
  {
    var s := Guard();
    assert GenExpr(s.cond) == Emit1(FALSE) && GenExpr(YES) == Emit1(TRUE);
    assert GenStmt(s.thn, 0, lp, 4) == Emit1(TRUE) + Emit1(RETURN) && Decls(s.thn) == 0;
    var ret := Emit1(TRUE) + Emit1(RETURN);
    assert ret + [] == ret;
    assert GenBlock(s.thn, 0, lp, 4) == ret;
    assert GenStmt(s, 0, lp, 0) == GenIf(s, 0, lp, 0);
  }

  /** Where the parts of that function are. */
  lemma FarBreakParts(code: Code, table: seq<Overlong>, k: nat) returns (lp: Loop)
    requires k >= 2 && At(code, table, 0, GenFunction(FarBreak(k), 0))
    ensures At(code, table, 0, Emit1(FALSE)) && At(code, table, 1, EmitJump(POP_JUMP_IF_FALSE, 2))
    ensures At(code, table, 4, Emit1(TRUE)) && At(code, table, 5, Emit1(RETURN))
    ensures lp.count == 0 && lp.brk.Some? && lp.cont.Some? && At(code, table, 6, GenTry(LeavingTry(k), 0, lp, 6))
  {
    hide At, Emit1, EmitJump, GenTry, Filler, GenSeq, BlockSize, GenIf, WhileLoop;
    var s, l, none := FarBreak(k), LeftLoop(k), Loop(0, None, None);
    AtSplit(code, table, 0, GenStmt(s, 0, none, 0), Emit1(NONE) + Emit1(RETURN));
    GuardText(none);
    SeqText(Guard(), l, 0, none, 0);
    AtSplit(code, table, 0, GenStmt(Guard(), 0, none, 0), GenStmt(l, 0, none, 6));
    AtSplit3(code, table, 0, Emit1(FALSE), EmitJump(POP_JUMP_IF_FALSE, 2), Emit1(TRUE) + Emit1(RETURN));
    AtSplit(code, table, 4, Emit1(TRUE), Emit1(RETURN));
    WhileText(l, none);
    WhileParts(code, table, l, 0, none, 6);
    lp := WhileLoop(l, 0, none, 6);
    TryText(l.body, 0, lp, 6);
    AtSplit(code, table, 6, GenStmt(l.body, 0, lp, 6), GenPops(Decls(l.body)));
  }

  lemma SeqText(first: Stmt, second: Stmt, depth: nat, lp: Loop, at: nat)
    requires Decls(first) == 0
    ensures var text := GenStmt(first, depth, lp, at);
      GenStmt(Seq(first, second), depth, lp, at) == text + GenStmt(second, depth, lp, at + |text|)
  {
    hide GenExpr, GenIf, GenWhile, GenFor, GenTry, GenBareTry, GenRaise, GenLeaveLoop, Decls;
  }

  lemma WhileText(s: Stmt, lp: Loop)
    requires s.While? && s.cond == YES
    ensures GenStmt(s, 0, lp, 6) == GenWhile(s, 0, lp, 6) && WhileBodyAt(s.cond, 6) == 6
  {
    hide GenExpr, GenIf, GenWhile, GenFor, GenTry, GenBareTry, GenRaise, GenLeaveLoop, Decls, GenSeq;
  }

  lemma TryText(s: Stmt, depth: nat, lp: Loop, at: nat)
    requires s.Try?
    ensures GenStmt(s, depth, lp, at) == GenTry(s, depth, lp, at) && Decls(s) == 0
  {
    hide GenExpr, GenIf, GenWhile, GenFor, GenTry, GenBareTry, GenRaise, GenLeaveLoop, GenSeq;
  }

  /** Where its try's parts are: the except clause at 17, its body at 21, the finally part at `fin`. */
  ghost predicate LeavingTryAt(code: Code, table: seq<Overlong>, k: nat, lp: Loop, fin: nat)
    requires k >= 2
  {
    && At(code, table, 6, EmitJump(PUSH_TRY, 5)) && At(code, table, 9, Emit1(TRUE)) && At(code, table, 10, Emit1(RAISE))
    && fin >= 17 && At(code, table, 14, EmitJump(ENTER_EXCEPT, fin - 17)) && At(code, table, 17, Emit1(NONE))
    && At(code, table, 18, EmitJump(FILTER_EXCEPT, k + 8))
    && At(code, table, 21, GenStmt(Filler(k), 2, lp, 21)) && |GenStmt(Filler(k), 2, lp, 21)| == k
    && At(code, table, 21 + k, EmitOperand(EXIT_LOOP, 0))
    && At(code, table, fin, Emit1(BEGIN_FINALLY)) && At(code, table, fin + 1, Emit1(END_FINALLY))
  }

  lemma LeavingTryParts(code: Code, table: seq<Overlong>, k: nat, lp: Loop) returns (fin: nat)
    requires k >= 2 && lp.count == 0 && At(code, table, 6, GenTry(LeavingTry(k), 0, lp, 6))
    ensures LeavingTryAt(code, table, k, lp, fin)
  {
    hide At, Emit1, EmitJump, GenTry, Filler, GenBlock, GenHandlers, GenElse, GenFinally, BlockSize, EmitOperand, HandlersSize, GenStmt;
    var s := LeavingTry(k);
    TryParts(code, table, s, 0, lp, 6);
    RaiseBlock(code, table, lp, 9);
    HandlerParts(code, table, s.handlers, 0, lp, 17, 0);
    ClauseSize(k);
    ClauseParts(code, table, k, lp);
    fin := PlanOf(s, 0, lp, 6).fin;
    FinallyParts(code, table, lp, fin);
  }

  lemma RaiseBlock(code: Code, table: seq<Overlong>, lp: Loop, at: nat)
    requires At(code, table, at, GenBlock(Stmt.Raise(YES, None), 2, lp, at))
    ensures At(code, table, at, Emit1(TRUE)) && At(code, table, at + 1, Emit1(RAISE))
    ensures BlockSize(Stmt.Raise(YES, None), 2, lp.count) == 2
  {
    hide At, Emit1;
    var s := Stmt.Raise(YES, None);
    RaiseSize(2, lp.count);
    AtSplit(code, table, at, GenStmt(s, 2, lp, at), []);
    assert GenExpr(YES) == Emit1(TRUE);
    AtSplit(code, table, at, Emit1(TRUE), Emit1(RAISE));
  }

  lemma BreakText(lp: Loop, at: nat)
    requires lp.count == 0
    ensures GenStmt(Break, 2, lp, at) == EmitOperand(EXIT_LOOP, 0) + EmitJump(JUMP, Distance(lp.brk, at + 2))
    ensures StmtSize(Break, 2, 0) == 5 && Decls(Break) == 0 && |EmitOperand(EXIT_LOOP, 0)| == 2
  {
    hide GenExpr, GenIf, GenWhile, GenFor, GenTry, GenBareTry, GenRaise, GenSeq, BlockSize, HandlersSize, ElseSize, AlwaysTrue;
  }

  lemma ClauseSize(k: nat)
    requires k >= 2
    ensures BlockSize(Seq(Filler(k), Break), 2, 0) == k + 5
  {
    hide Filler, StmtSize, Decls;
    BreakText(Loop(0, None, None), 0);
    FillerFits(k, [], true, true, 2, 0, 0, false);
    SeqSize(Filler(k), Break, 2, 0);
  }

  lemma ClauseParts(code: Code, table: seq<Overlong>, k: nat, lp: Loop)
    requires k >= 2 && lp.count == 0 && At(code, table, 21, GenBlock(Seq(Filler(k), Break), 2, lp, 21))
    ensures At(code, table, 21, GenStmt(Filler(k), 2, lp, 21)) && |GenStmt(Filler(k), 2, lp, 21)| == k
    ensures At(code, table, 21 + k, EmitOperand(EXIT_LOOP, 0))
  {
    hide At, Filler, Decls, GenPops, EmitOperand, EmitJump, StmtSize, GenStmt;
    var s := Seq(Filler(k), Break);
    FillerFits(k, [], true, true, 2, 0, 0, false);
    StmtLength(Filler(k), 2, lp, 21);
    AtSplit(code, table, 21, GenStmt(s, 2, lp, 21), GenPops(Decls(s)));
    SeqText(Filler(k), Break, 2, lp, 21);
    AtSplit(code, table, 21, GenStmt(Filler(k), 2, lp, 21), GenStmt(Break, 2, lp, 21 + k));
    BreakText(lp, 21 + k);
    AtSplit(code, table, 21 + k, EmitOperand(EXIT_LOOP, 0), EmitJump(JUMP, Distance(lp.brk, 21 + k + 2)));
  }

  lemma FinallyParts(code: Code, table: seq<Overlong>, lp: Loop, at: nat)
    requires At(code, table, at, GenFinally(Skip, 0, lp, at))
    ensures At(code, table, at, Emit1(BEGIN_FINALLY)) && At(code, table, at + 1, Emit1(END_FINALLY))
  {
    hide At, Emit1, EmitOperand;
    assert GenBlock(Skip, 2, lp, at + 1) == [];
    AtSplit3(code, table, at, Emit1(BEGIN_FINALLY), [], Emit1(END_FINALLY) + GenPops(2));
    AtSplit(code, table, at + 1, Emit1(END_FINALLY), GenPops(2));
  }

  /** To the loop, past what is never executed. */
  lemma PastGuard(m: Machine, a: State, s: seq<Slot>, tr: Trace) returns (t: State)
    requires a == State(Run, 0, s, tr)
    requires At(m.code, m.table, 0, Emit1(FALSE)) && At(m.code, m.table, 1, EmitJump(POP_JUMP_IF_FALSE, 2))
    ensures Reaches(m, a, t) && t == State(Run, 6, s, tr)
  {
    hide Reaches, Emit1, At, EmitJump;
    Stay(m, a);
    t := DoPush(m, a, a, FALSE, VBool(false));
    t := DoBranch(m, a, t, POP_JUMP_IF_FALSE, 2, s, VBool(false));
  }

  /** From the try into its clause. */
  lemma IntoClause(m: Machine, a: State, st: State, k: nat, lp: Loop, fin: nat, s: seq<Slot>) returns (t: State)
    requires k >= 2 && Reaches(m, a, st) && st == State(Run, 6, s, st.tr) && m.outSlots <= |s|
    requires LeavingTryAt(m.code, m.table, k, lp, fin)
    ensures Reaches(m, a, t) && t == State(Run, 21, s + [V(VBool(true)), H(Filtered, 14)], st.tr)
  {
    hide Reaches, Emit1, At, EmitJump, GenStmt, Filler, EmitOperand, Quiet;
    t := DoPushTry(m, a, st, 5);
    t := RaiseTrue(m, a, t);
    QuietValues([V(VBool(true))], ForException);
    t := Catch(m, a, t, s, V(VNone), TryPushed, 14, [V(VBool(true))]);
    t := DoEnterExcept(m, a, t, fin - 17, s, VBool(true), Raising, 14);
    t := DoPush(m, a, t, NONE, VNone);
    assert t.stack == s + [V(VBool(true)), H(Raising, 14), V(VNone)];
    t := DoFilter(m, a, t, k + 8, s, VBool(true), 14, VNone);
  }

  lemma RunFiller(m: Machine, a: State, st: State, k: nat, lp: Loop, s: seq<Slot>) returns (t: State)
    requires k >= 2 && Reaches(m, a, st) && st == State(Run, 21, s + [V(VBool(true)), H(Filtered, 14)], st.tr)
    requires m.outSlots <= m.slots == |s| && lp.count == 0 && lp.brk.Some? && lp.cont.Some?
    requires At(m.code, m.table, 21, GenStmt(Filler(k), 2, lp, 21)) && |GenStmt(Filler(k), 2, lp, 21)| == k
    ensures Reaches(m, a, t) && t == st.(ip := 21 + k)
  {
    hide Reaches, At, GenStmt, Filler, Exec, StmtOk, TargetsFit, Decls, StmtSize;
    var env: Env := [None, None];
    FillerFits(k, Shape(env), true, true, 2, 0, 21, false);
    FillerMeans(m.w, m.pool, k, env, st.tr, 0);
    var base, above;
    t, base, above := RunStmt(m, Filler(k), env, st.tr, 0, lp, true, true, false, 21, st.stack);
    Then(m, a, st, t);
    SameFrame(m, env, st.stack, base);
    assert base + above == base;
  }

  lemma SameFrame(m: Machine, env: Env, s: seq<Slot>, base: seq<Slot>)
    requires env == [None, None] && Moved(m, env, s, env, base)
    ensures base == s
  {
    forall i | 0 <= i < |s| ensures base[i] == s[i] {
      assert !IsVariable(m, env, i);
    }
  }

  /** A pending loop exit passes through the finally part. */
  lemma ThroughFinally(m: Machine, a: State, st: State, fin: nat, s: seq<Slot>) returns (t: State)
    requires Reaches(m, a, st) && st == State(Run, 14, s + [V(VInt(0)), H(LoopExit, 4)], st.tr) && fin >= 17
    requires At(m.code, m.table, 14, EmitJump(ENTER_EXCEPT, fin - 17)) && At(m.code, m.table, fin, Emit1(BEGIN_FINALLY))
    ensures Reaches(m, a, t) && t == st.(ip := fin + 1)
  {
    hide Reaches, Emit1, At, EmitJump;
    t := DoEnterExcept(m, a, st, fin - 17, s, VInt(0), LoopExit, 4);
    assert t.stack == (s + [V(VInt(0))]) + [H(LoopExit, 4)];
    t := DoBeginFinally(m, a, t, s + [V(VInt(0))], LoopExit, 4);
    assert t.stack == st.stack;
  }

  /** From the break through the finally part, and on at the address that was kept. */
  lemma LeftByBreak(m: Machine, a: State, st: State, k: nat, lp: Loop, fin: nat, s: seq<Slot>) returns (t: State)
    requires k == 65517 && Reaches(m, a, st) && st == State(Run, 21 + k, s + [V(VBool(true)), H(Filtered, 14)], st.tr)
    requires m.slots == |s| && LeavingTryAt(m.code, m.table, k, lp, fin) && lp.count == 0
    ensures Reaches(m, a, t) && t == State(Run, 4, s, st.tr)
  {
    hide Reaches, Emit1, At, EmitJump, GenStmt, Filler, EmitOperand, Quiet, StmtSize, Decls;
    BreakText(lp, 0);
    NoneAbove(st.stack);
    var u;
    t, u := ExitResumed(m, a, st, 0, s, V(VBool(true)), Filtered, 14, [], s, fin + 1, st.tr);
    t := ThroughFinally(m, a, t, fin, s);
    Then(m, a, t, u);
    t := PopToLocals(m, a, u, s);
  }

  lemma ReturnTrue(m: Machine, a: State, st: State, s: seq<Slot>) returns (t: State)
    requires Reaches(m, a, st) && st == State(Run, 4, s, st.tr) && m.outSlots <= m.slots == |s| && AllValues(s[m.outSlots..])
    requires At(m.code, m.table, 4, Emit1(TRUE)) && At(m.code, m.table, 5, Emit1(RETURN))
    ensures Reaches(m, a, t) && t.mode == Finished(VBool(true)) && t.tr == st.tr && t.stack == s[..m.outSlots]
  {
    hide Reaches, Emit1, At, AllValues, Quiet;
    t := DoPush(m, a, st, TRUE, VBool(true));
    t := DoReturn(m, a, t, s, VBool(true));
    NoneAbove(s);
    assert AllValues(s[m.slots..]) by { assert s[m.slots..] == []; NoValues(s[m.slots..]); }
    QuietValues(s[m.slots..], ForReturn);
    t := PreserveStmt.Return(m, a, t, s, []);
  }

  lemma NoValues(s: seq<Slot>)
    ensures s == [] ==> AllValues(s)
  {
  }

  /** With 65517 bytes before the break its loop exit is to go on at byte 65540, and goes on at byte 4, where True is
      returned. */
  lemma FarBreakRuns(m: Machine, k: nat, s: seq<Slot>, tr: Trace) returns (t: State)
    requires k == 65517 && At(m.code, m.table, 0, GenFunction(FarBreak(k), 0))
    requires m.outSlots <= m.slots == |s| && AllValues(s[m.outSlots..])
    ensures Reaches(m, State(Run, 0, s, tr), t)
    ensures t.mode == Finished(VBool(true)) && t.tr == tr && t.stack == s[..m.outSlots]
  {
    hide Reaches, Emit1, At, EmitJump, Filler, EmitOperand, AllValues, GenFunction, GenTry;
    var a := State(Run, 0, s, tr);
    var lp := FarBreakParts(m.code, m.table, k);
    var fin := LeavingTryParts(m.code, m.table, k, lp);
    t := PastGuard(m, a, s, tr);
    t := IntoClause(m, a, t, k, lp, fin, s);
    t := RunFiller(m, a, t, k, lp, s);
    t := LeftByBreak(m, a, t, k, lp, fin, s);
    t := ReturnTrue(m, a, t, s);
  }

  lemma FarBreakOk(k: nat)
    requires k == 65517
    ensures StmtOk(FarBreak(k), [], false, false) && StmtSize(FarBreak(k), 0, 0) + 2 < CODE_LIMIT
  {
    hide Filler, Decls, StmtSize, StmtOk;
    var clause, scope: Scope := Seq(Filler(k), Break), [false, false];
    assert [] + scope == scope;
    FillerFits(k, scope, true, true, 2, 0, 0, false);
    RaiseOk(scope, true, true);
    RaiseSize(2, 0);
    BreakText(Loop(0, None, None), 0);
    BreakOk(scope);
    SeqOk(Filler(k), Break, scope, true, true);
    SeqSize(Filler(k), Break, 2, 0);
    TryOk(LeavingTry(k), [], true, true);
    TrySize(LeavingTry(k), 0, 0);
    SkipOk([], false, false);
    NoSize(0, 0);
    LoopOk(LeftLoop(k));
    GuardOk();
    GuardSize();
    SeqOk(Guard(), LeftLoop(k), [], false, false);
    SeqSize(Guard(), LeftLoop(k), 0, 0);
  }

  lemma BreakOk(scope: Scope)
    requires |scope| + 2 < OPERAND_LIMIT
    ensures StmtOk(Break, scope, true, true)
  {
  }

  lemma BlockIs(s: Stmt, scope: Scope, inBody: bool, inLoop: bool, depth: nat, count: nat)
    requires Decls(s) == 0
    ensures StmtOk(s, scope, inBody, inLoop) ==> BlockOk(s, scope, inBody, inLoop)
    ensures BlockSize(s, depth, count) == StmtSize(s, depth, count)
  {
    hide StmtOk, StmtSize, Decls;
  }

  lemma YesOk(scope: Scope)
    ensures ExprOk(YES, scope) && AlwaysTrue(YES)
  {
  }

  lemma LoopOk(s: Stmt)
    requires s.While? && s.cond == YES && s.orElse == Skip && Decls(s.body) == 0
    requires StmtOk(s.body, [], true, true)
    ensures StmtOk(s, [], false, false) && Decls(s) == 0 && StmtSize(s, 0, 0) == 3 + StmtSize(s.body, 0, 0)
  {
    hide BlockOk, HandlersOk, ExprOk, BlockSize, GenExpr, HandlersSize, ElseSize, EmitOperand, GenExit, AlwaysTrue, HandlersOk;
    SkipOk([], false, false);
    NoSize(0, 0);
    YesOk([]);
    BlockIs(s.body, [], true, true, 0, 0);
    BlockIs(s.orElse, [], false, false, 0, 0);
  }

  lemma GuardOk()
    ensures StmtOk(Guard(), [], false, false)
  {
    assert StmtOk(Guard().thn, [], false, false);
  }

  lemma GuardSize()
    ensures Decls(Guard()) == 0 && StmtSize(Guard(), 0, 0) == 6
  {
    hide GenStmt, StmtSize;
    GuardText(Loop(0, None, None));
    StmtLength(Guard(), 0, Loop(0, None, None), 0);
  }

  /** That function, compiled and run: its meaning is to return None, and it returns True. */
  method ExitLostOccurs(w: World, pool: Pool, k: nat, tr: Trace) returns (result: Mode)
    requires k == 65517
    ensures Exec(w, pool, FarBreak(k), [], tr, 0) == Done([], tr, Normal) && ResultOf(Normal) == Finished(VNone)
    ensures result == Finished(VBool(true))
  {
    hide Exec, FarBreak, StmtOk, StmtSize, GenFunction, At, Reaches;
    FarBreakMeans(w, pool, k, tr);
    FarBreakOk(k);
    var compiler := BeginFunction(0);
    compiler.Function(FarBreak(k), []);
    var m := Machine(w, pool, compiler.code, compiler.table, 0, 0);
    ghost var t := FarBreakRuns(m, k, [], tr);
    var thread := new Thread(m, State(Run, 0, [], tr));
    thread.RunToEnd(t);
    result := thread.mode;
  }

  lemma NoneAbove(s: seq<Slot>)
    ensures s + [] == s && Quiet([], ForReturn)
  {
  }

  lemma PopToLocals(m: Machine, a: State, st: State, s: seq<Slot>) returns (t: State)
    requires Reaches(m, a, st) && st == State(Popping(0), 4, s + [V(VInt(0)), H(LoopExit, 4)], st.tr) && m.slots == |s|
    ensures Reaches(m, a, t) && t == State(Run, 4, s, st.tr)
  {
    hide Reaches, Fetch, Execute;
    var above := [V(VInt(0)), H(LoopExit, 4)];
    assert Quiet(above, ForReturn);
    FindBelow(s, above, m.slots, ForReturn);
    t := Step(m, st);
    One(m, st);
    Then(m, a, st, t);
    assert st.stack[..|s|] == s;
  }
}
