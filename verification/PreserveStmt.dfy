/** Compiled statements end in the completion Semantics gives, wherever their handlers send them. */
module PreserveStmt {
  import opened Options
  import opened Syntax
  import opened Semantics
  import opened Bytecode
  import opened Codegen
  import opened Vm
  import opened PreserveExpr

  // ----- hunting for handlers -----

  /** No slot stops the hunt. */
  ghost predicate Quiet(s: seq<Slot>, hunt: Hunt) {
    forall i | 0 <= i < |s| :: !Stops(s[i], hunt)
  }

  lemma QuietValues(s: seq<Slot>, hunt: Hunt)
    requires AllValues(s)
    ensures Quiet(s, hunt)
  {
  }

  lemma QuietAppend(a: seq<Slot>, b: seq<Slot>, hunt: Hunt)
    requires Quiet(a, hunt) && Quiet(b, hunt)
    ensures Quiet(a + b, hunt)
  {
  }

  lemma {:induction false} FindBelow(base: seq<Slot>, above: seq<Slot>, floor: nat, hunt: Hunt)
    requires Quiet(above, hunt) && floor <= |base|
    ensures FindHandler(base + above, floor, hunt) == FindHandler(base, floor, hunt)
    decreases |above|
  {
    if above == [] {
      assert base + above == base;
    } else {
      var rest := above[..|above| - 1];
      assert (base + above)[..|base + above| - 1] == base + rest;
      assert !Stops(above[|above| - 1], hunt);
      FindBelow(base, rest, floor, hunt);
    }
  }

  // ----- what a statement leaves behind -----

  /** The instruction at `q` is a jump to `target`. */
  ghost predicate JumpsTo(m: Machine, q: int, target: nat) {
    0 <= q &&
    var f := Fetch(m.code, m.table, q);
    f.Some? && f.value.op == JUMP && f.value.next + f.value.operand == target
  }

  /** On the way out of a loop: at the label that pops to the loop's locals, with the jump out of the loop
      next, or already at that jump because there was nothing to pop. */
  ghost predicate LeavingLoop(m: Machine, depth: nat, count: nat, target: Option<nat>, t: State, above: seq<Slot>) {
    && target.Some? && JumpsTo(m, t.ip, target.value)
    && ((t.mode == Popping(count) && Quiet(above, ForReturn)) || (t.mode == Run && above == [] && depth == count))
  }

  /** The machine did what executing a statement to `o` asks for: `base` is the stack up to the locals in
      scope before it, `d` the number of locals the statement declares. */
  ghost predicate StmtDone(m: Machine, env: Env, lp: Loop, s: seq<Slot>, o: Outcome, d: nat, end: int,
                           t: State, base: seq<Slot>, above: seq<Slot>)
  {
    && o.Done? && t.tr == o.tr && t.stack == base + above
    && |env| <= |o.env| && Moved(m, env, s, o.env[..|env|], base)
    && match o.c
       case Normal =>
         t.mode == Run && t.ip == end && |above| == d && Shape(o.env) == Shape(env) + Declared(d)
         && Agrees(m, o.env, t.stack)
       case Raises(x) => t.mode == Unwinding(x) && Quiet(above, ForException)
       case Returns(v) => t.mode == Leaving(v) && Quiet(above, ForReturn)
       case Breaks => LeavingLoop(m, |env|, lp.count, lp.brk, t, above)
       case Continues => LeavingLoop(m, |env|, lp.count, lp.cont, t, above)
  }

  /** The enclosing loop's exits are known. */
  ghost predicate LoopFits(lp: Loop, depth: nat, inBody: bool, inLoop: bool) {
    lp.count <= depth && (inBody ==> lp.brk.Some?) && (inLoop ==> lp.cont.Some?)
  }

  /** Out of a loop by a jump whose address two bytes can keep. */
  ghost predicate ShortExit(c: Completion, t: State) {
    c == Breaks || c == Continues ==> t.ip < 0x10000
  }

  /** Running a statement from `a`: on and on if its meaning is not reached with this fuel, to that meaning otherwise. */
  ghost predicate StmtRuns(m: Machine, a: State, env: Env, lp: Loop, s: seq<Slot>, o: Outcome, d: nat, end: int,
                           near: bool, fuel: nat, t: State, base: seq<Slot>, above: seq<Slot>)
  {
    if o.OutOfFuel? then Lasts(m, a, fuel)
    else Reaches(m, a, t) && StmtDone(m, env, lp, s, o, d, end, t, base, above) && (near ==> ShortExit(o.c, t))
  }

  lemma RunsDone(m: Machine, a: State, env: Env, lp: Loop, s: seq<Slot>, o: Outcome, d: nat, end: int,
                 near: bool, fuel: nat, t: State, base: seq<Slot>, above: seq<Slot>)
    requires Reaches(m, a, t) && StmtDone(m, env, lp, s, o, d, end, t, base, above)
    requires o.Done? && (near ==> ShortExit(o.c, t))
    ensures StmtRuns(m, a, env, lp, s, o, d, end, near, fuel, t, base, above)
  {
  }

  /** What every statement lemma starts from. */
  ghost predicate Ready(m: Machine, env: Env, s: seq<Slot>) {
    m.outSlots <= m.slots && |s| == m.slots + |env| && Agrees(m, env, s)
  }

  lemma ReadyAfter(m: Machine, env: Env, s: seq<Slot>, env1: Env, s1: seq<Slot>)
    requires Ready(m, env, s) && Moved(m, env, s, env1, s1)
    ensures Ready(m, env1, s1) && |env1| == |env| && Shape(env1) == Shape(env)
  {
    hide Agrees;
    MovedFacts(m, env, s, env1, s1);
  }

  /** A statement that starts where an expression left off. */
  lemma Rebased(m: Machine, env: Env, lp: Loop, s: seq<Slot>, env1: Env, s1: seq<Slot>, o: Outcome, d: nat, end: int,
                t: State, base: seq<Slot>, above: seq<Slot>)
    requires Moved(m, env, s, env1, s1) && StmtDone(m, env1, lp, s1, o, d, end, t, base, above)
    ensures StmtDone(m, env, lp, s, o, d, end, t, base, above)
  {
    hide Moved, Agrees, Quiet, LeavingLoop;
    MovedFacts(m, env, s, env1, s1);
    MovedTwice(m, env, s, env1, s1, o.env[..|env1|], base);
  }

  /** A failing expression makes its statement raise. */
  lemma Failed(m: Machine, env: Env, lp: Loop, s: seq<Slot>, r: EvalResult, d: nat, end: int, end2: int,
               t: State, base: seq<Slot>, above: seq<Slot>)
    requires ExprDone(m, env, s, r, end, t, base, above) && r.res.Err?
    ensures StmtDone(m, env, lp, s, Fail(r), d, end2, t, base, above)
  {
    hide Moved, Agrees, AllValues, Quiet;
    MovedFacts(m, env, s, r.env, base);
    QuietValues(above, ForException);
    assert r.env[..|env|] == r.env;
  }

  /** Step from a loop's exit to the jump's target. */
  lemma LeaveLoop(m: Machine, a: State, env: Env, count: nat, target: Option<nat>, t1: State, base: seq<Slot>, above: seq<Slot>)
    returns (t: State)
    requires Reaches(m, a, t1) && t1.stack == base + above && |base| == m.slots + |env| && count == |env|
    requires LeavingLoop(m, |env|, count, target, t1, above)
    ensures Reaches(m, a, t) && t == State(Run, target.value, base, t1.tr)
  {
    hide Execute, Reaches, Fetch;
    var t2 := t1;
    if t1.mode == Popping(count) {
      FindBelow(base, above, |base|, ForReturn);
      t2 := Step(m, t1);
      One(m, t1);
      Then(m, a, t1, t2);
      assert t2.stack == base;
    } else {
      assert base + above == base;
    }
    var f := Fetch(m.code, m.table, t1.ip).value;
    t := DoFetchedJump(m, a, t2, f);
  }

  lemma DoFetchedJump(m: Machine, a: State, st: State, f: Fetched) returns (t: State)
    requires Reaches(m, a, st) && st.mode == Run && Fetch(m.code, m.table, st.ip) == Some(f) && f.op == JUMP
    ensures Reaches(m, a, t) && t == st.(ip := f.next + f.operand)
  {
    hide Fetch, Reaches;
    t := Go(m, a, st, JUMP, f.operand, f.next);
  }

  lemma DoPops(m: Machine, a: State, st: State, n: nat, base: seq<Slot>, above: seq<Slot>) returns (t: State)
    requires Reaches(m, a, st) && st.mode == Run && 0 <= st.ip && At(m.code, m.table, st.ip, GenPops(n)) && n < OPERAND_LIMIT
    requires st.stack == base + above && |above| == n
    ensures Reaches(m, a, t) && t == State(Run, st.ip + |GenPops(n)|, base, st.tr)
  {
    hide Reaches, EmitOperand, Emit1, At;
    if n == 0 {
      t := st;
    } else if n == 1 {
      assert base + above == base + [above[0]];
      t := DoPop(m, a, st, base, above[0]);
    } else {
      t := GoOperand(m, a, st, POP_MANY, n);
      assert Drop(st.stack, n) == base;
    }
  }

  // ----- statements -----

  lemma {:induction false} RunStmt(m: Machine, stm: Stmt, env: Env, tr: Trace, fuel: nat, lp: Loop,
                                   inBody: bool, inLoop: bool, near: bool, at: nat, s: seq<Slot>)
    returns (t: State, base: seq<Slot>, above: seq<Slot>)
    requires Ready(m, env, s) && At(m.code, m.table, at, GenStmt(stm, |env|, lp, at)) && StmtOk(stm, Shape(env), inBody, inLoop)
    requires LoopFits(lp, |env|, inBody, inLoop) && TargetsFit(stm, |env|, lp.count, at, near)
    ensures StmtRuns(m, State(Run, at, s, tr), env, lp, s, Exec(m.w, m.pool, stm, env, tr, fuel), Decls(stm),
                     at + |GenStmt(stm, |env|, lp, at)|, near, fuel, t, base, above)
    decreases fuel, stm, 5
  {
    hide GenSeq, GenIf, GenWhile, GenFor, GenTry, GenBareTry, GenExpr, GenLeaveLoop, Emit1, ExecRaise, ExecSeq, ExecIf, ExecWhile;
    hide ExecFor, ExecTry, ExecBareTry, EvalExpr, Reaches, At, Moved, Agrees, Ready, StmtDone, ExprOk, BlockOk, HandlersOk;
    hide HandlersFit, BlockSize, HandlersSize, ElseSize, StmtSize, Lasts, GenExit, AlwaysTrue;
    match stm
    case Seq(_, _) => t, base, above := RunSeq(m, stm, env, tr, fuel, lp, inBody, inLoop, near, at, s);
    case If(_, _, _) => t, base, above := RunIf(m, stm, env, tr, fuel, lp, inBody, inLoop, near, at, s);
    case While(_, _, _) => t, base, above := RunWhile(m, stm, env, tr, fuel, lp, inBody, inLoop, near, at, s);
    case For(_, _, _) => t, base, above := RunFor(m, stm, env, tr, fuel, lp, inBody, inLoop, near, at, s);
    case Try(_, _, _, _) => t, base, above := RunTry(m, stm, env, tr, fuel, lp, inBody, inLoop, near, at, s);
    case BareTry(_) => t, base, above := RunBareTry(m, stm, env, tr, fuel, lp, inBody, inLoop, near, at, s);
    case _ => t, base, above := RunSimple(m, stm, env, tr, fuel, lp, inBody, inLoop, near, at, s);
  }

  /** A statement with no statement in it. */
  lemma RunSimple(m: Machine, stm: Stmt, env: Env, tr: Trace, fuel: nat, lp: Loop, inBody: bool, inLoop: bool, near: bool,
                  at: nat, s: seq<Slot>)
    returns (t: State, base: seq<Slot>, above: seq<Slot>)
    requires stm.Skip? || stm.Eval? || stm.Let? || stm.Return? || stm.Break? || stm.Continue? || stm.Raise?
    requires Ready(m, env, s) && At(m.code, m.table, at, GenStmt(stm, |env|, lp, at)) && StmtOk(stm, Shape(env), inBody, inLoop)
    requires LoopFits(lp, |env|, inBody, inLoop) && TargetsFit(stm, |env|, lp.count, at, near)
    ensures StmtRuns(m, State(Run, at, s, tr), env, lp, s, Exec(m.w, m.pool, stm, env, tr, fuel), Decls(stm),
                     at + |GenStmt(stm, |env|, lp, at)|, near, fuel, t, base, above)
  {
    hide GenExpr, GenLeaveLoop, Emit1, ExecRaise, EvalExpr, Reaches, At, Moved, Agrees, Ready, StmtDone, ExprOk, GenExit;
    match stm {
      case Skip => t, base, above := RunSkip(m, env, tr, lp, at, s);
      case Eval(e) => t, base, above := RunEval(m, e, env, tr, lp, at, s);
      case Let(e) => t, base, above := RunLet(m, e, env, tr, lp, at, s);
      case Return(e) => t, base, above := RunReturn(m, e, env, tr, lp, at, s);
      case Break => t, base, above := RunLeaveLoop(m, stm, env, tr, lp, lp.brk, at, s);
      case Continue => t, base, above := RunLeaveLoop(m, stm, env, tr, lp, lp.cont, at, s);
      case Raise(_, _) => t, base, above := RunRaise(m, stm, env, tr, lp, at, s);
    }
  }

  lemma RunSkip(m: Machine, env: Env, tr: Trace, lp: Loop, at: nat, s: seq<Slot>)
    returns (t: State, base: seq<Slot>, above: seq<Slot>)
    requires Ready(m, env, s)
    ensures Reaches(m, State(Run, at, s, tr), t)
    ensures StmtDone(m, env, lp, s, Done(env, tr, Normal), 0, at, t, base, above)
  {
    hide Reaches, Agrees, Moved;
    t, base, above := State(Run, at, s, tr), s, [];
    Stay(m, t);
    NotMoved(m, env, s);
    assert env[..|env|] == env && s + [] == s && Shape(env) + Declared(0) == Shape(env);
  }

  /** Code `e` and one more instruction that pops or keeps its value. */
  lemma RunEval(m: Machine, e: Expr, env: Env, tr: Trace, lp: Loop, at: nat, s: seq<Slot>)
    returns (t: State, base: seq<Slot>, above: seq<Slot>)
    requires Ready(m, env, s) && At(m.code, m.table, at, GenExpr(e) + Emit1(POP)) && ExprOk(e, Shape(env))
    ensures Reaches(m, State(Run, at, s, tr), t)
    ensures var r := EvalExpr(m.w, m.pool, e, env, tr);
      StmtDone(m, env, lp, s, if r.res.Err? then Fail(r) else Done(r.env, r.tr, Normal), 0,
               at + |GenExpr(e) + Emit1(POP)|, t, base, above)
  {
    hide Reaches, Agrees, Moved, GenExpr, EvalExpr, Emit1, At, ExprOk;
    AtSplit(m.code, m.table, at, GenExpr(e), Emit1(POP));
    var r := EvalExpr(m.w, m.pool, e, env, tr);
    t, base, above := RunExpr(m, e, env, tr, at, s);
    if r.res.Err? {
      Failed(m, env, lp, s, r, 0, at + |GenExpr(e)|, at + |GenExpr(e)| + 1, t, base, above);
    } else {
      t := DoPop(m, State(Run, at, s, tr), t, base, V(r.res.v));
      above := [];
      Settled(m, env, lp, s, r.env, t, base);
    }
  }

  /** A normal end that declares nothing. */
  lemma Settled(m: Machine, env: Env, lp: Loop, s: seq<Slot>, env': Env, t: State, base: seq<Slot>)
    requires Moved(m, env, s, env', base) && t.mode == Run && t.stack == base
    ensures StmtDone(m, env, lp, s, Done(env', t.tr, Normal), 0, t.ip, t, base, [])
  {
    hide Moved, Agrees;
    MovedFacts(m, env, s, env', base);
    assert env'[..|env|] == env' && base + [] == base && Shape(env) + Declared(0) == Shape(env);
  }

  lemma RunLet(m: Machine, e: Expr, env: Env, tr: Trace, lp: Loop, at: nat, s: seq<Slot>)
    returns (t: State, base: seq<Slot>, above: seq<Slot>)
    requires Ready(m, env, s) && At(m.code, m.table, at, GenExpr(e)) && ExprOk(e, Shape(env))
    ensures Reaches(m, State(Run, at, s, tr), t)
    ensures var r := EvalExpr(m.w, m.pool, e, env, tr);
      StmtDone(m, env, lp, s, if r.res.Err? then Fail(r) else Done(r.env + [Some(r.res.v)], r.tr, Normal), 1,
               at + |GenExpr(e)|, t, base, above)
  {
    hide Reaches, Moved, GenExpr, EvalExpr, Emit1, At, ExprOk;
    var r := EvalExpr(m.w, m.pool, e, env, tr);
    t, base, above := RunExpr(m, e, env, tr, at, s);
    if r.res.Err? {
      Failed(m, env, lp, s, r, 1, at + |GenExpr(e)|, at + |GenExpr(e)|, t, base, above);
    } else {
      MovedFacts(m, env, s, r.env, base);
      var env' := r.env + [Some(r.res.v)];
      assert env'[..|env|] == r.env;
      assert Shape(env') == Shape(r.env) + Declared(1);
    }
  }

  lemma RunReturn(m: Machine, e: Expr, env: Env, tr: Trace, lp: Loop, at: nat, s: seq<Slot>)
    returns (t: State, base: seq<Slot>, above: seq<Slot>)
    requires Ready(m, env, s) && At(m.code, m.table, at, GenExpr(e) + Emit1(RETURN)) && ExprOk(e, Shape(env))
    ensures Reaches(m, State(Run, at, s, tr), t)
    ensures var r := EvalExpr(m.w, m.pool, e, env, tr);
      StmtDone(m, env, lp, s, if r.res.Err? then Fail(r) else Done(r.env, r.tr, Returns(r.res.v)), 0,
               at + |GenExpr(e) + Emit1(RETURN)|, t, base, above)
  {
    hide Reaches, Agrees, Moved, GenExpr, EvalExpr, Emit1, At, ExprOk;
    AtSplit(m.code, m.table, at, GenExpr(e), Emit1(RETURN));
    var r := EvalExpr(m.w, m.pool, e, env, tr);
    t, base, above := RunExpr(m, e, env, tr, at, s);
    if r.res.Err? {
      Failed(m, env, lp, s, r, 0, at + |GenExpr(e)|, at + |GenExpr(e)| + 1, t, base, above);
    } else {
      t := DoReturn(m, State(Run, at, s, tr), t, base, r.res.v);
      above := [];
      MovedFacts(m, env, s, r.env, base);
      assert r.env[..|env|] == r.env && base + [] == base;
    }
  }

  lemma DoReturn(m: Machine, a: State, st: State, base: seq<Slot>, v: Value) returns (t: State)
    requires Reaches(m, a, st) && st.mode == Run && 0 <= st.ip && At(m.code, m.table, st.ip, Emit1(RETURN))
    requires st.stack == base + [V(v)]
    ensures Reaches(m, a, t) && t == State(Leaving(v), st.ip + 1, base, st.tr)
  {
    hide Reaches, Emit1, At;
    t := Go1(m, a, st, RETURN);
    assert Drop(st.stack, 1) == base;
  }

  lemma RunLeaveLoop(m: Machine, stm: Stmt, env: Env, tr: Trace, lp: Loop, target: Option<nat>, at: nat, s: seq<Slot>)
    returns (t: State, base: seq<Slot>, above: seq<Slot>)
    requires (stm == Break && target == lp.brk) || (stm == Continue && target == lp.cont)
    requires Ready(m, env, s) && At(m.code, m.table, at, GenLeaveLoop(|env|, lp.count, target, at)) && lp.count <= |env| < OPERAND_LIMIT
    requires target.Some?
    ensures Reaches(m, State(Run, at, s, tr), t)
    ensures StmtDone(m, env, lp, s, Done(env, tr, if stm == Break then Breaks else Continues), 0,
                     at + |GenLeaveLoop(|env|, lp.count, target, at)|, t, base, above)
    ensures t.ip == at + |GenExit(|env|, lp.count)|
  {
    hide Execute, Reaches, Agrees, Moved, EmitOperand, EmitJump, At, Fetch;
    var exit := GenExit(|env|, lp.count);
    var distance := Distance(target, at + |exit|);
    AtSplit(m.code, m.table, at, exit, EmitJump(JUMP, distance));
    FetchJump(m.code, m.table, at + |exit|, JUMP, distance);
    t, base, above := State(Run, at, s, tr), s, [];
    Stay(m, t);
    NotMoved(m, env, s);
    assert env[..|env|] == env && s + [] == s;
    if lp.count != |env| {
      t := DoExitLoop(m, t, t, lp.count);
    }
  }

  lemma DoExitLoop(m: Machine, a: State, st: State, count: nat) returns (t: State)
    requires Reaches(m, a, st) && st.mode == Run && 0 <= st.ip && At(m.code, m.table, st.ip, EmitOperand(EXIT_LOOP, count))
    requires count < OPERAND_LIMIT
    ensures Reaches(m, a, t) && t == st.(mode := Popping(count), ip := st.ip + |EmitOperand(EXIT_LOOP, count)|)
  {
    hide Reaches, EmitOperand, At;
    t := GoOperand(m, a, st, EXIT_LOOP, count);
  }

  lemma RunRaise(m: Machine, stm: Stmt, env: Env, tr: Trace, lp: Loop, at: nat, s: seq<Slot>)
    returns (t: State, base: seq<Slot>, above: seq<Slot>)
    requires stm.Raise? && Ready(m, env, s) && At(m.code, m.table, at, GenRaise(stm)) && ExprOk(stm.exc, Shape(env))
    requires stm.cause.Some? ==> ExprOk(stm.cause.value, Shape(env))
    ensures Reaches(m, State(Run, at, s, tr), t)
    ensures StmtDone(m, env, lp, s, ExecRaise(m.w, m.pool, stm, env, tr), 0, at + |GenRaise(stm)|, t, base, above)
    ensures ExecRaise(m.w, m.pool, stm, env, tr).Done? && ExecRaise(m.w, m.pool, stm, env, tr).c.Raises?
  {
    hide Execute, Reaches, Agrees, Moved, GenExpr, EvalExpr, Emit1, At, ExprOk, Raised, StmtDone;
    var a := State(Run, at, s, tr);
    var exc, end := GenExpr(stm.exc), at + |GenRaise(stm)|;
    var r := EvalExpr(m.w, m.pool, stm.exc, env, tr);
    if stm.cause.None? {
      AtSplit(m.code, m.table, at, exc, Emit1(RAISE));
    } else {
      AtSplit3(m.code, m.table, at, exc, GenExpr(stm.cause.value), Emit1(RAISE_FROM));
    }
    t, base, above := RunExpr(m, stm.exc, env, tr, at, s);
    if r.res.Err? {
      Failed(m, env, lp, s, r, 0, at + |exc|, end, t, base, above);
    } else if stm.cause.None? {
      t := DoRaise(m, a, t, base, r.res.v);
      RaisedAbove(m, env, lp, s, r.env, end, t, base, above);
    } else {
      t, base, above := RunNext(m, a, stm.cause.value, env, s, r, t, base, r.res.v);
      var r2 := EvalExpr(m.w, m.pool, stm.cause.value, r.env, r.tr);
      if r2.res.Ok? {
        t := DoRaiseFrom(m, a, t, base, r.res.v, r2.res.v);
      }
      RaisedAbove(m, env, lp, s, r2.env, end, t, base, above);
    }
  }

  /** A raise with nothing but temporaries above the locals. */
  lemma RaisedAbove(m: Machine, env: Env, lp: Loop, s: seq<Slot>, env': Env, end: int, t: State, base: seq<Slot>, above: seq<Slot>)
    requires Moved(m, env, s, env', base) && t.mode.Unwinding? && t.stack == base + above && AllValues(above)
    ensures StmtDone(m, env, lp, s, Done(env', t.tr, Raises(t.mode.exc)), 0, end, t, base, above)
  {
    hide Moved, Agrees, AllValues;
    MovedFacts(m, env, s, env', base);
    QuietValues(above, ForException);
    assert env'[..|env|] == env';
  }

  lemma DoRaise(m: Machine, a: State, st: State, base: seq<Slot>, v: Value) returns (t: State)
    requires Reaches(m, a, st) && st.mode == Run && 0 <= st.ip && At(m.code, m.table, st.ip, Emit1(RAISE))
    requires st.stack == base + [V(v)]
    ensures Reaches(m, a, t)
    ensures var (tr, x) := Raised(m.w, v, None, st.tr); t == State(Unwinding(x), st.ip + 1, st.stack, tr)
  {
    hide Reaches, Emit1, At, Raised;
    t := Go1(m, a, st, RAISE);
  }

  lemma DoRaiseFrom(m: Machine, a: State, st: State, base: seq<Slot>, v: Value, c: Value) returns (t: State)
    requires Reaches(m, a, st) && st.mode == Run && 0 <= st.ip && At(m.code, m.table, st.ip, Emit1(RAISE_FROM))
    requires st.stack == base + [V(v), V(c)]
    ensures Reaches(m, a, t)
    ensures var (tr, x) := Raised(m.w, v, Some(c), st.tr); t == State(Unwinding(x), st.ip + 1, st.stack, tr)
  {
    hide Reaches, Emit1, At, Raised;
    t := Go1(m, a, st, RAISE_FROM);
  }

  lemma {:induction false} RunBlock(m: Machine, stm: Stmt, env: Env, tr: Trace, fuel: nat, lp: Loop,
                                    inBody: bool, inLoop: bool, near: bool, at: nat, s: seq<Slot>)
    returns (t: State, base: seq<Slot>, above: seq<Slot>)
    requires Ready(m, env, s) && At(m.code, m.table, at, GenBlock(stm, |env|, lp, at)) && BlockOk(stm, Shape(env), inBody, inLoop)
    requires LoopFits(lp, |env|, inBody, inLoop) && TargetsFit(stm, |env|, lp.count, at, near)
    ensures StmtRuns(m, State(Run, at, s, tr), env, lp, s, ExecBlock(m.w, m.pool, stm, env, tr, fuel), 0,
                     at + |GenBlock(stm, |env|, lp, at)|, near, fuel, t, base, above)
    decreases fuel, stm, 6
  {
    hide GenStmt, GenPops, Exec, Reaches, At, StmtOk, Ready, TargetsFit, Lasts, StmtDone, StmtRuns, Decls;
    AtSplit(m.code, m.table, at, GenStmt(stm, |env|, lp, at), GenPops(Decls(stm)));
    t, base, above := RunStmt(m, stm, env, tr, fuel, lp, inBody, inLoop, near, at, s);
    t, above := BlockEnd(m, State(Run, at, s, tr), env, lp, s, Exec(m.w, m.pool, stm, env, tr, fuel), Decls(stm),
                         at + |GenStmt(stm, |env|, lp, at)|, near, fuel, t, base, above);
  }

  /** A statement's declarations popped. */
  lemma BlockEnd(m: Machine, a: State, env: Env, lp: Loop, s: seq<Slot>, o: Outcome, d: nat, end: nat, near: bool, fuel: nat,
                 t1: State, base: seq<Slot>, above1: seq<Slot>) returns (t: State, above: seq<Slot>)
    requires StmtRuns(m, a, env, lp, s, o, d, end, near, fuel, t1, base, above1)
    requires At(m.code, m.table, end, GenPops(d)) && d < OPERAND_LIMIT
    ensures StmtRuns(m, a, env, lp, s, Leave(o, |env|), 0, end + |GenPops(d)|, near, fuel, t, base, above)
  {
    hide GenPops, Reaches, Agrees, Moved, At, Quiet, LeavingLoop, Lasts;
    t, above := t1, above1;
    if o.Done? {
      var env' := o.env[..|env|];
      assert env'[..|env|] == env';
      if o.c == Normal {
        t := DoPops(m, a, t1, d, base, above1);
        above := [];
        Settled(m, env, lp, s, env', t, base);
      }
    }
  }

  lemma ReadyFacts(m: Machine, env: Env, s: seq<Slot>)
    requires Ready(m, env, s)
    ensures m.outSlots <= m.slots && |s| == m.slots + |env| && Agrees(m, env, s)
  {
  }

  lemma {:induction false} RunBlockAfter(m: Machine, a: State, stm: Stmt, env: Env, s: seq<Slot>, env1: Env, t1: State,
                                         fuel: nat, lp: Loop, inBody: bool, inLoop: bool, near: bool)
    returns (t: State, base: seq<Slot>, above: seq<Slot>)
    requires Ready(m, env, s) && Reaches(m, a, t1) && t1.mode == Run && Moved(m, env, s, env1, t1.stack) && 0 <= t1.ip
    requires At(m.code, m.table, t1.ip, GenBlock(stm, |env|, lp, t1.ip)) && BlockOk(stm, Shape(env), inBody, inLoop)
    requires LoopFits(lp, |env|, inBody, inLoop) && TargetsFit(stm, |env|, lp.count, t1.ip, near)
    ensures StmtRuns(m, a, env, lp, s, ExecBlock(m.w, m.pool, stm, env1, t1.tr, fuel), 0,
                     t1.ip + |GenBlock(stm, |env|, lp, t1.ip)|, near, fuel, t, base, above)
    decreases fuel, stm, 7
  {
    hide GenBlock, ExecBlock, Reaches, Agrees, Moved, At, BlockOk, StmtDone, Ready, LoopFits, TargetsFit, Lasts;
    ReadyAfter(m, env, s, env1, t1.stack);
    var o := ExecBlock(m.w, m.pool, stm, env1, t1.tr, fuel);
    t, base, above := RunBlock(m, stm, env1, t1.tr, fuel, lp, inBody, inLoop, near, t1.ip, t1.stack);
    RunsOn(m, a, env, lp, s, env1, t1, o, t1.ip + |GenBlock(stm, |env|, lp, t1.ip)|, near, fuel, t, base, above);
  }

  /** What starts where an expression, or a loop's round, left off. */
  lemma RunsOn(m: Machine, a: State, env: Env, lp: Loop, s: seq<Slot>, env1: Env, t1: State, o: Outcome, end: int,
               near: bool, fuel: nat, t: State, base: seq<Slot>, above: seq<Slot>)
    requires Reaches(m, a, t1) && Moved(m, env, s, env1, t1.stack)
    requires StmtRuns(m, t1, env1, lp, t1.stack, o, 0, end, near, fuel, t, base, above)
    ensures StmtRuns(m, a, env, lp, s, o, 0, end, near, fuel, t, base, above)
  {
    hide Reaches, Moved, StmtDone, Lasts;
    if o.OutOfFuel? {
      LastsAfter(m, a, t1, fuel);
    } else {
      Then(m, a, t1, t);
      Rebased(m, env, lp, s, env1, t1.stack, o, 0, end, t, base, above);
    }
  }

  /** After a block, a jump moves a normal end further on and touches no other completion. */
  lemma SkipOver(m: Machine, a: State, env: Env, lp: Loop, s: seq<Slot>, o: Outcome, end: int, distance: int, near: bool, fuel: nat,
                 t1: State, base: seq<Slot>, above: seq<Slot>) returns (t: State)
    requires StmtRuns(m, a, env, lp, s, o, 0, end, near, fuel, t1, base, above) && 0 <= end
    requires At(m.code, m.table, end, EmitJump(JUMP, distance))
    ensures StmtRuns(m, a, env, lp, s, o, 0, end + 3 + distance, near, fuel, t, base, above)
  {
    hide Reaches, Agrees, Moved, At, EmitJump, LeavingLoop, Quiet, Execute, Lasts;
    t := t1;
    if o.Done? && o.c == Normal {
      t := DoJump(m, a, t1, distance);
    }
  }

  lemma {:induction false} RunSeq(m: Machine, stm: Stmt, env: Env, tr: Trace, fuel: nat, lp: Loop,
                                  inBody: bool, inLoop: bool, near: bool, at: nat, s: seq<Slot>)
    returns (t: State, base: seq<Slot>, above: seq<Slot>)
    requires stm.Seq? && Ready(m, env, s) && At(m.code, m.table, at, GenSeq(stm, |env|, lp, at))
    requires StmtOk(stm.first, Shape(env), inBody, inLoop)
    requires StmtOk(stm.second, Shape(env) + Declared(Decls(stm.first)), inBody, inLoop)
    requires LoopFits(lp, |env|, inBody, inLoop) && TargetsFit(stm, |env|, lp.count, at, near)
    ensures StmtRuns(m, State(Run, at, s, tr), env, lp, s, ExecSeq(m.w, m.pool, stm, env, tr, fuel), Decls(stm.first) + Decls(stm.second),
                     at + |GenSeq(stm, |env|, lp, at)|, near, fuel, t, base, above)
    decreases fuel, stm, 1
  {
    hide Execute, GenStmt, Exec, Reaches, Agrees, Moved, At, Fetch, StmtOk, Quiet, LeavingLoop, Decls, StmtSize, Lasts;
    var a := State(Run, at, s, tr);
    var first := GenStmt(stm.first, |env|, lp, at);
    var at2 := at + |first|;
    var o := Exec(m.w, m.pool, stm.first, env, tr, fuel);
    AtSplit(m.code, m.table, at, first, GenStmt(stm.second, |env| + Decls(stm.first), lp, at2));
    SeqTargets(stm, |env|, lp, at, near);
    t, base, above := RunStmt(m, stm.first, env, tr, fuel, lp, inBody, inLoop, near, at, s);
    if o.Done? && o.c == Normal {
      var d1, d2 := Decls(stm.first), Decls(stm.second);
      var t1, base1, above1 := t, base, above;
      assert |o.env| == |env| + d1 by { assert |Shape(o.env)| == |Shape(env) + Declared(d1)|; }
      MovedFacts(m, env, s, o.env[..|env|], base);
      assert Ready(m, o.env, t.stack);
      t, base, above := RunStmt(m, stm.second, o.env, o.tr, fuel, lp, inBody, inLoop, near, at2, t1.stack);
      var o2 := Exec(m.w, m.pool, stm.second, o.env, o.tr, fuel);
      if o2.OutOfFuel? {
        LastsAfter(m, a, t1, fuel);
      } else {
        Then(m, a, t1, t);
        base, above := Sequenced(m, env, lp, s, o, d1, o2, d2, at2, t.ip, t1, base1, above1, t, base, above);
      }
    }
  }

  lemma SeqTargets(stm: Stmt, depth: nat, lp: Loop, at: nat, near: bool)
    requires stm.Seq? && TargetsFit(stm, depth, lp.count, at, near)
    ensures TargetsFit(stm.first, depth, lp.count, at, near)
    ensures TargetsFit(stm.second, depth + Decls(stm.first), lp.count, at + |GenStmt(stm.first, depth, lp, at)|, near)
  {
    hide GenStmt, Decls, GenExpr, BlockSize, HandlersSize, HandlersFit, ElseSize, GenExit, StmtSize;
    StmtLength(stm.first, depth, lp, at);
  }

  /** The second statement's effect, seen from before the first one's declarations. */
  lemma Sequenced(m: Machine, env: Env, lp: Loop, s: seq<Slot>, o1: Outcome, d1: nat, o2: Outcome, d2: nat,
                  end1: int, end2: int, t1: State, base1: seq<Slot>, above1: seq<Slot>,
                  t: State, base2: seq<Slot>, above2: seq<Slot>)
    returns (base: seq<Slot>, above: seq<Slot>)
    requires |s| == m.slots + |env| && lp.count <= |env|
    requires StmtDone(m, env, lp, s, o1, d1, end1, t1, base1, above1) && o1.c == Normal
    requires StmtDone(m, o1.env, lp, t1.stack, o2, d2, end2, t, base2, above2)
    ensures StmtDone(m, env, lp, s, o2, d1 + d2, end2, t, base, above)
  {
    hide Agrees, LeavingLoop, Moved;
    var env1, env2 := o1.env, o2.env[..|o1.env|];
    assert |env1| == |env| + d1 by { assert |Shape(env1)| == |Shape(env) + Declared(d1)|; }
    MovedFacts(m, env, s, env1[..|env|], base1);
    MovedFacts(m, env1, t1.stack, env2, base2);
    base, above := base2[..|s|], base2[|s|..] + above2;
    MovedPrefix(m, |env|, env1, base1, above1, env2, base2);
    MovedTwice(m, env, s, env1[..|env|], base1, env2[..|env|], base);
    assert o2.env[..|env|] == env2[..|env|];
    assert t.stack == base + above;
    assert Shape(env1)[|env|..] == Declared(d1);
    NewLocals(m, |env|, env1, t1.stack, env2, base2);
    if o2.c == Normal {
      assert Shape(o2.env) == Shape(env) + Declared(d1 + d2);
    } else if o2.c == Breaks || o2.c == Continues {
      LeavingFurther(m, |env|, |env1|, lp.count, if o2.c == Breaks then lp.brk else lp.cont, t, base2[|s|..], above2);
    } else {
      var hunt := if o2.c.Raises? then ForException else ForReturn;
      QuietValues(base2[|s|..], hunt);
      QuietAppend(base2[|s|..], above2, hunt);
    }
  }

  lemma MovedPrefix(m: Machine, n: nat, env1: Env, base1: seq<Slot>, above1: seq<Slot>, env2: Env, base2: seq<Slot>)
    requires n <= |env1| == |env2| && |base1| == m.slots + n && Moved(m, env1, base1 + above1, env2, base2)
    ensures Moved(m, env1[..n], base1, env2[..n], base2[..|base1|])
  {
    forall i | 0 <= i < |base1| && !IsVariable(m, env1[..n], i) ensures base2[i] == base1[i] {
      assert (base1 + above1)[i] == base1[i] && !IsVariable(m, env1, i);
    }
  }

  /** The slots of declared locals hold values. */
  lemma NewLocals(m: Machine, n: nat, env1: Env, s1: seq<Slot>, env2: Env, base2: seq<Slot>)
    requires n <= |env1| && Moved(m, env1, s1, env2, base2) && |s1| == m.slots + |env1|
    requires n <= |env1| && Shape(env1)[n..] == Declared(|env1| - n)
    ensures AllValues(base2[m.slots + n..])
  {
    var tail := base2[m.slots + n..];
    forall i | 0 <= i < |tail| ensures tail[i].V? {
      assert Shape(env1)[n..][i];
      assert env2[n + i].Some?;
    }
  }

  lemma LeavingFurther(m: Machine, depth: nat, depth1: nat, count: nat, target: Option<nat>, t: State,
                       locals: seq<Slot>, above: seq<Slot>)
    requires LeavingLoop(m, depth1, count, target, t, above) && AllValues(locals)
    requires count <= depth <= depth1 && |locals| == depth1 - depth
    ensures LeavingLoop(m, depth, count, target, t, locals + above)
  {
    QuietValues(locals, ForReturn);
    if t.mode == Popping(count) {
      QuietAppend(locals, above, ForReturn);
    }
  }

  lemma {:induction false} RunIf(m: Machine, stm: Stmt, env: Env, tr: Trace, fuel: nat, lp: Loop,
                                 inBody: bool, inLoop: bool, near: bool, at: nat, s: seq<Slot>)
    returns (t: State, base: seq<Slot>, above: seq<Slot>)
    requires stm.If? && Ready(m, env, s) && At(m.code, m.table, at, GenIf(stm, |env|, lp, at)) && ExprOk(stm.cond, Shape(env))
    requires BlockOk(stm.thn, Shape(env), inBody, inLoop)
    requires stm.els.Some? ==> BlockOk(stm.els.value, Shape(env), inBody, inLoop)
    requires LoopFits(lp, |env|, inBody, inLoop) && TargetsFit(stm, |env|, lp.count, at, near)
    ensures StmtRuns(m, State(Run, at, s, tr), env, lp, s, ExecIf(m.w, m.pool, stm, env, tr, fuel), 0,
                     at + |GenIf(stm, |env|, lp, at)|, near, fuel, t, base, above)
    decreases fuel, stm, 1
  {
    hide Execute, GenExpr, EvalExpr, GenBlock, ExecBlock, EmitJump, Reaches, Agrees, Moved, At, Fetch, StmtOk, BlockOk;
    hide ExprOk, Truthy, StmtDone, Ready, TargetsFit, Lasts;
    var a := State(Run, at, s, tr);
    var cond, thn := GenExpr(stm.cond), GenBlock(stm.thn, |env|, lp, at + |GenExpr(stm.cond)| + 3);
    var r := EvalExpr(m.w, m.pool, stm.cond, env, tr);
    var at1 := at + |cond| + 3;
    var end := at + |GenIf(stm, |env|, lp, at)|;
    var over := if stm.els.Some? then 3 else 0;
    var test := EmitJump(POP_JUMP_IF_FALSE, |thn| + over);
    var els := if stm.els.Some? then GenBlock(stm.els.value, |env|, lp, at1 + |thn| + 3) else [];
    var skip := if stm.els.Some? then EmitJump(JUMP, |els|) else [];
    if stm.els.None? {
      AtSplit3(m.code, m.table, at, cond, test, thn);
    } else {
      AtSplit3(m.code, m.table, at, cond, test, thn + (skip + els));
      AtSplit3(m.code, m.table, at1, thn, skip, els);
    }
    ReadyFacts(m, env, s);
    IfTargets(stm, |env|, lp, at, near);
    t, base, above := RunExpr(m, stm.cond, env, tr, at, s);
    if r.res.Err? {
      Failed(m, env, lp, s, r, 0, at + |cond|, end, t, base, above);
    } else {
      var b := Truthy(m.w, r.res.v, r.tr).1;
      t := DoBranch(m, a, t, POP_JUMP_IF_FALSE, |thn| + over, base, r.res.v);
      if b.Err? {
        RaisedAbove(m, env, lp, s, r.env, end, t, base, above);
      } else if b.v {
        t, base, above := RunBlockAfter(m, a, stm.thn, env, s, r.env, t, fuel, lp, inBody, inLoop, near);
        if stm.els.Some? {
          t := SkipOver(m, a, env, lp, s, ExecIf(m.w, m.pool, stm, env, tr, fuel), at1 + |thn|, |els|, near, fuel, t, base, above);
        }
      } else if stm.els.Some? {
        t, base, above := RunBlockAfter(m, a, stm.els.value, env, s, r.env, t, fuel, lp, inBody, inLoop, near);
      } else {
        above := [];
        Settled(m, env, lp, s, r.env, t, base);
      }
    }
  }

  lemma IfTargets(stm: Stmt, depth: nat, lp: Loop, at: nat, near: bool)
    requires stm.If? && TargetsFit(stm, depth, lp.count, at, near)
    ensures var at1 := at + |GenExpr(stm.cond)| + 3;
      && TargetsFit(stm.thn, depth, lp.count, at1, near)
      && (stm.els.Some? ==> TargetsFit(stm.els.value, depth, lp.count, at1 + |GenBlock(stm.thn, depth, lp, at1)| + 3, near))
  {
    hide GenBlock, Decls, GenExpr, BlockSize, HandlersSize, HandlersFit, ElseSize, GenExit, StmtSize;
    BlockLength(stm.thn, depth, lp, at + |GenExpr(stm.cond)| + 3);
  }

  // ----- loops -----

  lemma DoLoop(m: Machine, a: State, st: State, distance: int) returns (t: State)
    requires Reaches(m, a, st) && st.mode == Run && 0 <= st.ip && At(m.code, m.table, st.ip, EmitJump(LOOP, distance))
    ensures Reaches(m, a, t) && t == st.(ip := st.ip + 3 - distance) && t == Step(m, st)
  {
    hide Reaches, At, EmitJump, Fetch;
    FetchJump(m.code, m.table, st.ip, LOOP, distance);
    t := GoJump(m, a, st, LOOP, distance);
  }

  /** From a step earlier. */
  lemma RunsStepped(m: Machine, a: State, before: State, env: Env, lp: Loop, s: seq<Slot>, o: Outcome, end: int,
                    near: bool, k: nat, fuel: nat, t: State, base: seq<Slot>, above: seq<Slot>)
    requires Reaches(m, a, before) && fuel <= k + 1
    requires StmtRuns(m, Step(m, before), env, lp, s, o, 0, end, near, k, t, base, above)
    ensures StmtRuns(m, a, env, lp, s, o, 0, end, near, fuel, t, base, above)
  {
    hide Reaches, StmtDone, Lasts, Step;
    if o.OutOfFuel? {
      LastsLonger(m, a, before, k);
      LastsLess(m, a, k + 1, fuel);
    } else {
      One(m, before);
      Then(m, a, before, Step(m, before));
      Then(m, a, Step(m, before), t);
    }
  }

  /** A block restores the number of locals. */
  lemma BlockEnv(m: Machine, stm: Stmt, env: Env, tr: Trace, fuel: nat)
    ensures var o := ExecBlock(m.w, m.pool, stm, env, tr, fuel);
      o.Done? && |env| <= |o.env| ==> |o.env| == |env|
  {
    hide Exec;
  }

  /** A round of a loop body that goes round again stands at the loop's jump back. */
  lemma RoundEnd(m: Machine, a: State, env: Env, lp1: Loop, s: seq<Slot>, o: Outcome, end: int,
                 t1: State, base: seq<Slot>, above: seq<Slot>) returns (t: State)
    requires Ready(m, env, s) && Reaches(m, a, t1) && lp1.count == |env| && lp1.cont.Some? && lp1.cont.value == end
    requires StmtDone(m, env, lp1, s, o, 0, end, t1, base, above) && GoesRound(o) && |o.env| == |env|
    ensures Reaches(m, a, t) && t == State(Run, end, base, o.tr) && Moved(m, env, s, o.env, base)
  {
    hide Reaches, Agrees, Moved, LeavingLoop, Quiet, Execute;
    assert o.env[..|env|] == o.env;
    MovedFacts(m, env, s, o.env, base);
    if o.c == Normal {
      t := t1;
      assert base + above == base;
    } else {
      t := LeaveLoop(m, a, env, lp1.count, lp1.cont, t1, base, above);
    }
  }

  /** A round that does not: `break` lands after the loop, other completions pass through. */
  lemma LoopEnd(m: Machine, a: State, env: Env, lp1: Loop, lp: Loop, s: seq<Slot>, o: Outcome, end1: int, end: int,
                t1: State, base: seq<Slot>, above1: seq<Slot>) returns (t: State, above: seq<Slot>)
    requires Ready(m, env, s) && Reaches(m, a, t1) && lp1.count == |env| && lp1.brk.Some? && lp1.brk.value == end
    requires StmtDone(m, env, lp1, s, o, 0, end1, t1, base, above1) && !GoesRound(o) && |o.env| == |env|
    ensures Reaches(m, a, t) && StmtDone(m, env, lp, s, LeavesLoop(o), 0, end, t, base, above)
  {
    hide Reaches, Agrees, Moved, LeavingLoop, Quiet, Execute;
    assert o.env[..|env|] == o.env;
    MovedFacts(m, env, s, o.env, base);
    t, above := t1, above1;
    if o.c == Breaks {
      t := LeaveLoop(m, a, env, lp1.count, lp1.brk, t1, base, above1);
      above := [];
      Settled(m, env, lp, s, o.env, t, base);
    }
  }

  /** Where the parts of a while loop are. */
  lemma WhileParts(code: Code, table: seq<Overlong>, stm: Stmt, depth: nat, lp: Loop, at: nat)
    requires stm.While? && At(code, table, at, GenWhile(stm, depth, lp, at))
    ensures var body := WhileBodyAt(stm.cond, at);
      var size := BlockSize(stm.body, depth, depth);
      var end := at + |GenWhile(stm, depth, lp, at)|;
      && At(code, table, body, GenBlock(stm.body, depth, WhileLoop(stm, depth, lp, body), body))
      && |GenBlock(stm.body, depth, WhileLoop(stm, depth, lp, body), body)| == size
      && At(code, table, body + size, EmitJump(LOOP, body + size + 3 - at))
      && at <= body && body + size + 3 <= end && WhileLoop(stm, depth, lp, body) == Loop(depth, Some(end), Some(body + size))
      && if AlwaysTrue(stm.cond) then true
         else
           && At(code, table, at, GenExpr(stm.cond))
           && At(code, table, body - 3, EmitJump(JUMP_IF_FALSE_OR_POP, size + 3))
           && At(code, table, body + size + 3, Emit1(POP))
           && At(code, table, body + size + 4, GenBlock(stm.orElse, depth, lp, body + size + 4))
           && body + size + 4 + |GenBlock(stm.orElse, depth, lp, body + size + 4)| == end
  {
    hide GenExpr, GenBlock, EmitJump, Emit1, At, BlockSize, AlwaysTrue;
    var at1 := WhileBodyAt(stm.cond, at);
    var size := BlockSize(stm.body, depth, depth);
    var body := GenBlock(stm.body, depth, WhileLoop(stm, depth, lp, at1), at1);
    BlockLength(stm.body, depth, WhileLoop(stm, depth, lp, at1), at1);
    if AlwaysTrue(stm.cond) {
      var els := GenBlock(stm.orElse, depth, lp, at1 + size + 3);
      BlockLength(stm.orElse, depth, lp, at1 + size + 3);
      AtSplit3(code, table, at, body, EmitJump(LOOP, size + 3), els);
    } else {
      var els := GenBlock(stm.orElse, depth, lp, at1 + size + 4);
      BlockLength(stm.orElse, depth, lp, at1 + size + 4);
      AtSplit6(code, table, at, GenExpr(stm.cond), EmitJump(JUMP_IF_FALSE_OR_POP, size + 3), body,
               EmitJump(LOOP, |GenExpr(stm.cond)| + 3 + size + 3), Emit1(POP), els);
    }
  }

  /** A while loop whose condition held, from the start of its body. */
  lemma {:induction false} RunWhileBody(m: Machine, a: State, stm: Stmt, env: Env, s: seq<Slot>, env1: Env, t1: State,
                                        fuel: nat, lp: Loop, inBody: bool, inLoop: bool, near: bool, at: nat)
    returns (t: State, base: seq<Slot>, above: seq<Slot>)
    requires stm.While? && Ready(m, env, s) && Reaches(m, a, t1) && t1.mode == Run && Moved(m, env, s, env1, t1.stack)
    requires At(m.code, m.table, at, GenWhile(stm, |env|, lp, at)) && ExprOk(stm.cond, Shape(env))
    requires BlockOk(stm.body, Shape(env), true, true) && BlockOk(stm.orElse, Shape(env), false, inLoop)
    requires LoopFits(lp, |env|, inBody, inLoop) && TargetsFit(stm, |env|, lp.count, at, near)
    requires t1.ip == WhileBodyAt(stm.cond, at)
    ensures StmtRuns(m, a, env, lp, s, WhileRound(m.w, m.pool, stm, env1, t1.tr, fuel), 0,
                     at + |GenWhile(stm, |env|, lp, at)|, near, fuel, t, base, above)
    decreases fuel, stm, 0
  {
    hide Execute, GenExpr, EvalExpr, GenBlock, ExecBlock, EmitJump, Emit1, Reaches, Agrees, Moved, At, BlockOk, ExprOk;
    hide StmtDone, Ready, BlockSize, AlwaysTrue, ExecWhile, GenWhile, WhileLoop, WhileBodyAt, TargetsFit, Lasts, Step;
    var lp1 := WhileLoop(stm, |env|, lp, t1.ip);
    var end := at + |GenWhile(stm, |env|, lp, at)|;
    WhileParts(m.code, m.table, stm, |env|, lp, at);
    ReadyFacts(m, env, s);
    WhileTargets(stm, |env|, lp, at, near);
    var back := t1.ip + BlockSize(stm.body, |env|, |env|);
    var o := ExecBlock(m.w, m.pool, stm.body, env1, t1.tr, fuel);
    t, base, above := RunBlockAfter(m, a, stm.body, env, s, env1, t1, fuel, lp1, true, true, false);
    if o.Done? {
      BlockEnv(m, stm.body, env1, t1.tr, fuel);
      DoneEnv(m, env, lp1, s, o, 0, back, t, base, above);
      MovedFacts(m, env, s, env1, t1.stack);
      if !GoesRound(o) {
        t, above := LoopEnd(m, a, env, lp1, lp, s, o, back, end, t, base, above);
      } else {
        var t2 := RoundEnd(m, a, env, lp1, s, o, back, t, base, above);
        var top := DoLoop(m, a, t2, back + 3 - at);
        if fuel == 0 {
          LastsNow(m, t2);
          LastsAfter(m, a, t2, 0);
        } else {
          ReadyAfter(m, env, s, o.env, base);
          t, base, above := RunWhile(m, stm, o.env, o.tr, fuel - 1, lp, inBody, inLoop, near, at, top.stack);
          var again := ExecWhile(m.w, m.pool, stm, o.env, o.tr, fuel - 1);
          Stay(m, top);
          RunsOn(m, top, env, lp, s, o.env, top, again, end, near, fuel - 1, t, base, above);
          RunsStepped(m, a, t2, env, lp, s, again, end, near, fuel - 1, fuel, t, base, above);
        }
      }
    }
  }

  lemma WhileTargets(stm: Stmt, depth: nat, lp: Loop, at: nat, near: bool)
    requires stm.While? && TargetsFit(stm, depth, lp.count, at, near)
    ensures var body := WhileBodyAt(stm.cond, at);
      && TargetsFit(stm.body, depth, depth, body, false)
      && TargetsFit(stm.orElse, depth, lp.count,
                    body + BlockSize(stm.body, depth, depth) + (if AlwaysTrue(stm.cond) then 3 else 4), near)
  {
    hide GenBlock, Decls, GenExpr, BlockSize, HandlersSize, HandlersFit, ElseSize, GenExit, StmtSize, AlwaysTrue;
  }

  lemma DoneEnv(m: Machine, env: Env, lp: Loop, s: seq<Slot>, o: Outcome, d: nat, end: int,
                t: State, base: seq<Slot>, above: seq<Slot>)
    requires StmtDone(m, env, lp, s, o, d, end, t, base, above)
    ensures |env| <= |o.env|
  {
  }

  lemma {:induction false} RunWhile(m: Machine, stm: Stmt, env: Env, tr: Trace, fuel: nat, lp: Loop,
                                    inBody: bool, inLoop: bool, near: bool, at: nat, s: seq<Slot>)
    returns (t: State, base: seq<Slot>, above: seq<Slot>)
    requires stm.While? && Ready(m, env, s)
    requires At(m.code, m.table, at, GenWhile(stm, |env|, lp, at)) && ExprOk(stm.cond, Shape(env))
    requires BlockOk(stm.body, Shape(env), true, true) && BlockOk(stm.orElse, Shape(env), false, inLoop)
    requires LoopFits(lp, |env|, inBody, inLoop) && TargetsFit(stm, |env|, lp.count, at, near)
    ensures StmtRuns(m, State(Run, at, s, tr), env, lp, s, ExecWhile(m.w, m.pool, stm, env, tr, fuel), 0,
                     at + |GenWhile(stm, |env|, lp, at)|, near, fuel, t, base, above)
    decreases fuel, stm, 2
  {
    hide Execute, GenExpr, EvalExpr, GenBlock, ExecBlock, EmitJump, Emit1, Reaches, Agrees, Moved, At, BlockOk, ExprOk;
    hide StmtDone, Ready, BlockSize, AlwaysTrue, GenWhile, WhileLoop, WhileRound, Truthy, Shape, TargetsFit, Lasts;
    var a := State(Run, at, s, tr);
    var end := at + |GenWhile(stm, |env|, lp, at)|;
    WhileParts(m.code, m.table, stm, |env|, lp, at);
    ReadyFacts(m, env, s);
    if AlwaysTrue(stm.cond) {
      ConditionTrue(m, stm, env, tr);
      Stay(m, a);
      NotMoved(m, env, s);
      t, base, above := RunWhileBody(m, a, stm, env, s, env, a, fuel, lp, inBody, inLoop, near, at);
    } else {
      t, base, above := RunWhileTest(m, stm, env, tr, fuel, lp, inBody, inLoop, near, at, s);
    }
  }

  lemma {:induction false} RunWhileTest(m: Machine, stm: Stmt, env: Env, tr: Trace, fuel: nat, lp: Loop,
                                        inBody: bool, inLoop: bool, near: bool, at: nat, s: seq<Slot>)
    returns (t: State, base: seq<Slot>, above: seq<Slot>)
    requires stm.While? && Ready(m, env, s) && !AlwaysTrue(stm.cond)
    requires At(m.code, m.table, at, GenWhile(stm, |env|, lp, at)) && ExprOk(stm.cond, Shape(env))
    requires BlockOk(stm.body, Shape(env), true, true) && BlockOk(stm.orElse, Shape(env), false, inLoop)
    requires LoopFits(lp, |env|, inBody, inLoop) && TargetsFit(stm, |env|, lp.count, at, near)
    ensures StmtRuns(m, State(Run, at, s, tr), env, lp, s, ExecWhile(m.w, m.pool, stm, env, tr, fuel), 0,
                     at + |GenWhile(stm, |env|, lp, at)|, near, fuel, t, base, above)
    decreases fuel, stm, 1
  {
    hide Execute, GenExpr, EvalExpr, GenBlock, ExecBlock, EmitJump, Emit1, Reaches, Agrees, Moved, At, BlockOk, ExprOk;
    hide StmtDone, Ready, BlockSize, AlwaysTrue, GenWhile, WhileLoop, WhileRound, Truthy, Shape, TargetsFit, Lasts, StmtRuns;
    var a := State(Run, at, s, tr);
    var end := at + |GenWhile(stm, |env|, lp, at)|;
    WhileParts(m.code, m.table, stm, |env|, lp, at);
    ReadyFacts(m, env, s);
    var r := EvalExpr(m.w, m.pool, stm.cond, env, tr);
    var size := BlockSize(stm.body, |env|, |env|);
    t, base, above := RunExpr(m, stm.cond, env, tr, at, s);
    if r.res.Err? {
      Failed(m, env, lp, s, r, 0, at + |GenExpr(stm.cond)|, end, t, base, above);
      RunsDone(m, a, env, lp, s, Fail(r), 0, end, near, fuel, t, base, above);
    } else {
      var b := Truthy(m.w, r.res.v, r.tr).1;
      t := DoBranch(m, a, t, JUMP_IF_FALSE_OR_POP, size + 3, base, r.res.v);
      if b.Err? {
        RaisedAbove(m, env, lp, s, r.env, end, t, base, above);
        RunsDone(m, a, env, lp, s, Done(r.env, t.tr, Raises(b.exc)), 0, end, near, fuel, t, base, above);
      } else if b.v {
        t, base, above := RunWhileBody(m, a, stm, env, s, r.env, t, fuel, lp, inBody, inLoop, near, at);
      } else {
        t, base, above := RunWhileElse(m, a, stm, env, s, r.env, base, r.res.v, t, fuel, lp, inBody, inLoop, near, at);
      }
    }
  }

  /** The condition was false, and is still on the stack. */
  lemma {:induction false} RunWhileElse(m: Machine, a: State, stm: Stmt, env: Env, s: seq<Slot>, env1: Env, base1: seq<Slot>,
                                        v: Value, t1: State, fuel: nat, lp: Loop, inBody: bool, inLoop: bool, near: bool, at: nat)
    returns (t: State, base: seq<Slot>, above: seq<Slot>)
    requires stm.While? && Ready(m, env, s) && !AlwaysTrue(stm.cond) && Moved(m, env, s, env1, base1)
    requires Reaches(m, a, t1) && t1.mode == Run && t1.stack == base1 + [V(v)]
    requires t1.ip == WhileBodyAt(stm.cond, at) + BlockSize(stm.body, |env|, |env|) + 3
    requires At(m.code, m.table, at, GenWhile(stm, |env|, lp, at)) && BlockOk(stm.orElse, Shape(env), false, inLoop)
    requires LoopFits(lp, |env|, inBody, inLoop) && TargetsFit(stm, |env|, lp.count, at, near)
    ensures StmtRuns(m, a, env, lp, s, ExecBlock(m.w, m.pool, stm.orElse, env1, t1.tr, fuel), 0,
                     at + |GenWhile(stm, |env|, lp, at)|, near, fuel, t, base, above)
    decreases fuel, stm, 0
  {
    hide GenExpr, GenBlock, ExecBlock, EmitJump, Emit1, Reaches, Moved, At, BlockOk, StmtRuns, Ready, BlockSize, AlwaysTrue;
    hide GenWhile, WhileLoop, Shape, TargetsFit, WhileBodyAt;
    WhileParts(m.code, m.table, stm, |env|, lp, at);
    WhileTargets(stm, |env|, lp, at, near);
    t := DoPop(m, a, t1, base1, V(v));
    t, base, above := RunBlockAfter(m, a, stm.orElse, env, s, env1, t, fuel, lp, false, inLoop, near);
  }

  lemma ConditionTrue(m: Machine, stm: Stmt, env: Env, tr: Trace)
    requires stm.While? && AlwaysTrue(stm.cond)
    ensures EvalExpr(m.w, m.pool, stm.cond, env, tr) == EvalResult(env, tr, Ok(VBool(true)))
    ensures Truthy(m.w, VBool(true), tr) == (tr, Ok(true))
  {
  }

  lemma DoInvokeIter(m: Machine, a: State, st: State, base: seq<Slot>, v: Value) returns (t: State)
    requires Reaches(m, a, st) && st.mode == Run && 0 <= st.ip && At(m.code, m.table, st.ip, Emit1(INVOKE_ITER))
    requires st.stack == base + [V(v)]
    ensures Reaches(m, a, t)
    ensures Yields(t, st.ip + 1, base, [V(v)], st.tr + [Iterate(v)], m.w.act(Iterate(v), st.tr))
  {
    hide Reaches, Emit1, At;
    t := Go1(m, a, st, INVOKE_ITER);
    assert Drop(st.stack, 1) == base;
  }

  /** OP_CALL_ITER and OP_LOOP_ITER ask the iterator for one more value: CALL_ITER jumps on exhaustion,
      LOOP_ITER jumps back otherwise. */
  lemma DoNext(m: Machine, a: State, st: State, op: Op, distance: int, base: seq<Slot>, it: Value) returns (t: State)
    requires Reaches(m, a, st) && st.mode == Run && 0 <= st.ip && At(m.code, m.table, st.ip, EmitJump(op, distance))
    requires (op == CALL_ITER || op == LOOP_ITER) && st.stack == base + [V(it)]
    ensures Reaches(m, a, t) && t == Step(m, st)
    ensures var tr := st.tr + [Next(it)];
      match m.w.act(Next(it), st.tr)
      case Err(x) => t == State(Unwinding(x), t.ip, st.stack, tr)
      case Ok(v) =>
        t == State(Run, if op == CALL_ITER then if v == it then st.ip + 3 + distance else st.ip + 3
                        else if v == it then st.ip + 3 else st.ip + 3 - distance, st.stack + [V(v)], tr)
  {
    hide Reaches, EmitJump, At, Fetch;
    FetchJump(m.code, m.table, st.ip, op, distance);
    t := GoJump(m, a, st, op, distance);
    assert Drop(st.stack, 0) == st.stack;
  }

  lemma DoStore(m: Machine, a: State, st: State, i: nat, base: seq<Slot>, v: Value) returns (t: State)
    requires Reaches(m, a, st) && st.mode == Run && 0 <= st.ip && At(m.code, m.table, st.ip, EmitOperand(SET_LOCAL_POP, i))
    requires i < OPERAND_LIMIT && m.slots + i < |base| && st.stack == base + [V(v)]
    ensures Reaches(m, a, t)
    ensures t == State(Run, st.ip + |EmitOperand(SET_LOCAL_POP, i)|, base[m.slots + i := V(v)], st.tr)
  {
    hide Reaches, EmitOperand, At;
    t := GoOperand(m, a, st, SET_LOCAL_POP, i);
    assert Drop(st.stack, 1) == base;
  }

  /** The frame seen from an outer scope with fewer locals. */
  lemma MovedNarrow(m: Machine, env: Env, s: seq<Slot>, env2: Env, s2: seq<Slot>, env3: Env, base2: seq<Slot>)
    requires |s| == m.slots + |env| && |env| <= |env2| && |s| <= |s2|
    requires Moved(m, env, s, env2[..|env|], s2[..|s|]) && Moved(m, env2, s2, env3, base2)
    ensures |env| <= |env3| && |s| <= |base2| && Moved(m, env, s, env3[..|env|], base2[..|s|])
  {
    hide Moved, Agrees;
    MovedFacts(m, env2, s2, env3, base2);
    MovedFacts(m, env, s, env2[..|env|], s2[..|s|]);
    assert s2 == s2[..|s|] + s2[|s|..];
    MovedPrefix(m, |env|, env2, s2[..|s|], s2[|s|..], env3, base2);
    MovedTwice(m, env, s, env2[..|env|], s2[..|s|], env3[..|env|], base2[..|s|]);
  }

  /** What a completion other than a normal end is looking for on its way out. */
  function HuntOf(c: Completion): Hunt {
    if c.Raises? then ForException else ForReturn
  }

  /** An abrupt completion, seen from an outer scope whose extra slots do not stop it. */
  lemma Narrowed(m: Machine, env: Env, lp: Loop, s: seq<Slot>, env2: Env, s2: seq<Slot>, o: Outcome, end: int, end2: int,
                 t: State, base2: seq<Slot>, above2: seq<Slot>) returns (base: seq<Slot>, above: seq<Slot>)
    requires |s| == m.slots + |env| && |env| < |env2| && |s| < |s2| && lp.count <= |env|
    requires Moved(m, env, s, env2[..|env|], s2[..|s|])
    requires StmtDone(m, env2, lp, s2, o, 0, end, t, base2, above2) && o.c != Normal
    requires |base2| == |s2| ==> Quiet(base2[|s|..], HuntOf(o.c))
    ensures StmtDone(m, env, lp, s, Leave(o, |env|), 0, end2, t, base, above)
  {
    hide Agrees, Moved;
    var env3 := o.env[..|env2|];
    MovedFacts(m, env2, s2, env3, base2);
    MovedNarrow(m, env, s, env2, s2, env3, base2);
    base, above := base2[..|s|], base2[|s|..] + above2;
    assert t.stack == base + above;
    assert env3[..|env|] == o.env[..|env|] == o.env[..|env|][..|env|];
    if above2 != [] || t.mode != Run {
      QuietAppend(base2[|s|..], above2, HuntOf(o.c));
    }
  }

  /** Likewise a normal end, once the extra slots are popped. */
  lemma NarrowedNormal(m: Machine, a: State, env: Env, lp: Loop, s: seq<Slot>, env2: Env, s2: seq<Slot>, o: Outcome,
                       end: int, t1: State, base2: seq<Slot>, above2: seq<Slot>)
    returns (t: State, base: seq<Slot>, above: seq<Slot>)
    requires |s| == m.slots + |env| && |env2| == |env| + 2 && |s2| == |s| + 2 && Reaches(m, a, t1) && 0 <= end
    requires Moved(m, env, s, env2[..|env|], s2[..|s|])
    requires StmtDone(m, env2, lp, s2, o, 0, end, t1, base2, above2) && o.c == Normal
    requires At(m.code, m.table, end, GenPops(2))
    ensures Reaches(m, a, t)
    ensures StmtDone(m, env, lp, s, Leave(o, |env|), 0, end + |GenPops(2)|, t, base, above)
  {
    hide Reaches, Agrees, Moved, At, GenPops;
    var env3 := o.env[..|env2|];
    MovedFacts(m, env2, s2, env3, base2);
    MovedNarrow(m, env, s, env2, s2, env3, base2);
    base, above := base2[..|s|], [];
    assert t1.stack == base + base2[|s|..];
    assert env3[..|env|] == o.env[..|env|];
    t := DoPops(m, a, t1, 2, base, base2[|s|..]);
    Settled(m, env, lp, s, o.env[..|env|], t, base);
  }

  /** Where the rounds of a for loop start, and where its parts are. */
  function ForHead(stm: Stmt, at: nat): nat
    requires stm.For?
  {
    at + 1 + |GenExpr(stm.iterable)| + 1
  }

  lemma ForParts(code: Code, table: seq<Overlong>, stm: Stmt, depth: nat, lp: Loop, at: nat)
    requires stm.For? && At(code, table, at, GenFor(stm, depth, lp, at))
    ensures var store := EmitOperand(SET_LOCAL_POP, depth);
      var head, body := ForHead(stm, at), ForBodyAt(stm.iterable, depth, at);
      var back := body + BlockSize(stm.body, depth + 2, depth + 2);
      var els := GenBlock(stm.orElse, depth + 2, lp, back + 4);
      && At(code, table, at, Emit1(NONE)) && At(code, table, at + 1, GenExpr(stm.iterable)) && At(code, table, head - 1, Emit1(INVOKE_ITER))
      && At(code, table, head, EmitJump(CALL_ITER, back - head)) && At(code, table, head + 3, store)
      && At(code, table, body, GenBlock(stm.body, depth + 2, ForLoop(stm, depth, lp, body), body))
      && |GenBlock(stm.body, depth + 2, ForLoop(stm, depth, lp, body), body)| == back - body
      && At(code, table, back, EmitJump(LOOP_ITER, back - head)) && At(code, table, back + 3, Emit1(POP)) && At(code, table, back + 4, els)
      && ForLoop(stm, depth, lp, body) == Loop(depth + 2, Some(back + 4 + |els|), Some(back))
      && At(code, table, back + 4 + |els|, GenPops(2))
      && back + 4 + |els| + |GenPops(2)| == at + |GenFor(stm, depth, lp, at)|
      && body == head + 3 + |store| && head <= back && |GenPops(2)| == 2
  {
    hide GenExpr, GenBlock, EmitJump, Emit1, At, BlockSize, EmitOperand;
    var store := EmitOperand(SET_LOCAL_POP, depth);
    var head, body := ForHead(stm, at), ForBodyAt(stm.iterable, depth, at);
    var size := BlockSize(stm.body, depth + 2, depth + 2);
    var block := GenBlock(stm.body, depth + 2, ForLoop(stm, depth, lp, body), body);
    var els := GenBlock(stm.orElse, depth + 2, lp, body + size + 4);
    BlockLength(stm.body, depth + 2, ForLoop(stm, depth, lp, body), body);
    BlockLength(stm.orElse, depth + 2, lp, body + size + 4);
    var call, loop := EmitJump(CALL_ITER, |store| + size + 3), EmitJump(LOOP_ITER, |store| + size + 3);
    var rest := block + (loop + (Emit1(POP) + (els + GenPops(2))));
    AtSplit6(code, table, at, Emit1(NONE), GenExpr(stm.iterable), Emit1(INVOKE_ITER), call, store, rest);
    AtSplit3(code, table, body, block, loop, Emit1(POP) + (els + GenPops(2)));
    AtSplit3(code, table, body + size + 3, Emit1(POP), els, GenPops(2));
  }

  /** The rounds of a for loop, from its OP_CALL_ITER or from the OP_LOOP_ITER at its end. */
  lemma {:induction false} RunRounds(m: Machine, a: State, stm: Stmt, it: Value, env: Env, s: seq<Slot>, env1: Env, t1: State,
                                     fuel: nat, lp: Loop, inBody: bool, inLoop: bool, near: bool, depth: nat, at: nat)
    returns (t: State, base: seq<Slot>, above: seq<Slot>)
    requires stm.For? && |env| == depth + 2 && env[depth].Some? && env[depth + 1].None?
    requires Ready(m, env, s) && s[m.slots + depth + 1] == V(it)
    requires Reaches(m, a, t1) && t1.mode == Run && Moved(m, env, s, env1, t1.stack)
    requires At(m.code, m.table, at, GenFor(stm, depth, lp, at)) && lp.count <= depth && |env| < OPERAND_LIMIT
    requires BlockOk(stm.body, Shape(env), true, true) && BlockOk(stm.orElse, Shape(env), false, inLoop)
    requires LoopFits(lp, depth, inBody, inLoop) && TargetsFit(stm, depth, lp.count, at, near)
    requires t1.ip == ForHead(stm, at) || t1.ip == ForBodyAt(stm.iterable, depth, at) + BlockSize(stm.body, depth + 2, depth + 2)
    ensures StmtRuns(m, a, env, lp, s, ExecRounds(m.w, m.pool, stm, it, env1, t1.tr, fuel), 0,
                     at + |GenFor(stm, depth, lp, at)| - 2, near, fuel, t, base, above)
    decreases fuel, stm, 1
  {
    hide Execute, GenExpr, EvalExpr, GenBlock, ExecBlock, EmitJump, EmitOperand, Emit1, Reaches, Agrees, At, BlockOk;
    hide StmtDone, Ready, BlockSize, GenFor, ForLoop, ForHead, ForBodyAt, Moved, GenPops, Shape, TargetsFit, Lasts, Step;
    var head, body := ForHead(stm, at), ForBodyAt(stm.iterable, depth, at);
    var back := body + BlockSize(stm.body, depth + 2, depth + 2);
    var lp1 := ForLoop(stm, depth, lp, body);
    var end := at + |GenFor(stm, depth, lp, at)| - 2;
    ForParts(m.code, m.table, stm, depth, lp, at);
    ReadyFacts(m, env, s);
    IteratorSlot(m, env, s, env1, t1.stack, depth, it);
    MovedFacts(m, env, s, env1, t1.stack);
    ForTargets(stm, depth, lp, at, near);
    var under := t1.stack[..m.slots + depth + 1];
    var n := m.w.act(Next(it), t1.tr);
    t := DoNext(m, a, t1, if t1.ip == head then CALL_ITER else LOOP_ITER, back - head, under, it);
    base, above := t1.stack, [];
    if n.Err? {
      assert t1.stack + [] == t1.stack;
      RaisedAbove(m, env, lp, s, env1, end, t, base, above);
    } else if n.v == it {
      t := DoPop(m, a, t, t1.stack, V(it));
      t, base, above := RunBlockAfter(m, a, stm.orElse, env, s, env1, t, fuel, lp, false, inLoop, near);
    } else {
      var u := t;
      Stay(m, u);
      t, base, above := RunRound(m, stm, it, n.v, env, s, env1, t1.stack, u, fuel, lp, inBody, inLoop, near, depth, at);
      RunsStepped(m, a, t1, env, lp, s, ExecRounds(m.w, m.pool, stm, it, env1, t1.tr, fuel), end, near,
                  if fuel == 0 then 0 else fuel - 1, fuel, t, base, above);
    }
  }

  /** One round, from where the next value has just been fetched. */
  lemma {:induction false} RunRound(m: Machine, stm: Stmt, it: Value, v: Value, env: Env, s: seq<Slot>, env1: Env, s1: seq<Slot>,
                                    u: State, fuel: nat, lp: Loop, inBody: bool, inLoop: bool, near: bool, depth: nat, at: nat)
    returns (t: State, base: seq<Slot>, above: seq<Slot>)
    requires stm.For? && |env| == depth + 2 && env[depth].Some? && env[depth + 1].None?
    requires Ready(m, env, s) && s[m.slots + depth + 1] == V(it) && Moved(m, env, s, env1, s1)
    requires u == State(Run, ForHead(stm, at) + 3, s1 + [V(v)], u.tr)
    requires At(m.code, m.table, at, GenFor(stm, depth, lp, at)) && lp.count <= depth && |env| < OPERAND_LIMIT
    requires BlockOk(stm.body, Shape(env), true, true) && BlockOk(stm.orElse, Shape(env), false, inLoop)
    requires LoopFits(lp, depth, inBody, inLoop) && TargetsFit(stm, depth, lp.count, at, near)
    ensures StmtRuns(m, u, env, lp, s, RoundOutcome(m, stm, it, v, env1, u.tr, fuel), 0,
                     at + |GenFor(stm, depth, lp, at)| - 2, near, if fuel == 0 then 0 else fuel - 1, t, base, above)
    decreases fuel, stm, 0
  {
    hide Execute, GenExpr, EvalExpr, GenBlock, ExecBlock, EmitJump, EmitOperand, Emit1, Reaches, Agrees, At, BlockOk;
    hide StmtDone, Ready, BlockSize, GenFor, ForLoop, ForHead, ForBodyAt, Moved, GenPops, Shape, TargetsFit, Lasts, ExecRounds;
    var back := ForBodyAt(stm.iterable, depth, at) + BlockSize(stm.body, depth + 2, depth + 2);
    var lp1 := ForLoop(stm, depth, lp, ForBodyAt(stm.iterable, depth, at));
    var end := at + |GenFor(stm, depth, lp, at)| - 2;
    ForParts(m.code, m.table, stm, depth, lp, at);
    ReadyFacts(m, env, s);
    IteratorSlot(m, env, s, env1, s1, depth, it);
    MovedFacts(m, env, s, env1, s1);
    ForTargets(stm, depth, lp, at, near);
    Stay(m, u);
    t := DoStore(m, u, u, depth, s1, v);
    var env2 := SetLoopVariable(env1, v);
    MovedStore(m, env1, s1, depth, v);
    MovedTwice(m, env, s, env1, s1, env2, t.stack);
    var o := ExecBlock(m.w, m.pool, stm.body, env2, t.tr, fuel);
    BlockEnv(m, stm.body, env2, t.tr, fuel);
    t, base, above := RunBlockAfter(m, u, stm.body, env, s, env2, t, fuel, lp1, true, true, false);
    if o.OutOfFuel? {
      LastsLess(m, u, fuel, if fuel == 0 then 0 else fuel - 1);
    } else {
      DoneEnv(m, env, lp1, s, o, 0, back, t, base, above);
      if !GoesRound(o) {
        t, above := LoopEnd(m, u, env, lp1, lp, s, o, back, end, t, base, above);
      } else {
        t := RoundEnd(m, u, env, lp1, s, o, back, t, base, above);
        if fuel == 0 {
          LastsNow(m, u);
        } else {
          t, base, above := RunRounds(m, u, stm, it, env, s, o.env, t, fuel - 1, lp, inBody, inLoop, near, depth, at);
        }
      }
    }
  }

  /** ExecRounds when the iterator has given `v`. */
  function RoundOutcome(m: Machine, stm: Stmt, it: Value, v: Value, env: Env, tr: Trace, fuel: nat): Outcome
    requires stm.For?
  {
    var o := ExecBlock(m.w, m.pool, stm.body, SetLoopVariable(env, v), tr, fuel);
    if !GoesRound(o) then LeavesLoop(o)
    else if fuel == 0 then OutOfFuel
    else ExecRounds(m.w, m.pool, stm, it, o.env, o.tr, fuel - 1)
  }

  lemma ForTargets(stm: Stmt, depth: nat, lp: Loop, at: nat, near: bool)
    requires stm.For? && TargetsFit(stm, depth, lp.count, at, near)
    ensures var body := ForBodyAt(stm.iterable, depth, at);
      && TargetsFit(stm.body, depth + 2, depth + 2, body, false)
      && TargetsFit(stm.orElse, depth + 2, lp.count, body + BlockSize(stm.body, depth + 2, depth + 2) + 4, near)
  {
    hide GenBlock, Decls, GenExpr, BlockSize, HandlersSize, HandlersFit, ElseSize, GenExit, StmtSize, EmitOperand;
  }

  /** The iterator's slot is anonymous, so it keeps the iterator; the loop variable's is not. */
  lemma IteratorSlot(m: Machine, env: Env, s: seq<Slot>, env1: Env, s1: seq<Slot>, depth: nat, it: Value)
    requires Moved(m, env, s, env1, s1) && |env| == depth + 2 && env[depth].Some? && env[depth + 1].None?
    requires |s| == m.slots + |env| && s[m.slots + depth + 1] == V(it)
    ensures |env1| == |env| && env1[depth].Some? && env1[depth + 1].None? && |s1| == |s|
    ensures s1 == s1[..m.slots + depth + 1] + [V(it)]
  {
    assert !IsVariable(m, env, m.slots + depth + 1);
  }

  lemma {:induction false} RunFor(m: Machine, stm: Stmt, env: Env, tr: Trace, fuel: nat, lp: Loop,
                                  inBody: bool, inLoop: bool, near: bool, at: nat, s: seq<Slot>)
    returns (t: State, base: seq<Slot>, above: seq<Slot>)
    requires stm.For? && Ready(m, env, s) && |env| + 2 < OPERAND_LIMIT
    requires At(m.code, m.table, at, GenFor(stm, |env|, lp, at)) && ExprOk(stm.iterable, Shape(env) + [true])
    requires BlockOk(stm.body, Shape(env) + [true, false], true, true)
    requires BlockOk(stm.orElse, Shape(env) + [true, false], false, inLoop)
    requires LoopFits(lp, |env|, inBody, inLoop) && TargetsFit(stm, |env|, lp.count, at, near)
    ensures StmtRuns(m, State(Run, at, s, tr), env, lp, s, ExecFor(m.w, m.pool, stm, env, tr, fuel), 0,
                     at + |GenFor(stm, |env|, lp, at)|, near, fuel, t, base, above)
    decreases fuel, stm, 3
  {
    hide Execute, GenExpr, EvalExpr, GenBlock, ExecBlock, EmitJump, EmitOperand, Emit1, Reaches, Agrees, At, BlockOk;
    hide StmtDone, Ready, BlockSize, GenFor, ForLoop, ForBodyAt, Moved, GenPops, Shape, ExecRounds, ExprOk, TargetsFit, Lasts;
    var a := State(Run, at, s, tr);
    var end := at + |GenFor(stm, |env|, lp, at)|;
    var env1 := env + [Some(VNone)];
    ForParts(m.code, m.table, stm, |env|, lp, at);
    ReadyFacts(m, env, s);
    Stay(m, a);
    t := DoPush(m, a, a, NONE, VNone);
    DeclareLocal(m, env, s, VNone);
    var r := EvalExpr(m.w, m.pool, stm.iterable, env1, tr);
    t, base, above := RunAfter(m, a, stm.iterable, env1, s + [V(VNone)], env1, t);
    var o1 := Fail(EvalResult(r.env, t.tr, Err(if t.mode.Unwinding? then t.mode.exc else VNone)));
    if r.res.Err? {
      Failed(m, env1, lp, s + [V(VNone)], r, 0, t.ip, t.ip, t, base, above);
      base, above := ForFailed(m, env, lp, s, env1, VNone, o1, t.ip, end, t, base, above);
    } else {
      t := DoInvokeIter(m, a, t, base, r.res.v);
      var i := Act(m.w, Iterate(r.res.v), r.env, r.tr);
      o1 := Fail(EvalResult(r.env, t.tr, Err(if t.mode.Unwinding? then t.mode.exc else VNone)));
      if i.res.Err? {
        RaisedAbove(m, env1, lp, s + [V(VNone)], r.env, end, t, base, [V(r.res.v)]);
        base, above := ForFailed(m, env, lp, s, env1, VNone, o1, end, end, t, base, [V(r.res.v)]);
      } else {
        t, base, above := RunForIterator(m, a, stm, i.res.v, env, s, r.env, base, t, fuel, lp, inBody, inLoop, near, at);
      }
    }
  }

  /** The iterable could not be evaluated or iterated; the loop variable's slot is above the frame. */
  lemma ForFailed(m: Machine, env: Env, lp: Loop, s: seq<Slot>, env1: Env, v: Value, o: Outcome, end: int, end2: int,
                  t: State, base1: seq<Slot>, above1: seq<Slot>) returns (base: seq<Slot>, above: seq<Slot>)
    requires Ready(m, env, s) && env1 == env + [Some(v)] && lp.count <= |env|
    requires StmtDone(m, env1, lp, s + [V(v)], o, 0, end, t, base1, above1) && o.c.Raises?
    ensures StmtDone(m, env, lp, s, Leave(o, |env|), 0, end2, t, base, above)
  {
    hide Agrees, Moved;
    var s1 := s + [V(v)];
    NotMoved(m, env, s);
    assert env1[..|env|] == env && s1[..|s|] == s && Shape(env1)[|env|..] == Declared(1);
    MovedFacts(m, env1, s1, o.env[..|env1|], base1);
    NewLocals(m, |env|, env1, s1, o.env[..|env1|], base1);
    QuietValues(base1[|s|..], ForException);
    base, above := Narrowed(m, env, lp, s, env1, s1, o, end, end2, t, base1, above1);
  }

  lemma {:induction false} RunForIterator(m: Machine, a: State, stm: Stmt, it: Value, env: Env, s: seq<Slot>, env1: Env,
                                          s1: seq<Slot>, t1: State, fuel: nat, lp: Loop, inBody: bool, inLoop: bool, near: bool, at: nat)
    returns (t: State, base: seq<Slot>, above: seq<Slot>)
    requires stm.For? && Ready(m, env, s) && |env| + 2 < OPERAND_LIMIT && Reaches(m, a, t1)
    requires Moved(m, env + [Some(VNone)], s + [V(VNone)], env1, s1)
    requires t1.mode == Run && t1.ip == ForHead(stm, at) && t1.stack == s1 + [V(it)]
    requires At(m.code, m.table, at, GenFor(stm, |env|, lp, at))
    requires BlockOk(stm.body, Shape(env) + [true, false], true, true)
    requires BlockOk(stm.orElse, Shape(env) + [true, false], false, inLoop)
    requires LoopFits(lp, |env|, inBody, inLoop) && TargetsFit(stm, |env|, lp.count, at, near)
    ensures StmtRuns(m, a, env, lp, s, Leave(ExecRounds(m.w, m.pool, stm, it, env1 + [None], t1.tr, fuel), |env|), 0,
                     at + |GenFor(stm, |env|, lp, at)|, near, fuel, t, base, above)
    decreases fuel, stm, 2
  {
    hide Execute, GenExpr, GenBlock, EmitJump, EmitOperand, Emit1, Reaches, Agrees, At, BlockOk;
    hide StmtDone, Ready, BlockSize, GenFor, ForLoop, ForHead, ForBodyAt, Moved, GenPops, Shape, ExecRounds, TargetsFit, Lasts;
    var env2, s2 := env1 + [None], t1.stack;
    var end := at + |GenFor(stm, |env|, lp, at)|;
    ForParts(m.code, m.table, stm, |env|, lp, at);
    ReadyFacts(m, env, s);
    ForFrame(m, env, s, env1, s1, it);
    var o := ExecRounds(m.w, m.pool, stm, it, env2, t1.tr, fuel);
    t, base, above := RunRounds(m, a, stm, it, env2, s2, env2, t1, fuel, lp, inBody, inLoop, near, |env|, at);
    if o.OutOfFuel? {
    } else if o.c == Normal {
      t, base, above := NarrowedNormal(m, a, env, lp, s, env2, s2, o, end - 2, t, base, above);
    } else {
      ForSlots(m, lp, env2, s2, o, end - 2, t, base, above, |env|, it);
      QuietValues(base[|s|..], HuntOf(o.c));
      base, above := Narrowed(m, env, lp, s, env2, s2, o, end - 2, end, t, base, above);
    }
  }

  /** The frame with the loop variable and the iterator on top. */
  lemma ForFrame(m: Machine, env: Env, s: seq<Slot>, env1: Env, s1: seq<Slot>, it: Value)
    requires Ready(m, env, s) && Moved(m, env + [Some(VNone)], s + [V(VNone)], env1, s1)
    ensures var env2, s2 := env1 + [None], s1 + [V(it)];
      && Ready(m, env2, s2) && Moved(m, env2, s2, env2, s2) && Shape(env2) == Shape(env) + [true, false]
      && |env2| == |env| + 2 && |s2| == |s| + 2 && Moved(m, env, s, env2[..|env|], s2[..|s|])
      && env2[|env|].Some? && env2[|env| + 1].None? && s2[m.slots + |env| + 1] == V(it)
  {
    var env0, s0 := env + [Some(VNone)], s + [V(VNone)];
    assert env0[..|env|] == env && s0[..|s|] == s && (env1 + [None])[..|env|] == env1[..|env|];
    assert (s1 + [V(it)])[..|s|] == s1[..|s|];
    NotMoved(m, env, s);
    MovedNarrow(m, env, s, env0, s0, env1, s1);
    assert env0[|env|].Some?;
  }

  lemma ForSlots(m: Machine, lp: Loop, env: Env, s: seq<Slot>, o: Outcome, end: int, t: State, base: seq<Slot>, above: seq<Slot>,
                 depth: nat, it: Value)
    requires StmtDone(m, env, lp, s, o, 0, end, t, base, above) && |env| == depth + 2 && |s| == m.slots + |env|
    requires env[depth].Some? && env[depth + 1].None? && s[m.slots + depth + 1] == V(it)
    ensures |base| == |s| && AllValues(base[m.slots + depth..])
  {
    var env' := o.env[..|env|];
    IteratorSlot(m, env, s, env', base, depth, it);
    assert base[m.slots + depth] == V(env'[depth].value);
    var tail := base[m.slots + depth..];
    forall i | 0 <= i < |tail| ensures tail[i].V? {
    }
  }

  /** A value pushed on a complete frame is a new local. */
  lemma DeclareLocal(m: Machine, env: Env, s: seq<Slot>, v: Value)
    requires |s| == m.slots + |env| && Agrees(m, env, s)
    ensures Shape(env + [Some(v)]) == Shape(env) + [true] && Moved(m, env + [Some(v)], s + [V(v)], env + [Some(v)], s + [V(v)])
  {
  }

  // ----- try: the handler's states -----

  lemma DoPushTry(m: Machine, a: State, st: State, distance: int) returns (t: State)
    requires Reaches(m, a, st) && st.mode == Run && 0 <= st.ip && At(m.code, m.table, st.ip, EmitJump(PUSH_TRY, distance))
    requires st.ip + 3 + distance < 0x10000
    ensures distance >= 0 && Reaches(m, a, t)
    ensures t == State(Run, st.ip + 3, st.stack + [V(VNone), H(TryPushed, st.ip + 3 + distance)], st.tr)
  {
    hide Reaches, At, EmitJump;
    t := GoJump(m, a, st, PUSH_TRY, distance);
  }

  /** What a try pushes, and where an exception raised in it then goes: to the except part exactly if that lies in the
      first 65536 bytes, for a handler keeps 16 bits of its target. */
  lemma HandlerEntered(m: Machine, a: State, st: State, distance: int, x: Value) returns (t: State)
    requires Reaches(m, a, st) && st.mode == Run && 0 <= st.ip && At(m.code, m.table, st.ip, EmitJump(PUSH_TRY, distance))
    requires m.outSlots <= |st.stack|
    ensures distance >= 0
    ensures var pushed := st.stack + [V(VNone), H(TryPushed, (st.ip + 3 + distance) % 0x10000)];
      && Reaches(m, a, State(Run, st.ip + 3, pushed, st.tr))
      && t == Step(m, State(Unwinding(x), st.ip + 3, pushed, st.tr)) && t.mode == Run
      && t.stack == st.stack + [V(x), H(Raising, (st.ip + 3 + distance) % 0x10000)]
      && t.ip == (st.ip + 3 + distance) % 0x10000 && (t.ip == st.ip + 3 + distance <==> st.ip + 3 + distance < 0x10000)
  {
    hide Reaches, At, EmitJump;
    var pushed := GoJump(m, a, st, PUSH_TRY, distance);
    var raised := pushed.(mode := Unwinding(x));
    Stay(m, raised);
    t := Catch(m, raised, raised, st.stack, V(VNone), TryPushed, (st.ip + 3 + distance) % 0x10000, []);
  }

  lemma DoTryElse(m: Machine, a: State, st: State, base: seq<Slot>, tag: Tag, target: nat) returns (t: State)
    requires Reaches(m, a, st) && st.mode == Run && 0 <= st.ip && At(m.code, m.table, st.ip, Emit1(TRY_ELSE))
    requires st.stack == base + [H(tag, target)]
    ensures Reaches(m, a, t) && t == State(Run, st.ip + 1, base + [H(Filtered, target)], st.tr)
  {
    hide Reaches, At, Emit1;
    t := Go1(m, a, st, TRY_ELSE);
    assert Drop(st.stack, 1) == base;
  }

  lemma DoBeginFinally(m: Machine, a: State, st: State, base: seq<Slot>, tag: Tag, target: nat) returns (t: State)
    requires Reaches(m, a, st) && st.mode == Run && 0 <= st.ip && At(m.code, m.table, st.ip, Emit1(BEGIN_FINALLY))
    requires st.stack == base + [H(tag, target)]
    ensures Reaches(m, a, t) && t == State(Run, st.ip + 1, base + [H(EnterFinally(tag), target)], st.tr)
  {
    hide Reaches, At, Emit1, EnterFinally;
    t := Go1(m, a, st, BEGIN_FINALLY);
    assert Drop(st.stack, 1) == base;
  }

  lemma DoEndFinally(m: Machine, a: State, st: State) returns (t: State)
    requires Reaches(m, a, st) && st.mode == Run && 0 <= st.ip && At(m.code, m.table, st.ip, Emit1(END_FINALLY))
    requires |st.stack| >= 2 && Top(st.stack, 0).H?
    ensures Reaches(m, a, t) && t == EndFinally(m, st.(ip := st.ip + 1))
  {
    hide Reaches, At, Emit1, EndFinally;
    t := Go1(m, a, st, END_FINALLY);
  }

  lemma DoEnterExcept(m: Machine, a: State, st: State, distance: int, base: seq<Slot>, v: Value, tag: Tag, target: nat)
    returns (t: State)
    requires Reaches(m, a, st) && st.mode == Run && 0 <= st.ip && At(m.code, m.table, st.ip, EmitJump(ENTER_EXCEPT, distance))
    requires st.stack == base + [V(v), H(tag, target)]
    ensures Reaches(m, a, t)
    ensures tag in {Returned, InFinallyRaising, LoopExit} ==> t == st.(ip := st.ip + 3 + distance)
    ensures tag == Raising ==> t == st.(ip := st.ip + 3)
    ensures tag == RaisedInFinally ==> t == State(Unwinding(v), st.ip + 3, base, st.tr)
  {
    hide Reaches, At, EmitJump;
    t := GoJump(m, a, st, ENTER_EXCEPT, distance);
    assert Drop(st.stack, 2) == base;
  }

  lemma DoFilter(m: Machine, a: State, st: State, distance: int, base: seq<Slot>, exc: Value, target: nat, filter: Value)
    returns (t: State)
    requires Reaches(m, a, st) && st.mode == Run && 0 <= st.ip && At(m.code, m.table, st.ip, EmitJump(FILTER_EXCEPT, distance))
    requires st.stack == base + [V(exc), H(Raising, target), V(filter)]
    ensures Reaches(m, a, t)
    ensures t == if Matches(m.w, filter, exc) then State(Run, st.ip + 3, base + [V(exc), H(Filtered, target)], st.tr)
                 else State(Run, st.ip + 3 + distance, base + [V(exc), H(Raising, target)], st.tr)
  {
    hide Reaches, At, EmitJump, Matches;
    t := GoJump(m, a, st, FILTER_EXCEPT, distance);
    assert Drop(st.stack, 2) == base + [V(exc)];
    assert Drop(st.stack, 1) == base + [V(exc), H(Raising, target)];
  }

  /** What a try's two slots say about the completion `c` that is to resume after its `finally`. */
  ghost predicate Pending(m: Machine, lp: Loop, c: Completion, saved: Slot, h: Slot, entry: nat, begun: bool) {
    saved.V? && h.H? &&
    match c
    case Normal => h.target == entry && h.tag in if begun then {InFinally} else {TryPushed, Filtered}
    case Raises(x) =>
      saved.v == x && h.target == entry && h.tag in if begun then {InFinallyRaising} else {Raising, InFinallyRaising}
    case Returns(v) => saved.v == v && h.tag == Returned
    case Breaks =>
      saved.v == VInt(lp.count) && h.tag == LoopExit && h.target < 0x10000 && lp.brk.Some? && JumpsTo(m, h.target, lp.brk.value)
    case Continues =>
      saved.v == VInt(lp.count) && h.tag == LoopExit && h.target < 0x10000 && lp.cont.Some? && JumpsTo(m, h.target, lp.cont.value)
  }

  /** An exception reaches the handler just below the temporaries. */
  lemma Catch(m: Machine, a: State, st: State, base: seq<Slot>, saved: Slot, tag: Tag, entry: nat, above: seq<Slot>)
    returns (t: State)
    requires Reaches(m, a, st) && st.mode.Unwinding? && st.stack == base + [saved, H(tag, entry)] + above
    requires Quiet(above, ForException) && m.outSlots <= |base|
    requires tag in {TryPushed, Filtered, Raising, InFinallyRaising}
    ensures Reaches(m, a, t)
    ensures t == State(Run, entry, base + [V(st.mode.exc), H(CaughtTag(tag), entry)], st.tr)
  {
    hide Reaches, Quiet;
    var s1 := base + [saved, H(tag, entry)];
    FindBelow(s1, above, m.outSlots, ForException);
    assert FindHandler(s1, m.outSlots, ForException) == Some(|base| + 1);
    t := Step(m, st);
    One(m, st);
    Then(m, a, st, t);
    assert st.stack[..|base|] == base;
  }

  /** A `return` or a loop exit on its way out reaches a try that has not entered its `finally`. */
  lemma CatchExit(m: Machine, a: State, st: State, lp: Loop, c: Completion, base: seq<Slot>, saved: Slot, tag: Tag, entry: nat,
                  above: seq<Slot>)
    returns (t: State, saved': Slot, h: Slot)
    requires Reaches(m, a, st) && st.stack == base + [saved, H(tag, entry)] + above
    requires Quiet(above, ForReturn) && m.slots + lp.count <= |base| && tag in {TryPushed, Filtered} && ShortExit(c, st)
    requires match c
      case Returns(v) => st.mode == Leaving(v)
      case Breaks => st.mode == Popping(lp.count) && lp.brk.Some? && JumpsTo(m, st.ip, lp.brk.value)
      case Continues => st.mode == Popping(lp.count) && lp.cont.Some? && JumpsTo(m, st.ip, lp.cont.value)
      case _ => false
    ensures Reaches(m, a, t) && t == State(Run, entry, base + [saved', h], st.tr)
    ensures Pending(m, lp, c, saved', h, entry, false) && h.tag in {Returned, LoopExit}
  {
    hide Reaches, Quiet, Fetch;
    var s1 := base + [saved, H(tag, entry)];
    var floor := if c.Returns? then m.slots else m.slots + lp.count;
    FindBelow(s1, above, floor, ForReturn);
    assert FindHandler(s1, floor, ForReturn) == Some(|base| + 1);
    t := Step(m, st);
    One(m, st);
    Then(m, a, st, t);
    assert st.stack[..|base|] == base;
    saved', h := t.stack[|base|], t.stack[|base| + 1];
  }

  /** A completion other than a normal end inside a try (its body, an except or its else) goes to the handler's
      entry with its tag saying what is pending. */
  lemma Caught(m: Machine, a: State, env1: Env, lp: Loop, s1: seq<Slot>, o: Outcome, end: int, t1: State,
               base1: seq<Slot>, above1: seq<Slot>, base: seq<Slot>, slot: Slot, tag: Tag, entry: nat)
    returns (t: State, saved: Slot, h: Slot)
    requires Reaches(m, a, t1) && StmtDone(m, env1, lp, s1, o, 0, end, t1, base1, above1) && o.c != Normal && ShortExit(o.c, t1)
    requires base1 == base + [slot, H(tag, entry)] && tag in {TryPushed, Filtered}
    requires m.outSlots <= m.slots && m.slots + lp.count <= |base| && lp.count < |env1|
    ensures Reaches(m, a, t) && t == State(Run, entry, base + [saved, h], o.tr)
    ensures Pending(m, lp, o.c, saved, h, entry, false)
    ensures o.c.Raises? ==> h.tag == if tag == TryPushed then Raising else InFinallyRaising
    ensures !o.c.Raises? ==> h.tag in {Returned, LoopExit}
  {
    hide Reaches, Quiet, Moved, Agrees, JumpsTo;
    if o.c.Raises? {
      t := Catch(m, a, t1, base, slot, tag, entry, above1);
      saved, h := V(o.c.exc), H(CaughtTag(tag), entry);
    } else {
      t, saved, h := CatchExit(m, a, t1, lp, o.c, base, slot, tag, entry, above1);
    }
  }

  /** From the handler's entry on to the `finally`. */
  lemma ToFinally(m: Machine, a: State, st: State, lp: Loop, c: Completion, base: seq<Slot>, saved: Slot, h: Slot, entry: nat, distance: int)
    returns (t: State)
    requires Reaches(m, a, st) && st == State(Run, entry, base + [saved, h], st.tr) && Pending(m, lp, c, saved, h, entry, false)
    requires h.tag in {Returned, InFinallyRaising, LoopExit}
    requires At(m.code, m.table, entry, EmitJump(ENTER_EXCEPT, distance))
    ensures Reaches(m, a, t) && t == st.(ip := entry + 3 + distance)
  {
    hide Reaches, At, EmitJump, JumpsTo;
    t := DoEnterExcept(m, a, st, distance, base, saved.v, h.tag, h.target);
  }

  /** The frame inside a try: its two slots are above the enclosing frame. */
  lemma TryFrame(m: Machine, env: Env, s: seq<Slot>, env1: Env, base1: seq<Slot>, x: Option<Value>, slot: Slot, h: Slot)
    requires Ready(m, env, s) && Moved(m, env, s, env1, base1) && (x.Some? ==> slot == V(x.value))
    ensures var env2, s2 := env1 + [x, None], base1 + [slot, h];
      && Ready(m, env2, s2) && Shape(env2) == Shape(env) + [x.Some?, false] && |env2| == |env| + 2
      && env2[..|env|] == env1 && s2[..|s|] == base1
  {
  }

  /** ... and after a block inside it. */
  lemma TryFrameAfter(m: Machine, env: Env, s: seq<Slot>, env1: Env, base1: seq<Slot>, x: Option<Value>, slot: Slot, h: Slot,
                      env3: Env, base3: seq<Slot>) returns (base: seq<Slot>, slot': Slot)
    requires Ready(m, env, s) && Moved(m, env, s, env1, base1) && (x.Some? ==> slot == V(x.value))
    requires Moved(m, env1 + [x, None], base1 + [slot, h], env3, base3)
    ensures |env| <= |env3| && base3 == base + [slot', h] && Moved(m, env, s, env3[..|env|], base)
    ensures slot.V? ==> slot'.V?
    ensures x.None? ==> slot' == slot
  {
    hide Agrees;
    var env2, s2 := env1 + [x, None], base1 + [slot, h];
    TryFrame(m, env, s, env1, base1, x, slot, h);
    MovedNarrow(m, env, s, env2, s2, env3, base3);
    base, slot' := base3[..|s|], base3[|s|];
    assert !IsVariable(m, env2, |s| + 1);
    TrySlot(m, env2, s2, env3, base3, |s|);
    assert base3 == base + [slot', h];
  }

  lemma TrySlot(m: Machine, env: Env, s: seq<Slot>, env': Env, s': seq<Slot>, i: nat)
    requires Moved(m, env, s, env', s') && i < |s|
    ensures s[i].V? ==> s'[i].V?
    ensures !IsVariable(m, env, i) ==> s'[i] == s[i]
  {
    if IsVariable(m, env, i) {
      assert env'[i - m.slots].Some?;
    }
  }

  /** Arrived at the `finally` with what is pending in the try's slots. */
  ghost predicate BeforeFinally(m: Machine, lp: Loop, env: Env, s: seq<Slot>, o: Outcome, at: int, entry: nat,
                                t: State, base: seq<Slot>, saved: Slot, h: Slot)
  {
    && o.Done? && |o.env| == |env| && t == State(Run, at, base + [saved, h], o.tr)
    && Moved(m, env, s, o.env, base) && Pending(m, lp, o.c, saved, h, entry, false)
  }

  /** The same, unless the fuel runs out on the way. */
  ghost predicate ArmRuns(m: Machine, a: State, lp: Loop, env: Env, s: seq<Slot>, o: Outcome, at: int, entry: nat, fuel: nat,
                          t: State, base: seq<Slot>, saved: Slot, h: Slot)
  {
    if o.OutOfFuel? then Lasts(m, a, fuel)
    else Reaches(m, a, t) && BeforeFinally(m, lp, env, s, o, at, entry, t, base, saved, h)
  }

  /** A try body, an except block or an else block: a normal end stays at its end, any other completion is at
      the handler's entry. */
  lemma {:induction false} RunArm(m: Machine, a: State, blk: Stmt, env: Env, s: seq<Slot>, env1: Env, base1: seq<Slot>,
                                  x: Option<Value>, slot: Slot, tag: Tag, entry: nat, t1: State,
                                  fuel: nat, lp: Loop, inBody: bool, inLoop: bool)
    returns (t: State, base: seq<Slot>, saved: Slot, h: Slot)
    requires Ready(m, env, s) && Moved(m, env, s, env1, base1) && (x.Some? ==> slot == V(x.value)) && slot.V?
    requires Reaches(m, a, t1) && t1 == State(Run, t1.ip, base1 + [slot, H(tag, entry)], t1.tr) && 0 <= t1.ip
    requires tag in {TryPushed, Filtered} && BlockOk(blk, Shape(env) + [x.Some?, false], inBody, inLoop)
    requires At(m.code, m.table, t1.ip, GenBlock(blk, |env| + 2, lp, t1.ip))
    requires LoopFits(lp, |env|, inBody, inLoop) && TargetsFit(blk, |env| + 2, lp.count, t1.ip, true)
    ensures var o := Leave(ExecBlock(m.w, m.pool, blk, env1 + [x, None], t1.tr, fuel), |env|);
      var end := t1.ip + |GenBlock(blk, |env| + 2, lp, t1.ip)|;
      && ArmRuns(m, a, lp, env, s, o, if o.Done? && o.c == Normal then end else entry, entry, fuel, t, base, saved, h)
      && (o.Done? && o.c == Normal ==> h == H(tag, entry))
      && (o.Done? && o.c != Normal ==>
            h.H? && h.tag == if o.c.Raises? then if tag == TryPushed then Raising else InFinallyRaising
                             else if o.c.Returns? then Returned else LoopExit)
    decreases fuel, blk, 7
  {
    hide GenBlock, ExecBlock, Reaches, Agrees, Moved, At, BlockOk, Ready, JumpsTo, TargetsFit, Lasts;
    var env2 := env1 + [x, None];
    TryFrame(m, env, s, env1, base1, x, slot, H(tag, entry));
    ReadyFacts(m, env, s);
    MovedFacts(m, env, s, env1, base1);
    var o := ExecBlock(m.w, m.pool, blk, env2, t1.tr, fuel);
    var end := t1.ip + |GenBlock(blk, |env| + 2, lp, t1.ip)|;
    var base3, above3;
    t, base3, above3 := RunBlock(m, blk, env2, t1.tr, fuel, lp, inBody, inLoop, true, t1.ip, t1.stack);
    base, saved, h := base1, slot, H(tag, entry);
    if o.OutOfFuel? {
      LastsAfter(m, a, t1, fuel);
    } else {
      Then(m, a, t1, t);
      base, saved := TryFrameAfter(m, env, s, env1, base1, x, slot, H(tag, entry), o.env[..|env2|], base3);
      assert o.env[..|env2|][..|env|] == o.env[..|env|];
      MovedFacts(m, env, s, o.env[..|env|], base);
      if o.c == Normal {
        assert base3 + above3 == base3;
      } else {
        t, saved, h := Caught(m, a, env2, lp, t1.stack, o, end, t, base3, above3, base, saved, tag, entry);
      }
    }
  }

  // ----- try: the arms -----

  lemma {:induction false} RunFilter(m: Machine, a: State, f: Option<Expr>, env: Env, s: seq<Slot>, env1: Env,
                                     base1: seq<Slot>, exc: Value, entry: nat, t1: State)
    returns (t: State, base: seq<Slot>, above: seq<Slot>)
    requires Ready(m, env, s) && Moved(m, env, s, env1, base1) && Reaches(m, a, t1) && 0 <= t1.ip
    requires t1 == State(Run, t1.ip, base1 + [V(exc), H(Raising, entry)], t1.tr) && At(m.code, m.table, t1.ip, GenFilter(f))
    requires f.Some? ==> ExprOk(f.value, Shape(env) + [false, false])
    ensures var r := EvalFilter(m.w, m.pool, f, env1 + [None, None], t1.tr);
      && |env| <= |r.env| && t.tr == r.tr && Moved(m, env, s, r.env[..|env|], base)
      && match r.res
         case Ok(v) => t == State(Run, t1.ip + |GenFilter(f)|, base + [V(exc), H(Raising, entry), V(v)], r.tr)
         case Err(x) =>
           t.mode == Unwinding(x) && t.stack == base + [V(exc), H(Raising, entry)] + above && AllValues(above)
    ensures Reaches(m, a, t)
  {
    hide GenExpr, EvalExpr, Reaches, Agrees, Moved, At, ExprOk, Ready, Emit1;
    var env2, s2 := env1 + [None, None], t1.stack;
    TryFrame(m, env, s, env1, base1, None, V(exc), H(Raising, entry));
    ReadyFacts(m, env, s);
    ReadyFacts(m, env2, s2);
    NotMoved(m, env2, s2);
    var base3;
    if f.None? {
      t := DoPush(m, a, t1, NONE, VNone);
      base3, above := s2, [V(VNone)];
    } else {
      t, base3, above := RunAfter(m, a, f.value, env2, s2, env2, t1);
    }
    var r := EvalFilter(m.w, m.pool, f, env2, t1.tr);
    MovedFacts(m, env2, s2, r.env, base3);
    var slot;
    base, slot := TryFrameAfter(m, env, s, env1, base1, None, V(exc), H(Raising, entry), r.env, base3);
    assert r.res.Ok? ==> t.stack == base + [V(exc), H(Raising, entry), V(r.res.v)];
  }

  /** The except clauses on an exception: whatever becomes of it is pending when `finally` is reached. */
  lemma {:induction false} RunHandlers(m: Machine, a: State, hs: Handlers, exc: Value, env: Env, s: seq<Slot>, env1: Env,
                                       base1: seq<Slot>, entry: nat, t1: State, tail: nat, fin: nat,
                                       fuel: nat, lp: Loop, inBody: bool, inLoop: bool)
    returns (t: State, base: seq<Slot>, saved: Slot, h: Slot)
    requires Ready(m, env, s) && Moved(m, env, s, env1, base1) && Reaches(m, a, t1) && 0 <= t1.ip
    requires t1 == State(Run, t1.ip, base1 + [V(exc), H(Raising, entry)], t1.tr)
    requires hs.NoHandler? ==> t1.ip == fin
    requires hs.Handler? ==> At(m.code, m.table, t1.ip, GenHandlers(hs, |env|, lp, t1.ip, tail))
                             && t1.ip + |GenHandlers(hs, |env|, lp, t1.ip, tail)| + tail == fin
    requires HandlersOk(hs, Shape(env), inBody, inLoop) && LoopFits(lp, |env|, inBody, inLoop)
    requires hs.Handler? ==> HandlersFit(hs, |env|, lp.count, t1.ip)
    requires entry + 3 <= fin && At(m.code, m.table, entry, EmitJump(ENTER_EXCEPT, fin - entry - 3))
    ensures ArmRuns(m, a, lp, env, s, ExecHandlers(m.w, m.pool, hs, exc, env1, t1.tr, fuel), fin, entry, fuel, t, base, saved, h)
    decreases fuel, hs, 8
  {
    hide GenExpr, EvalExpr, EvalFilter, GenBlock, GenFilter, ExecBlock, EmitJump, Reaches, Agrees, Moved, At, ExprOk;
    hide BlockOk, Ready, JumpsTo, BlockSize, HandlersSize, Matches, Shape, TargetsFit, Lasts;
    ReadyFacts(m, env, s);
    MovedFacts(m, env, s, env1, base1);
    match hs
    case NoHandler => t, base, saved, h := t1, base1, V(exc), H(Raising, entry);
    case Handler(f, named, body, more) =>
      var r := EvalFilter(m.w, m.pool, f, env1 + [None, None], t1.tr);
      var at1 := t1.ip + |GenFilter(f)| + 3;
      var size := BlockSize(body, |env| + 2, lp.count);
      HandlerParts(m.code, m.table, hs, |env|, lp, t1.ip, tail);
      var above;
      t, base, above := RunFilter(m, a, f, env, s, env1, base1, exc, entry, t1);
      var outer := r.env[..|env|];
      MovedFacts(m, env, s, outer, base);
      if r.res.Err? {
        QuietValues(above, ForException);
        t := Catch(m, a, t, base, V(exc), Raising, entry, above);
        saved, h := V(r.res.exc), H(InFinallyRaising, entry);
        t := ToFinally(m, a, t, lp, Raises(r.res.exc), base, saved, h, entry, fin - entry - 3);
      } else {
        var distance := size + 3 + if more.NoHandler? then tail else 0;
        t := DoFilter(m, a, t, distance, base, exc, entry, r.res.v);
        if Matches(m.w, r.res.v, exc) {
          var x := if named then Some(exc) else None;
          var o := Leave(ExecBlock(m.w, m.pool, body, outer + [x, None], t.tr, fuel), |env|);
          t, base, saved, h := RunArm(m, a, body, env, s, outer, base, x, V(exc), Filtered, entry, t, fuel, lp, inBody, inLoop);
          if o.OutOfFuel? {
          } else if o.c == Normal {
            t := DoJump(m, a, t, fin - at1 - size - 3);
          } else {
            t := ToFinally(m, a, t, lp, o.c, base, saved, h, entry, fin - entry - 3);
          }
        } else {
          t, base, saved, h := RunHandlers(m, a, more, exc, env, s, outer, base, entry, t, tail, fin, fuel, lp, inBody, inLoop);
        }
      }
  }

  lemma HandlerParts(code: Code, table: seq<Overlong>, hs: Handlers, depth: nat, lp: Loop, at: nat, tail: nat)
    requires hs.Handler? && At(code, table, at, GenHandlers(hs, depth, lp, at, tail))
    ensures var size := BlockSize(hs.body, depth + 2, lp.count);
      var at1 := at + |GenFilter(hs.filter)| + 3;
      && At(code, table, at, GenFilter(hs.filter))
      && At(code, table, at1 - 3, EmitJump(FILTER_EXCEPT, size + 3 + if hs.more.NoHandler? then tail else 0))
      && At(code, table, at1, GenBlock(hs.body, depth + 2, lp, at1)) && |GenBlock(hs.body, depth + 2, lp, at1)| == size
      && At(code, table, at1 + size, EmitJump(JUMP, |GenHandlers(hs.more, depth, lp, at1 + size + 3, tail)| + tail))
      && At(code, table, at1 + size + 3, GenHandlers(hs.more, depth, lp, at1 + size + 3, tail))
      && at + |GenHandlers(hs, depth, lp, at, tail)| == at1 + size + 3 + |GenHandlers(hs.more, depth, lp, at1 + size + 3, tail)|
      && (hs.more.NoHandler? ==> |GenHandlers(hs.more, depth, lp, at1 + size + 3, tail)| == 0)
  {
    hide GenExpr, GenBlock, GenFilter, EmitJump, At, BlockSize;
    var size := BlockSize(hs.body, depth + 2, lp.count);
    var at1 := at + |GenFilter(hs.filter)| + 3;
    var next := at1 + size + 3;
    var block := GenBlock(hs.body, depth + 2, lp, at1);
    var rest := GenHandlers(hs.more, depth, lp, next, tail);
    BlockLength(hs.body, depth + 2, lp, at1);
    HandlersLength(hs.more, depth, lp, next, tail);
    var test := EmitJump(FILTER_EXCEPT, size + 3 + if hs.more.NoHandler? then tail else 0);
    var over := EmitJump(JUMP, HandlersSize(hs.more, depth, lp.count) + tail);
    AtSplit3(code, table, at, GenFilter(hs.filter), test, block + (over + rest));
    AtSplit3(code, table, at1, block, over, rest);
  }

  /** Where the parts of a try are: its handler's entry, the except clauses, the else and the finally. */
  datatype TryPlan = TryPlan(entry: nat, handlers: nat, els: nat, fin: nat)

  function PlanOf(stm: Stmt, depth: nat, lp: Loop, at: nat): TryPlan
    requires stm.Try?
  {
    var handlers := at + 9 + BlockSize(stm.body, depth + 2, lp.count);
    var els := handlers + HandlersSize(stm.handlers, depth, lp.count);
    TryPlan(handlers - 3, handlers, els, els + ElseSize(stm.els, depth, lp.count))
  }

  lemma TryParts(code: Code, table: seq<Overlong>, stm: Stmt, depth: nat, lp: Loop, at: nat)
    requires stm.Try? && At(code, table, at, GenTry(stm, depth, lp, at))
    ensures var p := PlanOf(stm, depth, lp, at);
      && At(code, table, at, EmitJump(PUSH_TRY, p.entry - at - 3))
      && At(code, table, at + 3, GenBlock(stm.body, depth + 2, lp, at + 3))
      && at + 3 + |GenBlock(stm.body, depth + 2, lp, at + 3)| + 3 == p.entry
      && At(code, table, p.entry - 3, EmitJump(JUMP, p.els - p.entry))
      && At(code, table, p.entry, EmitJump(ENTER_EXCEPT, p.fin - p.entry - 3))
      && At(code, table, p.handlers, GenHandlers(stm.handlers, depth, lp, p.handlers, p.fin - p.els))
      && |GenHandlers(stm.handlers, depth, lp, p.handlers, p.fin - p.els)| == p.els - p.handlers
      && At(code, table, p.els, GenElse(stm.els, depth, lp, p.els)) && |GenElse(stm.els, depth, lp, p.els)| == p.fin - p.els
      && At(code, table, p.fin, GenFinally(stm.fin, depth, lp, p.fin))
      && p.fin + |GenFinally(stm.fin, depth, lp, p.fin)| == at + |GenTry(stm, depth, lp, at)|
      && at + 6 <= p.entry && p.entry + 3 == p.handlers <= p.els <= p.fin
      && (stm.handlers.NoHandler? ==> p.els == p.handlers) && (stm.els.None? ==> p.fin == p.els)
  {
    hide GenBlock, EmitJump, At, BlockSize, GenElse, GenFinally, GenHandlers;
    var p := PlanOf(stm, depth, lp, at);
    var body := GenBlock(stm.body, depth + 2, lp, at + 3);
    var handlers := GenHandlers(stm.handlers, depth, lp, p.handlers, p.fin - p.els);
    var els, fin := GenElse(stm.els, depth, lp, p.els), GenFinally(stm.fin, depth, lp, p.fin);
    BlockLength(stm.body, depth + 2, lp, at + 3);
    HandlersLength(stm.handlers, depth, lp, p.handlers, p.fin - p.els);
    ElseLength(stm.els, depth, lp, p.els);
    var push, over := EmitJump(PUSH_TRY, p.entry - at - 3), EmitJump(JUMP, p.els - p.entry);
    var enter := EmitJump(ENTER_EXCEPT, p.fin - p.entry - 3);
    AtSplit6(code, table, at, push, body, over, enter, handlers, els + fin);
    AtSplit(code, table, p.els, els, fin);
  }

  lemma {:induction false} RunElse(m: Machine, a: State, els: Stmt, env: Env, s: seq<Slot>, env1: Env, base1: seq<Slot>,
                                   slot: Slot, entry: nat, t1: State, fin: nat, fuel: nat, lp: Loop, inBody: bool, inLoop: bool)
    returns (t: State, base: seq<Slot>, saved: Slot, h: Slot)
    requires Ready(m, env, s) && Moved(m, env, s, env1, base1) && Reaches(m, a, t1) && 0 <= t1.ip
    requires t1 == State(Run, t1.ip, base1 + [slot, H(TryPushed, entry)], t1.tr) && slot.V?
    requires At(m.code, m.table, t1.ip, GenElse(Some(els), |env|, lp, t1.ip)) && BlockOk(els, Shape(env) + [false, false], inBody, inLoop)
    requires t1.ip + |GenElse(Some(els), |env|, lp, t1.ip)| == fin && LoopFits(lp, |env|, inBody, inLoop)
    requires TargetsFit(els, |env| + 2, lp.count, t1.ip + 1, true)
    requires entry + 3 <= fin && At(m.code, m.table, entry, EmitJump(ENTER_EXCEPT, fin - entry - 3))
    ensures ArmRuns(m, a, lp, env, s, Leave(ExecBlock(m.w, m.pool, els, env1 + [None, None], t1.tr, fuel), |env|),
                    fin, entry, fuel, t, base, saved, h)
    decreases fuel, els, 8
  {
    hide GenBlock, ExecBlock, EmitJump, Reaches, Agrees, Moved, At, BlockOk, Ready, JumpsTo, Shape, Emit1, TargetsFit, Lasts;
    AtSplit(m.code, m.table, t1.ip, Emit1(TRY_ELSE), GenBlock(els, |env| + 2, lp, t1.ip + 1));
    ReadyFacts(m, env, s);
    assert base1 + [slot, H(TryPushed, entry)] == (base1 + [slot]) + [H(TryPushed, entry)];
    t := DoTryElse(m, a, t1, base1 + [slot], TryPushed, entry);
    assert t.stack == base1 + [slot, H(Filtered, entry)];
    var o := Leave(ExecBlock(m.w, m.pool, els, env1 + [None, None], t.tr, fuel), |env|);
    t, base, saved, h := RunArm(m, a, els, env, s, env1, base1, None, slot, Filtered, entry, t, fuel, lp, inBody, inLoop);
    if o.Done? && o.c != Normal {
      t := ToFinally(m, a, t, lp, o.c, base, saved, h, entry, fin - entry - 3);
    }
  }

  lemma {:induction false} RunProtected(m: Machine, stm: Stmt, env: Env, tr: Trace, fuel: nat, lp: Loop,
                                        inBody: bool, inLoop: bool, near: bool, at: nat, s: seq<Slot>)
    returns (t: State, base: seq<Slot>, saved: Slot, h: Slot)
    requires stm.Try? && Ready(m, env, s) && At(m.code, m.table, at, GenTry(stm, |env|, lp, at))
    requires BlockOk(stm.body, Shape(env) + [false, false], inBody, inLoop)
    requires HandlersOk(stm.handlers, Shape(env), inBody, inLoop)
    requires stm.els.Some? ==> stm.handlers.Handler? && BlockOk(stm.els.value, Shape(env) + [false, false], inBody, inLoop)
    requires LoopFits(lp, |env|, inBody, inLoop) && TargetsFit(stm, |env|, lp.count, at, near)
    ensures var p := PlanOf(stm, |env|, lp, at);
      ArmRuns(m, State(Run, at, s, tr), lp, env, s, ExecProtected(m.w, m.pool, stm, env, tr, fuel), p.fin, p.entry, fuel,
              t, base, saved, h)
    decreases fuel, stm, 0
  {
    hide GenBlock, GenElse, GenHandlers, ExecBlock, ExecHandlers, EmitJump, Reaches, Agrees, Moved, At, BlockOk, HandlersOk;
    hide Ready, JumpsTo, BlockSize, HandlersSize, ElseSize, GenTry, Shape, PlanOf, GenFinally, TargetsFit, HandlersFit, Lasts;
    var a := State(Run, at, s, tr);
    var p := PlanOf(stm, |env|, lp, at);
    TryParts(m.code, m.table, stm, |env|, lp, at);
    TryTargets(stm, |env|, lp, at, near);
    ReadyFacts(m, env, s);
    Stay(m, a);
    NotMoved(m, env, s);
    t := DoPushTry(m, a, a, p.entry - at - 3);
    var o := Leave(ExecBlock(m.w, m.pool, stm.body, env + [None, None], tr, fuel), |env|);
    t, base, saved, h := RunArm(m, a, stm.body, env, s, env, s, None, V(VNone), TryPushed, p.entry, t, fuel, lp, inBody, inLoop);
    if o.OutOfFuel? {
      return;
    }
    MovedFacts(m, env, s, o.env, base);
    if o.c == Normal {
      t := DoJump(m, a, t, p.els - p.entry);
      if stm.els.Some? {
        t, base, saved, h := RunElse(m, a, stm.els.value, env, s, o.env, base, saved, p.entry, t, p.fin, fuel, lp, inBody, inLoop);
      }
    } else if o.c.Raises? {
      t := DoEnterExcept(m, a, t, p.fin - p.entry - 3, base, o.c.exc, Raising, p.entry);
      t, base, saved, h := RunHandlers(m, a, stm.handlers, o.c.exc, env, s, o.env, base, p.entry, t, p.fin - p.els, p.fin,
                                       fuel, lp, inBody, inLoop);
    } else {
      t := ToFinally(m, a, t, lp, o.c, base, saved, h, p.entry, p.fin - p.entry - 3);
    }
  }

  lemma TryTargets(stm: Stmt, depth: nat, lp: Loop, at: nat, near: bool)
    requires stm.Try? && TargetsFit(stm, depth, lp.count, at, near)
    ensures var p := PlanOf(stm, depth, lp, at);
      && p.entry < 0x10000 && TargetsFit(stm.body, depth + 2, lp.count, at + 3, true)
      && HandlersFit(stm.handlers, depth, lp.count, p.handlers)
      && (stm.els.Some? ==> TargetsFit(stm.els.value, depth + 2, lp.count, p.els + 1, true))
      && TargetsFit(stm.fin, depth + 2, lp.count, p.fin + 1, near)
  {
    hide GenExpr, BlockSize, HandlersSize, HandlersFit, ElseSize, GenExit, StmtSize;
  }

  // ----- try: neither except nor finally -----

  lemma BareTryParts(code: Code, table: seq<Overlong>, stm: Stmt, depth: nat, lp: Loop, at: nat)
    requires stm.BareTry? && At(code, table, at, GenBareTry(stm, depth, lp, at))
    ensures var body := GenBlock(stm.body, depth + 2, lp, at + 3);
      var entry := at + 3 + |body| + 3;
      && |body| == BlockSize(stm.body, depth + 2, lp.count)
      && At(code, table, at, EmitJump(PUSH_TRY, |body| + 3)) && At(code, table, at + 3, body)
      && At(code, table, entry - 3, EmitJump(JUMP, 3)) && At(code, table, entry, EmitJump(ENTER_EXCEPT, 0))
      && At(code, table, entry + 3, GenPops(2)) && entry + 3 + |GenPops(2)| == at + |GenBareTry(stm, depth, lp, at)|
  {
    hide GenBlock, EmitJump, At, BlockSize, GenPops;
    BlockLength(stm.body, depth + 2, lp, at + 3);
    var body := GenBlock(stm.body, depth + 2, lp, at + 3);
    var push, over, enter := EmitJump(PUSH_TRY, |body| + 3), EmitJump(JUMP, 3), EmitJump(ENTER_EXCEPT, 0);
    AtSplit3(code, table, at, push, body, over + (enter + GenPops(2)));
    AtSplit3(code, table, at + 3 + |body|, over, enter, GenPops(2));
  }

  /** Whatever the body ends in, the handler's entry leads on to the pops. */
  lemma {:induction false} RunBareTry(m: Machine, stm: Stmt, env: Env, tr: Trace, fuel: nat, lp: Loop,
                                      inBody: bool, inLoop: bool, near: bool, at: nat, s: seq<Slot>)
    returns (t: State, base: seq<Slot>, above: seq<Slot>)
    requires stm.BareTry? && Ready(m, env, s) && At(m.code, m.table, at, GenBareTry(stm, |env|, lp, at))
    requires BlockOk(stm.body, Shape(env) + [false, false], inBody, inLoop)
    requires LoopFits(lp, |env|, inBody, inLoop) && TargetsFit(stm, |env|, lp.count, at, near)
    ensures StmtRuns(m, State(Run, at, s, tr), env, lp, s, ExecBareTry(m.w, m.pool, stm, env, tr, fuel), 0,
                     at + |GenBareTry(stm, |env|, lp, at)|, near, fuel, t, base, above)
    decreases fuel, stm, 0
  {
    hide GenBlock, ExecBlock, EmitJump, Reaches, Agrees, Moved, At, BlockOk, Ready, JumpsTo, BlockSize, GenBareTry, Shape, Lasts;
    var a := State(Run, at, s, tr);
    BareTryParts(m.code, m.table, stm, |env|, lp, at);
    ReadyFacts(m, env, s);
    Stay(m, a);
    NotMoved(m, env, s);
    var entry := at + 6 + BlockSize(stm.body, |env| + 2, lp.count);
    t := DoPushTry(m, a, a, entry - at - 3);
    var o := ExecUnguarded(m.w, m.pool, stm, env, tr, fuel);
    var saved, h;
    t, base, saved, h := RunArm(m, a, stm.body, env, s, env, s, None, V(VNone), TryPushed, entry, t, fuel, lp, inBody, inLoop);
    above := [];
    if o.Done? {
      if o.c == Normal {
        t := DoJump(m, a, t, 3);
      } else {
        t := DoEnterExcept(m, a, t, 0, base, saved.v, h.tag, h.target);
      }
      t := DoPops(m, a, t, 2, base, [saved, h]);
      Settled(m, env, lp, s, o.env, t, base);
    }
  }

  // ----- try: the finally -----

  lemma BeginPending(m: Machine, lp: Loop, c: Completion, saved: Slot, h: Slot, entry: nat) returns (h2: Slot)
    requires Pending(m, lp, c, saved, h, entry, false)
    ensures h.H? && h2 == H(EnterFinally(h.tag), h.target) && Pending(m, lp, c, saved, h2, entry, true)
  {
    hide JumpsTo;
    h2 := H(EnterFinally(h.tag), h.target);
  }

  /** The finally block ended normally: OP_END_FINALLY resumes what is pending. */
  lemma Resume(m: Machine, a: State, env: Env, lp: Loop, s: seq<Slot>, c: Completion, env': Env, entry: nat,
               t1: State, base: seq<Slot>, saved: Slot, h: Slot)
    returns (t: State, above: seq<Slot>)
    requires |s| == m.slots + |env| && Reaches(m, a, t1) && 0 <= t1.ip && t1 == State(Run, t1.ip, base + [saved, h], t1.tr)
    requires Moved(m, env, s, env', base) && Pending(m, lp, c, saved, h, entry, true) && lp.count <= |env|
    requires At(m.code, m.table, t1.ip, Emit1(END_FINALLY)) && At(m.code, m.table, t1.ip + 1, GenPops(2))
    ensures Reaches(m, a, t)
    ensures StmtDone(m, env, lp, s, Done(env', t1.tr, c), 0, t1.ip + 1 + |GenPops(2)|, t, base, above) && ShortExit(c, t)
  {
    hide Reaches, Agrees, Moved, At, JumpsTo, Emit1, GenPops;
    MovedFacts(m, env, s, env', base);
    assert env'[..|env|] == env' && Drop(t1.stack, 2) == base && base + [] == base;
    t := DoEndFinally(m, a, t1);
    above := [];
    match c
    case Normal =>
      t := DoPops(m, a, t, 2, base, [saved, h]);
      Settled(m, env, lp, s, env', t, base);
    case Raises(_) =>
    case Returns(_) => above := [saved, h];
    case Breaks => above := [saved, h];
    case Continues => above := [saved, h];
  }

  /** The finally block raised while an exception was pending: its own try's handler catches it once more,
      and passes it on from its entry. */
  lemma RaiseAgain(m: Machine, a: State, env: Env, lp: Loop, s: seq<Slot>, env': Env, entry: nat, distance: int, end: int,
                   t1: State, base: seq<Slot>, saved: Slot, above1: seq<Slot>)
    returns (t: State)
    requires Reaches(m, a, t1) && t1.mode.Unwinding? && t1.stack == base + [saved, H(InFinallyRaising, entry)] + above1
    requires m.outSlots <= |base| && Quiet(above1, ForException) && Moved(m, env, s, env', base)
    requires At(m.code, m.table, entry, EmitJump(ENTER_EXCEPT, distance))
    ensures Reaches(m, a, t)
    ensures StmtDone(m, env, lp, s, Done(env', t1.tr, Raises(t1.mode.exc)), 0, end, t, base, [])
  {
    hide Reaches, Agrees, Moved, At, EmitJump;
    MovedFacts(m, env, s, env', base);
    assert env'[..|env|] == env' && base + [] == base;
    t := Catch(m, a, t1, base, saved, InFinallyRaising, entry, above1);
    t := DoEnterExcept(m, a, t, distance, base, t1.mode.exc, RaisedInFinally, entry);
  }

  lemma AfterFinally(m: Machine, a: State, env: Env, lp: Loop, s: seq<Slot>, o: Outcome, base1: seq<Slot>, saved: Slot,
                     h: Slot, entry: nat, distance: int, f: Outcome, s2: seq<Slot>, end: int, near: bool,
                     t1: State, base3: seq<Slot>, above3: seq<Slot>)
    returns (t: State, base: seq<Slot>, above: seq<Slot>)
    requires Ready(m, env, s) && lp.count <= |env| && Reaches(m, a, t1) && 0 <= end
    requires o.Done? && |o.env| == |env| && Moved(m, env, s, o.env, base1) && Pending(m, lp, o.c, saved, h, entry, true)
    requires s2 == base1 + [saved, h] && StmtDone(m, o.env + [None, None], lp, s2, f, 0, end, t1, base3, above3)
    requires |f.env| == |env| + 2 && (near ==> ShortExit(f.c, t1))
    requires At(m.code, m.table, end, Emit1(END_FINALLY)) && At(m.code, m.table, end + 1, GenPops(2))
    requires At(m.code, m.table, entry, EmitJump(ENTER_EXCEPT, distance))
    ensures Reaches(m, a, t) && (near ==> ShortExit(if f.c == Normal then o.c else f.c, t))
    ensures StmtDone(m, env, lp, s, Leave(if f.c == Normal then f.(c := o.c) else f, |env|), 0, end + 1 + |GenPops(2)|,
                     t, base, above)
  {
    hide Reaches, Agrees, Moved, At, JumpsTo, Emit1, GenPops, EmitJump, Quiet;
    var env2 := o.env + [None, None];
    var env' := f.env[..|env|];
    assert f.env[..|env2|] == f.env;
    TryFrame(m, env, s, o.env, base1, None, saved, h);
    var slot;
    base, slot := TryFrameAfter(m, env, s, o.env, base1, None, saved, h, f.env, base3);
    ReadyFacts(m, env, s);
    MovedFacts(m, env, s, env', base);
    t, above := t1, above3;
    if f.c == Normal {
      assert base3 + above3 == base3;
      t, above := Resume(m, a, env, lp, s, o.c, env', entry, t1, base, saved, h);
    } else if f.c.Raises? && h.tag == InFinallyRaising {
      t := RaiseAgain(m, a, env, lp, s, env', entry, distance, end + 1 + |GenPops(2)|, t1, base, saved, above3);
      above := [];
    } else {
      PendingQuiet(m, lp, o.c, saved, h, entry, HuntOf(f.c));
      assert base3[|s|..] == [saved, h];
      assert s2[..|s|] == base1;
      base, above := Narrowed(m, env, lp, s, env2, s2, f, end, end + 1 + |GenPops(2)|, t1, base3, above3);
    }
  }

  /** A try whose finally has begun stops nothing, except further exceptions while one is pending. */
  lemma PendingQuiet(m: Machine, lp: Loop, c: Completion, saved: Slot, h: Slot, entry: nat, hunt: Hunt)
    requires Pending(m, lp, c, saved, h, entry, true) && (hunt == ForException ==> h.tag != InFinallyRaising)
    ensures Quiet([saved, h], hunt)
  {
    hide JumpsTo;
  }

  lemma {:induction false} RunFinally(m: Machine, a: State, fin: Stmt, env: Env, s: seq<Slot>, o: Outcome, entry: nat,
                                      t1: State, base1: seq<Slot>, saved: Slot, h: Slot, distance: int,
                                      fuel: nat, lp: Loop, inBody: bool, inLoop: bool, near: bool)
    returns (t: State, base: seq<Slot>, above: seq<Slot>)
    requires Ready(m, env, s) && Reaches(m, a, t1) && 0 <= t1.ip
    requires BeforeFinally(m, lp, env, s, o, t1.ip, entry, t1, base1, saved, h)
    requires At(m.code, m.table, t1.ip, GenFinally(fin, |env|, lp, t1.ip)) && BlockOk(fin, Shape(env) + [false, false], inBody, inLoop)
    requires LoopFits(lp, |env|, inBody, inLoop) && TargetsFit(fin, |env| + 2, lp.count, t1.ip + 1, near)
    requires At(m.code, m.table, entry, EmitJump(ENTER_EXCEPT, distance))
    ensures StmtRuns(m, a, env, lp, s, ExecFinally(m.w, m.pool, fin, o, |env|, fuel), 0,
                     t1.ip + |GenFinally(fin, |env|, lp, t1.ip)|, near, fuel, t, base, above)
    decreases fuel, fin, 8
  {
    hide GenBlock, ExecBlock, EmitJump, Reaches, Agrees, Moved, At, BlockOk, Ready, JumpsTo, Emit1, GenPops, Shape;
    hide EnterFinally, StmtDone, Pending, TargetsFit, Lasts;
    var block := GenBlock(fin, |env| + 2, lp, t1.ip + 1);
    var end := t1.ip + 1 + |block|;
    AtSplit3(m.code, m.table, t1.ip, Emit1(BEGIN_FINALLY), block, Emit1(END_FINALLY) + GenPops(2));
    AtSplit(m.code, m.table, end, Emit1(END_FINALLY), GenPops(2));
    ReadyFacts(m, env, s);
    var env2 := o.env + [None, None];
    var h2 := BeginPending(m, lp, o.c, saved, h, entry);
    TryFrame(m, env, s, o.env, base1, None, saved, h2);
    assert base1 + [saved, h] == (base1 + [saved]) + [h];
    t := DoBeginFinally(m, a, t1, base1 + [saved], h.tag, h.target);
    assert t.stack == base1 + [saved, h2];
    NotMoved(m, env2, t.stack) by { ReadyFacts(m, env2, t.stack); }
    var s2 := t.stack;
    var f := ExecBlock(m.w, m.pool, fin, env2, t.tr, fuel);
    BlockEnv(m, fin, env2, t.tr, fuel);
    t, base, above := RunBlockAfter(m, a, fin, env2, s2, env2, t, fuel, lp, inBody, inLoop, near);
    if f.Done? {
      DoneEnv(m, env2, lp, s2, f, 0, end, t, base, above);
      t, base, above := AfterFinally(m, a, env, lp, s, o, base1, saved, h2, entry, distance, f, s2, end, near, t, base, above);
    }
  }

  lemma {:induction false} RunTry(m: Machine, stm: Stmt, env: Env, tr: Trace, fuel: nat, lp: Loop,
                                  inBody: bool, inLoop: bool, near: bool, at: nat, s: seq<Slot>)
    returns (t: State, base: seq<Slot>, above: seq<Slot>)
    requires stm.Try? && Ready(m, env, s) && At(m.code, m.table, at, GenTry(stm, |env|, lp, at))
    requires BlockOk(stm.body, Shape(env) + [false, false], inBody, inLoop)
    requires HandlersOk(stm.handlers, Shape(env), inBody, inLoop)
    requires stm.els.Some? ==> stm.handlers.Handler? && BlockOk(stm.els.value, Shape(env) + [false, false], inBody, inLoop)
    requires BlockOk(stm.fin, Shape(env) + [false, false], inBody, inLoop)
    requires LoopFits(lp, |env|, inBody, inLoop) && TargetsFit(stm, |env|, lp.count, at, near)
    ensures StmtRuns(m, State(Run, at, s, tr), env, lp, s, ExecTry(m.w, m.pool, stm, env, tr, fuel), 0,
                     at + |GenTry(stm, |env|, lp, at)|, near, fuel, t, base, above)
    decreases fuel, stm, 1
  {
    hide GenBlock, GenElse, GenHandlers, GenFinally, ExecProtected, ExecFinally, EmitJump, Reaches, Agrees, Moved, At;
    hide BlockOk, HandlersOk, Ready, BlockSize, GenTry, Shape, PlanOf, StmtDone, Pending, TargetsFit, HandlersFit, Lasts;
    var a := State(Run, at, s, tr);
    var p := PlanOf(stm, |env|, lp, at);
    TryParts(m.code, m.table, stm, |env|, lp, at);
    ReadyFacts(m, env, s);
    var o := ExecProtected(m.w, m.pool, stm, env, tr, fuel);
    var saved, h;
    TryTargets(stm, |env|, lp, at, near);
    t, base, saved, h := RunProtected(m, stm, env, tr, fuel, lp, inBody, inLoop, near, at, s);
    above := [];
    if o.Done? {
      t, base, above := RunFinally(m, a, stm.fin, env, s, o, p.entry, t, base, saved, h, p.fin - p.entry - 3,
                                   fuel, lp, inBody, inLoop, near);
    }
  }

  // ----- whole functions -----

  /** How a call ends: what the run loop returns, or the exception it leaves raised. */
  function ResultOf(c: Completion): Mode {
    match c
    case Raises(x) => Uncaught(x)
    case Returns(v) => Finished(v)
    case _ => Finished(VNone)
  }

  lemma Return(m: Machine, a: State, st: State, base: seq<Slot>, above: seq<Slot>) returns (t: State)
    requires Reaches(m, a, st) && st.stack == base + above && m.outSlots <= m.slots <= |base|
    requires (st.mode.Leaving? && Quiet(above, ForReturn) && Quiet(base[m.slots..], ForReturn))
          || (st.mode.Unwinding? && Quiet(above, ForException) && Quiet(base[m.outSlots..], ForException))
    ensures Reaches(m, a, t)
    ensures t.mode == (if st.mode.Leaving? then Finished(st.mode.result) else Uncaught(st.mode.exc))
    ensures t.tr == st.tr && t.stack == base[..m.outSlots]
  {
    hide Reaches;
    var floor, hunt := if st.mode.Leaving? then m.slots else m.outSlots, if st.mode.Leaving? then ForReturn else ForException;
    FindBelow(base, above, floor, hunt);
    assert base == base[..floor] + base[floor..];
    FindBelow(base[..floor], base[floor..], floor, hunt);
    t := Step(m, st);
    One(m, st);
    Then(m, a, st, t);
    assert t.stack == base[..m.outSlots];
  }

  /** A frame about to run a compiled function: its code laid out from address 0, its arguments on the stack. */
  ghost predicate Called(m: Machine, body: Stmt, env: Env, s: seq<Slot>) {
    && At(m.code, m.table, 0, GenFunction(body, |env|)) && TargetsFit(body, |env|, 0, 0, false)
    && StmtOk(body, Shape(env), false, false)
    && m.outSlots <= m.slots && |s| == m.slots + |env| && Agrees(m, env, s) && AllValues(s[m.outSlots..])
  }

  lemma RunBody(m: Machine, body: Stmt, env: Env, tr: Trace, fuel: nat, s: seq<Slot>)
    returns (t: State, base: seq<Slot>, above: seq<Slot>)
    requires Called(m, body, env, s)
    ensures var code := GenStmt(body, |env|, Loop(0, None, None), 0);
      && StmtRuns(m, State(Run, 0, s, tr), env, Loop(0, None, None), s, Exec(m.w, m.pool, body, env, tr, fuel), Decls(body),
                  |code|, false, fuel, t, base, above)
      && At(m.code, m.table, |code|, Emit1(NONE)) && At(m.code, m.table, |code| + 1, Emit1(RETURN))
  {
    hide GenStmt, Exec, Reaches, At, Emit1, StmtOk, TargetsFit, StmtDone, Lasts, Agrees;
    var code := GenStmt(body, |env|, Loop(0, None, None), 0);
    AtSplit3(m.code, m.table, 0, code, Emit1(NONE), Emit1(RETURN));
    assert Ready(m, env, s);
    t, base, above := RunStmt(m, body, env, tr, fuel, Loop(0, None, None), false, false, false, 0, s);
  }

  /** Running a compiled function from its first instruction ends as its body's meaning says, having done
      exactly what the meaning does, and hands back the caller's stack. */
  lemma FunctionPreserved(m: Machine, body: Stmt, env: Env, tr: Trace, fuel: nat, s: seq<Slot>) returns (t: State)
    requires Called(m, body, env, s) && Exec(m.w, m.pool, body, env, tr, fuel).Done?
    ensures Reaches(m, State(Run, 0, s, tr), t)
    ensures var o := Exec(m.w, m.pool, body, env, tr, fuel);
      o.c != Breaks && o.c != Continues && t.mode == ResultOf(o.c) && t.tr == o.tr && t.stack == s[..m.outSlots]
  {
    hide GenStmt, Exec, Reaches, At, Moved, Emit1, StmtOk, TargetsFit;
    var a := State(Run, 0, s, tr);
    var o := Exec(m.w, m.pool, body, env, tr, fuel);
    var base, above;
    t, base, above := RunBody(m, body, env, tr, fuel, s);
    FrameValues(m, env, s, o.env[..|env|], base);
    QuietValues(base[m.outSlots..], ForException);
    QuietValues(base[m.slots..], ForReturn);
    if o.c == Normal {
      t := DoPush(m, a, t, NONE, VNone);
      t := DoReturn(m, a, t, base + above, VNone);
      NewValues(m, o.env, |env|, o.env[|env|..], base, above);
      QuietValues(above, ForReturn);
    }
    t := Return(m, a, t, base, above);
  }

  /** `try: return True` and nothing else. */
  function Unguarded(): (s: Stmt) {
    BareTry(Stmt.Return(Literal(VBool(true))))
  }

  function UnguardedText(): Text {
    [J(PUSH_TRY), D1(5), D2(5), B(28), B(138), J(JUMP), D1(3), D2(3), J(ENTER_EXCEPT), D1(0), D2(0), B(4), B(2), B(73), B(138)]
  }

  function UnguardedCode(): Code {
    [6, 0, 5, 28, 138, 23, 0, 3, 162, 0, 0, 4, 2, 73, 138]
  }

  lemma UnguardedBlock(s: Stmt, e: Expr, lp: Loop, at: nat)
    requires s == Stmt.Return(e) && e == Literal(VBool(true))
    ensures GenBlock(s, 2, lp, at) == [B(28), B(138)] && BlockSize(s, 2, lp.count) == 2 && Decls(s) == 0
    ensures TargetsFit(s, 2, lp.count, at, true) && BlockOk(s, [false, false], false, false)
  {
    assert GenExpr(e) == [B(28)];
  }

  lemma UnguardedFits(s: Stmt, r: Stmt, e: Expr, depth: nat)
    requires s == BareTry(r) && r == Stmt.Return(e) && e == Literal(VBool(true)) && depth == 0
    ensures TargetsFit(s, depth, 0, 0, false) && StmtOk(s, [], false, false)
  {
    hide GenBlock, BlockSize, BlockOk, GenExpr, EmitOperand, HandlersOk, ExprOk, StmtSize, HandlersFit, HandlersSize, ElseSize, Decls;
    UnguardedBlock(r, e, Loop(0, None, None), 3);
    assert [] + [false, false] == [false, false];
  }

  lemma UnguardedTail(depth: nat)
    requires depth == 2
    ensures EmitJump(JUMP, 3) + (EmitJump(ENTER_EXCEPT, 0) + GenPops(depth))
         == [J(JUMP), D1(3), D2(3), J(ENTER_EXCEPT), D1(0), D2(0), B(4), B(2)]
  {
    assert EmitOperand(POP_MANY, depth) == [B(4), B(2)];
  }

  lemma UnguardedCompiles(s: Stmt, r: Stmt, e: Expr, depth: nat)
    requires s == BareTry(r) && r == Stmt.Return(e) && e == Literal(VBool(true)) && depth == 0
    ensures GenFunction(s, depth) == UnguardedText()
  {
    hide GenBlock, BlockSize, GenPops, GenExpr, EmitOperand, GenSeq, GenIf, GenWhile, GenFor, GenTry, GenRaise, GenLeaveLoop, TargetsFit;
    hide BlockOk, Decls, StmtSize;
    var lp := Loop(0, None, None);
    UnguardedBlock(r, e, lp, 3);
    UnguardedTail(2);
    assert GenStmt(s, depth, lp, 0) == GenBareTry(s, depth, lp, 0);
  }

  lemma UnguardedLaidOut()
    ensures At(UnguardedCode(), [], 0, UnguardedText())
  {
    var text := UnguardedText();
    forall i | 0 <= i < |text| ensures Holds(UnguardedCode(), [], 0 + i, text[i]) {
    }
  }

  lemma UnguardedMeans(w: World, pool: Pool, tr: Trace)
    ensures ExecUnguarded(w, pool, Unguarded(), [], tr, 0) == Done([], tr, Returns(VBool(true)))
    ensures Exec(w, pool, Unguarded(), [], tr, 0) == Done([], tr, Normal)
  {
    assert Exec(w, pool, Unguarded().body, [None, None], tr, 0) == Done([None, None], tr, Returns(VBool(true)));
  }

  lemma UnguardedParts()
    ensures GenFunction(Unguarded(), 0) == UnguardedText()
    ensures TargetsFit(Unguarded(), 0, 0, 0, false) && StmtOk(Unguarded(), [], false, false)
  {
    hide GenFunction, TargetsFit, StmtOk, UnguardedText;
    var e := Literal(VBool(true));
    var r := Stmt.Return(e);
    UnguardedFits(BareTry(r), r, e, 0);
    UnguardedCompiles(BareTry(r), r, e, 0);
  }

  /** Its body returns True; the function gives None. */
  lemma BareTryOccurs(w: World, pool: Pool, tr: Trace) returns (t: State)
    ensures var m := Machine(w, pool, UnguardedCode(), [], 0, 0);
      && Called(m, Unguarded(), [], []) && Reaches(m, State(Run, 0, [], tr), t) && t.mode == Finished(VNone)
      && ExecUnguarded(w, pool, Unguarded(), [], tr, 0) == Done([], tr, Returns(VBool(true)))
  {
    hide UnguardedCode, UnguardedText, Unguarded, At, GenFunction, Exec, ExecUnguarded, Reaches, TargetsFit, StmtOk;
    var m := Machine(w, pool, UnguardedCode(), [], 0, 0);
    UnguardedParts();
    UnguardedLaidOut();
    UnguardedMeans(w, pool, tr);
    assert Shape([]) == [];
    t := FunctionPreserved(m, Unguarded(), [], tr, 0, []);
  }

  /** It ends exactly if its body's meaning is reached; otherwise it runs on for ever. */
  lemma FunctionEnds(m: Machine, body: Stmt, env: Env, tr: Trace, s: seq<Slot>)
    requires Called(m, body, env, s)
    ensures Ends(m, State(Run, 0, s, tr)) <==> exists fuel: nat :: Exec(m.w, m.pool, body, env, tr, fuel).Done?
  {
    hide Exec, Called, StmtDone, Lasts;
    var a := State(Run, 0, s, tr);
    if fuel: nat :| Exec(m.w, m.pool, body, env, tr, fuel).Done? {
      var t := FunctionPreserved(m, body, env, tr, fuel, s);
      EndsAt(m, a, t);
    } else {
      forall k: nat ensures Lasts(m, a, k) {
        var t, base, above := RunBody(m, body, env, tr, k, s);
      }
      NeverEnds(m, a);
    }
  }

  /** Variables and arguments are values before and after. */
  lemma FrameValues(m: Machine, env: Env, s: seq<Slot>, env': Env, base: seq<Slot>)
    requires Moved(m, env, s, env', base) && m.outSlots <= m.slots <= |s| && AllValues(s[m.outSlots..])
    ensures |base| == |s| && AllValues(base[m.outSlots..]) && AllValues(base[m.slots..]) && base[..m.outSlots] == s[..m.outSlots]
  {
    forall i | m.outSlots <= i < |s| ensures base[i].V? {
      assert s[m.outSlots..][i - m.outSlots].V?;
      TrySlot(m, env, s, env', base, i);
    }
  }

  lemma NewValues(m: Machine, env: Env, n: nat, more: Env, base: seq<Slot>, above: seq<Slot>)
    requires n <= |env| && more == env[n..] && Agrees(m, env, base + above) && |base| == m.slots + n && |above| == |more|
    requires Shape(env)[n..] == Declared(|above|)
    ensures AllValues(above)
  {
    forall i | 0 <= i < |above| ensures above[i].V? {
      assert Shape(env)[n..][i];
      assert (base + above)[m.slots + n + i] == above[i];
    }
  }
}
