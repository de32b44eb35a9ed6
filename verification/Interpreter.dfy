/** The compiler and the run loop together: a function is compiled in place, laid out, and run in place to its end. */
module Interpreter {
  import opened Options
  import opened Syntax
  import opened Semantics
  import opened Bytecode
  import opened Codegen
  import opened Vm
  import opened PreserveExpr
  import opened PreserveStmt
  import opened Emitter
  import opened RunLoop

  /** A function's locals when it is called. */
  function Bound(args: seq<Value>): (env: Env)
    ensures |env| == |args|
  {
    seq(|args|, i requires 0 <= i < |args| => Some(args[i]))
  }

  /** A compiler about to compile a function of n arguments: they are its first locals. */
  method BeginFunction(n: nat) returns (compiler: Compiler)
    ensures fresh(compiler) && compiler.Valid() && |compiler.locals| == n
    ensures compiler.Now() == Draft([], compiler.locals, 1, 0, [], [])
  {
    compiler := new Compiler();
    compiler.BeginScope();
    var i := 0;
    while i < n
      invariant i <= n && compiler.Valid() && fresh(compiler) && |compiler.locals| == i
      invariant compiler.Now() == Draft([], compiler.locals, 1, 0, [], [])
    {
      compiler.AddLocal();
      i := i + 1;
    }
  }

  /** Compile a function and call it on `below`, above which lie the callee's own slots and its arguments. The call ends
      as the body's meaning says, having done what the meaning does, and leaves the caller's stack. */
  method CompileAndCall(w: World, pool: Pool, body: Stmt, below: seq<Slot>, callee: seq<Value>, args: seq<Value>, tr: Trace,
                        ghost fuel: nat)
    returns (result: Mode, done: Trace, stack: seq<Slot>)
    requires StmtOk(body, Shape(Bound(args)), false, false) && StmtSize(body, |args|, 0) + 2 < CODE_LIMIT
    requires TargetsFit(body, |args|, 0, 0, false)
    requires Exec(w, pool, body, Bound(args), tr, fuel).Done?
    ensures var o := Exec(w, pool, body, Bound(args), tr, fuel);
      o.c != Breaks && o.c != Continues && result == ResultOf(o.c) && done == o.tr && stack == below
  {
    hide StmtOk, TargetsFit, Exec, At, GenFunction, StmtSize;
    var compiler := BeginFunction(|args|);
    compiler.Function(body, Shape(Bound(args)));
    var m := Machine(w, pool, compiler.code, compiler.table, |below| + |callee|, |below|);
    var frame := below + Pushed(callee) + Pushed(args);
    FrameReady(m, body, below, callee, args);
    ghost var t := FunctionPreserved(m, body, Bound(args), tr, fuel, frame);
    var thread := new Thread(m, State(Run, 0, frame, tr));
    thread.RunToEnd(t);
    result, done, stack := thread.mode, thread.tr, thread.stack;
    assert frame[..|below|] == below;
  }

  lemma FrameReady(m: Machine, body: Stmt, below: seq<Slot>, callee: seq<Value>, args: seq<Value>)
    requires m.slots == |below| + |callee| && m.outSlots == |below|
    requires At(m.code, m.table, 0, GenFunction(body, |args|)) && TargetsFit(body, |args|, 0, 0, false)
    requires StmtOk(body, Shape(Bound(args)), false, false)
    ensures PreserveStmt.Called(m, body, Bound(args), below + Pushed(callee) + Pushed(args))
  {
    hide At, GenFunction, TargetsFit, StmtOk, Pushed, AllValues, Agrees, Shape, Bound;
    var frame := below + Pushed(callee) + Pushed(args);
    assert frame[m.outSlots..] == Pushed(callee) + Pushed(args);
    assert AllValues(frame[m.outSlots..]) by { BothValues(Pushed(callee), Pushed(args)); }
    assert Agrees(m, Bound(args), frame) by { ArgumentsAgree(m, below + Pushed(callee), args); }
  }

  lemma BothValues(a: seq<Slot>, b: seq<Slot>)
    requires AllValues(a) && AllValues(b)
    ensures AllValues(a + b)
  {
  }

  lemma ArgumentsAgree(m: Machine, under: seq<Slot>, args: seq<Value>)
    requires m.slots == |under|
    ensures Agrees(m, Bound(args), under + Pushed(args))
  {
  }
}
