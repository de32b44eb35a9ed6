/** What the run loop decides by looking at a value: which way a test goes, which exception a filter takes, and what a
    raise raises (krk_isFalsey, OP_FILTER_EXCEPT and krk_raiseException of src/vm.c), said value by value. */
module Decisions {
  import opened Options
  import opened Syntax
  import opened Semantics
  import opened Bytecode
  import opened Codegen
  import opened Vm
  import opened PreserveExpr
  import opened Interpreter
  import opened FarCode

  // ----- truth -----

  /** Values whose truth the run loop sees without asking them. */
  predicate Plain(v: Value) {
    v.VNone? || v.VBool? || v.VInt? || v.VTuple?
  }

  /** The false ones among them. */
  predicate Falsey(v: Value) {
    v in {VNone, VBool(false), VInt(0), VTuple([])}
  }

  /** Where a jump on truth leads, given that the value tested is false or not. */
  function Jumped(op: Op, no: bool, next: nat, distance: nat, base: seq<Slot>, v: Value, tr: Trace): State {
    match op
    case JUMP_IF_FALSE_OR_POP => if no then State(Run, next + distance, base + [V(v)], tr) else State(Run, next, base, tr)
    case JUMP_IF_TRUE_OR_POP => if no then State(Run, next, base, tr) else State(Run, next + distance, base + [V(v)], tr)
    case _ => if no then State(Run, next + distance, base, tr) else State(Run, next, base, tr)
  }

  lemma Popped(base: seq<Slot>, v: Value)
    ensures Drop(base + [V(v)], 1) == base && Top(base + [V(v)], 0) == V(v)
  {
  }

  /** None, False, 0 and the empty tuple are false, every other of these values is true, and nothing is done to find out. */
  lemma JumpsOn(m: Machine, st: State, op: Op, distance: nat, next: nat, base: seq<Slot>, v: Value)
    requires st.mode == Run && Fetch(m.code, m.table, st.ip) == Some(Fetched(op, distance, next)) && IsBranch(op)
    requires st.stack == base + [V(v)] && Plain(v)
    ensures Step(m, st) == Jumped(op, Falsey(v), next, distance, base, v, st.tr)
  {
    Popped(base, v);
  }

  /** Any other value is asked, once; its bool decides, and anything else it answers is an error. */
  lemma JumpsAsking(m: Machine, st: State, op: Op, distance: nat, next: nat, base: seq<Slot>, v: Value)
    requires st.mode == Run && Fetch(m.code, m.table, st.ip) == Some(Fetched(op, distance, next)) && IsBranch(op)
    requires st.stack == base + [V(v)] && !Plain(v)
    ensures var tr := st.tr + [Truth(v)];
      Step(m, st) == match m.w.act(Truth(v), st.tr)
                     case Ok(VBool(b)) => Jumped(op, !b, next, distance, base, v, tr)
                     case Ok(_) => State(Unwinding(m.w.badBool), next, st.stack, tr)
                     case Err(x) => State(Unwinding(x), next, st.stack, tr)
  {
    Popped(base, v);
  }

  /** `not`, likewise. */
  lemma Negates(m: Machine, st: State, next: nat, base: seq<Slot>, v: Value)
    requires st.mode == Run && Fetch(m.code, m.table, st.ip) == Some(Fetched(NOT, 0, next)) && st.stack == base + [V(v)]
    ensures Plain(v) ==> Step(m, st) == State(Run, next, base + [V(VBool(Falsey(v)))], st.tr)
    ensures !Plain(v) ==>
      var tr := st.tr + [Truth(v)];
      Step(m, st) == match m.w.act(Truth(v), st.tr)
                     case Ok(VBool(b)) => State(Run, next, base + [V(VBool(!b))], tr)
                     case Ok(_) => State(Unwinding(m.w.badBool), next, st.stack, tr)
                     case Err(x) => State(Unwinding(x), next, st.stack, tr)
  {
    Popped(base, v);
  }

  /** An `if` over a constant integer runs its then-part exactly when that is not zero. */
  lemma IfInteger(w: World, pool: Pool, i: nat, thn: Stmt, els: Stmt, env: Env, tr: Trace, fuel: nat)
    requires pool(i).VInt?
    ensures Exec(w, pool, If(Const(i), thn, Some(els)), env, tr, fuel)
         == ExecBlock(w, pool, if pool(i).n != 0 then thn else els, env, tr, fuel)
  {
    hide ExecBlock, ExecRaise, ExecSeq, ExecWhile, ExecFor, ExecTry, ExecBareTry;
  }

  /** `if <constant>: return True` and `return False`. */
  function Choice(): Stmt {
    Seq(If(Const(0), Stmt.Return(Literal(VBool(true))), None), Stmt.Return(Literal(VBool(false))))
  }

  lemma ChoiceMeans(w: World, pool: Pool, tr: Trace)
    ensures var o := Exec(w, pool, Choice(), [], tr, 0);
      if Plain(pool(0)) then o == Done([], tr, Returns(VBool(!Falsey(pool(0)))))
      else o == Done([], tr + [Truth(pool(0))],
                     match w.act(Truth(pool(0)), tr)
                     case Ok(VBool(b)) => Returns(VBool(b))
                     case Ok(_) => Raises(w.badBool)
                     case Err(x) => Raises(x))
  {
    var s := Choice();
    var yes, no := s.first.thn, s.second;
    ReturnMeans(w, pool, yes, VBool(true), tr);
    ReturnMeans(w, pool, no, VBool(false), tr);
    ReturnMeans(w, pool, yes, VBool(true), tr + [Truth(pool(0))]);
    ReturnMeans(w, pool, no, VBool(false), tr + [Truth(pool(0))]);
    assert EvalExpr(w, pool, s.first.cond, [], tr) == EvalResult([], tr, Ok(pool(0)));
    hide EvalExpr;
    assert Exec(w, pool, s, [], tr, 0) == ExecSeq(w, pool, s, [], tr, 0);
    assert Exec(w, pool, s.first, [], tr, 0) == ExecIf(w, pool, s.first, [], tr, 0);
  }

  lemma ReturnMeans(w: World, pool: Pool, s: Stmt, v: Value, tr: Trace)
    requires s == Stmt.Return(Literal(v))
    ensures Exec(w, pool, s, [], tr, 0) == Done([], tr, Returns(v)) == ExecBlock(w, pool, s, [], tr, 0)
  {
    assert EvalExpr(w, pool, s.result, [], tr) == EvalResult([], tr, Ok(v));
  }

  lemma ReturnOk(b: bool)
    ensures StmtOk(Stmt.Return(Literal(VBool(b))), [], false, false)
  {
  }

  lemma OneByte(b: bool)
    ensures |GenExpr(Literal(VBool(b)))| == 1
  {
  }

  lemma ReturnSize(b: bool)
    ensures var s := Stmt.Return(Literal(VBool(b))); Decls(s) == 0 && StmtSize(s, 0, 0) == 2
  {
    hide GenExpr, BlockSize, HandlersSize, ElseSize, EmitOperand, GenExit, AlwaysTrue;
    OneByte(b);
  }

  lemma ReturnFits(b: bool, at: nat)
    ensures TargetsFit(Stmt.Return(Literal(VBool(b))), 0, 0, at, false)
  {
  }

  lemma ConstOk()
    ensures |GenExpr(Const(0))| == 2 && ExprOk(Const(0), [])
  {
  }

  lemma IfOk(s: Stmt)
    requires s.If? && s.cond == Const(0) && s.els.None? && Decls(s.thn) == 0
    requires StmtOk(s.thn, [], false, false) && TargetsFit(s.thn, 0, 0, 5, false)
    ensures StmtOk(s, [], false, false) && Decls(s) == 0 && StmtSize(s, 0, 0) == 5 + StmtSize(s.thn, 0, 0)
    ensures TargetsFit(s, 0, 0, 0, false)
  {
    hide BlockOk, HandlersOk, ExprOk, BlockSize, GenExpr, HandlersSize, ElseSize, EmitOperand, GenExit, AlwaysTrue, HandlersFit;
    ConstOk();
    BlockIs(s.thn, [], false, false, 0, 0);
  }

  lemma ChoiceOk()
    ensures StmtOk(Choice(), Shape(Bound([])), false, false) && StmtSize(Choice(), 0, 0) == 9
    ensures TargetsFit(Choice(), 0, 0, 0, false)
  {
    hide StmtOk, TargetsFit, StmtSize, Decls;
    assert Shape(Bound([])) == [];
    var s := Choice();
    ReturnOk(true);
    ReturnOk(false);
    ReturnSize(true);
    ReturnSize(false);
    ReturnFits(true, 5);
    ReturnFits(false, 7);
    IfOk(s.first);
    SeqOk(s.first, s.second, [], false, false);
    SeqSize(s.first, s.second, 0, 0);
    SeqFits(s.first, s.second, 0, 0, 0, false);
  }

  /** Compiled and called, that returns whether the constant is true, after asking it if it has to be asked. */
  method ChoiceOf(w: World, pool: Pool, tr: Trace) returns (result: Mode, done: Trace)
    ensures Plain(pool(0)) ==> result == Finished(VBool(!Falsey(pool(0)))) && done == tr
    ensures !Plain(pool(0)) ==>
      && done == tr + [Truth(pool(0))]
      && result == match w.act(Truth(pool(0)), tr)
                   case Ok(VBool(b)) => Finished(VBool(b))
                   case Ok(_) => Uncaught(w.badBool)
                   case Err(x) => Uncaught(x)
  {
    hide Exec, StmtOk, TargetsFit, StmtSize, Choice;
    ChoiceMeans(w, pool, tr);
    ChoiceOk();
    var stack;
    result, done, stack := CompileAndCall(w, pool, Choice(), [], [], [], tr, 0);
  }

  // ----- filters and raises -----

  /** An except clause takes an exception if its filter is its class, or a tuple with its class among what is in it; a
      filter of None, which a bare except has, takes everything but None; any other filter takes nothing. */
  lemma FilterTakes(m: Machine, st: State, distance: nat, next: nat, base: seq<Slot>, exc: Value, tag: Tag, target: nat, f: Value)
    requires st.mode == Run && Fetch(m.code, m.table, st.ip) == Some(Fetched(FILTER_EXCEPT, distance, next))
    requires st.stack == base + [V(exc), H(tag, target), V(f)]
    ensures var takes := (f.VClass? && m.w.isInstance(exc, f)) || (f == VNone && exc != VNone)
        || (f.VTuple? && exists c :: c in f.elems && c.VClass? && m.w.isInstance(exc, c));
      Step(m, st) == if takes then State(Run, next, base + [V(exc), H(Filtered, target)], st.tr)
                     else State(Run, next + distance, base + [V(exc), H(tag, target)], st.tr)
  {
    var s := st.stack;
    assert Drop(s, 2) == base + [V(exc)] && Drop(s, 1) == base + [V(exc), H(tag, target)];
    assert Drop(s, 2) + [H(Filtered, target)] == base + [V(exc), H(Filtered, target)];
    assert Top(s, 0) == V(f) && Top(s, 1) == H(tag, target) && Top(s, 2) == V(exc);
    if f.VTuple? {
      if c :| c in f.elems && c.VClass? && m.w.isInstance(exc, c) {
        var i :| 0 <= i < |f.elems| && f.elems[i] == c;
      }
    }
  }

  /** A class that is raised is called once without arguments, and what that gives or raises is the exception; anything
      else is raised as it is. */
  lemma RaiseRaises(m: Machine, st: State, next: nat, base: seq<Slot>, v: Value)
    requires st.mode == Run && Fetch(m.code, m.table, st.ip) == Some(Fetched(RAISE, 0, next)) && st.stack == base + [V(v)]
    ensures Step(m, st) == if !v.VClass? then State(Unwinding(v), next, st.stack, st.tr)
      else State(Unwinding(match m.w.act(Event.Called(v, []), st.tr) case Ok(x) => x case Err(x) => x), next, st.stack,
                 st.tr + [Event.Called(v, [])])
  {
    Popped(base, v);
  }

  /** With a cause: that is called too if it is a class, after the exception; failing, it is raised instead. */
  lemma RaiseFromRaises(m: Machine, st: State, next: nat, base: seq<Slot>, v: Value, cause: Value)
    requires st.mode == Run && Fetch(m.code, m.table, st.ip) == Some(Fetched(RAISE_FROM, 0, next))
    requires st.stack == base + [V(v), V(cause)]
    ensures !v.VClass? && !cause.VClass? ==> Step(m, st) == State(Unwinding(v), next, st.stack, st.tr)
    ensures !v.VClass? && cause.VClass? ==>
      Step(m, st) == State(Unwinding(match m.w.act(Event.Called(cause, []), st.tr) case Ok(_) => v case Err(x) => x), next,
                           st.stack, st.tr + [Event.Called(cause, [])])
    ensures v.VClass? ==>
      var tr := st.tr + [Event.Called(v, [])];
      match m.w.act(Event.Called(v, []), st.tr)
      case Err(x) => Step(m, st) == State(Unwinding(x), next, st.stack, tr)
      case Ok(x) =>
        if !cause.VClass? then Step(m, st) == State(Unwinding(x), next, st.stack, tr)
        else Step(m, st) == State(Unwinding(match m.w.act(Event.Called(cause, []), tr) case Ok(_) => x case Err(y) => y), next,
                                  st.stack, tr + [Event.Called(cause, [])])
  {
    assert Top(st.stack, 0) == V(cause) && Top(st.stack, 1) == V(v);
  }
}
