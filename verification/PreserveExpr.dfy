/** Compiled expressions compute what Semantics says, on top of an otherwise unchanged stack. */
module PreserveExpr {
  import opened Options
  import opened Syntax
  import opened Semantics
  import opened Bytecode
  import opened Codegen
  import opened Vm

  // ----- the frame's part of the stack -----

  /** The frame's part of the stack holds the variables of `env`. */
  ghost predicate Agrees(m: Machine, env: Env, s: seq<Slot>) {
    m.slots + |env| <= |s| &&
    forall i | 0 <= i < |env| && env[i].Some? :: s[m.slots + i] == V(env[i].value)
  }

  predicate IsVariable(m: Machine, env: Env, i: int) {
    m.slots <= i < m.slots + |env| && env[i - m.slots].Some?
  }

  /** From `env` in `s` to `env'` in `s'`: the new stack holds the new values and nothing else changed. */
  ghost predicate Moved(m: Machine, env: Env, s: seq<Slot>, env': Env, s': seq<Slot>) {
    && |s| == |s'| && |env| == |env'|
    && (forall i | 0 <= i < |env| :: env[i].Some? == env'[i].Some?)
    && Agrees(m, env', s')
    && (forall i | 0 <= i < |s| && !IsVariable(m, env, i) :: s'[i] == s[i])
  }

  lemma MovedFacts(m: Machine, env: Env, s: seq<Slot>, env': Env, s': seq<Slot>)
    requires Moved(m, env, s, env', s')
    ensures Agrees(m, env', s') && Shape(env') == Shape(env) && |env'| == |env| && |s'| == |s|
    ensures m.slots + |env| <= |s|
  {
  }

  lemma NotMoved(m: Machine, env: Env, s: seq<Slot>)
    requires Agrees(m, env, s)
    ensures Moved(m, env, s, env, s)
  {
  }

  lemma MovedTwice(m: Machine, env: Env, s: seq<Slot>, env1: Env, s1: seq<Slot>, env2: Env, s2: seq<Slot>)
    requires Moved(m, env, s, env1, s1) && Moved(m, env1, s1, env2, s2)
    ensures Moved(m, env, s, env2, s2)
  {
    forall i | 0 <= i < |s| && !IsVariable(m, env, i) ensures s2[i] == s[i] {
      assert !IsVariable(m, env1, i);
    }
  }

  /** What lies above the frame stays put. */
  lemma MovedUnder(m: Machine, env: Env, s: seq<Slot>, x: seq<Slot>, env': Env, u: seq<Slot>) returns (s': seq<Slot>)
    requires Moved(m, env, s + x, env', u) && m.slots + |env| <= |s|
    ensures u == s' + x && Moved(m, env, s, env', s')
  {
    s' := u[..|s|];
    forall i | 0 <= i < |x| ensures u[|s| + i] == x[i] {
      assert !IsVariable(m, env, |s| + i);
    }
    assert u == s' + x;
    forall i | 0 <= i < |s| && !IsVariable(m, env, i) ensures s'[i] == s[i] {
      assert u[i] == (s + x)[i];
    }
  }

  lemma AgreesUnder(m: Machine, env: Env, s: seq<Slot>, x: seq<Slot>)
    requires Agrees(m, env, s)
    ensures Agrees(m, env, s + x)
  {
  }

  lemma MovedStore(m: Machine, env: Env, s: seq<Slot>, i: nat, v: Value)
    requires Agrees(m, env, s) && i < |env| && env[i].Some?
    ensures Moved(m, env, s, env[i := Some(v)], s[m.slots + i := V(v)])
  {
    forall k | 0 <= k < |s| && !IsVariable(m, env, k) ensures s[m.slots + i := V(v)][k] == s[k] {
      if k == m.slots + i {
        assert IsVariable(m, env, k);
      }
    }
  }

  // ----- single instructions -----

  /** One fetched instruction. */
  lemma Go(m: Machine, a: State, st: State, op: Op, operand: nat, next: nat) returns (t: State)
    requires Reaches(m, a, st) && st.mode == Run
    requires Fetch(m.code, m.table, st.ip) == Some(Fetched(op, operand, next))
    ensures t == Execute(m, st.(ip := next), op, operand) && Reaches(m, a, t)
  {
    hide Execute, Fetch;
    t := Step(m, st);
    One(m, st);
    Then(m, a, st, t);
  }

  lemma Go1(m: Machine, a: State, st: State, op: Op) returns (t: State)
    requires Reaches(m, a, st) && st.mode == Run && 0 <= st.ip
    requires FormOf(op) == Simple && At(m.code, m.table, st.ip, Emit1(op))
    ensures t == Execute(m, st.(ip := st.ip + 1), op, 0) && Reaches(m, a, t)
  {
    hide Execute, Fetch;
    Fetch1(m.code, m.table, st.ip, op);
    t := Go(m, a, st, op, 0, st.ip + 1);
  }

  lemma GoJump(m: Machine, a: State, st: State, op: Op, distance: int) returns (t: State)
    requires Reaches(m, a, st) && st.mode == Run && 0 <= st.ip
    requires FormOf(op) == Jump && At(m.code, m.table, st.ip, EmitJump(op, distance))
    ensures distance >= 0 && t == Execute(m, st.(ip := st.ip + 3), op, distance) && Reaches(m, a, t)
  {
    hide Execute, Fetch;
    FetchJump(m.code, m.table, st.ip, op, distance);
    t := Go(m, a, st, op, distance, st.ip + 3);
  }

  lemma GoOperand(m: Machine, a: State, st: State, op: Op, arg: nat) returns (t: State)
    requires Reaches(m, a, st) && st.mode == Run && 0 <= st.ip && arg < OPERAND_LIMIT
    requires FormOf(op) == Operand && At(m.code, m.table, st.ip, EmitOperand(op, arg))
    ensures t == Execute(m, st.(ip := st.ip + |EmitOperand(op, arg)|), op, arg) && Reaches(m, a, t)
  {
    hide Execute, Fetch, EmitOperand;
    FetchOperand(m.code, m.table, st.ip, op, arg);
    t := Go(m, a, st, op, arg, st.ip + |EmitOperand(op, arg)|);
  }

  /** The outcome of an action replaces the `used` top slots, or raises with the stack as it was. */
  ghost predicate Yields(t: State, ip: int, base: seq<Slot>, used: seq<Slot>, tr: Trace, res: Res<Value>) {
    t == match res
         case Ok(v) => State(Run, ip, base + [V(v)], tr)
         case Err(x) => State(Unwinding(x), ip, base + used, tr)
  }

  predicate IsBinary(op: Op) {
    op in {EQUAL, LESS, GREATER, LESS_EQUAL, GREATER_EQUAL, ADD, INVOKE_CONTAINS}
  }

  lemma DoBinary(m: Machine, a: State, st: State, op: Op, base: seq<Slot>, x: Value, y: Value) returns (t: State)
    requires Reaches(m, a, st) && st.mode == Run && 0 <= st.ip && At(m.code, m.table, st.ip, Emit1(op)) && IsBinary(op)
    requires st.stack == base + [V(x), V(y)]
    ensures Reaches(m, a, t)
    ensures Yields(t, st.ip + 1, base, [V(x), V(y)], st.tr + [BinaryEvent(op, x, y)], m.w.act(BinaryEvent(op, x, y), st.tr))
  {
    t := Go1(m, a, st, op);
    assert Drop(st.stack, 2) == base;
  }

  lemma DoSetLocal(m: Machine, a: State, st: State, i: nat, base: seq<Slot>, v: Value) returns (t: State)
    requires Reaches(m, a, st) && st.mode == Run && 0 <= st.ip && At(m.code, m.table, st.ip, EmitOperand(SET_LOCAL, i))
    requires i < OPERAND_LIMIT && m.slots + i < |base| && st.stack == base + [V(v)]
    ensures Reaches(m, a, t)
    ensures t == State(Run, st.ip + |EmitOperand(SET_LOCAL, i)|, base[m.slots + i := V(v)] + [V(v)], st.tr)
  {
    t := GoOperand(m, a, st, SET_LOCAL, i);
    assert st.stack[m.slots + i := V(v)] == base[m.slots + i := V(v)] + [V(v)];
  }

  lemma DoPush(m: Machine, a: State, st: State, op: Op, v: Value) returns (t: State)
    requires Reaches(m, a, st) && st.mode == Run && 0 <= st.ip && At(m.code, m.table, st.ip, Emit1(op))
    requires (op, v) in {(NONE, VNone), (TRUE, VBool(true)), (FALSE, VBool(false))}
    ensures Reaches(m, a, t) && t == State(Run, st.ip + 1, st.stack + [V(v)], st.tr)
  {
    t := Go1(m, a, st, op);
  }

  lemma DoConstant(m: Machine, a: State, st: State, i: nat) returns (t: State)
    requires Reaches(m, a, st) && st.mode == Run && 0 <= st.ip && At(m.code, m.table, st.ip, EmitOperand(CONSTANT, i))
    requires i < OPERAND_LIMIT
    ensures Reaches(m, a, t)
    ensures t == State(Run, st.ip + |EmitOperand(CONSTANT, i)|, st.stack + [V(m.pool(i))], st.tr)
  {
    hide EmitOperand, Reaches, At;
    t := GoOperand(m, a, st, CONSTANT, i);
  }

  lemma DoGlobal(m: Machine, a: State, st: State, i: nat) returns (t: State)
    requires Reaches(m, a, st) && st.mode == Run && 0 <= st.ip && At(m.code, m.table, st.ip, EmitOperand(GET_GLOBAL, i))
    requires i < OPERAND_LIMIT
    ensures Reaches(m, a, t)
    ensures Yields(t, st.ip + |EmitOperand(GET_GLOBAL, i)|, st.stack, [], st.tr + [Loaded(i)], m.w.act(Loaded(i), st.tr))
  {
    hide EmitOperand, Reaches, At;
    t := GoOperand(m, a, st, GET_GLOBAL, i);
    assert Drop(st.stack, 0) == st.stack && st.stack + [] == st.stack;
  }

  lemma DoGetLocal(m: Machine, a: State, st: State, i: nat) returns (t: State)
    requires Reaches(m, a, st) && st.mode == Run && 0 <= st.ip && At(m.code, m.table, st.ip, EmitOperand(GET_LOCAL, i))
    requires i < OPERAND_LIMIT && m.slots + i < |st.stack|
    ensures Reaches(m, a, t)
    ensures t == State(Run, st.ip + |EmitOperand(GET_LOCAL, i)|, st.stack + [st.stack[m.slots + i]], st.tr)
  {
    hide EmitOperand, Reaches, At;
    t := GoOperand(m, a, st, GET_LOCAL, i);
  }

  lemma DoPop(m: Machine, a: State, st: State, base: seq<Slot>, x: Slot) returns (t: State)
    requires Reaches(m, a, st) && st.mode == Run && 0 <= st.ip && At(m.code, m.table, st.ip, Emit1(POP)) && st.stack == base + [x]
    ensures Reaches(m, a, t) && t == State(Run, st.ip + 1, base, st.tr)
  {
    t := Go1(m, a, st, POP);
    assert Drop(st.stack, 1) == base;
  }

  lemma DoSwap(m: Machine, a: State, st: State, base: seq<Slot>, x: Slot, y: Slot) returns (t: State)
    requires Reaches(m, a, st) && st.mode == Run && 0 <= st.ip && At(m.code, m.table, st.ip, Emit1(SWAP))
    requires st.stack == base + [x, y]
    ensures Reaches(m, a, t) && t == State(Run, st.ip + 1, base + [y, x], st.tr)
  {
    t := Go1(m, a, st, SWAP);
    assert Drop(st.stack, 2) == base;
  }

  lemma DoDup1(m: Machine, a: State, st: State, base: seq<Slot>, x: Slot, y: Slot) returns (t: State)
    requires Reaches(m, a, st) && st.mode == Run && 0 <= st.ip && At(m.code, m.table, st.ip, EmitOperand(DUP, 1))
    requires st.stack == base + [x, y]
    ensures Reaches(m, a, t) && t == State(Run, st.ip + 2, base + [x, y, x], st.tr)
  {
    t := GoOperand(m, a, st, DUP, 1);
    assert st.stack + [x] == base + [x, y, x];
  }

  lemma DoIs(m: Machine, a: State, st: State, base: seq<Slot>, x: Value, y: Value) returns (t: State)
    requires Reaches(m, a, st) && st.mode == Run && 0 <= st.ip && At(m.code, m.table, st.ip, Emit1(IS))
    requires st.stack == base + [V(x), V(y)]
    ensures Reaches(m, a, t) && t == State(Run, st.ip + 1, base + [V(VBool(x == y))], st.tr)
  {
    t := Go1(m, a, st, IS);
    assert Drop(st.stack, 2) == base;
  }

  lemma DoNot(m: Machine, a: State, st: State, base: seq<Slot>, v: Value) returns (t: State)
    requires Reaches(m, a, st) && st.mode == Run && 0 <= st.ip && At(m.code, m.table, st.ip, Emit1(NOT))
    requires st.stack == base + [V(v)]
    ensures Reaches(m, a, t)
    ensures var r := Negate(m.w, EvalResult([], st.tr, Ok(v))); Yields(t, st.ip + 1, base, [V(v)], r.tr, r.res)
  {
    hide Truthy;
    t := Go1(m, a, st, NOT);
    assert Drop(st.stack, 1) == base;
  }

  predicate IsBranch(op: Op) {
    op in {JUMP_IF_FALSE_OR_POP, JUMP_IF_TRUE_OR_POP, POP_JUMP_IF_FALSE}
  }

  /** A conditional jump: taken or not by the truth of the top value, which stays only if its jump says so. */
  lemma DoBranch(m: Machine, a: State, st: State, op: Op, distance: int, base: seq<Slot>, v: Value) returns (t: State)
    requires Reaches(m, a, st) && st.mode == Run && 0 <= st.ip && At(m.code, m.table, st.ip, EmitJump(op, distance))
    requires IsBranch(op) && st.stack == base + [V(v)]
    ensures Reaches(m, a, t)
    ensures var (tr, b) := Truthy(m.w, v, st.tr);
      match b
      case Err(x) => t == State(Unwinding(x), st.ip + 3, base + [V(v)], tr)
      case Ok(b) =>
        if b == (op == JUMP_IF_TRUE_OR_POP)
        then t == State(Run, st.ip + 3 + distance, if op == POP_JUMP_IF_FALSE then base else base + [V(v)], tr)
        else t == State(Run, st.ip + 3, base, tr)
  {
    hide Truthy;
    t := GoJump(m, a, st, op, distance);
    assert Drop(st.stack, 1) == base;
  }

  lemma DoJump(m: Machine, a: State, st: State, distance: int) returns (t: State)
    requires Reaches(m, a, st) && st.mode == Run && 0 <= st.ip && At(m.code, m.table, st.ip, EmitJump(JUMP, distance))
    ensures Reaches(m, a, t) && t == st.(ip := st.ip + 3 + distance)
  {
    t := GoJump(m, a, st, JUMP, distance);
  }

  lemma DoCall(m: Machine, a: State, st: State, base: seq<Slot>, f: Value, args: seq<Value>) returns (t: State)
    requires Reaches(m, a, st) && st.mode == Run && 0 <= st.ip && At(m.code, m.table, st.ip, EmitOperand(CALL, |args|))
    requires |args| < OPERAND_LIMIT && st.stack == base + [V(f)] + Pushed(args)
    ensures Reaches(m, a, t)
    ensures Yields(t, st.ip + |EmitOperand(CALL, |args|)|, base, [V(f)] + Pushed(args), st.tr + [Called(f, args)],
                   m.w.act(Called(f, args), st.tr))
  {
    hide EmitOperand;
    t := GoOperand(m, a, st, CALL, |args|);
    var n := |args|;
    assert Drop(st.stack, n + 1) == base;
    assert st.stack[|st.stack| - n..] == Pushed(args);
    assert Values(Pushed(args)) == args;
    assert base + [V(f)] + Pushed(args) == base + ([V(f)] + Pushed(args));
  }

  function Pushed(vs: seq<Value>): (s: seq<Slot>)
    ensures |s| == |vs| && AllValues(s)
  {
    seq(|vs|, i requires 0 <= i < |vs| => V(vs[i]))
  }

  // ----- expressions -----

  ghost predicate AllValues(s: seq<Slot>) {
    forall i | 0 <= i < |s| :: s[i].V?
  }

  /** The machine did what evaluating an expression to `r` asks for, starting with stack `s`: it stands at
      `end` with the value on top of `base`, or it is raising with only temporaries above `base`. */
  ghost predicate ExprDone(m: Machine, env: Env, s: seq<Slot>, r: EvalResult, end: int,
                           t: State, base: seq<Slot>, above: seq<Slot>)
  {
    && t.tr == r.tr && t.stack == base + above && Moved(m, env, s, r.env, base)
    && match r.res
       case Ok(v) => t.mode == Run && t.ip == end && above == [V(v)]
       case Err(x) => t.mode == Unwinding(x) && AllValues(above)
  }

  lemma {:induction false} RunExpr(m: Machine, e: Expr, env: Env, tr: Trace, at: nat, s: seq<Slot>)
    returns (t: State, base: seq<Slot>, above: seq<Slot>)
    requires At(m.code, m.table, at, GenExpr(e)) && ExprOk(e, Shape(env)) && Agrees(m, env, s)
    ensures Reaches(m, State(Run, at, s, tr), t)
    ensures ExprDone(m, env, s, EvalExpr(m.w, m.pool, e, env, tr), at + |GenExpr(e)|, t, base, above)
    decreases e, 1
  {
    hide Execute, ExprDone, Agrees, EvalAssign, EvalAdd, EvalShortCircuit, EvalTernary, EvalCompare, EvalCall;
    hide GenShortCircuit, GenTernary, GenLinks, GenArgs, Reaches, Negate, EmitOperand, Emit1;
    match e
    case Assign(_, _) => t, base, above := RunAssign(m, e, env, tr, at, s);
    case Add(_, _) => t, base, above := RunAdd(m, e, env, tr, at, s);
    case Not(_) => t, base, above := RunNot(m, e, env, tr, at, s);
    case And(_, _) => t, base, above := RunShortCircuit(m, e, env, tr, at, s);
    case Or(_, _) => t, base, above := RunShortCircuit(m, e, env, tr, at, s);
    case Ternary(_, _, _) => t, base, above := RunTernary(m, e, env, tr, at, s);
    case Compare(_, _) => t, base, above := RunCompare(m, e, env, tr, at, s);
    case Call(_, _) => t, base, above := RunCall(m, e, env, tr, at, s);
    case _ => t, base, above := RunLeaf(m, e, env, tr, at, s);
  }

  lemma RunLeaf(m: Machine, e: Expr, env: Env, tr: Trace, at: nat, s: seq<Slot>)
    returns (t: State, base: seq<Slot>, above: seq<Slot>)
    requires e.Literal? || e.Const? || e.Global? || e.Local?
    requires At(m.code, m.table, at, GenExpr(e)) && ExprOk(e, Shape(env)) && Agrees(m, env, s)
    ensures Reaches(m, State(Run, at, s, tr), t)
    ensures ExprDone(m, env, s, EvalExpr(m.w, m.pool, e, env, tr), at + |GenExpr(e)|, t, base, above)
  {
    hide Execute, Reaches, At, EmitOperand, Emit1;
    var a := State(Run, at, s, tr);
    Stay(m, a);
    NotMoved(m, env, s);
    base := s;
    match e {
    case Literal(v) => t := DoPush(m, a, a, if v == VBool(true) then TRUE else if v == VBool(false) then FALSE else NONE, v);
    case Const(i) => t := DoConstant(m, a, a, i);
    case Global(i) => t := DoGlobal(m, a, a, i);
    case Local(i) =>
      assert Shape(env)[i];
      t := DoGetLocal(m, a, a, i);
    }
    above := t.stack[|s|..];
  }

  lemma {:induction false} RunAssign(m: Machine, e: Expr, env: Env, tr: Trace, at: nat, s: seq<Slot>)
    returns (t: State, base: seq<Slot>, above: seq<Slot>)
    requires e.Assign? && InScope(e.target, Shape(env)) && ExprOk(e.rhs, Shape(env))
    requires At(m.code, m.table, at, GenExpr(e.rhs) + EmitOperand(SET_LOCAL, e.target)) && Agrees(m, env, s)
    ensures Reaches(m, State(Run, at, s, tr), t)
    ensures ExprDone(m, env, s, EvalAssign(m.w, m.pool, e, env, tr),
                     at + |GenExpr(e.rhs) + EmitOperand(SET_LOCAL, e.target)|, t, base, above)
    decreases e, 0
  {
    hide Execute, GenExpr, EvalExpr, EmitOperand, Moved, ExprOk, Agrees, Reaches, At;
    var a := State(Run, at, s, tr);
    var r, r1 := EvalAssign(m.w, m.pool, e, env, tr), EvalExpr(m.w, m.pool, e.rhs, env, tr);
    AtSplit(m.code, m.table, at, GenExpr(e.rhs), EmitOperand(SET_LOCAL, e.target));
    t, base, above := RunExpr(m, e.rhs, env, tr, at, s);
    MovedFacts(m, env, s, r1.env, base);
    if r1.res.Ok? {
      assert Shape(r1.env)[e.target];
      t := DoSetLocal(m, a, t, e.target, base, r1.res.v);
      MovedStore(m, r1.env, base, e.target, r1.res.v);
      var base' := base[m.slots + e.target := V(r1.res.v)];
      MovedTwice(m, env, s, r1.env, base, r.env, base');
      base := base';
    }
  }

  /** Evaluate `e` above a temporary `v`. */
  lemma {:induction false} RunNext(m: Machine, a: State, e: Expr, env: Env, s: seq<Slot>, r1: EvalResult,
                                   t1: State, base1: seq<Slot>, v: Value)
    returns (t: State, base: seq<Slot>, above: seq<Slot>)
    requires Reaches(m, a, t1) && t1.mode == Run && t1.tr == r1.tr && t1.stack == base1 + [V(v)]
    requires Moved(m, env, s, r1.env, base1)
    requires 0 <= t1.ip && At(m.code, m.table, t1.ip, GenExpr(e)) && ExprOk(e, Shape(env))
    ensures Reaches(m, a, t)
    ensures var r := EvalExpr(m.w, m.pool, e, r1.env, r1.tr);
      && t.tr == r.tr && t.stack == base + above && Moved(m, env, s, r.env, base)
      && match r.res
         case Ok(x) => t.mode == Run && t.ip == t1.ip + |GenExpr(e)| && above == [V(v), V(x)]
         case Err(x) => t.mode == Unwinding(x) && AllValues(above)
    decreases e, 2
  {
    hide GenExpr, EvalExpr, Moved, ExprOk, Agrees, Reaches, At;
    var r := EvalExpr(m.w, m.pool, e, r1.env, r1.tr);
    MovedFacts(m, env, s, r1.env, base1);
    AgreesUnder(m, r1.env, base1, [V(v)]);
    var u, above1;
    t, u, above1 := RunExpr(m, e, r1.env, r1.tr, t1.ip, t1.stack);
    Then(m, a, t1, t);
    base := MovedUnder(m, r1.env, base1, [V(v)], r.env, u);
    MovedTwice(m, env, s, r1.env, base1, r.env, base);
    above := [V(v)] + above1;
  }

  lemma {:induction false} RunAdd(m: Machine, e: Expr, env: Env, tr: Trace, at: nat, s: seq<Slot>)
    returns (t: State, base: seq<Slot>, above: seq<Slot>)
    requires e.Add? && ExprOk(e.left, Shape(env)) && ExprOk(e.right, Shape(env)) && Agrees(m, env, s)
    requires At(m.code, m.table, at, GenExpr(e.left) + (GenExpr(e.right) + Emit1(ADD)))
    ensures Reaches(m, State(Run, at, s, tr), t)
    ensures ExprDone(m, env, s, EvalAdd(m.w, m.pool, e, env, tr),
                     at + |GenExpr(e.left)| + |GenExpr(e.right)| + 1, t, base, above)
    decreases e, 0
  {
    hide Execute, GenExpr, EvalExpr, Emit1, Moved, ExprOk, Agrees, Reaches, At;
    var a := State(Run, at, s, tr);
    var r1 := EvalExpr(m.w, m.pool, e.left, env, tr);
    var r2 := EvalExpr(m.w, m.pool, e.right, r1.env, r1.tr);
    AtSplit(m.code, m.table, at, GenExpr(e.left), GenExpr(e.right) + Emit1(ADD));
    AtSplit(m.code, m.table, at + |GenExpr(e.left)|, GenExpr(e.right), Emit1(ADD));
    t, base, above := RunExpr(m, e.left, env, tr, at, s);
    if r1.res.Ok? {
      t, base, above := RunNext(m, a, e.right, env, s, r1, t, base, r1.res.v);
      if r2.res.Ok? {
        t := DoBinary(m, a, t, ADD, base, r1.res.v, r2.res.v);
        above := t.stack[|base|..];
      }
    }
  }

  /** Evaluate `e` where an earlier expression left off. */
  lemma {:induction false} RunAfter(m: Machine, a: State, e: Expr, env: Env, s: seq<Slot>, env1: Env, t1: State)
    returns (t: State, base: seq<Slot>, above: seq<Slot>)
    requires Reaches(m, a, t1) && t1.mode == Run && Moved(m, env, s, env1, t1.stack)
    requires 0 <= t1.ip && At(m.code, m.table, t1.ip, GenExpr(e)) && ExprOk(e, Shape(env))
    ensures Reaches(m, a, t)
    ensures ExprDone(m, env, s, EvalExpr(m.w, m.pool, e, env1, t1.tr), t1.ip + |GenExpr(e)|, t, base, above)
    decreases e, 2
  {
    hide GenExpr, EvalExpr, Moved, ExprOk, Agrees, Reaches, At;
    MovedFacts(m, env, s, env1, t1.stack);
    t, base, above := RunExpr(m, e, env1, t1.tr, t1.ip, t1.stack);
    Then(m, a, t1, t);
    MovedTwice(m, env, s, env1, t1.stack, EvalExpr(m.w, m.pool, e, env1, t1.tr).env, base);
  }

  lemma {:induction false} RunNot(m: Machine, e: Expr, env: Env, tr: Trace, at: nat, s: seq<Slot>)
    returns (t: State, base: seq<Slot>, above: seq<Slot>)
    requires e.Not? && ExprOk(e.operand, Shape(env)) && Agrees(m, env, s)
    requires At(m.code, m.table, at, GenExpr(e.operand) + Emit1(NOT))
    ensures Reaches(m, State(Run, at, s, tr), t)
    ensures ExprDone(m, env, s, Negate(m.w, EvalExpr(m.w, m.pool, e.operand, env, tr)), at + |GenExpr(e.operand)| + 1,
                     t, base, above)
    decreases e, 0
  {
    hide Execute, GenExpr, EvalExpr, Emit1, Moved, ExprOk, Agrees, Reaches, At, Truthy;
    var a := State(Run, at, s, tr);
    var r1 := EvalExpr(m.w, m.pool, e.operand, env, tr);
    AtSplit(m.code, m.table, at, GenExpr(e.operand), Emit1(NOT));
    t, base, above := RunExpr(m, e.operand, env, tr, at, s);
    if r1.res.Ok? {
      t := DoNot(m, a, t, base, r1.res.v);
      above := t.stack[|base|..];
    }
  }

  lemma {:induction false} RunShortCircuit(m: Machine, e: Expr, env: Env, tr: Trace, at: nat, s: seq<Slot>)
    returns (t: State, base: seq<Slot>, above: seq<Slot>)
    requires (e.And? || e.Or?) && ExprOk(e.left, Shape(env)) && ExprOk(e.right, Shape(env)) && Agrees(m, env, s)
    requires At(m.code, m.table, at, GenShortCircuit(e))
    ensures Reaches(m, State(Run, at, s, tr), t)
    ensures ExprDone(m, env, s, EvalShortCircuit(m.w, m.pool, e, env, tr), at + |GenShortCircuit(e)|, t, base, above)
    decreases e, 0
  {
    hide Execute, GenExpr, EvalExpr, EmitJump, Moved, ExprOk, Agrees, Reaches, At, Truthy;
    var a := State(Run, at, s, tr);
    var op := if e.And? then JUMP_IF_FALSE_OR_POP else JUMP_IF_TRUE_OR_POP;
    var left, right := GenExpr(e.left), GenExpr(e.right);
    var r1 := EvalExpr(m.w, m.pool, e.left, env, tr);
    AtSplit(m.code, m.table, at, left, EmitJump(op, |right|) + right);
    AtSplit(m.code, m.table, at + |left|, EmitJump(op, |right|), right);
    t, base, above := RunExpr(m, e.left, env, tr, at, s);
    if r1.res.Ok? {
      var b := Truthy(m.w, r1.res.v, r1.tr).1;
      t := DoBranch(m, a, t, op, |right|, base, r1.res.v);
      if b.Ok? && b.v == e.And? {
        t, base, above := RunAfter(m, a, e.right, env, s, r1.env, t);
      }
    }
  }

  lemma {:induction false} RunTernary(m: Machine, e: Expr, env: Env, tr: Trace, at: nat, s: seq<Slot>)
    returns (t: State, base: seq<Slot>, above: seq<Slot>)
    requires e.Ternary? && ExprOk(e.cond, Shape(env)) && ExprOk(e.thenValue, Shape(env)) && ExprOk(e.elseValue, Shape(env))
    requires At(m.code, m.table, at, GenTernary(e)) && Agrees(m, env, s)
    ensures Reaches(m, State(Run, at, s, tr), t)
    ensures ExprDone(m, env, s, EvalTernary(m.w, m.pool, e, env, tr), at + |GenTernary(e)|, t, base, above)
    decreases e, 0
  {
    hide Execute, GenExpr, EvalExpr, EmitJump, Emit1, Moved, ExprOk, Agrees, Reaches, At, Truthy;
    var a := State(Run, at, s, tr);
    var cond, thn, els := GenExpr(e.cond), GenExpr(e.thenValue), GenExpr(e.elseValue);
    var test, over := EmitJump(JUMP_IF_TRUE_OR_POP, |els| + 3), EmitJump(JUMP, 1 + |thn|);
    var r1 := EvalExpr(m.w, m.pool, e.cond, env, tr);
    AtSplit6(m.code, m.table, at, cond, test, els, over, Emit1(POP), thn);
    t, base, above := RunExpr(m, e.cond, env, tr, at, s);
    if r1.res.Ok? {
      var b := Truthy(m.w, r1.res.v, r1.tr).1;
      t := DoBranch(m, a, t, JUMP_IF_TRUE_OR_POP, |els| + 3, base, r1.res.v);
      if b.Ok? && b.v {
        t := DoPop(m, a, t, base, V(r1.res.v));
        t, base, above := RunAfter(m, a, e.thenValue, env, s, r1.env, t);
      } else if b.Ok? {
        t, base, above := RunAfter(m, a, e.elseValue, env, s, r1.env, t);
        if t.mode == Run {
          t := DoJump(m, a, t, 1 + |thn|);
        }
      }
    }
  }

  // ----- comparison chains -----

  /** One comparison; `t` has the result over `base`, or raises with only values above it. */
  lemma DoCompare(m: Machine, a: State, st: State, op: CmpOp, base: seq<Slot>, x: Value, y: Value)
    returns (t: State, above: seq<Slot>)
    requires Reaches(m, a, st) && st.mode == Run && 0 <= st.ip && At(m.code, m.table, st.ip, GenCompare(op))
    requires st.stack == base + [V(x), V(y)]
    ensures Reaches(m, a, t) && t.stack == base + above
    ensures var c := Comparison(m.w, op, x, y, [], st.tr);
      && t.tr == c.tr
      && match c.res
         case Ok(v) => t.mode == Run && t.ip == st.ip + |GenCompare(op)| && above == [V(v)]
         case Err(z) => t.mode == Unwinding(z) && AllValues(above)
  {
    hide Execute, Reaches, At, Truthy, Emit1;
    var negated := op == Ne || op == IsNot || op == NotIn;
    var code := match op
      case Eq => EQUAL case Ne => EQUAL case Gt => GREATER case Ge => GREATER_EQUAL case Lt => LESS
      case Le => LESS_EQUAL case Is => IS case IsNot => IS case In => INVOKE_CONTAINS case NotIn => INVOKE_CONTAINS;
    if negated {
      AtSplit(m.code, m.table, st.ip, Emit1(code), Emit1(NOT));
    }
    if code == IS {
      t := DoIs(m, a, st, base, x, y);
    } else {
      t := DoBinary(m, a, st, code, base, x, y);
    }
    if negated && t.mode == Run {
      t := DoNot(m, a, t, base, t.stack[|base|].v);
    }
    above := t.stack[|base|..];
  }

  lemma {:induction false} RunCompare(m: Machine, e: Expr, env: Env, tr: Trace, at: nat, s: seq<Slot>)
    returns (t: State, base: seq<Slot>, above: seq<Slot>)
    requires e.Compare? && ExprOk(e.first, Shape(env)) && LinksOk(e.links, Shape(env)) && Agrees(m, env, s)
    requires At(m.code, m.table, at, GenExpr(e.first) + GenLinks(e.links, false))
    ensures Reaches(m, State(Run, at, s, tr), t)
    ensures ExprDone(m, env, s, EvalCompare(m.w, m.pool, e, env, tr),
                     at + |GenExpr(e.first)| + |GenLinks(e.links, false)|, t, base, above)
    decreases e, 0
  {
    hide Execute, GenExpr, GenLinks, EvalExpr, EvalLinks, Moved, ExprOk, LinksOk, Agrees, Reaches, At;
    var a := State(Run, at, s, tr);
    var r1 := EvalExpr(m.w, m.pool, e.first, env, tr);
    AtSplit(m.code, m.table, at, GenExpr(e.first), GenLinks(e.links, false));
    t, base, above := RunExpr(m, e.first, env, tr, at, s);
    if r1.res.Ok? {
      t, base, above := RunLinks(m, a, e.links, false, env, s, r1, t, base);
    }
  }

  /** A chain of comparisons whose left operand is on top. An inner chain that runs to its last comparison
      ends two bytes further on, past the clean-up of the outermost chain; one that stops early, or the
      outermost before its clean-up, still has the operand it stopped at under the result. */
  ghost predicate ChainDone(m: Machine, env: Env, s: seq<Slot>, r: EvalResult, end: int, inner: bool,
                            t: State, base: seq<Slot>, above: seq<Slot>)
  {
    && t.tr == r.tr && t.stack == base + above && Moved(m, env, s, r.env, base)
    && match r.res
       case Ok(v) =>
         && t.mode == Run
         && (inner && t.ip == end ==> |above| == 2 && above[1] == V(v))
         && (!(inner && t.ip == end) ==> above == [V(v)] && t.ip == if inner then end + 2 else end)
       case Err(x) => t.mode == Unwinding(x) && AllValues(above)
  }

  lemma {:induction false} RunLinks(m: Machine, a: State, links: Links, inner: bool, env: Env, s: seq<Slot>,
                                    r1: EvalResult, t1: State, base1: seq<Slot>)
    returns (t: State, base: seq<Slot>, above: seq<Slot>)
    requires r1.res.Ok? && Reaches(m, a, t1) && t1 == State(Run, t1.ip, base1 + [V(r1.res.v)], r1.tr)
    requires Moved(m, env, s, r1.env, base1) && LinksOk(links, Shape(env))
    requires 0 <= t1.ip && At(m.code, m.table, t1.ip, GenLinks(links, inner))
    ensures Reaches(m, a, t)
    ensures ChainDone(m, env, s, EvalLinks(m.w, m.pool, links, r1.res.v, r1.env, r1.tr),
                      t1.ip + |GenLinks(links, inner)|, inner, t, base, above)
    decreases links, 1
  {
    hide GenExpr, GenLinks, EvalExpr, EvalLinks, Moved, ExprOk, Reaches, ChainDone;
    if links.more.None? {
      t, base, above := RunLastLink(m, a, links, inner, env, s, r1, t1, base1);
    } else {
      t, base, above := RunInnerLinks(m, a, links, inner, env, s, r1, t1, base1);
    }
  }

  lemma {:induction false} RunLastLink(m: Machine, a: State, links: Links, inner: bool, env: Env, s: seq<Slot>,
                                       r1: EvalResult, t1: State, base1: seq<Slot>)
    returns (t: State, base: seq<Slot>, above: seq<Slot>)
    requires r1.res.Ok? && Reaches(m, a, t1) && t1 == State(Run, t1.ip, base1 + [V(r1.res.v)], r1.tr)
    requires Moved(m, env, s, r1.env, base1) && links.more.None? && ExprOk(links.operand, Shape(env))
    requires 0 <= t1.ip && At(m.code, m.table, t1.ip, GenLinks(links, inner))
    ensures Reaches(m, a, t)
    ensures ChainDone(m, env, s, EvalLinks(m.w, m.pool, links, r1.res.v, r1.env, r1.tr),
                      t1.ip + |GenLinks(links, inner)|, inner, t, base, above)
    decreases links.operand, 3
  {
    hide Execute, GenExpr, EvalExpr, GenCompare, EmitJump, Moved, ExprOk, Agrees, Reaches, At;
    var operand, op := GenExpr(links.operand), GenCompare(links.op);
    var over := if inner then EmitJump(JUMP, 2) else [];
    var r2 := EvalExpr(m.w, m.pool, links.operand, r1.env, r1.tr);
    AtSplit(m.code, m.table, t1.ip, operand, op + over);
    AtSplit(m.code, m.table, t1.ip + |operand|, op, over);
    t, base, above := RunNext(m, a, links.operand, env, s, r1, t1, base1, r1.res.v);
    if r2.res.Ok? {
      ComparisonEnv(m.w, links.op, r1.res.v, r2.res.v, r2.env, r2.tr);
      t, above := DoCompare(m, a, t, links.op, base, r1.res.v, r2.res.v);
      if inner && t.mode == Run {
        t := DoJump(m, a, t, 2);
      }
    }
  }

  lemma ComparisonEnv(w: World, op: CmpOp, x: Value, y: Value, env: Env, tr: Trace)
    ensures Comparison(w, op, x, y, env, tr) == Comparison(w, op, x, y, [], tr).(env := env)
  {
    hide Truthy;
  }

  lemma {:induction false} RunInnerLinks(m: Machine, a: State, links: Links, inner: bool, env: Env, s: seq<Slot>,
                                         r1: EvalResult, t1: State, base1: seq<Slot>)
    returns (t: State, base: seq<Slot>, above: seq<Slot>)
    requires r1.res.Ok? && Reaches(m, a, t1) && t1 == State(Run, t1.ip, base1 + [V(r1.res.v)], r1.tr)
    requires Moved(m, env, s, r1.env, base1) && links.more.Some?
    requires ExprOk(links.operand, Shape(env)) && LinksOk(links.more.value, Shape(env))
    requires 0 <= t1.ip && At(m.code, m.table, t1.ip, GenLinks(links, inner))
    ensures Reaches(m, a, t)
    ensures ChainDone(m, env, s, EvalLinks(m.w, m.pool, links, r1.res.v, r1.env, r1.tr),
                      t1.ip + |GenLinks(links, inner)|, inner, t, base, above)
    decreases links, 0
  {
    hide Execute, GenExpr, EvalExpr, GenCompare, EmitJump, EmitOperand, Emit1, Moved, ExprOk, LinksOk, Agrees, Reaches, At;
    hide Comparison, Truthy;
    var rest := GenLinks(links.more.value, true);
    var cleanup := if inner then [] else Emit1(SWAP) + Emit1(POP);
    var test := EmitJump(JUMP_IF_FALSE_OR_POP, |rest|);
    t, base, above := RunKept(m, a, links, env, s, r1, t1, base1, test + (rest + cleanup));
    var r2 := EvalExpr(m.w, m.pool, links.operand, r1.env, r1.tr);
    if r2.res.Ok? {
      var c := Comparison(m.w, links.op, r1.res.v, r2.res.v, r2.env, r2.tr);
      if c.res.Ok? {
        AtSplit3(m.code, m.table, t.ip, test, rest, cleanup);
        AtSplit(m.code, m.table, t.ip, test, rest);
        assert base + above == base + [V(r2.res.v), V(c.res.v)];
        var end := t.ip + 3 + |rest|;
        t, base, above := RunTested(m, a, links.more.value, env, s, c, r2.res.v, t, base);
        t, above := CleanedUp(m, a, env, s, Tested(m, links.more.value, c, r2.res.v), end, inner, t, base, above);
      }
    }
  }

  /** The rest of a chain after one comparison has given `c`. */
  ghost function Tested(m: Machine, more: Links, c: EvalResult, x: Value): EvalResult
    requires c.res.Ok?
  {
    var (tr, b) := Truthy(m.w, c.res.v, c.tr);
    if b.Err? then EvalResult(c.env, tr, Err(b.exc))
    else if b.v then EvalLinks(m.w, m.pool, more, x, c.env, tr)
    else EvalResult(c.env, tr, c.res)
  }

  /** The jump over the rest of a chain, and the rest. */
  lemma {:induction false} RunTested(m: Machine, a: State, more: Links, env: Env, s: seq<Slot>, c: EvalResult, x: Value,
                                     t1: State, base1: seq<Slot>)
    returns (t: State, base: seq<Slot>, above: seq<Slot>)
    requires c.res.Ok? && Reaches(m, a, t1) && t1 == State(Run, t1.ip, base1 + [V(x), V(c.res.v)], c.tr)
    requires Moved(m, env, s, c.env, base1) && LinksOk(more, Shape(env)) && 0 <= t1.ip
    requires At(m.code, m.table, t1.ip, EmitJump(JUMP_IF_FALSE_OR_POP, |GenLinks(more, true)|) + GenLinks(more, true))
    ensures Reaches(m, a, t)
    ensures ChainDone(m, env, s, Tested(m, more, c, x), t1.ip + 3 + |GenLinks(more, true)|, true, t, base, above)
    decreases more, 2
  {
    hide GenLinks, EvalLinks, EmitJump, Moved, LinksOk, Reaches, At, Truthy;
    AtSplit(m.code, m.table, t1.ip, EmitJump(JUMP_IF_FALSE_OR_POP, |GenLinks(more, true)|), GenLinks(more, true));
    var b := Truthy(m.w, c.res.v, c.tr).1;
    assert base1 + [V(x), V(c.res.v)] == (base1 + [V(x)]) + [V(c.res.v)];
    t := DoBranch(m, a, t1, JUMP_IF_FALSE_OR_POP, |GenLinks(more, true)|, base1 + [V(x)], c.res.v);
    base, above := base1, t.stack[|base1|..];
    if b.Ok? && b.v {
      t, base, above := RunLinks(m, a, more, true, env, s, EvalResult(c.env, t.tr, Ok(x)), t, base1);
    }
  }

  /** The end of a chain that stopped early: drop the operand under the result. */
  lemma DoCleanup(m: Machine, a: State, st: State, base: seq<Slot>, above1: seq<Slot>) returns (t: State, above: seq<Slot>)
    requires Reaches(m, a, st) && st.mode == Run && 0 <= st.ip && At(m.code, m.table, st.ip, Emit1(SWAP) + Emit1(POP))
    requires |above1| == 2 && st.stack == base + above1
    ensures Reaches(m, a, t) && above == [above1[1]]
    ensures t == State(Run, st.ip + 2, base + above, st.tr)
  {
    hide Execute, Emit1, Reaches, At;
    AtSplit(m.code, m.table, st.ip, Emit1(SWAP), Emit1(POP));
    t := DoSwap(m, a, st, base, above1[0], above1[1]);
    above := [above1[1]];
    assert base + [above1[1], above1[0]] == (base + above) + [above1[0]];
    t := DoPop(m, a, t, base + above, above1[0]);
  }

  /** The same for a chain however it got to its end. */
  lemma CleanedUp(m: Machine, a: State, env: Env, s: seq<Slot>, r: EvalResult, end: nat, inner: bool,
                  t1: State, base: seq<Slot>, above1: seq<Slot>) returns (t: State, above: seq<Slot>)
    requires Reaches(m, a, t1) && ChainDone(m, env, s, r, end, true, t1, base, above1)
    requires !inner ==> At(m.code, m.table, end, Emit1(SWAP) + Emit1(POP))
    ensures Reaches(m, a, t) && ChainDone(m, env, s, r, if inner then end else end + 2, inner, t, base, above)
  {
    hide Reaches, At, Emit1, Moved;
    t, above := t1, above1;
    if !inner && t.mode == Run && t.ip == end {
      t, above := DoCleanup(m, a, t, base, above);
    }
  }

  /** `left op x` with `x` kept underneath. */
  lemma {:induction false} RunKept(m: Machine, a: State, links: Links, env: Env, s: seq<Slot>,
                                   r1: EvalResult, t1: State, base1: seq<Slot>, rest: Text)
    returns (t: State, base: seq<Slot>, above: seq<Slot>)
    requires r1.res.Ok? && Reaches(m, a, t1) && t1 == State(Run, t1.ip, base1 + [V(r1.res.v)], r1.tr)
    requires Moved(m, env, s, r1.env, base1) && ExprOk(links.operand, Shape(env))
    requires 0 <= t1.ip
    requires At(m.code, m.table, t1.ip, GenExpr(links.operand) + (Emit1(SWAP) + (EmitOperand(DUP, 1) + (GenCompare(links.op) + rest))))
    ensures Reaches(m, a, t) && t.stack == base + above
    ensures var r2 := EvalExpr(m.w, m.pool, links.operand, r1.env, r1.tr);
      if r2.res.Err? then
        t.tr == r2.tr && t.mode == Unwinding(r2.res.exc) && Moved(m, env, s, r2.env, base) && AllValues(above)
      else
        var c := Comparison(m.w, links.op, r1.res.v, r2.res.v, r2.env, r2.tr);
        && t.tr == c.tr && Moved(m, env, s, c.env, base)
        && match c.res
           case Ok(v) =>
             && t.mode == Run && above == [V(r2.res.v), V(v)]
             && t.ip == t1.ip + |GenExpr(links.operand)| + 3 + |GenCompare(links.op)|
             && At(m.code, m.table, t.ip, rest)
           case Err(x) => t.mode == Unwinding(x) && AllValues(above)
    decreases links.operand, 3
  {
    hide Execute, GenExpr, EvalExpr, GenCompare, Emit1, EmitOperand, Moved, ExprOk, Agrees, Reaches, At, Comparison;
    var operand, op := GenExpr(links.operand), GenCompare(links.op);
    var r2 := EvalExpr(m.w, m.pool, links.operand, r1.env, r1.tr);
    AtSplit3(m.code, m.table, t1.ip, operand, Emit1(SWAP), EmitOperand(DUP, 1) + (op + rest));
    AtSplit3(m.code, m.table, t1.ip + |operand| + 1, EmitOperand(DUP, 1), op, rest);
    t, base, above := RunNext(m, a, links.operand, env, s, r1, t1, base1, r1.res.v);
    if r2.res.Ok? {
      var x, y := r1.res.v, r2.res.v;
      ComparisonEnv(m.w, links.op, x, y, r2.env, r2.tr);
      t := DoSwap(m, a, t, base, V(x), V(y));
      t := DoDup1(m, a, t, base, V(y), V(x));
      assert base + [V(y), V(x), V(y)] == (base + [V(y)]) + [V(x), V(y)];
      t, above := DoCompare(m, a, t, links.op, base + [V(y)], x, y);
      above := [V(y)] + above;
    }
  }

  lemma {:induction false} RunCall(m: Machine, e: Expr, env: Env, tr: Trace, at: nat, s: seq<Slot>)
    returns (t: State, base: seq<Slot>, above: seq<Slot>)
    requires e.Call? && ExprOk(e.callee, Shape(env)) && ExprsOk(e.args, Shape(env)) && Count(e.args) < OPERAND_LIMIT
    requires Agrees(m, env, s)
    requires At(m.code, m.table, at, GenExpr(e.callee) + (GenArgs(e.args) + EmitOperand(CALL, Count(e.args))))
    ensures Reaches(m, State(Run, at, s, tr), t)
    ensures ExprDone(m, env, s, EvalCall(m.w, m.pool, e, env, tr),
      at + |GenExpr(e.callee) + (GenArgs(e.args) + EmitOperand(CALL, Count(e.args)))|, t, base, above)
    decreases e, 0
  {
    hide Execute, GenExpr, GenArgs, EvalExpr, EvalArgs, EmitOperand, Moved, ExprOk, ExprsOk, Agrees, Reaches, At, Count;
    var a := State(Run, at, s, tr);
    var r1 := EvalExpr(m.w, m.pool, e.callee, env, tr);
    AtSplit(m.code, m.table, at, GenExpr(e.callee), GenArgs(e.args) + EmitOperand(CALL, Count(e.args)));
    t, base, above := RunExpr(m, e.callee, env, tr, at, s);
    if r1.res.Ok? {
      assert base + [V(r1.res.v)] == base + [V(r1.res.v)] + Pushed([]);
      t, base, above := RunArgs(m, a, e.args, r1.res.v, [], env, s, r1, t, base);
    }
  }

  /** The remaining arguments of a call, above the callee and the arguments already evaluated. */
  lemma {:induction false} RunArgs(m: Machine, a: State, args: Exprs, f: Value, done: seq<Value>, env: Env, s: seq<Slot>,
                                   r1: EvalResult, t1: State, base1: seq<Slot>)
    returns (t: State, base: seq<Slot>, above: seq<Slot>)
    requires Reaches(m, a, t1) && t1 == State(Run, t1.ip, base1 + [V(f)] + Pushed(done), r1.tr)
    requires Moved(m, env, s, r1.env, base1) && ExprsOk(args, Shape(env)) && |done| + Count(args) < OPERAND_LIMIT
    requires 0 <= t1.ip
    requires At(m.code, m.table, t1.ip, GenArgs(args) + EmitOperand(CALL, |done| + Count(args)))
    ensures Reaches(m, a, t)
    ensures ExprDone(m, env, s, EvalArgs(m.w, m.pool, args, f, done, r1.env, r1.tr),
                     t1.ip + |GenArgs(args) + EmitOperand(CALL, |done| + Count(args))|, t, base, above)
    decreases args, 0
  {
    hide Execute, GenExpr, EvalExpr, EmitOperand, Moved, ExprOk, Agrees, Reaches, At, Pushed;
    base := base1;
    match args
    case NoExpr =>
      assert GenArgs(args) + EmitOperand(CALL, |done|) == EmitOperand(CALL, |done|);
      t := DoCall(m, a, t1, base, f, done);
      above := t.stack[|base|..];
    case MoreExpr(e, rest) =>
      var piece := GenArgs(rest) + EmitOperand(CALL, |done| + 1 + Count(rest));
      assert GenArgs(args) + EmitOperand(CALL, |done| + Count(args)) == GenExpr(e) + piece;
      AtSplit(m.code, m.table, t1.ip, GenExpr(e), piece);
      var under := [V(f)] + Pushed(done);
      assert t1.stack == base1 + under;
      MovedFacts(m, env, s, r1.env, base1);
      AgreesUnder(m, r1.env, base1, under);
      var r := EvalExpr(m.w, m.pool, e, r1.env, r1.tr);
      var u;
      t, u, above := RunExpr(m, e, r1.env, r1.tr, t1.ip, t1.stack);
      Then(m, a, t1, t);
      base := MovedUnder(m, r1.env, base1, under, r.env, u);
      MovedTwice(m, env, s, r1.env, base1, r.env, base);
      if r.res.Err? {
        above := under + above;
      } else {
        assert under + [V(r.res.v)] == [V(f)] + Pushed(done + [r.res.v]) by { PushedAppend(done, r.res.v); }
        assert t.stack == base + (under + [V(r.res.v)]) == base + [V(f)] + Pushed(done + [r.res.v]);
        t, base, above := RunArgs(m, a, rest, f, done + [r.res.v], env, s, r, t, base);
      }
  }

  lemma PushedAppend(vs: seq<Value>, v: Value)
    ensures Pushed(vs + [v]) == Pushed(vs) + [V(v)]
  {
  }
}
