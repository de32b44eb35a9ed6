/** Running a step function a number of times. */
module Iteration {
  function Iterated<T>(f: T -> T, x: T, n: nat): T
    decreases n
  {
    if n == 0 then x else Iterated(f, f(x), n - 1)
  }

  lemma {:induction false} IteratedAdd<T>(f: T -> T, x: T, i: nat, j: nat)
    ensures Iterated(f, x, i + j) == Iterated(f, Iterated(f, x, i), j)
    decreases i
  {
    if i > 0 {
      IteratedAdd(f, f(x), i - 1, j);
    }
  }
}

/** The run loop of src/vm.c for the opcodes in Bytecode, as a step function over one frame. */
module Vm {
  import opened Options
  import opened Iteration
  import opened Syntax
  import opened Semantics
  import opened Bytecode

  /** The tag of a handler value, named after the opcode src/vm.c stores there. */
  datatype Tag = TryPushed | Raising | Filtered | InFinally | InFinallyRaising | RaisedInFinally | Returned | LoopExit

  /** A stack slot: a value, or a handler packing a tag with a code address. */
  datatype Slot = V(v: Value) | H(tag: Tag, target: nat)

  /** Where the run loop is: fetching, or at one of its labels (_finishException with the thread's exception
      flag up, _finishReturn, _finishPopBlock), or out of the loop. */
  datatype Mode =
    | Run
    | Unwinding(exc: Value)
    | Leaving(result: Value)
    | Popping(count: nat)
    | Finished(value: Value)
    | Uncaught(err: Value)
    | Stuck

  datatype State = State(mode: Mode, ip: int, stack: seq<Slot>, tr: Trace)

  /** What stays fixed while a frame runs: its code, constants, and the two stack marks of its call frame. */
  datatype Machine = Machine(w: World, pool: Pool, code: Code, table: seq<Overlong>, slots: nat, outSlots: nat)

  datatype Hunt = ForException | ForReturn

  /** The handler tags handleException looks for, and those OP_RETURN and OP_EXIT_LOOP look for. */
  predicate Stops(s: Slot, hunt: Hunt) {
    s.H? && match hunt
            case ForException => s.tag in {TryPushed, Filtered, Raising, InFinallyRaising}
            case ForReturn => s.tag in {TryPushed, Filtered}
  }

  /** Index of the topmost slot at or above `floor` that stops the hunt, or None. */
  function FindHandler(stack: seq<Slot>, floor: nat, hunt: Hunt): (r: Option<nat>)
    ensures r.Some? ==> floor <= r.value < |stack| && Stops(stack[r.value], hunt)
  {
    if |stack| <= floor then None
    else if Stops(stack[|stack| - 1], hunt) then Some(|stack| - 1)
    else FindHandler(stack[..|stack| - 1], floor, hunt)
  }

  function Top(stack: seq<Slot>, n: nat): Slot
    requires n < |stack|
  {
    stack[|stack| - 1 - n]
  }

  function Drop(stack: seq<Slot>, n: nat): seq<Slot>
    requires n <= |stack|
  {
    stack[..|stack| - n]
  }

  /** The top `n` slots are values. */
  predicate Plain(stack: seq<Slot>, n: nat) {
    n <= |stack| && forall i | |stack| - n <= i < |stack| :: stack[i].V?
  }

  function Values(slots: seq<Slot>): seq<Value>
    requires forall i | 0 <= i < |slots| :: slots[i].V?
  {
    seq(|slots|, i requires 0 <= i < |slots| => slots[i].v)
  }

  /** Replace the top `n` slots by the outcome of an action, or start unwinding. */
  function Finish(st: State, n: nat, tr: Trace, res: Res<Value>): State
    requires n <= |st.stack|
  {
    match res
    case Ok(v) => st.(stack := Drop(st.stack, n) + [V(v)], tr := tr)
    case Err(x) => st.(mode := Unwinding(x), tr := tr)
  }

  function Acted(m: Machine, st: State, n: nat, ev: Event): State
    requires n <= |st.stack|
  {
    Finish(st, n, st.tr + [ev], m.w.act(ev, st.tr))
  }

  function BinaryEvent(op: Op, a: Value, b: Value): Event {
    match op
    case EQUAL => Compared(Eq, a, b)
    case LESS => Compared(Lt, a, b)
    case GREATER => Compared(Gt, a, b)
    case LESS_EQUAL => Compared(Le, a, b)
    case GREATER_EQUAL => Compared(Ge, a, b)
    case INVOKE_CONTAINS => Contains(b, a)
    case _ => Added(a, b)
  }

  /** Jumps on truth: whether the tested value stays, and whether the jump is taken, by opcode. */
  function Branch(m: Machine, st: State, op: Op, distance: nat): State
    requires Plain(st.stack, 1)
  {
    var v := Top(st.stack, 0).v;
    var (tr, t) := Truthy(m.w, v, st.tr);
    match t
    case Err(x) => st.(mode := Unwinding(x), tr := tr)
    case Ok(b) =>
      var taken := if op == JUMP_IF_TRUE_OR_POP then b else !b;
      var keep := taken && op != POP_JUMP_IF_FALSE;
      st.(ip := if taken then st.ip + distance else st.ip,
          stack := if keep then st.stack else Drop(st.stack, 1), tr := tr)
  }

  /** One instruction; `st.ip` already points after it. */
  function Execute(m: Machine, st: State, op: Op, operand: nat): State {
    var s := st.stack;
    var stuck := st.(mode := Stuck);
    match op
    case NONE => st.(stack := s + [V(VNone)])
    case TRUE => st.(stack := s + [V(VBool(true))])
    case FALSE => st.(stack := s + [V(VBool(false))])
    case POP => if |s| < 1 then stuck else st.(stack := Drop(s, 1))
    case SWAP => if |s| < 2 then stuck else st.(stack := Drop(s, 2) + [Top(s, 0), Top(s, 1)])
    case NOT =>
      if !Plain(s, 1) then stuck else
      var (tr, t) := Truthy(m.w, Top(s, 0).v, st.tr);
      Finish(st, 1, tr, match t case Ok(b) => Ok(VBool(!b)) case Err(x) => Err(x))
    case IS => if !Plain(s, 2) then stuck else Finish(st, 2, st.tr, Ok(VBool(Top(s, 1).v == Top(s, 0).v)))
    case EQUAL | LESS | GREATER | LESS_EQUAL | GREATER_EQUAL | ADD | INVOKE_CONTAINS =>
      if !Plain(s, 2) then stuck else Acted(m, st, 2, BinaryEvent(op, Top(s, 1).v, Top(s, 0).v))
    case INVOKE_ITER => if !Plain(s, 1) then stuck else Acted(m, st, 1, Iterate(Top(s, 0).v))
    case RETURN => if !Plain(s, 1) then stuck else st.(mode := Leaving(Top(s, 0).v), stack := Drop(s, 1))
    case RAISE =>
      if !Plain(s, 1) then stuck else
      var (tr, x) := Raised(m.w, Top(s, 0).v, None, st.tr);
      st.(mode := Unwinding(x), tr := tr)
    case RAISE_FROM =>
      if !Plain(s, 2) then stuck else
      var (tr, x) := Raised(m.w, Top(s, 1).v, Some(Top(s, 0).v), st.tr);
      st.(mode := Unwinding(x), tr := tr)
    case TRY_ELSE =>
      if |s| < 1 then stuck
      else if Top(s, 0).H? then st.(stack := Drop(s, 1) + [H(Filtered, Top(s, 0).target)]) else st
    case BEGIN_FINALLY =>
      if |s| < 1 then stuck
      else if Top(s, 0).V? then st
      else st.(stack := Drop(s, 1) + [H(EnterFinally(Top(s, 0).tag), Top(s, 0).target)])
    case END_FINALLY =>
      if |s| < 2 then stuck
      else if Top(s, 0).V? then st
      else EndFinally(m, st)
    case JUMP => st.(ip := st.ip + operand)
    case JUMP_IF_FALSE_OR_POP | JUMP_IF_TRUE_OR_POP | POP_JUMP_IF_FALSE =>
      if !Plain(s, 1) then stuck else Branch(m, st, op, operand)
    case LOOP => st.(ip := st.ip - operand)
    case CALL_ITER | LOOP_ITER =>
      if !Plain(s, 1) then stuck else
      var it := Top(s, 0).v;
      var done := m.w.act(Next(it), st.tr) == Ok(it);
      var st1 := Finish(st, 0, st.tr + [Next(it)], m.w.act(Next(it), st.tr));
      if op == CALL_ITER && done then st1.(ip := st.ip + operand)
      else if op == LOOP_ITER && !done && st1.mode == st.mode then st1.(ip := st.ip - operand)
      else st1
    case PUSH_TRY => st.(stack := s + [V(VNone), H(TryPushed, (st.ip + operand) % 0x10000)])
    case FILTER_EXCEPT =>
      if !(|s| >= 3 && Top(s, 0).V? && Top(s, 1).H? && Top(s, 2).V?) then stuck
      else if Matches(m.w, Top(s, 0).v, Top(s, 2).v) then
        st.(stack := Drop(s, 2) + [H(Filtered, Top(s, 1).target)])
      else st.(ip := st.ip + operand, stack := Drop(s, 1))
    case ENTER_EXCEPT =>
      if !(|s| >= 2 && Top(s, 0).H? && Top(s, 1).V?) then stuck
      else if Top(s, 0).tag in {Returned, InFinallyRaising, LoopExit} then st.(ip := st.ip + operand)
      else if Top(s, 0).tag == RaisedInFinally then st.(mode := Unwinding(Top(s, 1).v), stack := Drop(s, 2))
      else st
    case CONSTANT => st.(stack := s + [V(m.pool(operand))])
    case GET_GLOBAL => Acted(m, st, 0, Loaded(operand))
    case GET_LOCAL => if m.slots + operand < |s| then st.(stack := s + [s[m.slots + operand]]) else stuck
    case SET_LOCAL =>
      if 1 <= |s| && m.slots + operand < |s| then st.(stack := s[m.slots + operand := Top(s, 0)]) else stuck
    case SET_LOCAL_POP =>
      if m.slots + operand + 1 < |s| then st.(stack := Drop(s, 1)[m.slots + operand := Top(s, 0)]) else stuck
    case CALL =>
      if !Plain(s, operand + 1) then stuck
      else Acted(m, st, operand + 1, Called(Top(s, operand).v, Values(s[|s| - operand..])))
    case DUP => if operand < |s| then st.(stack := s + [Top(s, operand)]) else stuck
    case EXIT_LOOP => st.(mode := Popping(operand))
    case POP_MANY => if operand <= |s| then st.(stack := Drop(s, operand)) else stuck
  }

  /** OP_BEGIN_FINALLY: a completed or handled try becomes InFinally, an unhandled exception stays pending;
      every other tag already says what is pending. */
  function EnterFinally(tag: Tag): Tag {
    match tag
    case TryPushed | Filtered => InFinally
    case Raising => InFinallyRaising
    case _ => tag
  }

  /** OP_END_FINALLY: resume what was pending when the finally block began. */
  function EndFinally(m: Machine, st: State): State
    requires |st.stack| >= 2 && Top(st.stack, 0).H?
  {
    var h, saved := Top(st.stack, 0), Top(st.stack, 1);
    if h.tag in {Raising, InFinallyRaising} then
      if saved.V? then st.(mode := Unwinding(saved.v), stack := Drop(st.stack, 2)) else st.(mode := Stuck)
    else if h.tag == LoopExit then
      if saved.V? && saved.v.VInt? && saved.v.n >= 0 then st.(mode := Popping(saved.v.n), ip := h.target)
      else st.(mode := Stuck)
    else if h.tag == Returned then
      if saved.V? then st.(mode := Leaving(saved.v)) else st.(mode := Stuck)
    else st
  }

  /** Cut the stack to the handler at index `at`, store what it is to resume with, and enter it. */
  function EnterHandler(st: State, at: nat, tag: Tag, target: nat, saved: Value): State
    requires 0 < at < |st.stack| && st.stack[at].H?
  {
    st.(mode := Run, ip := st.stack[at].target, stack := st.stack[..at - 1] + [V(saved), H(tag, target)])
  }

  /** The tag an exception leaves on the handler that catches it. */
  function CaughtTag(tag: Tag): Tag {
    match tag
    case Raising | Filtered => InFinallyRaising
    case InFinallyRaising => RaisedInFinally
    case _ => Raising
  }

  function Step(m: Machine, st: State): State {
    match st.mode
    case Run =>
      var f := Fetch(m.code, m.table, st.ip);
      if f.None? then st.(mode := Stuck)
      else Execute(m, st.(ip := f.value.next), f.value.op, f.value.operand)
    case Unwinding(x) =>
      var h := FindHandler(st.stack, m.outSlots, ForException);
      if h.None? then
        if m.outSlots <= |st.stack| then st.(mode := Uncaught(x), stack := st.stack[..m.outSlots])
        else st.(mode := Stuck)
      else if h.value == 0 then st.(mode := Stuck)
      else EnterHandler(st, h.value, CaughtTag(st.stack[h.value].tag), st.stack[h.value].target, x)
    case Leaving(v) =>
      var h := FindHandler(st.stack, m.slots, ForReturn);
      if h.None? then
        if m.outSlots <= |st.stack| then st.(mode := Finished(v), stack := st.stack[..m.outSlots])
        else st.(mode := Stuck)
      else if h.value == 0 then st.(mode := Stuck)
      else EnterHandler(st, h.value, Returned, st.stack[h.value].target, v)
    case Popping(n) =>
      var h := FindHandler(st.stack, m.slots + n, ForReturn);
      if h.None? then
        if m.slots + n <= |st.stack| then st.(mode := Run, stack := st.stack[..m.slots + n])
        else st.(mode := Run)
      else if h.value == 0 || st.ip < 0 then st.(mode := Stuck)
      else EnterHandler(st, h.value, LoopExit, st.ip % 0x10000, VInt(n))
    case _ => st
  }

  function Stepper(m: Machine): State -> State {
    st => Step(m, st)
  }

  /** The run loop gets from `a` to `b`. */
  ghost predicate Reaches(m: Machine, a: State, b: State) {
    exists n: nat :: Iterated(Stepper(m), a, n) == b
  }

  lemma Then(m: Machine, a: State, b: State, c: State)
    requires Reaches(m, a, b) && Reaches(m, b, c)
    ensures Reaches(m, a, c)
  {
    var f := Stepper(m);
    var i: nat :| Iterated(f, a, i) == b;
    var j: nat :| Iterated(f, b, j) == c;
    IteratedAdd(f, a, i, j);
  }

  lemma One(m: Machine, a: State)
    ensures Reaches(m, a, Step(m, a))
  {
    var f := Stepper(m);
    assert Iterated(f, a, 1) == Iterated(f, f(a), 0);
  }

  lemma Stay(m: Machine, a: State)
    ensures Reaches(m, a, a)
  {
    assert Iterated(Stepper(m), a, 0) == a;
  }

  // ----- running on and on -----

  predicate Ended(st: State) {
    st.mode.Finished? || st.mode.Uncaught? || st.mode.Stuck?
  }

  /** From `a` the run loop goes round at least k times. */
  ghost predicate Lasts(m: Machine, a: State, k: nat) {
    exists n: nat :: n >= k && !Ended(Iterated(Stepper(m), a, n))
  }

  lemma LastsNow(m: Machine, a: State)
    requires !Ended(a)
    ensures Lasts(m, a, 0)
  {
    assert Iterated(Stepper(m), a, 0) == a;
  }

  lemma LastsAfter(m: Machine, a: State, b: State, k: nat)
    requires Reaches(m, a, b) && Lasts(m, b, k)
    ensures Lasts(m, a, k)
  {
    var f := Stepper(m);
    var i: nat :| Iterated(f, a, i) == b;
    var n: nat :| n >= k && !Ended(Iterated(f, b, n));
    IteratedAdd(f, a, i, n);
    assert !Ended(Iterated(f, a, i + n));
  }

  /** One round more. */
  lemma LastsLonger(m: Machine, a: State, b: State, k: nat)
    requires Reaches(m, a, b) && Lasts(m, Step(m, b), k)
    ensures Lasts(m, a, k + 1)
  {
    var f := Stepper(m);
    var i: nat :| Iterated(f, a, i) == b;
    var n: nat :| n >= k && !Ended(Iterated(f, f(b), n));
    IteratedAdd(f, a, i, n + 1);
    assert Iterated(f, b, n + 1) == Iterated(f, f(b), n);
    assert !Ended(Iterated(f, a, i + (n + 1)));
  }

  lemma LastsLess(m: Machine, a: State, k: nat, j: nat)
    requires Lasts(m, a, k) && j <= k
    ensures Lasts(m, a, j)
  {
    var n: nat :| n >= k && !Ended(Iterated(Stepper(m), a, n));
    assert n >= j;
  }

  lemma {:induction false} EndedStays(m: Machine, a: State, n: nat)
    requires Ended(a)
    ensures Iterated(Stepper(m), a, n) == a
    decreases n
  {
    if n > 0 {
      EndedStays(m, a, n - 1);
    }
  }

  /** The run loop comes to an end. */
  ghost predicate Ends(m: Machine, a: State) {
    exists n: nat :: Ended(Iterated(Stepper(m), a, n))
  }

  lemma EndsAt(m: Machine, a: State, t: State)
    requires Reaches(m, a, t) && Ended(t)
    ensures Ends(m, a)
  {
    var n: nat :| Iterated(Stepper(m), a, n) == t;
    assert Ended(Iterated(Stepper(m), a, n));
  }

  /** A run longer than every number never ends. */
  lemma NeverEnds(m: Machine, a: State)
    requires forall k: nat :: Lasts(m, a, k)
    ensures !Ends(m, a)
  {
    var f := Stepper(m);
    if n: nat :| Ended(Iterated(f, a, n)) {
      assert Lasts(m, a, n);
      var i: nat :| i >= n && !Ended(Iterated(f, a, i));
      IteratedAdd(f, a, n, i - n);
      EndedStays(m, Iterated(f, a, n), i - n);
    }
  }
}
