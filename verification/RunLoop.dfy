/** The run loop of src/vm.c as it changes the thread: one call of Advance is one step of Vm.Step. The hunts for a
    handler are loops down the stack. */
module RunLoop {
  import opened Options
  import opened Iteration
  import opened Syntax
  import opened Semantics
  import opened Bytecode
  import opened Vm

  class Thread {
    const m: Machine
    var mode: Mode
    var ip: int
    var stack: seq<Slot>
    var tr: Trace

    constructor (m: Machine, st: State)
      ensures this.m == m && Now() == st
    {
      this.m := m;
      mode, ip, stack, tr := st.mode, st.ip, st.stack, st.tr;
    }

    ghost function Now(): State
      reads this
    {
      State(mode, ip, stack, tr)
    }

    method Push(s: Slot)
      modifies this`stack
      ensures stack == old(stack) + [s]
    {
      stack := stack + [s];
    }

    method Pop() returns (s: Slot)
      requires |stack| > 0
      modifies this`stack
      ensures s == Top(old(stack), 0) && stack == Drop(old(stack), 1)
    {
      s := stack[|stack| - 1];
      stack := stack[..|stack| - 1];
    }

    method SetTop(s: Slot)
      requires |stack| > 0
      modifies this`stack
      ensures stack == Drop(old(stack), 1) + [s]
    {
      stack := stack[|stack| - 1 := s];
    }

    /** A call out of the run loop: it is recorded, and what it gives takes the place of its n operands, or it raises. */
    method CallOut(ev: Event, n: nat)
      requires n <= |stack|
      modifies this
      ensures Now() == Acted(m, old(Now()), n, ev)
    {
      var res := m.w.act(ev, tr);
      tr := tr + [ev];
      match res
      case Ok(v) =>
        stack := stack[..|stack| - n];
        Push(V(v));
      case Err(x) =>
        mode := Unwinding(x);
    }

    // ----- the hunt for a handler -----

    /** Down from the top of the stack to a handler the hunt stops at, or below `floor`. */
    method FindDown(floor: nat, hunt: Hunt) returns (stackOffset: int)
      ensures if stackOffset >= floor then FindHandler(stack, floor, hunt) == Some(stackOffset) else FindHandler(stack, floor, hunt) == None
    {
      stackOffset := |stack| - 1;
      assert stack[..stackOffset + 1] == stack;
      while stackOffset >= floor && !Stops(stack[stackOffset], hunt)
        invariant -1 <= stackOffset < |stack|
        invariant FindHandler(stack, floor, hunt) == FindHandler(stack[..stackOffset + 1], floor, hunt)
        decreases stackOffset
      {
        assert stack[..stackOffset + 1][..stackOffset] == stack[..stackOffset];
        stackOffset := stackOffset - 1;
      }
    }

    /** handleException and what follows it at _finishException. */
    method FinishException(x: Value)
      requires mode == Unwinding(x)
      modifies this
      ensures Now() == Step(m, old(Now()))
    {
      var stackOffset := FindDown(m.outSlots, ForException);
      if stackOffset < m.outSlots {
        if m.outSlots > |stack| {
          mode := Stuck;
          return;
        }
        mode, stack := Uncaught(x), stack[..m.outSlots];
        return;
      }
      if stackOffset == 0 {
        mode := Stuck;
        return;
      }
      var handler := stack[stackOffset];
      var tag := match handler.tag
        case Raising | Filtered => InFinallyRaising
        case InFinallyRaising => RaisedInFinally
        case _ => Raising;
      Enter(stackOffset, tag, handler.target, x);
    }

    /** Cut the stack to a handler, leave in it what it is to resume with, and jump to its target. */
    method Enter(at: nat, tag: Tag, target: nat, saved: Value)
      requires 0 < at < |stack| && stack[at].H?
      modifies this
      ensures Now() == EnterHandler(old(Now()), at, tag, target, saved)
    {
      stack := stack[..at + 1];
      ip := stack[at].target;
      stack := stack[at := H(tag, target)];
      stack := stack[at - 1 := V(saved)];
      mode := Run;
    }

    /** _finishReturn. */
    method FinishReturn(v: Value)
      requires mode == Leaving(v)
      modifies this
      ensures Now() == Step(m, old(Now()))
    {
      var stackOffset := FindDown(m.slots, ForReturn);
      if stackOffset >= m.slots {
        if stackOffset == 0 {
          mode := Stuck;
        } else {
          Enter(stackOffset, Returned, stack[stackOffset].target, v);
        }
        return;
      }
      if m.outSlots > |stack| {
        mode := Stuck;
        return;
      }
      mode, stack := Finished(v), stack[..m.outSlots];
    }

    /** _finishPopBlock: this hunt pops what it passes. */
    method FinishPopBlock(count: nat)
      requires mode == Popping(count)
      modifies this
      ensures Now() == Step(m, old(Now()))
    {
      var was := stack;
      var stackOffset := |stack| - 1;
      assert stack[..stackOffset + 1] == stack;
      while stackOffset >= m.slots + count && !Stops(stack[stackOffset], ForReturn)
        invariant -1 <= stackOffset < |was| && stack == was[..stackOffset + 1] && mode == Popping(count) && ip == old(ip) && tr == old(tr)
        invariant stackOffset + 1 >= m.slots + count || stackOffset == |was| - 1
        invariant FindHandler(was, m.slots + count, ForReturn) == FindHandler(stack, m.slots + count, ForReturn)
        decreases stackOffset
      {
        var popped := Pop();
        stackOffset := stackOffset - 1;
      }
      if stackOffset >= m.slots + count {
        if stackOffset == 0 || ip < 0 {
          mode, stack := Stuck, was;
          return;
        }
        Enter(stackOffset, LoopExit, ip % 0x10000, VInt(count));
      } else {
        mode := Run;
      }
    }

    // ----- the opcodes -----

    /** Pushes. */
    method PushOne(op: Op, operand: nat)
      requires op in {NONE, TRUE, FALSE, CONSTANT, DUP}
      modifies this
      ensures Now() == Execute(m, old(Now()), op, operand)
    {
      hide Branch, Acted, BinaryEvent, EnterFinally, EndFinally, Finish;
      if op == NONE {
        Push(V(VNone));
      } else if op == TRUE {
        Push(V(VBool(true)));
      } else if op == FALSE {
        Push(V(VBool(false)));
      } else if op == CONSTANT {
        Push(V(m.pool(operand)));
      } else if operand < |stack| {
        Push(stack[|stack| - 1 - operand]);
      } else {
        mode := Stuck;
      }
    }

    /** Pops, and the swap. */
    method Shuffle(op: Op, operand: nat)
      requires op in {POP, SWAP, POP_MANY}
      modifies this
      ensures Now() == Execute(m, old(Now()), op, operand)
    {
      hide Branch, Acted, BinaryEvent, EnterFinally, EndFinally, Finish;
      var needed := if op == POP then 1 else if op == SWAP then 2 else operand;
      if |stack| < needed {
        mode := Stuck;
      } else if op == POP {
        var popped := Pop();
      } else if op == SWAP {
        Exchange();
      } else {
        PopMany(operand);
      }
    }

    /** krk_swap(1). */
    method Exchange()
      requires |stack| >= 2
      modifies this`stack
      ensures stack == Drop(old(stack), 2) + [Top(old(stack), 0), Top(old(stack), 1)]
    {
      var n := |stack|;
      stack := stack[n - 1 := stack[n - 2]][n - 2 := stack[n - 1]];
    }

    method PopMany(count: nat)
      requires count <= |stack|
      modifies this`stack
      ensures stack == Drop(old(stack), count)
    {
      var i, n := 0, |stack|;
      while i < count
        invariant i <= count <= n && stack == old(stack)[..n - i]
      {
        var popped := Pop();
        i := i + 1;
      }
    }

    /** Locals. */
    method Access(op: Op, operand: nat)
      requires op in {GET_LOCAL, SET_LOCAL, SET_LOCAL_POP}
      modifies this
      ensures Now() == Execute(m, old(Now()), op, operand)
    {
      hide Branch, Acted, BinaryEvent, EnterFinally, EndFinally, Finish;
      if op == GET_LOCAL {
        if m.slots + operand < |stack| {
          Push(stack[m.slots + operand]);
        } else {
          mode := Stuck;
        }
      } else if op == SET_LOCAL {
        if 1 <= |stack| && m.slots + operand < |stack| {
          stack := stack[m.slots + operand := stack[|stack| - 1]];
        } else {
          mode := Stuck;
        }
      } else {
        if m.slots + operand + 1 < |stack| {
          var top := Pop();
          stack := stack[m.slots + operand := top];
        } else {
          mode := Stuck;
        }
      }
    }

    /** Opcodes that only call out of the run loop. */
    method Operate(op: Op, operand: nat)
      requires op in {EQUAL, LESS, GREATER, LESS_EQUAL, GREATER_EQUAL, ADD, INVOKE_CONTAINS, INVOKE_ITER, GET_GLOBAL, CALL}
      modifies this
      ensures Now() == Execute(m, old(Now()), op, operand)
    {
      hide EnterFinally, EndFinally, Branch, Acted, BinaryEvent, Finish;
      var n := |stack|;
      var needed := if op == GET_GLOBAL then 0 else if op == INVOKE_ITER then 1 else if op == CALL then operand + 1 else 2;
      if !Plain(stack, needed) {
        mode := Stuck;
      } else if op == GET_GLOBAL {
        CallOut(Loaded(operand), 0);
      } else if op == INVOKE_ITER {
        CallOut(Iterate(stack[n - 1].v), 1);
      } else if op == CALL {
        CallOut(Called(stack[n - 1 - operand].v, Values(stack[n - operand..])), operand + 1);
      } else {
        CallOut(BinaryEvent(op, stack[n - 2].v, stack[n - 1].v), 2);
      }
    }

    /** Identity and negation. */
    method Decide(op: Op, operand: nat)
      requires op in {NOT, IS}
      modifies this
      ensures Now() == Execute(m, old(Now()), op, operand)
    {
      hide EnterFinally, EndFinally, Branch, Acted, BinaryEvent, Truthy;
      var n := |stack|;
      if !Plain(stack, if op == NOT then 1 else 2) {
        mode := Stuck;
      } else if op == NOT {
        var (tr', t) := Truthy(m.w, stack[n - 1].v, tr);
        tr := tr';
        match t
        case Ok(b) => SetTop(V(VBool(!b)));
        case Err(x) => mode := Unwinding(x);
      } else {
        var b := Pop();
        SetTop(V(VBool(stack[n - 2].v == b.v)));
      }
    }

    /** Jumps. */
    method Go(op: Op, operand: nat)
      requires op in {JUMP, LOOP, JUMP_IF_FALSE_OR_POP, JUMP_IF_TRUE_OR_POP, POP_JUMP_IF_FALSE}
      modifies this
      ensures Now() == Execute(m, old(Now()), op, operand)
    {
      hide EnterFinally, EndFinally, Acted, BinaryEvent, Finish, Truthy;
      if op == JUMP {
        ip := ip + operand;
      } else if op == LOOP {
        ip := ip - operand;
      } else if !Plain(stack, 1) {
        mode := Stuck;
      } else {
        var (tr', t) := Truthy(m.w, stack[|stack| - 1].v, tr);
        tr := tr';
        match t {
          case Err(x) => mode := Unwinding(x);
          case Ok(b) =>
            var taken := if op == JUMP_IF_TRUE_OR_POP then b else !b;
            if taken {
              ip := ip + operand;
            }
            if !taken || op == POP_JUMP_IF_FALSE {
              var popped := Pop();
            }
        }
      }
    }

    /** OP_CALL_ITER and OP_LOOP_ITER: step an iterator, which gives itself when it is done. */
    method StepIterator(op: Op, operand: nat)
      requires mode == Run && op in {CALL_ITER, LOOP_ITER}
      modifies this
      ensures Now() == Execute(m, old(Now()), op, operand)
    {
      hide EnterFinally, EndFinally, Acted, BinaryEvent, Branch;
      if !Plain(stack, 1) {
        mode := Stuck;
        return;
      }
      var it := stack[|stack| - 1].v;
      var res := m.w.act(Next(it), tr);
      tr := tr + [Next(it)];
      match res
      case Ok(v) =>
        Push(V(v));
        if op == CALL_ITER && v == it {
          ip := ip + operand;
        } else if op == LOOP_ITER && v != it {
          ip := ip - operand;
        }
      case Err(x) => mode := Unwinding(x);
    }

    /** The opcodes that leave: return, raise, and the way out of a loop. */
    method Depart(op: Op, operand: nat)
      requires op in {RETURN, RAISE, RAISE_FROM, EXIT_LOOP}
      modifies this
      ensures Now() == Execute(m, old(Now()), op, operand)
    {
      hide Branch, Acted, BinaryEvent;
      var n := |stack|;
      if op == RETURN {
        if !Plain(stack, 1) {
          mode := Stuck;
          return;
        }
        var result := Pop();
        mode := Leaving(result.v);
      } else if op == RAISE {
        if !Plain(stack, 1) {
          mode := Stuck;
          return;
        }
        var (tr', x) := Raised(m.w, stack[n - 1].v, None, tr);
        mode, tr := Unwinding(x), tr';
      } else if op == RAISE_FROM {
        if !Plain(stack, 2) {
          mode := Stuck;
          return;
        }
        var (tr', x) := Raised(m.w, stack[n - 2].v, Some(stack[n - 1].v), tr);
        mode, tr := Unwinding(x), tr';
      } else {
        mode := Popping(operand);
      }
    }

    /** The opcodes of try, except and finally. */
    method Handle(op: Op, operand: nat)
      requires op in {TRY_ELSE, BEGIN_FINALLY, END_FINALLY, PUSH_TRY, FILTER_EXCEPT, ENTER_EXCEPT}
      modifies this
      ensures Now() == Execute(m, old(Now()), op, operand)
    {
      hide Branch, Acted, BinaryEvent;
      var n := |stack|;
      if op == TRY_ELSE {
        if n < 1 {
          mode := Stuck;
        } else if stack[n - 1].H? {
          SetTop(H(Filtered, stack[n - 1].target));
        }
      } else if op == BEGIN_FINALLY {
        StartFinally();
      } else if op == END_FINALLY {
        FinishFinally();
      } else if op == PUSH_TRY {
        Push(V(VNone));
        Push(H(TryPushed, (ip + operand) % 0x10000));
      } else if op == FILTER_EXCEPT {
        if !(n >= 3 && stack[n - 1].V? && stack[n - 2].H? && stack[n - 3].V?) {
          mode := Stuck;
          return;
        }
        var filter := Pop();
        if Matches(m.w, filter.v, stack[n - 3].v) {
          SetTop(H(Filtered, stack[n - 2].target));
        } else {
          ip := ip + operand;
        }
      } else {
        StartExcept(operand);
      }
    }

    /** OP_BEGIN_FINALLY. */
    method StartFinally()
      modifies this
      ensures Now() == Execute(m, old(Now()), BEGIN_FINALLY, 0)
    {
      var n := |stack|;
      if n < 1 {
        mode := Stuck;
      } else if stack[n - 1].H? {
        var tag := stack[n - 1].tag;
        if tag == TryPushed || tag == Filtered {
          SetTop(H(InFinally, stack[n - 1].target));
        } else if tag == Raising {
          SetTop(H(InFinallyRaising, stack[n - 1].target));
        }
      }
    }

    /** OP_ENTER_EXCEPT. */
    method StartExcept(operand: nat)
      modifies this
      ensures Now() == Execute(m, old(Now()), ENTER_EXCEPT, operand)
    {
      var n := |stack|;
      if !(n >= 2 && stack[n - 1].H? && stack[n - 2].V?) {
        mode := Stuck;
        return;
      }
      var tag := stack[n - 1].tag;
      if tag == Returned || tag == InFinallyRaising || tag == LoopExit {
        ip := ip + operand;
      } else if tag == RaisedInFinally {
        var handler := Pop();
        var pending := Pop();
        mode := Unwinding(pending.v);
      }
    }

    /** OP_END_FINALLY. */
    method FinishFinally()
      modifies this
      ensures Now() == Execute(m, old(Now()), END_FINALLY, 0)
    {
      hide Branch, Acted, BinaryEvent, EnterFinally;
      var n := |stack|;
      if n < 2 {
        mode := Stuck;
        return;
      }
      var handler, saved := stack[n - 1], stack[n - 2];
      if handler.V? {
        return;
      }
      if handler.tag == Raising || handler.tag == InFinallyRaising {
        if saved.H? {
          mode := Stuck;
          return;
        }
        var first := Pop();
        var second := Pop();
        mode := Unwinding(second.v);
      } else if handler.tag == LoopExit {
        if saved.V? && saved.v.VInt? && saved.v.n >= 0 {
          ip := handler.target;
          mode := Popping(saved.v.n);
        } else {
          mode := Stuck;
        }
      } else if handler.tag == Returned {
        mode := if saved.V? then Leaving(saved.v) else Stuck;
      }
    }

    /** Fetch an instruction and run it, or go on from where the last one left off. */
    method Advance()
      modifies this
      ensures Now() == Step(m, old(Now()))
    {
      hide Execute, FindHandler, Fetch;
      match mode
      case Run =>
        var f := Fetch(m.code, m.table, ip);
        if f.None? {
          mode := Stuck;
          return;
        }
        ip := f.value.next;
        Dispatch(f.value.op, f.value.operand);
      case Unwinding(x) => FinishException(x);
      case Leaving(v) => FinishReturn(v);
      case Popping(count) => FinishPopBlock(count);
      case _ =>
    }

    /** run(): round and round until the frame is left. */
    method RunToEnd(ghost t: State)
      requires Reaches(m, Now(), t) && Ended(t)
      modifies this
      ensures Now() == t
    {
      hide Step;
      ghost var n: nat :| Iterated(Stepper(m), Now(), n) == t;
      while !(mode.Finished? || mode.Uncaught? || mode.Stuck?)
        invariant Iterated(Stepper(m), Now(), n) == t
        decreases n
      {
        Advance();
        n := n - 1;
      }
      EndedStays(m, Now(), n);
    }

    method Dispatch(op: Op, operand: nat)
      requires mode == Run
      modifies this
      ensures Now() == Execute(m, old(Now()), op, operand)
    {
      match op
      case NONE | TRUE | FALSE | CONSTANT | DUP => PushOne(op, operand);
      case POP | SWAP | POP_MANY => Shuffle(op, operand);
      case GET_LOCAL | SET_LOCAL | SET_LOCAL_POP => Access(op, operand);
      case NOT | IS => Decide(op, operand);
      case EQUAL | LESS | GREATER | LESS_EQUAL | GREATER_EQUAL | ADD | INVOKE_CONTAINS | INVOKE_ITER | GET_GLOBAL | CALL =>
        Operate(op, operand);
      case JUMP | LOOP | JUMP_IF_FALSE_OR_POP | JUMP_IF_TRUE_OR_POP | POP_JUMP_IF_FALSE => Go(op, operand);
      case CALL_ITER | LOOP_ITER => StepIterator(op, operand);
      case RETURN | RAISE | RAISE_FROM | EXIT_LOOP => Depart(op, operand);
      case _ => Handle(op, operand);
    }
  }
}
