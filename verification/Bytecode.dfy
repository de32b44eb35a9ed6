/** Instruction encoding (src/opcode_enum.h, src/opcodes.h) and the fetch at the top of run() in src/vm.c,
    including the table of overlong jumps. Only the opcodes the modelled compiler emits are listed. */
module Bytecode {
  import opened Options
  import opened Syntax

  type Byte = b: int | 0 <= b < 256

  type Code = seq<Byte>

  datatype Op =
    | NONE | TRUE | FALSE | POP | SWAP | NOT | EQUAL | IS | LESS | GREATER | LESS_EQUAL | GREATER_EQUAL | ADD
    | INVOKE_CONTAINS | INVOKE_ITER | RETURN | RAISE | RAISE_FROM | TRY_ELSE | BEGIN_FINALLY | END_FINALLY
    | JUMP | JUMP_IF_FALSE_OR_POP | JUMP_IF_TRUE_OR_POP | POP_JUMP_IF_FALSE | LOOP | LOOP_ITER | CALL_ITER
    | PUSH_TRY | FILTER_EXCEPT | ENTER_EXCEPT
    | CONSTANT | GET_GLOBAL | GET_LOCAL | SET_LOCAL | SET_LOCAL_POP | CALL | DUP | EXIT_LOOP | POP_MANY

  /** Operand bytes of the short form: none, two for jumps, one (or three in the LONG form) otherwise. */
  datatype Form = Simple | Jump | Operand

  function FormOf(op: Op): Form {
    match op
    case JUMP | JUMP_IF_FALSE_OR_POP | JUMP_IF_TRUE_OR_POP | POP_JUMP_IF_FALSE | LOOP | LOOP_ITER |
      CALL_ITER | PUSH_TRY | FILTER_EXCEPT | ENTER_EXCEPT => Jump
    case CONSTANT | GET_GLOBAL | GET_LOCAL | SET_LOCAL | SET_LOCAL_POP | CALL | DUP | EXIT_LOOP | POP_MANY => Operand
    case _ => Simple
  }

  /** Position in the opcode enumeration; a LONG form is the next number. */
  function ByteOf(op: Op): Byte {
    match op
    case NONE => 73
    case TRUE => 28
    case FALSE => 129
    case POP => 74
    case SWAP => 9
    case NOT => 99
    case EQUAL => 58
    case IS => 3
    case LESS => 94
    case GREATER => 128
    case LESS_EQUAL => 111
    case GREATER_EQUAL => 103
    case ADD => 39
    case INVOKE_CONTAINS => 81
    case INVOKE_ITER => 49
    case RETURN => 138
    case RAISE => 33
    case RAISE_FROM => 67
    case TRY_ELSE => 63
    case BEGIN_FINALLY => 2
    case END_FINALLY => 112
    case JUMP => 23
    case JUMP_IF_FALSE_OR_POP => 24
    case JUMP_IF_TRUE_OR_POP => 150
    case POP_JUMP_IF_FALSE => 69
    case LOOP => 136
    case LOOP_ITER => 60
    case CALL_ITER => 149
    case PUSH_TRY => 6
    case FILTER_EXCEPT => 71
    case ENTER_EXCEPT => 162
    case CONSTANT => 0
    case GET_GLOBAL => 44
    case GET_LOCAL => 144
    case SET_LOCAL => 64
    case SET_LOCAL_POP => 46
    case CALL => 100
    case DUP => 131
    case EXIT_LOOP => 34
    case POP_MANY => 4
  }

  const OVERLONG_JUMP: Byte := 164

  datatype Decoded = Known(op: Op, long: bool) | Unknown

  function OpOf(b: Byte): Decoded {
    if b == 73 then Known(NONE, false)
    else if b == 28 then Known(TRUE, false)
    else if b == 129 then Known(FALSE, false)
    else if b == 74 then Known(POP, false)
    else if b == 9 then Known(SWAP, false)
    else if b == 99 then Known(NOT, false)
    else if b == 58 then Known(EQUAL, false)
    else if b == 3 then Known(IS, false)
    else if b == 94 then Known(LESS, false)
    else if b == 128 then Known(GREATER, false)
    else if b == 111 then Known(LESS_EQUAL, false)
    else if b == 103 then Known(GREATER_EQUAL, false)
    else if b == 39 then Known(ADD, false)
    else if b == 81 then Known(INVOKE_CONTAINS, false)
    else if b == 49 then Known(INVOKE_ITER, false)
    else if b == 138 then Known(RETURN, false)
    else if b == 33 then Known(RAISE, false)
    else if b == 67 then Known(RAISE_FROM, false)
    else if b == 63 then Known(TRY_ELSE, false)
    else if b == 2 then Known(BEGIN_FINALLY, false)
    else if b == 112 then Known(END_FINALLY, false)
    else if b == 23 then Known(JUMP, false)
    else if b == 24 then Known(JUMP_IF_FALSE_OR_POP, false)
    else if b == 150 then Known(JUMP_IF_TRUE_OR_POP, false)
    else if b == 69 then Known(POP_JUMP_IF_FALSE, false)
    else if b == 136 then Known(LOOP, false)
    else if b == 60 then Known(LOOP_ITER, false)
    else if b == 149 then Known(CALL_ITER, false)
    else if b == 6 then Known(PUSH_TRY, false)
    else if b == 71 then Known(FILTER_EXCEPT, false)
    else if b == 162 then Known(ENTER_EXCEPT, false)
    else if b == 0 then Known(CONSTANT, false)
    else if b == 1 then Known(CONSTANT, true)
    else if b == 44 then Known(GET_GLOBAL, false)
    else if b == 45 then Known(GET_GLOBAL, true)
    else if b == 144 then Known(GET_LOCAL, false)
    else if b == 145 then Known(GET_LOCAL, true)
    else if b == 64 then Known(SET_LOCAL, false)
    else if b == 65 then Known(SET_LOCAL, true)
    else if b == 46 then Known(SET_LOCAL_POP, false)
    else if b == 47 then Known(SET_LOCAL_POP, true)
    else if b == 100 then Known(CALL, false)
    else if b == 101 then Known(CALL, true)
    else if b == 131 then Known(DUP, false)
    else if b == 132 then Known(DUP, true)
    else if b == 34 then Known(EXIT_LOOP, false)
    else if b == 35 then Known(EXIT_LOOP, true)
    else if b == 4 then Known(POP_MANY, false)
    else if b == 5 then Known(POP_MANY, true)
    else Unknown
  }

  lemma OpOfByteOf(op: Op)
    ensures OpOf(ByteOf(op)) == Known(op, false) && ByteOf(op) != OVERLONG_JUMP
    ensures FormOf(op) == Operand ==> ByteOf(op) + 1 < 256 && OpOf(ByteOf(op) + 1) == Known(op, true)
                                      && ByteOf(op) + 1 != OVERLONG_JUMP
  {
  }

  // ----- overlong jumps -----

  /** A jump whose distance needs more than two bytes. `offset` is where its operand starts, `high` the
      distance's upper 16 bits and `op` the opcode that OP_OVERLONG_JUMP replaced. */
  datatype Overlong = Overlong(offset: nat, high: nat, op: Byte)

  function Lookup(table: seq<Overlong>, offset: int): Option<Overlong> {
    if table == [] then None
    else if table[0].offset == offset then Some(table[0])
    else Lookup(table[1..], offset)
  }

  // ----- fetch -----

  datatype Fetched = Fetched(op: Op, operand: nat, next: nat)

  function Num(b: Byte): nat { b }

  function TwoBytes(code: Code, at: nat): nat
    requires at + 2 <= |code|
  {
    Num(code[at]) * 0x100 + Num(code[at + 1])
  }

  /** The instruction at `ip` with its operand and the address after it. */
  function Fetch(code: Code, table: seq<Overlong>, ip: int): Option<Fetched> {
    if !(0 <= ip < |code|) then None
    else if code[ip] == OVERLONG_JUMP then
      var o := Lookup(table, ip + 1);
      if o.None? || ip + 3 > |code| then None else
      match OpOf(o.value.op)
      case Known(op, false) =>
        if FormOf(op) == Jump then Some(Fetched(op, o.value.high * 0x10000 + TwoBytes(code, ip + 1), ip + 3)) else None
      case _ => None
    else
      match OpOf(code[ip])
      case Unknown => None
      case Known(op, long) =>
        match FormOf(op)
        case Simple => Some(Fetched(op, 0, ip + 1))
        case Jump => if ip + 3 <= |code| then Some(Fetched(op, TwoBytes(code, ip + 1), ip + 3)) else None
        case Operand =>
          if !long then if ip + 2 <= |code| then Some(Fetched(op, Num(code[ip + 1]), ip + 2)) else None
          else if ip + 4 <= |code|
            then Some(Fetched(op, Num(code[ip + 1]) * 0x10000 + TwoBytes(code, ip + 2), ip + 4)) else None
  }

  // ----- emitted pieces -----

  function Low(n: int): Byte { n % 0x100 }

  function High(n: int): Byte { (n / 0x100) % 0x100 }

  /** One byte's worth of compiled code. A jump's opcode and its distance stand whole: how much of them the bytes hold
      and how much the table is another matter. */
  datatype Cell = B(byte: Byte) | J(op: Op) | D1(distance: int) | D2(distance: int)

  type Text = seq<Cell>

  function Emit1(op: Op): (c: Text)
    ensures |c| == 1
  {
    [B(ByteOf(op))]
  }

  /** A jump instruction and its distance. */
  function EmitJump(op: Op, distance: int): (c: Text)
    ensures |c| == 3
  {
    [J(op), D1(distance), D2(distance)]
  }

  /** EMIT_OPERAND_OP: the short form below 256, the LONG form otherwise. */
  function EmitOperand(op: Op, arg: nat): (c: Text)
    requires FormOf(op) == Operand
    ensures |c| == if arg < 0x100 then 2 else 4
  {
    OpOfByteOf(op);
    if arg < 0x100 then [B(ByteOf(op)), B(arg)]
    else [B(ByteOf(op) + 1), B(Low(arg / 0x10000)), B(High(arg)), B(Low(arg))]
  }

  /** The byte at `p` holds a cell. A jump with an entry in the table has its opcode and the high half of its distance
      there; one without has to do with two bytes. */
  ghost predicate Holds(code: Code, table: seq<Overlong>, p: nat, cell: Cell) {
    p < |code| &&
    match cell
    case B(b) => code[p] == b
    case J(op) =>
      (match Lookup(table, p + 1)
       case None => code[p] == ByteOf(op)
       case Some(e) => code[p] == OVERLONG_JUMP && e.op == ByteOf(op))
    case D1(d) =>
      && code[p] == High(d)
      && (match Lookup(table, p)
          case None => 0 <= d <= 0xFFFF
          case Some(e) => e.high == d / 0x10000)
    case D2(d) => code[p] == Low(d)
  }

  /** `piece` is in `code` at address `at`. */
  ghost predicate At(code: Code, table: seq<Overlong>, at: nat, piece: Text) {
    forall i | 0 <= i < |piece| :: Holds(code, table, at + i, piece[i])
  }

  lemma AtSplit(code: Code, table: seq<Overlong>, at: nat, a: Text, b: Text)
    ensures At(code, table, at, a + b) <==> At(code, table, at, a) && At(code, table, at + |a|, b)
  {
    hide Holds;
    if At(code, table, at, a + b) {
      forall i | 0 <= i < |a| ensures Holds(code, table, at + i, a[i]) {
        assert (a + b)[i] == a[i];
      }
      forall i | 0 <= i < |b| ensures Holds(code, table, at + |a| + i, b[i]) {
        assert (a + b)[|a| + i] == b[i];
      }
    }
    if At(code, table, at, a) && At(code, table, at + |a|, b) {
      forall i | 0 <= i < |a + b| ensures Holds(code, table, at + i, (a + b)[i]) {
        assert (a + b)[i] == if i < |a| then a[i] else b[i - |a|];
        assert i >= |a| ==> Holds(code, table, at + |a| + (i - |a|), b[i - |a|]);
      }
    }
  }

  lemma AtSplit3(code: Code, table: seq<Overlong>, at: nat, a: Text, b: Text, c: Text)
    requires At(code, table, at, a + (b + c))
    ensures At(code, table, at, a) && At(code, table, at + |a|, b) && At(code, table, at + |a| + |b|, c)
  {
    hide At;
    AtSplit(code, table, at, a, b + c);
    AtSplit(code, table, at + |a|, b, c);
  }

  lemma AtSplit6(code: Code, table: seq<Overlong>, at: nat, a: Text, b: Text, c: Text, d: Text, e: Text, f: Text)
    requires At(code, table, at, a + (b + (c + (d + (e + f)))))
    ensures At(code, table, at, a) && At(code, table, at + |a|, b) && At(code, table, at + |a| + |b|, c)
    ensures At(code, table, at + |a| + |b| + |c|, d) && At(code, table, at + |a| + |b| + |c| + |d|, e)
    ensures At(code, table, at + |a| + |b| + |c| + |d| + |e|, f)
  {
    hide At;
    AtSplit3(code, table, at, a, b, c + (d + (e + f)));
    AtSplit3(code, table, at + |a| + |b|, c, d, e + f);
    AtSplit(code, table, at + |a| + |b| + |c| + |d|, e, f);
  }

  lemma Held(code: Code, table: seq<Overlong>, at: nat, piece: Text, i: nat)
    requires At(code, table, at, piece) && i < |piece|
    ensures Holds(code, table, at + i, piece[i])
  {
  }

  lemma Fetch1(code: Code, table: seq<Overlong>, at: nat, op: Op)
    requires At(code, table, at, Emit1(op)) && FormOf(op) == Simple
    ensures Fetch(code, table, at) == Some(Fetched(op, 0, at + 1))
  {
    Held(code, table, at, Emit1(op), 0);
    OpOfByteOf(op);
  }

  /** However far it goes. */
  lemma FetchJump(code: Code, table: seq<Overlong>, at: nat, op: Op, distance: int)
    requires At(code, table, at, EmitJump(op, distance)) && FormOf(op) == Jump
    ensures distance >= 0 && Fetch(code, table, at) == Some(Fetched(op, distance, at + 3))
  {
    Held(code, table, at, EmitJump(op, distance), 0);
    Held(code, table, at, EmitJump(op, distance), 1);
    Held(code, table, at, EmitJump(op, distance), 2);
    OpOfByteOf(op);
    Halves(distance);
  }

  lemma Halves(distance: int)
    ensures distance == (distance / 0x10000) * 0x10000 + Num(High(distance)) * 0x100 + Num(Low(distance))
  {
    assert distance % 0x10000 == (distance / 0x100) % 0x100 * 0x100 + distance % 0x100;
  }

  lemma FetchOperand(code: Code, table: seq<Overlong>, at: nat, op: Op, arg: nat)
    requires FormOf(op) == Operand && arg < OPERAND_LIMIT && At(code, table, at, EmitOperand(op, arg))
    ensures Fetch(code, table, at) == Some(Fetched(op, arg, at + |EmitOperand(op, arg)|))
  {
    var piece := EmitOperand(op, arg);
    Held(code, table, at, piece, 0);
    Held(code, table, at, piece, 1);
    OpOfByteOf(op);
    if arg >= 0x100 {
      Held(code, table, at, piece, 2);
      Held(code, table, at, piece, 3);
      assert arg / 0x10000 < 0x100 && arg == arg / 0x10000 * 0x10000 + arg % 0x10000;
      assert arg % 0x10000 == (arg / 0x100) % 0x100 * 0x100 + arg % 0x100;
    }
  }
}
