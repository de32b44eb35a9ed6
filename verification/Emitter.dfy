/** The compiler of src/compiler.c at work: one object whose code, jump table, locals and pending jump lists are
    changed in place. Statement's contract is that code and table together hold exactly Codegen's text. */
module Emitter {
  import opened Options
  import opened Syntax
  import opened Bytecode
  import opened Codegen
  import opened Patching

  // Distances are C ints.
  const CODE_LIMIT := 0x8000_0000

  /** Everything the compiler holds, as a value; `text` is what its code and its table say. */
  datatype Draft = Draft(text: Text, locals: seq<nat>, scopeDepth: nat, loopLocalCount: nat,
                         breaks: seq<nat>, continues: seq<nat>)

  ghost function Emitted(d: Draft, s: Stmt): Draft {
    var depth, at, lp := |d.locals|, |d.text|, Loop(d.loopLocalCount, None, None);
    d.(text := d.text + GenStmt(s, depth, lp, at),
       locals := d.locals + seq(Decls(s), _ => d.scopeDepth),
       breaks := d.breaks + Holes(s, depth, lp.count, at, Breaking),
       continues := d.continues + Holes(s, depth, lp.count, at, Continuing))
  }

  /** A block leaves no locals. */
  ghost function EmittedBlock(d: Draft, s: Stmt): Draft {
    var depth, at, lp := |d.locals|, |d.text|, Loop(d.loopLocalCount, None, None);
    d.(text := d.text + GenBlock(s, depth, lp, at),
       breaks := d.breaks + Holes(s, depth, lp.count, at, Breaking),
       continues := d.continues + Holes(s, depth, lp.count, at, Continuing))
  }

  /** A loop body that started at the end of `d` and its jump back to `loopStart`. */
  ghost function EmittedBody(d: Draft, body: Stmt, loopStart: nat, op: Op): Draft {
    var depth, at := |d.locals|, |d.text|;
    var end := at + BlockSize(body, depth, depth);
    d.(text := d.text + GenBlock(body, depth, Loop(depth, None, Some(end)), at)
               + EmitJump(op, end + 3 - loopStart - if op == LOOP_ITER then 3 else 0),
       breaks := d.breaks + Holes(body, depth, depth, at, Breaking))
  }

  ghost predicate Below(depths: seq<nat>, depth: nat) {
    forall i | 0 <= i < |depths| :: depths[i] < depth
  }

  /** Every offset is at most `start`. */
  ghost predicate Before(offs: seq<nat>, start: nat) {
    forall i | 0 <= i < |offs| :: offs[i] <= start
  }

  /** How many of the offsets stay when the trailing ones above `start` are dropped. */
  function Kept(offs: seq<nat>, start: nat): (k: nat)
    ensures k <= |offs|
  {
    if offs == [] || offs[|offs| - 1] <= start then |offs| else Kept(offs[..|offs| - 1], start)
  }

  lemma {:induction false} KeptSplit(kept: seq<nat>, added: seq<nat>, start: nat)
    requires Before(kept, start)
    requires forall i | 0 <= i < |added| :: added[i] > start
    ensures Kept(kept + added, start) == |kept|
    decreases |added|
  {
    if added == [] {
      assert kept + added == kept;
    } else {
      assert (kept + added)[..|kept + added| - 1] == kept + added[..|added| - 1];
      KeptSplit(kept, added[..|added| - 1], start);
    }
  }

  /** The byte shows a cell by itself, with nothing in the table. */
  ghost predicate Shows(b: Byte, cell: Cell) {
    match cell
    case B(x) => b == x
    case J(op) => b == ByteOf(op)
    case D1(d) => 0 <= d <= 0xFFFF && b == High(d)
    case D2(d) => b == Low(d)
  }

  class Compiler {
    var code: Code
    var table: seq<Overlong>
    var locals: seq<nat>          // scope depth of each local
    var scopeDepth: nat
    var loopLocalCount: nat
    var breaks: seq<nat>          // operand offsets of jumps waiting for the end of a loop
    var continues: seq<nat>
    /** What the code holds, jumps whole. */
    ghost var text: Text

    constructor ()
      ensures Valid() && Now() == Draft([], [], 0, 0, [], [])
    {
      code, table, locals, scopeDepth, loopLocalCount, breaks, continues := [], [], [], 0, 0, [], [];
      text := [];
    }

    ghost function Now(): Draft
      reads this
    {
      Draft(text, locals, scopeDepth, loopLocalCount, breaks, continues)
    }

    ghost predicate Valid()
      reads this
    {
      && |text| == |code| && At(code, table, 0, text) && Recent(table, |code|)
      && HolesIn(text, 0, breaks) && HolesIn(text, 0, continues)
      && (forall i | 0 <= i < |locals| :: locals[i] <= scopeDepth)
    }

    lemma Laid()
      requires Valid()
      ensures |text| == |code| && At(code, table, 0, text)
    {
    }

    lemma Sizes()
      requires Valid()
      ensures |text| == |code|
    {
    }

    // ----- bytes and jumps -----

    method EmitByte(b: Byte, ghost cell: Cell)
      modifies `code, `text
      ensures old(Valid()) && Shows(b, cell) ==> Valid()
      ensures code == old(code) + [b] && text == old(text) + [cell]
    {
      if Valid() && Shows(b, cell) {
        Appended(code, table, text, b, cell);
      }
      code := code + [b];
      text := text + [cell];
    }

    method EmitBytes(a: Byte, b: Byte, ghost first: Cell, ghost second: Cell)
      modifies `code, `text
      ensures old(Valid()) && Shows(a, first) && Shows(b, second) ==> Valid()
      ensures code == old(code) + [a, b] && text == old(text) + [first, second]
    {
      hide Valid, Shows;
      EmitByte(a, first);
      EmitByte(b, second);
    }

    method EmitOp(op: Op)
      requires Valid()
      modifies `code, `text
      ensures Valid() && text == old(text) + Emit1(op)
    {
      hide Valid;
      EmitByte(ByteOf(op), B(ByteOf(op)));
    }

    method EmitOperandOp(op: Op, arg: nat)
      requires Valid() && FormOf(op) == Operand
      modifies `code, `text
      ensures Valid() && text == old(text) + EmitOperand(op, arg)
    {
      hide Valid;
      OpOfByteOf(op);
      if arg < 256 {
        EmitBytes(ByteOf(op), arg, B(ByteOf(op)), B(arg));
      } else {
        EmitBytes(ByteOf(op) + 1, (arg / 0x10000) % 0x100, B(ByteOf(op) + 1), B(Low(arg / 0x10000)));
        EmitBytes((arg / 0x100) % 0x100, arg % 0x100, B(High(arg)), B(Low(arg)));
      }
    }

    method EmitJumpOp(op: Op) returns (offset: nat)
      requires Valid()
      modifies `code, `text
      ensures Valid() && text == old(text) + EmitJump(op, UNPATCHED) && offset == |old(text)| + 1
    {
      hide Valid;
      EmitByte(ByteOf(op), J(op));
      EmitBytes(0xFF, 0xFF, D1(UNPATCHED), D2(UNPATCHED));
      Sizes();
      offset := |code| - 2;
    }

    /** The distance's high half goes to a table entry; a new entry takes the opcode's place over. */
    method EmitOverlongJump(offset: nat, jump: nat)
      requires 0 < offset <= |code| && jump > 0xFFFF
      modifies `code, `table
      ensures |code| == |old(code)| && Recorded(old(code), old(table), code, table, offset, jump)
      ensures forall i | 0 <= i < |code| && i != offset - 1 :: code[i] == old(code)[i]
    {
      var i := 0;
      while i < |table| && table[i].offset != offset
        invariant i <= |table|
        invariant forall j | 0 <= j < i :: table[j].offset != offset
      {
        i := i + 1;
      }
      LookupFirst(table, offset, i);
      if i == |table| {
        table := table + [Overlong(offset, 0, code[offset - 1])];
        code := code[offset - 1 := OVERLONG_JUMP];
      }
      table := table[i := table[i].(high := (jump / 0x10000) % 0x10000)];
    }

    /** Point the jump whose operand is at `offset` to the end of the code, however far that is. A jump may be pointed to
        a later end once more. */
    method PatchJump(offset: nat)
      requires Valid() && Patchable(text, offset) && |text| < CODE_LIMIT
      modifies `code, `text, `table
      ensures Valid() && text == Patch(old(text), 0, offset, |text| - offset - 2)
      ensures FormOf(text[offset - 1].op) == Jump ==>
                Fetch(code, table, offset - 1) == Some(Fetched(text[offset - 1].op, |text| - offset - 2, offset + 2))
    {
      hide HolesIn, At;
      var jump := |code| - offset - 2;
      if jump > 0xFFFF {
        EmitOverlongJump(offset, jump);
      }
      code := code[offset := (jump / 0x100) % 0x100];
      code := code[offset + 1 := jump % 0x100];
      text := Patch(text, 0, offset, jump);
      Landed(old(code), old(table), code, table, old(text), offset, jump);
      HolesStay(old(text), offset, jump, breaks);
      HolesStay(old(text), offset, jump, continues);
      PatchedJump(old(text), offset, jump);
      if FormOf(text[offset - 1].op) == Jump {
        JumpAt(code, table, text, offset - 1, text[offset - 1].op, jump);
      }
    }

    /** Point the `continue`s of the loop that starts at `loopStart` here. */
    method PatchContinues(loopStart: nat)
      requires Valid() && |text| < CODE_LIMIT && AllOpen(text, 0, continues[Kept(continues, loopStart)..])
      modifies `code, `text, `table, `continues
      ensures Valid()
      ensures var k := Kept(old(continues), loopStart);
        && continues == old(continues)[..k] && HolesIn(old(text), 0, old(continues)[k..])
        && text == PatchAll(old(text), 0, old(continues)[k..], |text|)
    {
      hide At, AllOpen, Fetch;
      ghost var k, n := Kept(continues, loopStart), |text|;
      while |continues| > 0 && continues[|continues| - 1] > loopStart
        invariant Valid() && |text| == n && k <= |continues| <= |old(continues)|
        invariant continues == old(continues)[..|continues|] && Kept(continues, loopStart) == k
        invariant HolesIn(text, 0, continues[k..]) && HolesIn(old(text), 0, old(continues)[k..])
        invariant AllOpen(text, 0, continues[k..])
        invariant PatchAll(text, 0, continues[k..], n) == PatchAll(old(text), 0, old(continues)[k..], n)
        decreases |continues|
      {
        ghost var rest := continues[k..];
        assert rest[..|rest| - 1] == continues[..|continues| - 1][k..];
        LastOpen(text, rest);
        PatchJump(continues[|continues| - 1]);
        continues := continues[..|continues| - 1];
      }
      assert continues[k..] == [];
    }

    /** Emit the jump back of a loop that starts at `loopStart`, first pointing its `continue`s here. A
        LOOP_ITER goes back to just after the loop's CALL_ITER. */
    method EmitLoop(loopStart: nat, op: Op)
      requires Valid() && (op == LOOP || op == LOOP_ITER) && loopStart + (if op == LOOP_ITER then 3 else 0) <= |text|
      requires |text| + 3 < CODE_LIMIT && AllOpen(text, 0, continues[Kept(continues, loopStart)..])
      modifies `code, `text, `table, `continues
      ensures Valid() && |text| == |old(text)| + 3
      ensures var distance := |text| - loopStart - if op == LOOP_ITER then 3 else 0;
        && Fetch(code, table, |old(text)|) == Some(Fetched(op, distance, |text|))
        && var k := Kept(old(continues), loopStart);
        && continues == old(continues)[..k] && HolesIn(old(text), 0, old(continues)[k..])
        && text == PatchAll(old(text), 0, old(continues)[k..], |old(text)|) + EmitJump(op, distance)
    {
      hide Fetch, PatchAll, Kept, Lookup, AllOpen, Holds, ByteOf, At;
      PatchContinues(loopStart);
      Sizes();
      EmitByte(ByteOf(op), J(op));
      ghost var code1, table1, text1 := code, table, text;
      var offset := |code| - loopStart + (if op == LOOP_ITER then -1 else 2);
      if offset > 0xFFFF {
        EmitOverlongJump(|code|, offset);
      }
      ghost var code2 := code;
      EmitBytes((offset / 0x100) % 0x100, offset % 0x100, D1(offset), D2(offset));
      LoopLands(code1, table1, code2, code, table, text1, op, offset);
      HolesLonger(text1, [D1(offset), D2(offset)], breaks);
      HolesLonger(text1, [D1(offset), D2(offset)], continues);
      LoopFetched(code, table, text1, op, offset);
    }

    /** Point the `break`s of the loop that starts at `loopStart` here. */
    method PatchBreaks(loopStart: nat)
      requires Valid() && |text| < CODE_LIMIT && AllOpen(text, 0, breaks[Kept(breaks, loopStart)..])
      modifies `code, `text, `table, `breaks
      ensures Valid()
      ensures var k := Kept(old(breaks), loopStart);
        && breaks == old(breaks)[..k] && HolesIn(old(text), 0, old(breaks)[k..])
        && text == PatchAll(old(text), 0, old(breaks)[k..], |text|)
    {
      hide At, AllOpen, Fetch;
      ghost var k, n := Kept(breaks, loopStart), |text|;
      while |breaks| > 0 && breaks[|breaks| - 1] > loopStart
        invariant Valid() && |text| == n && k <= |breaks| <= |old(breaks)|
        invariant breaks == old(breaks)[..|breaks|] && Kept(breaks, loopStart) == k
        invariant HolesIn(text, 0, breaks[k..]) && HolesIn(old(text), 0, old(breaks)[k..])
        invariant AllOpen(text, 0, breaks[k..])
        invariant PatchAll(text, 0, breaks[k..], n) == PatchAll(old(text), 0, old(breaks)[k..], n)
        decreases |breaks|
      {
        ghost var rest := breaks[k..];
        assert rest[..|rest| - 1] == breaks[..|breaks| - 1][k..];
        LastOpen(text, rest);
        PatchJump(breaks[|breaks| - 1]);
        breaks := breaks[..|breaks| - 1];
      }
      assert breaks[k..] == [];
    }

    // ----- expressions: each method appends its bytes and leaves no jump open -----

    method Expression(e: Expr)
      requires Valid() && |text| + |GenExpr(e)| < CODE_LIMIT
      modifies `code, `text, `table
      ensures Valid() && text == old(text) + GenExpr(e)
      decreases e, 1
    {
      hide Valid, EmitOperand, Emit1, EmitJump, GenShortCircuit, GenTernary, GenLinks, GenArgs;
      match e
      case Literal(v) => EmitOp(if v == VBool(true) then TRUE else if v == VBool(false) then FALSE else NONE);
      case Const(i) => EmitOperandOp(CONSTANT, i);
      case Global(i) => EmitOperandOp(GET_GLOBAL, i);
      case Local(i) => EmitOperandOp(GET_LOCAL, i);
      case Assign(i, rhs) =>
        Expression(rhs);
        EmitOperandOp(SET_LOCAL, i);
      case Add(_, _) => Binary(e);
      case Not(a) =>
        Expression(a);
        EmitOp(NOT);
      case And(_, _) => ShortCircuit(e);
      case Or(_, _) => ShortCircuit(e);
      case Ternary(_, _, _) => TernaryExpression(e);
      case Compare(a, links) =>
        Expression(a);
        CompareChained(links, false);
      case Call(_, _) => CallExpression(e);
    }

    method Binary(e: Expr)
      requires e.Add?
      requires Valid() && |text| + |GenExpr(e)| < CODE_LIMIT
      modifies `code, `text, `table
      ensures Valid() && text == old(text) + GenExpr(e)
      decreases e, 0
    {
      hide Valid, Emit1;
      Expression(e.left);
      Expression(e.right);
      EmitOp(ADD);
      Joined3(old(text), GenExpr(e.left), GenExpr(e.right), Emit1(ADD));
    }

    method CallExpression(e: Expr)
      requires e.Call?
      requires Valid() && |text| + |GenExpr(e)| < CODE_LIMIT
      modifies `code, `text, `table
      ensures Valid() && text == old(text) + GenExpr(e)
      decreases e, 0
    {
      hide Valid, EmitOperand;
      Expression(e.callee);
      Arguments(e.args);
      EmitOperandOp(CALL, Count(e.args));
      Joined3(old(text), GenExpr(e.callee), GenArgs(e.args), EmitOperand(CALL, Count(e.args)));
    }

    method ShortCircuit(e: Expr)
      requires e.And? || e.Or?
      requires Valid() && |text| + |GenShortCircuit(e)| < CODE_LIMIT
      modifies `code, `text, `table
      ensures Valid() && text == old(text) + GenShortCircuit(e)
      decreases e, 0
    {
      hide Valid, EmitJump, GenExpr, Patch;
      Expression(e.left);
      ghost var op := if e.And? then JUMP_IF_FALSE_OR_POP else JUMP_IF_TRUE_OR_POP;
      ghost var before := text;
      var endJump := EmitJumpOp(if e.And? then JUMP_IF_FALSE_OR_POP else JUMP_IF_TRUE_OR_POP);
      Expression(e.right);
      PatchOver(before, op, GenExpr(e.right));
      PatchJump(endJump);
    }

    method TernaryExpression(e: Expr)
      requires e.Ternary?
      requires Valid() && |text| + |GenTernary(e)| < CODE_LIMIT
      modifies `code, `text, `table
      ensures Valid() && text == old(text) + GenTernary(e)
      decreases e, 0
    {
      hide Valid, EmitJump, GenExpr, Patch, Emit1;
      Expression(e.cond);
      ghost var before := text;
      var thenJump := EmitJumpOp(JUMP_IF_TRUE_OR_POP);
      Expression(e.elseValue);
      ghost var els := GenExpr(e.elseValue);
      var elseJump := EmitJumpOp(JUMP);
      assert text == before + EmitJump(JUMP_IF_TRUE_OR_POP, UNPATCHED) + (els + EmitJump(JUMP, UNPATCHED));
      PatchOver(before, JUMP_IF_TRUE_OR_POP, els + EmitJump(JUMP, UNPATCHED));
      PatchJump(thenJump);
      EmitOp(POP);
      Expression(e.thenValue);
      ghost var after := Emit1(POP) + GenExpr(e.thenValue);
      ghost var before2 := before + EmitJump(JUMP_IF_TRUE_OR_POP, |els| + 3) + els;
      Regrouped(before + EmitJump(JUMP_IF_TRUE_OR_POP, |els| + 3), els, EmitJump(JUMP, UNPATCHED), Emit1(POP),
                GenExpr(e.thenValue));
      PatchOver(before2, JUMP, after);
      PatchJump(elseJump);
      Joined5(old(text), GenExpr(e.cond), EmitJump(JUMP_IF_TRUE_OR_POP, |els| + 3), els, EmitJump(JUMP, |after|), after);
    }

    method Arguments(args: Exprs)
      requires Valid() && |text| + |GenArgs(args)| < CODE_LIMIT
      modifies `code, `text, `table
      ensures Valid() && text == old(text) + GenArgs(args)
      decreases args, 0
    {
      hide Valid, GenExpr;
      match args
      case NoExpr =>
      case MoreExpr(e, rest) =>
        Expression(e);
        Arguments(rest);
    }

    method Comparison(op: CmpOp)
      requires Valid()
      modifies `code, `text
      ensures Valid() && text == old(text) + GenCompare(op)
    {
      hide Valid, Emit1;
      var invert := op == IsNot;
      match op {
        case Ne => EmitOp(EQUAL); invert := true;
        case Eq => EmitOp(EQUAL);
        case Gt => EmitOp(GREATER);
        case Ge => EmitOp(GREATER_EQUAL);
        case Lt => EmitOp(LESS);
        case Le => EmitOp(LESS_EQUAL);
        case Is | IsNot => EmitOp(IS);
        case In => EmitOp(INVOKE_CONTAINS);
        case NotIn => EmitOp(INVOKE_CONTAINS); invert := true;
      }
      if invert {
        EmitOp(NOT);
      }
    }

    method CompareChained(links: Links, inner: bool)
      requires Valid() && |text| + |GenLinks(links, inner)| < CODE_LIMIT
      modifies `code, `text, `table
      ensures Valid() && text == old(text) + GenLinks(links, inner)
      decreases links, 0
    {
      hide Valid, EmitJump, GenExpr, Patch, Emit1, EmitOperand, GenCompare;
      Expression(links.operand);
      if links.more.Some? {
        EmitOp(SWAP);
        EmitOperandOp(DUP, 1);
      }
      Comparison(links.op);
      if links.more.Some? {
        ghost var before, rest := text, GenLinks(links.more.value, true);
        Chain(links.more.value);
        ghost var tail := if inner then [] else Emit1(SWAP) + Emit1(POP);
        if !inner {
          EmitOp(SWAP);
          EmitOp(POP);
          AppendTwice(before + EmitJump(JUMP_IF_FALSE_OR_POP, |rest|) + rest, Emit1(SWAP), Emit1(POP));
        }
        Joined6(old(text), GenExpr(links.operand), Emit1(SWAP), EmitOperand(DUP, 1), GenCompare(links.op),
                EmitJump(JUMP_IF_FALSE_OR_POP, |rest|), rest + tail);
        AppendTwice(before + EmitJump(JUMP_IF_FALSE_OR_POP, |rest|), rest, tail);
      } else if inner {
        SkipCleanUp();
        Joined3(old(text), GenExpr(links.operand), GenCompare(links.op), EmitJump(JUMP, 2));
        assert text == old(text) + GenExpr(links.operand) + GenCompare(links.op) + EmitJump(JUMP, 2);
      }
    }

    /** The jump over the outermost chain's clean-up. */
    method SkipCleanUp()
      requires Valid()
      modifies `code, `text
      ensures Valid() && text == old(text) + EmitJump(JUMP, 2)
    {
      hide Valid;
      EmitByte(ByteOf(JUMP), J(JUMP));
      EmitBytes(0, 2, D1(2), D2(2));
      ShortSkip();
    }

    /** The rest of a chain, behind the jump that skips it. */
    method Chain(more: Links)
      requires Valid() && |text| + 3 + |GenLinks(more, true)| < CODE_LIMIT
      modifies `code, `text, `table
      ensures Valid()
      ensures text == old(text) + EmitJump(JUMP_IF_FALSE_OR_POP, |GenLinks(more, true)|) + GenLinks(more, true)
      decreases more, 1
    {
      hide Valid, EmitJump, GenLinks, Patch;
      var exitJump := EmitJumpOp(JUMP_IF_FALSE_OR_POP);
      CompareChained(more, true);
      PatchOver(old(text), JUMP_IF_FALSE_OR_POP, GenLinks(more, true));
      PatchJump(exitJump);
    }

    // ----- scopes -----

    method BeginScope()
      modifies `scopeDepth
      ensures scopeDepth == old(scopeDepth) + 1 && (old(Valid()) ==> Valid())
    {
      scopeDepth := scopeDepth + 1;
    }

    method AddLocal()
      requires Valid()
      modifies `locals
      ensures Valid() && locals == old(locals) + [scopeDepth]
    {
      locals := locals + [scopeDepth];
    }

    /** Forget the scope's locals, all but the first `n`, and pop them at run time. */
    method EndScope(ghost n: nat)
      requires Valid() && n <= |locals| && scopeDepth > 0
      requires forall i | 0 <= i < n :: locals[i] < scopeDepth
      requires forall i | n <= i < |locals| :: locals[i] == scopeDepth
      modifies `code, `text, `locals, `scopeDepth
      ensures Valid() && scopeDepth == old(scopeDepth) - 1 && locals == old(locals)[..n]
      ensures text == old(text) + GenPops(|old(locals)| - n)
    {
      scopeDepth := scopeDepth - 1;
      var popCount := 0;
      while |locals| > 0 && locals[|locals| - 1] > scopeDepth
        invariant n <= |locals| <= |old(locals)| && locals == old(locals)[..|locals|]
        invariant popCount == |old(locals)| - |locals|
        invariant scopeDepth == old(scopeDepth) - 1 && code == old(code) && text == old(text)
        decreases |locals|
      {
        popCount := popCount + 1;
        locals := locals[..|locals| - 1];
      }
      if popCount != 0 {
        if popCount == 1 {
          EmitOp(POP);
        } else {
          EmitOperandOp(POP_MANY, popCount);
        }
      }
    }

    /** End a scope that holds two locals above `kept`. */
    method EndPair(ghost kept: seq<nat>)
      requires Valid() && scopeDepth > 0 && locals == kept + [scopeDepth, scopeDepth] && Below(kept, scopeDepth)
      modifies `code, `text, `locals, `scopeDepth
      ensures Valid() && scopeDepth == old(scopeDepth) - 1 && locals == kept && text == old(text) + GenPops(2)
    {
      EndScope(|kept|);
    }

    lemma LocalsBelow()
      requires Valid()
      ensures Below(locals, scopeDepth + 1)
    {
    }

    // ----- statements -----

    method Statement(s: Stmt, ghost scope: Scope, ghost inBody: bool, ghost inLoop: bool)
      requires Valid() && StmtOk(s, scope, inBody, inLoop) && |scope| == |locals|
      requires |text| + StmtSize(s, |locals|, loopLocalCount) < CODE_LIMIT
      modifies this
      ensures Valid() && Now() == Emitted(old(Now()), s)
      decreases s, 1
    {
      hide Valid, GenExpr, Emit1, EmitOperand, EmitJump, GenExit, GenSeq, GenIf, GenWhile, GenFor, GenTry, GenBareTry, ExprOk, HandlersOk;
      hide BlockOk, BlockSize, HandlersSize, HandlerHoles, ElseSize, AlwaysTrue;
      match s
      case Skip =>
      case Eval(e) =>
        Expression(e);
        EmitOp(POP);
      case Let(e) =>
        Expression(e);
        AddLocal();
      case Seq(a, b) => SeqStatement(s, scope, inBody, inLoop);
      case If(_, _, _) => IfStatement(s, scope, inBody, inLoop);
      case While(_, _, _) => WhileStatement(s, scope, inLoop);
      case For(_, _, _) => ForStatement(s, scope, inLoop);
      case Try(_, _, _, _) => TryStatement(s, scope, inBody, inLoop);
      case BareTry(_) => BareTryStatement(s, scope, inBody, inLoop);
      case Raise(e, cause) => RaiseStatement(s);
      case Return(e) =>
        Expression(e);
        EmitOp(RETURN);
      case Break => BreakStatement();
      case Continue => ContinueStatement();
    }

    /** A function body and the implicit return; nothing is left open, and code and table hold all of it. */
    method Function(body: Stmt, ghost scope: Scope)
      requires Valid() && StmtOk(body, scope, false, false) && |scope| == |locals|
      requires Now() == Draft([], locals, scopeDepth, 0, [], [])
      requires StmtSize(body, |locals|, 0) + 2 < CODE_LIMIT
      modifies this
      ensures text == GenFunction(body, |old(locals)|) && |code| == |text| && At(code, table, 0, text)
      ensures breaks == [] && continues == []
    {
      hide Valid, GenStmt, StmtSize, StmtOk, Holes, Emit1, Decls;
      ghost var depth := |locals|;
      NoHoles(body, scope, false, false, depth, 0, 0, Breaking);
      NoHoles(body, scope, false, false, depth, 0, 0, Continuing);
      Statement(body, scope, false, false);
      EmitOp(NONE);
      EmitOp(RETURN);
      Joined3([], GenStmt(body, depth, Loop(0, None, None), 0), Emit1(NONE), Emit1(RETURN));
      Laid();
    }

    method RaiseStatement(s: Stmt)
      requires Valid() && s.Raise? && |text| + |GenRaise(s)| < CODE_LIMIT
      modifies `code, `text, `table
      ensures Valid() && text == old(text) + GenRaise(s)
    {
      hide Valid, GenExpr, Emit1;
      Expression(s.exc);
      if s.cause.Some? {
        Expression(s.cause.value);
        EmitOp(RAISE_FROM);
        Joined3(old(text), GenExpr(s.exc), GenExpr(s.cause.value), Emit1(RAISE_FROM));
      } else {
        EmitOp(RAISE);
      }
    }

    method BreakStatement()
      requires Valid()
      modifies `code, `text, `breaks
      ensures Valid() && text == old(text) + GenLeaveLoop(|locals|, loopLocalCount, None, |old(text)|)
      ensures breaks == old(breaks) + [|old(text)| + |GenExit(|locals|, loopLocalCount)| + 1]
    {
      if loopLocalCount != |locals| {
        EmitOperandOp(EXIT_LOOP, loopLocalCount);
      }
      var offset := EmitJumpOp(JUMP);
      breaks := breaks + [offset];
    }

    method ContinueStatement()
      requires Valid()
      modifies `code, `text, `continues
      ensures Valid() && text == old(text) + GenLeaveLoop(|locals|, loopLocalCount, None, |old(text)|)
      ensures continues == old(continues) + [|old(text)| + |GenExit(|locals|, loopLocalCount)| + 1]
    {
      if loopLocalCount != |locals| {
        EmitOperandOp(EXIT_LOOP, loopLocalCount);
      }
      var offset := EmitJumpOp(JUMP);
      continues := continues + [offset];
    }

    method SeqStatement(s: Stmt, ghost scope: Scope, ghost inBody: bool, ghost inLoop: bool)
      requires Valid() && s.Seq? && |scope| == |locals| && StmtOk(s.first, scope, inBody, inLoop)
      requires StmtOk(s.second, scope + Declared(Decls(s.first)), inBody, inLoop)
      requires |text| + StmtSize(s, |locals|, loopLocalCount) < CODE_LIMIT
      modifies this
      ensures Valid() && Now() == Emitted(old(Now()), s)
      decreases s, 0
    {
      hide Valid, GenStmt, Emitted, Holes, StmtSize, StmtOk, Decls;
      EmittedSizes(Now(), s.first);
      EmittedSeq(Now(), s);
      SeqSize(s, |locals|, loopLocalCount);
      Statement(s.first, scope, inBody, inLoop);
      Statement(s.second, scope + Declared(Decls(s.first)), inBody, inLoop);
    }

    method Block(s: Stmt, ghost scope: Scope, ghost inBody: bool, ghost inLoop: bool)
      requires Valid() && BlockOk(s, scope, inBody, inLoop) && |scope| == |locals|
      requires |text| + BlockSize(s, |locals|, loopLocalCount) < CODE_LIMIT
      modifies this
      ensures Valid() && Now() == EmittedBlock(old(Now()), s)
      decreases s, 2
    {
      hide Valid, GenStmt, GenPops, StmtSize, StmtOk, Holes, Decls;
      LocalsBelow();
      BeginScope();
      Statement(s, scope, inBody, inLoop);
      StmtLength(s, |old(locals)|, Loop(loopLocalCount, None, None), |old(text)|);
      EndScope(|old(locals)|);
    }

    method IfStatement(s: Stmt, ghost scope: Scope, ghost inBody: bool, ghost inLoop: bool)
      requires Valid() && s.If? && |scope| == |locals| && BlockOk(s.thn, scope, inBody, inLoop)
      requires s.els.Some? ==> BlockOk(s.els.value, scope, inBody, inLoop)
      requires |text| + StmtSize(s, |locals|, loopLocalCount) < CODE_LIMIT
      modifies this
      ensures Valid() && Now() == Emitted(old(Now()), s)
      decreases s, 0
    {
      hide Valid, GenBlock, BlockOk, BlockSize, EmitJump, GenExpr, Patch, GenStmt, StmtSize, Holes, Emitted, HoleIn, Decls;
      hide Open, Patchable;
      ghost var depth, lp := |locals|, Loop(loopLocalCount, None, None);
      IfPlan(s, depth, lp, |text|);
      Expression(s.cond);
      ghost var before := text;
      var thenJump := EmitJumpOp(POP_JUMP_IF_FALSE);
      ghost var thn := GenBlock(s.thn, depth, lp, |text|);
      Block(s.thn, scope, inBody, inLoop);
      if s.els.Some? {
        ElseBranch(s.els.value, thenJump, scope, inBody, inLoop, before, thn);
        ghost var els := GenBlock(s.els.value, depth, lp, |before| + 3 + |thn| + 3);
        AppendTwice(old(text), GenExpr(s.cond),
                    EmitJump(POP_JUMP_IF_FALSE, |thn| + 3) + (thn + (EmitJump(JUMP, |els|) + els)));
        AppendTwice(old(breaks), Holes(s.thn, depth, lp.count, |before| + 3, Breaking),
                    Holes(s.els.value, depth, lp.count, |before| + 3 + |thn| + 3, Breaking));
        AppendTwice(old(continues), Holes(s.thn, depth, lp.count, |before| + 3, Continuing),
                    Holes(s.els.value, depth, lp.count, |before| + 3 + |thn| + 3, Continuing));
      } else {
        PatchOver(before, POP_JUMP_IF_FALSE, thn);
        PatchJump(thenJump);
        Joined3(old(text), GenExpr(s.cond), EmitJump(POP_JUMP_IF_FALSE, |thn|), thn);
      }
      IfDone(old(Now()), s, Now());
    }

    /** The `else` of an if: the false condition comes here, and the true branch goes past. */
    method ElseBranch(els: Stmt, thenJump: nat, ghost scope: Scope, ghost inBody: bool, ghost inLoop: bool, ghost pre: Text, ghost thn: Text)
      requires Valid() && BlockOk(els, scope, inBody, inLoop) && |scope| == |locals|
      requires text == pre + EmitJump(POP_JUMP_IF_FALSE, UNPATCHED) + thn && thenJump == |pre| + 1
      requires |text| + 3 + BlockSize(els, |locals|, loopLocalCount) < CODE_LIMIT
      modifies this
      ensures Valid()
      ensures var depth, lp, at := |locals|, Loop(loopLocalCount, None, None), |pre| + 3 + |thn| + 3;
        var e := GenBlock(els, depth, lp, at);
        Now() == old(Now()).(
          text := pre + (EmitJump(POP_JUMP_IF_FALSE, |thn| + 3) + (thn + (EmitJump(JUMP, |e|) + e))),
          breaks := old(breaks) + Holes(els, depth, lp.count, at, Breaking),
          continues := old(continues) + Holes(els, depth, lp.count, at, Continuing))
      decreases els, 3
    {
      hide Valid, GenBlock, BlockOk, BlockSize, EmitJump, Patch, Holes, HoleIn, Open, Patchable;
      var elseJump := EmitJumpOp(JUMP);
      AppendTwice(pre + EmitJump(POP_JUMP_IF_FALSE, UNPATCHED), thn, EmitJump(JUMP, UNPATCHED));
      PatchOver(pre, POP_JUMP_IF_FALSE, thn + EmitJump(JUMP, UNPATCHED));
      PatchJump(thenJump);
      ghost var before := pre + EmitJump(POP_JUMP_IF_FALSE, |thn| + 3) + thn;
      AppendTwice(pre + EmitJump(POP_JUMP_IF_FALSE, |thn| + 3), thn, EmitJump(JUMP, UNPATCHED));
      ghost var e := GenBlock(els, |locals|, Loop(loopLocalCount, None, None), |text|);
      BlockLength(els, |locals|, Loop(loopLocalCount, None, None), |text|);
      Block(els, scope, inBody, inLoop);
      PatchOver(before, JUMP, e);
      PatchJump(elseJump);
      Joined4(pre, EmitJump(POP_JUMP_IF_FALSE, |thn| + 3), thn, EmitJump(JUMP, |e|), e);
    }

    /** A loop's body and the jump back: the body's `continue`s come here, its `break`s stay open. */
    method LoopBody(body: Stmt, loopStart: nat, op: Op, ghost scope: Scope)
      requires Valid() && BlockOk(body, scope, true, true) && |scope| == |locals|
      requires op == LOOP || op == LOOP_ITER
      requires loopStart + (if op == LOOP_ITER then 3 else 0) <= |text|
      requires Before(breaks, loopStart) && Before(continues, loopStart)
      requires |text| + BlockSize(body, |locals|, |locals|) + 3 < CODE_LIMIT
      modifies this
      ensures Valid() && Now() == EmittedBody(old(Now()), body, loopStart, op)
      decreases body, 3
    {
      hide Valid, GenBlock, BlockOk, BlockSize, EmitJump, PatchAll, Fetch, Holes, Kept, HolesIn, HoleIn, ByteOf;
      var oldLocalCount := loopLocalCount;
      SetLoop(|locals|);
      ghost var at, depth, lp := |text|, |locals|, Loop(|locals|, None, None);
      Block(body, scope, true, true);
      SetLoop(oldLocalCount);
      ghost var holes := Holes(body, depth, depth, at, Continuing);
      BodyContinues(old(text), body, depth, lp, at, old(continues), loopStart, |text|);
      assert continues == old(continues) + holes && continues[|old(continues)|..] == holes;
      ghost var end := |text|;
      EmitLoop(loopStart, op);
      assert continues == old(continues);
      assert text == old(text) + GenBlock(body, depth, Loop(depth, None, Some(end)), at)
                     + EmitJump(op, |text| - loopStart - if op == LOOP_ITER then 3 else 0);
    }

    method WhileStatement(s: Stmt, ghost scope: Scope, ghost inLoop: bool)
      requires Valid() && s.While? && |scope| == |locals|
      requires BlockOk(s.body, scope, true, true) && BlockOk(s.orElse, scope, false, inLoop)
      requires |text| + StmtSize(s, |locals|, loopLocalCount) < CODE_LIMIT
      modifies this
      ensures Valid() && Now() == Emitted(old(Now()), s)
      decreases s, 0
    {
      hide Valid, GenBlock, BlockOk, BlockSize, EmitJump, GenStmt, StmtSize, Holes, WhileHead, WhilePop, Before, Emitted;
      ghost var d := Now();
      ghost var depth, lp := |locals|, Loop(loopLocalCount, None, None);
      WhilePlan(s, depth, lp, |text|);
      OffsetsBefore();
      Sizes();
      var loopStart := |code|;
      WhileRound(s, scope);
      ghost var size := BlockSize(s.body, depth, depth);
      ghost var head := WhileHead(s, size + 3);
      ghost var at := |d.text| + |head|;
      ghost var end := at + size + 3 + |WhilePop(s)|;
      ghost var inner, again := Loop(depth, None, Some(at + size)), EmitJump(LOOP, at + size + 3 - loopStart);
      LoopElse(s.orElse, loopStart, scope, inLoop, s.body, inner, at, d.text + head, again + WhilePop(s), d);
      ghost var body := GenBlock(s.body, depth, inner.(brk := Some(|text|)), at);
      WhileDone(d, s, scope, inLoop, Now(), head, at, body, again, end, GenBlock(s.orElse, depth, lp, end));
    }

    /** The loop itself: what is left open is its `break`s. */
    method WhileRound(s: Stmt, ghost scope: Scope)
      requires Valid() && s.While? && |scope| == |locals| && BlockOk(s.body, scope, true, true)
      requires |text| + |WhileHead(s, UNPATCHED)| + BlockSize(s.body, |locals|, |locals|) + 3 + |WhilePop(s)| < CODE_LIMIT
      modifies this
      ensures Valid()
      ensures var depth, base, size := |locals|, |old(text)|, BlockSize(s.body, |locals|, |locals|);
        var head := WhileHead(s, size + 3);
        var at := base + |head|;
        && Now() == old(Now()).(
            text := old(text) + head + GenBlock(s.body, depth, Loop(depth, None, Some(at + size)), at)
                    + (EmitJump(LOOP, at + size + 3 - base) + WhilePop(s)),
            breaks := old(breaks) + Holes(s.body, depth, depth, at, Breaking))
        && |text| == at + size + 3 + |WhilePop(s)|
      decreases s, 0, 0
    {
      hide Valid, GenBlock, BlockOk, BlockSize, EmitJump, Holes, WhilePop, Before, GenExpr, AlwaysTrue;
      ghost var d := Now();
      ghost var depth := |locals|;
      OffsetsBefore();
      Sizes();
      var loopStart := |code|;
      var exitJump := WhileCondition(s);
      ghost var at, size := |text|, BlockSize(s.body, depth, depth);
      BeforeLater(breaks, loopStart, loopStart);
      LoopBody(s.body, loopStart, LOOP, scope);
      ghost var inner, again := Loop(depth, None, Some(at + size)), EmitJump(LOOP, at + size + 3 - loopStart);
      BlockLength(s.body, depth, inner, at);
      WhileExit(s, exitJump, d.text, GenBlock(s.body, depth, inner, at), again);
    }

    /** The condition and its exit jump, unless the loop needs none (then 0). */
    method WhileCondition(s: Stmt) returns (exitJump: nat)
      requires Valid() && s.While? && |text| + |WhileHead(s, UNPATCHED)| < CODE_LIMIT
      modifies `code, `text, `table
      ensures Valid() && text == old(text) + WhileHead(s, UNPATCHED)
      ensures exitJump == if AlwaysTrue(s.cond) then 0 else |old(text)| + |GenExpr(s.cond)| + 1
    {
      hide Valid, EmitJump, GenExpr, AlwaysTrue;
      exitJump := 0;
      if !AlwaysTrue(s.cond) {
        Expression(s.cond);
        exitJump := EmitJumpOp(JUMP_IF_FALSE_OR_POP);
      }
    }

    /** After the jump back: where a false condition lands. */
    method WhileExit(s: Stmt, exitJump: nat, ghost pre: Text, ghost body: Text, ghost again: Text)
      requires Valid() && s.While? && |text| < CODE_LIMIT
      requires text == pre + WhileHead(s, UNPATCHED) + body + again
      requires exitJump == if AlwaysTrue(s.cond) then 0 else |pre| + |GenExpr(s.cond)| + 1
      modifies `code, `text, `table
      ensures Valid()
      ensures text == pre + WhileHead(s, |body| + |again|) + body + (again + WhilePop(s))
    {
      hide Valid, EmitJump, GenExpr, AlwaysTrue, Patch, Emit1, Fetch, HoleIn;
      if exitJump != 0 {
        CloseHead(s, pre, body, again);
        PatchJump(exitJump);
        EmitOp(POP);
      }
    }

    method ForStatement(s: Stmt, ghost scope: Scope, ghost inLoop: bool)
      requires Valid() && s.For? && |scope| == |locals|
      requires BlockOk(s.body, scope + [true, false], true, true) && BlockOk(s.orElse, scope + [true, false], false, inLoop)
      requires |text| + StmtSize(s, |locals|, loopLocalCount) < CODE_LIMIT
      modifies this
      ensures Valid() && Now() == Emitted(old(Now()), s)
      decreases s, 0
    {
      hide Valid, GenBlock, BlockOk, BlockSize, EmitJump, GenStmt, StmtSize, Holes, ForSetup, Before, Emitted, GenPops, Below;
      hide EmitOperand, Emit1;
      ghost var d := Now();
      ghost var depth, lp := |locals|, Loop(loopLocalCount, None, None);
      ForPlan(s, depth, lp, |text|);
      OffsetsBefore();
      LocalsBelow();
      var loopStart := ForRound(s, scope);
      ghost var size, store := BlockSize(s.body, depth + 2, depth + 2), |EmitOperand(SET_LOCAL_POP, depth)|;
      ghost var head := ForSetup(s, depth, store + size + 3);
      ghost var at := |d.text| + |head|;
      ghost var end := at + size + 4;
      ghost var inner, again := Loop(depth + 2, None, Some(at + size)), EmitJump(LOOP_ITER, store + size + 3);
      BeforeLater(d.breaks, |d.text|, loopStart);
      LoopElse(s.orElse, loopStart, scope + [true, false], inLoop, s.body, inner, at, d.text + head, again + Emit1(POP), d);
      ghost var after := |text|;
      ghost var body := GenBlock(s.body, depth + 2, inner.(brk := Some(after)), at);
      EndPair(d.locals);
      ForDone(d, s, scope, inLoop, Now(), head, at, body, again, end, GenBlock(s.orElse, depth + 2, lp, end), after);
    }

    /** The loop itself: what is left open is its scope and its `break`s. */
    method ForRound(s: Stmt, ghost scope: Scope) returns (loopStart: nat)
      requires Valid() && s.For? && |scope| == |locals| && BlockOk(s.body, scope + [true, false], true, true)
      requires |text| + |ForSetup(s, |locals|, UNPATCHED)| + BlockSize(s.body, |locals| + 2, |locals| + 2) + 4 < CODE_LIMIT
      modifies this
      ensures Valid()
      ensures var depth, base := |old(locals)|, |old(text)|;
        var size, store := BlockSize(s.body, depth + 2, depth + 2), |EmitOperand(SET_LOCAL_POP, depth)|;
        var head := ForSetup(s, depth, store + size + 3);
        var at := base + |head|;
        && scopeDepth == old(scopeDepth) + 1
        && Now() == old(Now()).(
            text := old(text) + head + GenBlock(s.body, depth + 2, Loop(depth + 2, None, Some(at + size)), at)
                    + (EmitJump(LOOP_ITER, store + size + 3) + Emit1(POP)),
            locals := old(locals) + [scopeDepth, scopeDepth], scopeDepth := scopeDepth,
            breaks := old(breaks) + Holes(s.body, depth + 2, depth + 2, at, Breaking))
        && |text| == at + size + 4 && base <= loopStart <= at
      decreases s, 0, 0
    {
      hide Valid, GenBlock, BlockOk, BlockSize, EmitJump, Holes, Before, GenExpr, Emit1, EmitOperand;
      ghost var d := Now();
      ghost var depth := |locals|;
      OffsetsBefore();
      var exitJump;
      loopStart, exitJump := ForHead(s);
      BeforeLater(d.breaks, |d.text|, loopStart);
      BeforeLater(d.continues, |d.text|, loopStart);
      ghost var at, size := |text|, BlockSize(s.body, depth + 2, depth + 2);
      LoopBody(s.body, loopStart, LOOP_ITER, scope + [true, false]);
      ghost var inner, again := Loop(depth + 2, None, Some(at + size)), EmitJump(LOOP_ITER, at + size - loopStart);
      BlockLength(s.body, depth + 2, inner, at);
      ForExit(s, depth, exitJump, d.text, GenBlock(s.body, depth + 2, inner, at), again);
    }

    /** An expression in a scope of its own, which stays empty. */
    method ScopedExpression(e: Expr)
      requires Valid() && |text| + |GenExpr(e)| < CODE_LIMIT
      modifies this
      ensures Valid() && Now() == old(Now()).(text := old(text) + GenExpr(e))
    {
      hide GenExpr, HolesIn;
      BeginScope();
      Expression(e);
      EndScope(|locals|);
    }

    /** Declare the loop variable and the iterator. */
    method ForLocals(iterable: Expr) returns (loopInd: nat)
      requires Valid() && |text| + 1 + |GenExpr(iterable)| + 1 < CODE_LIMIT
      modifies this
      ensures Valid() && loopInd == |old(locals)|
      ensures Now() == old(Now()).(text := text, locals := locals, scopeDepth := scopeDepth)
      ensures scopeDepth == old(scopeDepth) + 1 && locals == old(locals) + [scopeDepth, scopeDepth]
      ensures text == old(text) + Emit1(NONE) + GenExpr(iterable) + Emit1(INVOKE_ITER)
    {
      hide Valid, GenExpr, Emit1;
      BeginScope();
      loopInd := |locals|;
      EmitOp(NONE);
      AddLocal();
      ScopedExpression(iterable);
      AddLocal();
      EmitOp(INVOKE_ITER);
    }

    /** ... and fetch the first item. */
    method ForHead(s: Stmt) returns (loopStart: nat, exitJump: nat)
      requires Valid() && s.For? && |text| + |ForSetup(s, |locals|, UNPATCHED)| < CODE_LIMIT
      modifies this
      ensures Valid()
      ensures Now() == old(Now()).(text := text, locals := locals, scopeDepth := scopeDepth)
      ensures scopeDepth == old(scopeDepth) + 1 && locals == old(locals) + [scopeDepth, scopeDepth]
      ensures text == old(text) + ForSetup(s, |old(locals)|, UNPATCHED)
      ensures loopStart == |old(text)| + 1 + |GenExpr(s.iterable)| + 1 && exitJump == loopStart + 1
    {
      hide Valid, EmitJump, GenExpr, EmitOperand, Emit1;
      var loopInd := ForLocals(s.iterable);
      Sizes();
      loopStart := |code|;
      exitJump := EmitJumpOp(CALL_ITER);
      EmitOperandOp(SET_LOCAL_POP, loopInd);
      Joined5(old(text), Emit1(NONE), GenExpr(s.iterable), Emit1(INVOKE_ITER), EmitJump(CALL_ITER, UNPATCHED),
              EmitOperand(SET_LOCAL_POP, loopInd));
    }

    /** After the jump back: where an exhausted iterator lands. */
    method ForExit(s: Stmt, ghost depth: nat, exitJump: nat, ghost pre: Text, ghost body: Text, ghost again: Text)
      requires Valid() && s.For? && |text| < CODE_LIMIT
      requires text == pre + ForSetup(s, depth, UNPATCHED) + body + again
      requires exitJump == |pre| + 1 + |GenExpr(s.iterable)| + 1 + 1
      modifies `code, `text, `table
      ensures Valid()
      ensures text == pre + ForSetup(s, depth, |EmitOperand(SET_LOCAL_POP, depth)| + |body| + |again|) + body + (again + Emit1(POP))
    {
      hide Valid, EmitJump, GenExpr, Patch, Emit1, Fetch, HoleIn, EmitOperand, ForSetup;
      CloseSetup(s, depth, pre, body, again);
      PatchJump(exitJump);
      EmitOp(POP);
    }

    method TryStatement(s: Stmt, ghost scope: Scope, ghost inBody: bool, ghost inLoop: bool)
      requires Valid() && s.Try? && |scope| == |locals| && TryOk(s, scope, inBody, inLoop)
      requires |text| + StmtSize(s, |locals|, loopLocalCount) < CODE_LIMIT
      modifies this
      ensures Valid() && Now() == Emitted(old(Now()), s)
      decreases s, 0
    {
      hide Valid, GenBlock, BlockOk, BlockSize, EmitJump, GenStmt, StmtSize, Holes, Below, Emitted, GenPops, HandlersOk;
      hide HandlersSize, HandlerHoles, ElseSize, GenElse, GenFinally, OutHoles, Emit1, TryPart, TryPartHoles;
      ghost var d := Now();
      ghost var depth, lp := |locals|, Loop(loopLocalCount, None, None);
      LocalsBelow();
      TryPlan(s, depth, lp, |text|);
      TryProtected(s, scope, inBody, inLoop);
      ghost var at := |text|;
      ghost var fin := GenBlock(s.fin, depth + 2, lp, at + 1);
      EmitOp(BEGIN_FINALLY);
      Block(s.fin, scope + [false, false], inBody, inLoop);
      EmitOp(END_FINALLY);
      EndPair(d.locals);
      TryDone(d, s, Now(), TryPart(s, depth, lp, |d.text|), at, fin);
    }

    /** A try with neither: what would lead to the clauses or to `finally` leads to the end of the scope. */
    method BareTryStatement(s: Stmt, ghost scope: Scope, ghost inBody: bool, ghost inLoop: bool)
      requires Valid() && s.BareTry? && |scope| == |locals| && BlockOk(s.body, scope + [false, false], inBody, inLoop)
      requires |text| + StmtSize(s, |locals|, loopLocalCount) < CODE_LIMIT
      modifies this
      ensures Valid() && Now() == Emitted(old(Now()), s)
      decreases s, 0
    {
      hide Valid, GenBlock, BlockOk, BlockSize, EmitJump, GenStmt, StmtSize, Holes, Below, Emitted, GenPops, AllOpen, PatchAll;
      hide Spaced, HolesIn, Patch;
      ghost var d := Now();
      ghost var depth, lp := |locals|, Loop(loopLocalCount, None, None);
      LocalsBelow();
      BareTryPlan(s, depth, lp, |text|);
      var exits := TryBody(s.body, scope + [false, false], inBody, inLoop);
      BareTryExits(s, d.text, depth, lp, exits);
      PatchExits(exits, 0);
      EndPair(d.locals);
      EmittedAs(d, s, Now());
    }

    /** Everything before BEGIN_FINALLY, with every exit of the protected part leading there. */
    method TryProtected(s: Stmt, ghost scope: Scope, ghost inBody: bool, ghost inLoop: bool)
      requires Valid() && s.Try? && |scope| == |locals| && TryOk(s, scope, inBody, inLoop)
      requires |text| + |TryPart(s, |locals|, Loop(loopLocalCount, None, None), |text|)| < CODE_LIMIT
      modifies this
      ensures Valid()
      ensures var depth, base, count := |old(locals)|, |old(text)|, loopLocalCount;
        && scopeDepth == old(scopeDepth) + 1
        && Now() == old(Now()).(
            text := old(text) + TryPart(s, depth, Loop(count, None, None), base),
            locals := old(locals) + [scopeDepth, scopeDepth], scopeDepth := scopeDepth,
            breaks := old(breaks) + TryPartHoles(s, depth, count, base, Breaking),
            continues := old(continues) + TryPartHoles(s, depth, count, base, Continuing))
      decreases s, 0, 2
    {
      hide Valid, TryShape, Holes, ClauseHoles, OpenTry, TryPart, TryEnd, TryAt, Exits, HandlersSize, NextHole, TryOk;
      ghost var d := Now();
      var exits, nextJump, firstJump := TryClauses(s, scope, inBody, inLoop);
      CloseExits(s, exits, nextJump, firstJump, |d.locals|, Loop(loopLocalCount, None, None), d.text);
      AppendTwice(d.breaks, Holes(s.body, |d.locals| + 2, loopLocalCount, |d.text| + 3, Breaking),
                  ClauseHoles(s, |d.locals|, loopLocalCount, |d.text|, Breaking));
      AppendTwice(d.continues, Holes(s.body, |d.locals| + 2, loopLocalCount, |d.text| + 3, Continuing),
                  ClauseHoles(s, |d.locals|, loopLocalCount, |d.text|, Continuing));
    }

    /** Lead every open exit here. */
    method CloseExits(s: Stmt, exits: seq<nat>, nextJump: int, firstJump: nat, ghost depth: nat, ghost lp: Loop, ghost pre: Text)
      requires Valid() && s.Try? && lp.brk.None? && lp.cont.None?
      requires text == pre + OpenTry(s, depth, lp, |pre|) && |pre| + |TryPart(s, depth, lp, |pre|)| < CODE_LIMIT
      requires firstJump <= |exits| && exits[firstJump..] == Exits(s, depth, lp.count, |pre|)
      requires nextJump == if s.handlers.NoHandler? then -1 else NextHole(s.handlers, depth, lp.count, TryAt(s, depth, lp.count, |pre|))
      modifies `code, `text, `table
      ensures Valid() && text == pre + TryPart(s, depth, lp, |pre|)
    {
      hide Valid, TryShape, HandlersSize, NextHole, TryEnd, TryAt, Exits, PatchAll, HolesIn, HoleIn, Patch, Fetch, Spaced, TryPart, ElseSize;
      ghost var end := |text|;
      TryPlan(s, depth, lp, |pre|);
      TryShapeLength(s, depth, lp, |pre|, OverOpen(s, depth, lp.count), UNPATCHED, None, None);
      ExitsFill(s, depth, lp, pre, end);
      PatchExits(exits, firstJump);
      PatchNext(s, nextJump, depth, lp, pre);
    }

    /** Lead the last filter here too, if there is one. */
    method PatchNext(s: Stmt, nextJump: int, ghost depth: nat, ghost lp: Loop, ghost pre: Text)
      requires Valid() && s.Try? && |text| == TryEnd(s, depth, lp.count, |pre|) < CODE_LIMIT
      requires var handlers := HandlersSize(s.handlers, depth, lp.count);
        text == pre + TryShape(s, depth, lp, |pre|, 3 + handlers, handlers + ElseSize(s.els, depth, lp.count), Some(|text|), None)
      requires nextJump == if s.handlers.NoHandler? then -1 else NextHole(s.handlers, depth, lp.count, TryAt(s, depth, lp.count, |pre|))
      modifies `code, `text, `table
      ensures Valid() && text == pre + TryPart(s, depth, lp, |pre|)
    {
      hide Valid, TryShape, HandlersSize, NextHole, TryEnd, TryAt, HoleIn, Patch, Fetch, TryPart, ElseSize;
      ghost var end := |text|;
      if nextJump != -1 {
        NextFill(s, depth, lp, pre, end);
        PatchJump(nextJump);
      } else {
        NoNext(s, depth, lp, |pre|, end);
      }
    }

    /** The protected parts with their exits open. */
    method TryClauses(s: Stmt, ghost scope: Scope, ghost inBody: bool, ghost inLoop: bool)
      returns (exits: seq<nat>, nextJump: int, firstJump: nat)
      requires Valid() && s.Try? && |scope| == |locals| && TryOk(s, scope, inBody, inLoop)
      requires |text| + |TryPart(s, |locals|, Loop(loopLocalCount, None, None), |text|)| < CODE_LIMIT
      modifies this
      ensures Valid()
      ensures var depth, base, count := |old(locals)|, |old(text)|, loopLocalCount;
        var lp := Loop(count, None, None);
        && scopeDepth == old(scopeDepth) + 1
        && Now() == old(Now()).(
            text := old(text) + OpenTry(s, depth, lp, base),
            locals := old(locals) + [scopeDepth, scopeDepth], scopeDepth := scopeDepth,
            breaks := old(breaks) + Holes(s.body, depth + 2, count, base + 3, Breaking) + ClauseHoles(s, depth, count, base, Breaking),
            continues := old(continues) + Holes(s.body, depth + 2, count, base + 3, Continuing) + ClauseHoles(s, depth, count, base, Continuing))
        && firstJump <= |exits| && exits[firstJump..] == Exits(s, depth, count, base)
        && nextJump == if s.handlers.NoHandler? then -1 else NextHole(s.handlers, depth, count, TryAt(s, depth, count, base))
      decreases s, 0, 1
    {
      hide Valid, GenBlock, BlockOk, BlockSize, Holes, HandlersOk, GenElse, GenClauses, Opened, OutHoles, OpenTry, EmitJump;
      hide HandlersSize, HandlerHoles, NextHole, ElseSize, TryPart;
      ghost var d := Now();
      ghost var depth, lp, base := |locals|, Loop(loopLocalCount, None, None), |text|;
      TryPlan(s, depth, lp, base);
      TryShapeLength(s, depth, lp, base, 0, 0, None, None);
      exits := TryBody(s.body, scope + [false, false], inBody, inLoop);
      ghost var at := |text|;
      ClausesLength(s.handlers, depth, lp, at, None, None);
      OpenedAs(s, depth, lp, d.text);
      var outs;
      outs, nextJump := Clauses(s.handlers, -1, scope, inBody, inLoop, depth);
      exits := exits + outs;
      assert text == Opened(s, depth, lp, d.text, UNPATCHED);
      AppendTwice(d.breaks + Holes(s.body, depth + 2, lp.count, base + 3, Breaking),
                  HandlerHoles(s.handlers, depth, lp.count, at, Breaking), ElseHoles(s.els, depth, lp.count, |text|, Breaking));
      AppendTwice(d.continues + Holes(s.body, depth + 2, lp.count, base + 3, Continuing),
                  HandlerHoles(s.handlers, depth, lp.count, at, Continuing), ElseHoles(s.els, depth, lp.count, |text|, Continuing));
      firstJump := ElsePart(s, exits[0], scope, inBody, inLoop, depth, d.text);
    }

    /** The `else`, which the jump past the clauses then leads to. */
    method ElsePart(s: Stmt, skip: nat, ghost scope: Scope, ghost inBody: bool, ghost inLoop: bool, ghost depth: nat, ghost pre: Text)
      returns (firstJump: nat)
      requires Valid() && s.Try? && TryOk(s, scope, inBody, inLoop) && |scope| == depth && |locals| == depth + 2
      requires var lp := Loop(loopLocalCount, None, None);
        && text == Opened(s, depth, lp, pre, UNPATCHED) && skip == TryAt(s, depth, lp.count, |pre|) - 5
        && |pre| + |TryPart(s, depth, lp, |pre|)| < CODE_LIMIT
      modifies this
      ensures Valid()
      ensures var count := loopLocalCount;
        && Now() == old(Now()).(
            text := pre + OpenTry(s, depth, Loop(count, None, None), |pre|),
            breaks := old(breaks) + ElseHoles(s.els, depth, count, |old(text)|, Breaking),
            continues := old(continues) + ElseHoles(s.els, depth, count, |old(text)|, Continuing))
        && firstJump == if s.els.Some? then 1 else 0
      decreases s, 0, 0
    {
      hide Valid, GenBlock, BlockOk, BlockSize, Holes, HandlersOk, Opened, OpenTry, EmitJump, HandlersSize, TryPart, Patch;
      hide HoleIn, Emit1;
      ghost var lp := Loop(loopLocalCount, None, None);
      TryPlan(s, depth, lp, |pre|);
      OpenedSize(s, depth, lp, pre, UNPATCHED);
      OpenedElse(s, depth, lp, pre);
      firstJump := 0;
      if s.els.Some? {
        PatchJump(skip);
        firstJump := 1;
        ghost var at := |text|;
        BlockLength(s.els.value, depth + 2, lp, at + 1);
        EmitOp(TRY_ELSE);
        Block(s.els.value, scope + [false, false], inBody, inLoop);
        AppendTwice(Opened(s, depth, lp, pre, OverOpen(s, depth, lp.count)), Emit1(TRY_ELSE), GenBlock(s.els.value, depth + 2, lp, at + 1));
      }
    }

    /** The try's own jumps and its body; the returned jumps are the ones past and into the clauses. */
    method TryBody(body: Stmt, ghost scope: Scope, ghost inBody: bool, ghost inLoop: bool) returns (exits: seq<nat>)
      requires Valid() && BlockOk(body, scope, inBody, inLoop) && |scope| == |locals| + 2
      requires |text| + 9 + BlockSize(body, |locals| + 2, loopLocalCount) < CODE_LIMIT
      modifies this
      ensures Valid()
      ensures var depth, base, lp := |old(locals)|, |old(text)|, Loop(loopLocalCount, None, None);
        var b := GenBlock(body, depth + 2, lp, base + 3);
        && scopeDepth == old(scopeDepth) + 1
        && Now() == old(Now()).(
            text := old(text) + EmitJump(PUSH_TRY, |b| + 3) + b + EmitJump(JUMP, UNPATCHED) + EmitJump(ENTER_EXCEPT, UNPATCHED),
            locals := old(locals) + [scopeDepth, scopeDepth], scopeDepth := scopeDepth,
            breaks := old(breaks) + Holes(body, depth + 2, lp.count, base + 3, Breaking),
            continues := old(continues) + Holes(body, depth + 2, lp.count, base + 3, Continuing))
        && |text| == base + 9 + |b| && exits == [|text| - 5, |text| - 2]
      decreases body, 3
    {
      hide Valid, GenBlock, BlockOk, BlockSize, EmitJump, Holes, Patch, HoleIn;
      ghost var pre, b := text, GenBlock(body, |locals| + 2, Loop(loopLocalCount, None, None), |text| + 3);
      BlockLength(body, |locals| + 2, Loop(loopLocalCount, None, None), |text| + 3);
      BeginScope();
      var tryJump := EmitJumpOp(PUSH_TRY);
      AddLocal();
      AddLocal();
      Block(body, scope, inBody, inLoop);
      var exit := EmitJumpOp(JUMP);
      AppendTwice(pre + EmitJump(PUSH_TRY, UNPATCHED), b, EmitJump(JUMP, UNPATCHED));
      PatchOver(pre, PUSH_TRY, b + EmitJump(JUMP, UNPATCHED));
      PatchJump(tryJump);
      AppendTwice(pre + EmitJump(PUSH_TRY, |b| + 3), b, EmitJump(JUMP, UNPATCHED));
      var enter := EmitJumpOp(ENTER_EXCEPT);
      exits := [exit, enter];
    }

    /** The except clauses. `next` is the previous filter's jump, or -1; it leads to the clause that comes now. */
    method Clauses(hs: Handlers, next: int, ghost scope: Scope, ghost inBody: bool, ghost inLoop: bool, ghost depth: nat)
      returns (outs: seq<nat>, last: int)
      requires Valid() && HandlersOk(hs, scope, inBody, inLoop) && |scope| == depth && |locals| == depth + 2
      requires next == -1 || (next >= 0 && Open(text, 0, next))
      requires |text| + HandlersSize(hs, depth, loopLocalCount) < CODE_LIMIT
      modifies this
      ensures Valid()
      ensures var base, count := |old(text)|, loopLocalCount;
        && Now() == old(Now()).(
            text := Resolved(old(text), next, hs) + GenClauses(hs, depth, Loop(count, None, None), base, None, None),
            breaks := old(breaks) + HandlerHoles(hs, depth, count, base, Breaking),
            continues := old(continues) + HandlerHoles(hs, depth, count, base, Continuing))
        && outs == OutHoles(hs, depth, count, base)
        && last == if hs.NoHandler? then next else NextHole(hs, depth, count, base)
      decreases hs, 0
    {
      hide Valid, GenBlock, BlockOk, BlockSize, EmitJump, Holes, Patch, GenFilter, HoleIn, GenClauses, HandlersSize, Resolved;
      hide HandlerHoles, OutHoles, NextHole, HandlersOk;
      outs, last := [], next;
      ClausesUnfold(hs, depth, Loop(loopLocalCount, None, None), |text|, scope, inBody, inLoop);
      ResolveNow(text, next, hs);
      if hs.Handler? {
        if next != -1 {
          PatchJump(next);
        }
        ghost var d, at1 := Now(), |text| + |GenFilter(hs.filter)| + 3;
        ghost var block := GenBlock(hs.body, depth + 2, Loop(loopLocalCount, None, None), at1);
        var filterJump, out := Clause(hs.filter, hs.body, scope + [hs.named, false], inBody, inLoop);
        ClauseResolved(d.text, GenFilter(hs.filter), block, hs.more);
        outs, last := Clauses(hs.more, filterJump, scope, inBody, inLoop, depth);
        outs := [out] + outs;
        ghost var rest := GenClauses(hs.more, depth, Loop(loopLocalCount, None, None), at1 + |block| + 3, None, None);
        Joined5(d.text, GenFilter(hs.filter), EmitJump(FILTER_EXCEPT, if hs.more.NoHandler? then UNPATCHED else |block| + 3),
                block, EmitJump(JUMP, UNPATCHED), rest);
        AppendTwice(d.breaks, Holes(hs.body, depth + 2, loopLocalCount, at1, Breaking),
                    HandlerHoles(hs.more, depth, loopLocalCount, at1 + |block| + 3, Breaking));
        AppendTwice(d.continues, Holes(hs.body, depth + 2, loopLocalCount, at1, Continuing),
                    HandlerHoles(hs.more, depth, loopLocalCount, at1 + |block| + 3, Continuing));
      }
    }

    /** One clause: filter, body, and the jump past the rest. */
    method Clause(f: Option<Expr>, body: Stmt, ghost scope: Scope, ghost inBody: bool, ghost inLoop: bool)
      returns (filterJump: nat, out: nat)
      requires Valid() && BlockOk(body, scope, inBody, inLoop) && |scope| == |locals|
      requires |text| + |GenFilter(f)| + 6 + BlockSize(body, |locals|, loopLocalCount) < CODE_LIMIT
      modifies this
      ensures Valid()
      ensures var depth, at1, count := |locals|, |old(text)| + |GenFilter(f)| + 3, loopLocalCount;
        var block := GenBlock(body, depth, Loop(count, None, None), at1);
        && |block| == BlockSize(body, depth, count)
        && Now() == old(Now()).(
            text := old(text) + GenFilter(f) + EmitJump(FILTER_EXCEPT, UNPATCHED) + block + EmitJump(JUMP, UNPATCHED),
            breaks := old(breaks) + Holes(body, depth, count, at1, Breaking),
            continues := old(continues) + Holes(body, depth, count, at1, Continuing))
        && filterJump == at1 - 2 && out == at1 + |block| + 1 && Open(text, 0, filterJump)
      decreases body, 3
    {
      hide Valid, GenBlock, BlockOk, BlockSize, EmitJump, Holes, GenExpr, Emit1;
      BlockLength(body, |locals|, Loop(loopLocalCount, None, None), |text| + |GenFilter(f)| + 3);
      if f.Some? {
        Expression(f.value);
      } else {
        EmitOp(NONE);
      }
      filterJump := EmitJumpOp(FILTER_EXCEPT);
      Block(body, scope, inBody, inLoop);
      ghost var before, block := old(text) + GenFilter(f), text[filterJump + 2..];
      out := EmitJumpOp(JUMP);
      AppendTwice(before + EmitJump(FILTER_EXCEPT, UNPATCHED), block, EmitJump(JUMP, UNPATCHED));
      PatchOver(before, FILTER_EXCEPT, block + EmitJump(JUMP, UNPATCHED));
    }

    /** Point the jumps from `first` on to here. */
    method PatchExits(exits: seq<nat>, first: nat)
      requires Valid() && first <= |exits| && |text| < CODE_LIMIT
      requires HolesIn(text, 0, exits[first..]) && AllOpen(text, 0, exits[first..]) && Spaced(exits[first..])
      modifies `code, `text, `table
      ensures Valid() && text == PatchAll(old(text), 0, exits[first..], |text|)
    {
      hide Valid, Patch, Fetch;
      var i := first;
      ForwardIsAll(text, 0, exits[first..], |text|);
      while i < |exits|
        invariant first <= i <= |exits| && Valid() && |text| == |old(text)|
        invariant HolesIn(text, 0, exits[i..]) && AllOpen(text, 0, exits[i..])
        invariant PatchForward(text, 0, exits[i..], |text|) == PatchForward(old(text), 0, exits[first..], |text|)
      {
        assert exits[i..][0] == exits[i] && exits[i..][1..] == exits[i + 1..];
        FirstOpen(text, exits[i..]);
        PatchJump(exits[i]);
        i := i + 1;
      }
    }

    /** The loop's `else`, and then its `break`s. The code so far is `pre`, the body at `at` and `post`. */
    method LoopElse(els: Stmt, loopStart: nat, ghost scope: Scope, ghost inLoop: bool, ghost body: Stmt,
                    ghost inner: Loop, ghost at: nat, ghost pre: Text, ghost post: Text, ghost d: Draft)
      requires Valid() && BlockOk(els, scope, false, inLoop) && |scope| == |locals|
      requires |text| + BlockSize(els, |locals|, loopLocalCount) < CODE_LIMIT
      requires at == |pre| && loopStart <= at && inner.brk.None? && inner.count == |locals|
      requires text == pre + GenBlock(body, |locals|, inner, at) + post
      requires Before(d.breaks, loopStart) && breaks == d.breaks + Holes(body, |locals|, inner.count, at, Breaking)
      modifies this
      ensures Valid()
      ensures var lp, n := Loop(loopLocalCount, None, None), |old(text)|;
        && Now() == old(Now()).(text := text, breaks := d.breaks, continues := continues)
        && |text| == n + BlockSize(els, |locals|, lp.count)
        && text == pre + GenBlock(body, |locals|, inner.(brk := Some(|text|)), at)
                   + (post + GenBlock(els, |locals|, lp, n))
        && continues == old(continues) + Holes(els, |locals|, lp.count, n, Continuing)
      decreases els, 3
    {
      hide Valid, GenBlock, BlockOk, BlockSize, Patch, Holes, PatchAll, HolesIn, Kept, HoleIn, Emitted;
      ghost var depth := |locals|;
      ghost var tail := GenBlock(els, depth, Loop(loopLocalCount, None, None), |text|);
      NoBlockHoles(els, scope, false, inLoop, depth, loopLocalCount, |text|, Breaking);
      BlockLength(els, depth, Loop(loopLocalCount, None, None), |text|);
      Block(els, scope, false, inLoop);
      ghost var holes := Holes(body, depth, inner.count, at, Breaking);
      assert text == pre + GenBlock(body, depth, inner, at) + (post + tail);
      BodyBreaks(pre, body, depth, inner, at, post + tail, d.breaks, loopStart, |text|);
      assert breaks == d.breaks + holes && breaks[|d.breaks|..] == holes && breaks[..|d.breaks|] == d.breaks;
      PatchBreaks(loopStart);
    }

    /** Pending jumps lie before the end of the text. */
    lemma OffsetsBefore()
      requires Valid()
      ensures Before(breaks, |text|) && Before(continues, |text|)
    {
    }

    method SetLoop(count: nat)
      modifies `loopLocalCount
      ensures loopLocalCount == count && (old(Valid()) ==> Valid())
    {
      loopLocalCount := count;
    }
  }

  /** The `continue`s of a body compiled after `pre` are exactly the pending ones above the loop's start, and
      patching them fills the body. */
  lemma BodyContinues(pre: Text, body: Stmt, depth: nat, lp: Loop, at: nat, kept: seq<nat>, start: nat, target: nat)
    requires lp.cont.None? && at == |pre| && start <= at && Before(kept, start)
    ensures var holes := Holes(body, depth, lp.count, at, Continuing);
      && Kept(kept + holes, start) == |kept|
      && |GenBlock(body, depth, lp, at)| == BlockSize(body, depth, lp.count)
      && Fills(pre + GenBlock(body, depth, lp, at), 0, holes, target,
               pre + GenBlock(body, depth, lp.(cont := Some(target)), at))
  {
    hide GenBlock, BlockSize, Holes, PatchAll;
    BlockLength(body, depth, lp, at);
    BlockFills(body, depth, lp, at, Continuing, target);
    FillsAfter(pre, GenBlock(body, depth, lp, at), 0, Holes(body, depth, lp.count, at, Continuing), target,
               GenBlock(body, depth, lp.(cont := Some(target)), at));
    KeptSplit(kept, Holes(body, depth, lp.count, at, Continuing), start);
  }

  /** The same for its `break`s, once the code after the loop is there. */
  lemma BodyBreaks(pre: Text, body: Stmt, depth: nat, lp: Loop, at: nat, post: Text, kept: seq<nat>, start: nat, target: nat)
    requires lp.brk.None? && at == |pre| && start <= at && Before(kept, start)
    ensures var holes := Holes(body, depth, lp.count, at, Breaking);
      && Kept(kept + holes, start) == |kept|
      && Fills(pre + GenBlock(body, depth, lp, at) + post, 0, holes, target,
               pre + GenBlock(body, depth, lp.(brk := Some(target)), at) + post)
  {
    hide GenBlock, Holes, PatchAll;
    var b, b' := GenBlock(body, depth, lp, at), GenBlock(body, depth, lp.(brk := Some(target)), at);
    var holes := Holes(body, depth, lp.count, at, Breaking);
    BlockFills(body, depth, lp, at, Breaking, target);
    FillsAfter(pre, b, 0, holes, target, b');
    FillsBefore(pre + b, post, 0, holes, target, pre + b');
    KeptSplit(kept, holes, start);
  }

  lemma BeforeLater(offs: seq<nat>, start: nat, later: nat)
    requires Before(offs, start) && start <= later
    ensures Before(offs, later)
  {
  }

  // ----- while -----

  /** What precedes a while body: the condition and its exit, unless the condition is left out. */
  ghost function WhileHead(s: Stmt, distance: int): Text
    requires s.While?
  {
    if AlwaysTrue(s.cond) then [] else GenExpr(s.cond) + EmitJump(JUMP_IF_FALSE_OR_POP, distance)
  }

  ghost function WhilePop(s: Stmt): Text
    requires s.While?
  {
    if AlwaysTrue(s.cond) then [] else Emit1(POP)
  }

  lemma WhilePlan(s: Stmt, depth: nat, lp: Loop, base: nat)
    requires s.While?
    ensures var size := BlockSize(s.body, depth, depth);
      var at := base + |WhileHead(s, size + 3)|;
      var end := at + size + 3 + |WhilePop(s)|;
      var after := end + BlockSize(s.orElse, depth, lp.count);
      var els := GenBlock(s.orElse, depth, lp, end);
      && StmtSize(s, depth, lp.count) == after - base
      && |WhileHead(s, UNPATCHED)| == at - base
      && |els| == BlockSize(s.orElse, depth, lp.count)
      && GenStmt(s, depth, lp, base)
          == WhileHead(s, size + 3) + (GenBlock(s.body, depth, Loop(depth, Some(after), Some(at + size)), at)
             + (EmitJump(LOOP, at + size + 3 - base) + WhilePop(s) + els))
      && Holes(s, depth, lp.count, base, Breaking) == Holes(s.orElse, depth, lp.count, end, Breaking)
      && Holes(s, depth, lp.count, base, Continuing) == Holes(s.orElse, depth, lp.count, end, Continuing)
  {
    hide GenBlock, BlockSize, EmitJump, GenExpr, Emit1, AlwaysTrue, HandlerHoles, HandlersSize, ElseSize, GenExit;
    var size := BlockSize(s.body, depth, depth);
    var at := base + |WhileHead(s, size + 3)|;
    var end := at + size + 3 + |WhilePop(s)|;
    BlockLength(s.orElse, depth, lp, end);
    var body := GenBlock(s.body, depth, WhileLoop(s, depth, lp, at), at);
    var els := GenBlock(s.orElse, depth, lp, end);
    assert GenStmt(s, depth, lp, base) == GenWhile(s, depth, lp, base);
    if !AlwaysTrue(s.cond) {
      Joined5([], GenExpr(s.cond), EmitJump(JUMP_IF_FALSE_OR_POP, size + 3), body, EmitJump(LOOP, at + size + 3 - base),
              Emit1(POP) + els);
    }
  }

  lemma WhileDone(d: Draft, s: Stmt, scope: Scope, inLoop: bool, d': Draft, head: Text, at: nat, body: Text, again: Text,
                  end: nat, els: Text)
    requires s.While? && BlockOk(s.orElse, scope, false, inLoop)
    requires d' == d.(text := d'.text, continues := d'.continues)
    requires head == WhileHead(s, BlockSize(s.body, |d.locals|, |d.locals|) + 3) && at == |d.text| + |head|
    requires end == at + BlockSize(s.body, |d.locals|, |d.locals|) + 3 + |WhilePop(s)|
    requires body == GenBlock(s.body, |d.locals|, Loop(|d.locals|, Some(|d'.text|), Some(at + BlockSize(s.body, |d.locals|, |d.locals|))), at)
    requires again == EmitJump(LOOP, at + BlockSize(s.body, |d.locals|, |d.locals|) + 3 - |d.text|)
    requires els == GenBlock(s.orElse, |d.locals|, Loop(d.loopLocalCount, None, None), end)
    requires d'.text == d.text + head + body + (again + WhilePop(s) + els)
    requires |d'.text| == end + BlockSize(s.orElse, |d.locals|, d.loopLocalCount)
    requires d'.continues == d.continues + Holes(s.orElse, |d.locals|, d.loopLocalCount, end, Continuing)
    ensures d' == Emitted(d, s)
  {
    hide GenBlock, BlockOk, BlockSize, EmitJump, GenStmt, StmtSize, Holes, WhileHead, WhilePop, Emitted;
    var depth, lp := |d.locals|, Loop(d.loopLocalCount, None, None);
    WhilePlan(s, depth, lp, |d.text|);
    NoBlockHoles(s.orElse, scope, false, inLoop, depth, lp.count, end, Breaking);
    AppendTwice(d.text, head, body + (again + WhilePop(s) + els));
    AppendTwice(d.text + head, body, again + WhilePop(s) + els);
    EmittedAs(d, s, d');
  }

  /** The exit jump is where OpenHead's code says, and patching it after the loop closes the head. */
  lemma CloseHead(s: Stmt, pre: Text, body: Text, again: Text)
    requires s.While? && !AlwaysTrue(s.cond)
    ensures var exitJump, rest := |pre| + |GenExpr(s.cond)| + 1, |body| + |again|;
      var text := pre + WhileHead(s, UNPATCHED) + body + again;
      && Open(text, 0, exitJump) && |text| - exitJump - 2 == rest
      && Patch(text, 0, exitJump, rest) == pre + WhileHead(s, rest) + body + again
  {
    hide GenExpr, AlwaysTrue, Patch, EmitJump, HoleIn;
    var cond := pre + GenExpr(s.cond);
    PatchOver(cond, JUMP_IF_FALSE_OR_POP, body + again);
    assert pre + WhileHead(s, UNPATCHED) + body + again == cond + EmitJump(JUMP_IF_FALSE_OR_POP, UNPATCHED) + (body + again);
    assert pre + WhileHead(s, |body| + |again|) + body + again
        == cond + EmitJump(JUMP_IF_FALSE_OR_POP, |body + again|) + (body + again);
  }

  // ----- for -----

  /** What precedes a for body: the loop variable, the iterator, the first fetch and its store. */
  ghost function ForSetup(s: Stmt, depth: nat, distance: int): Text
    requires s.For?
  {
    Emit1(NONE) + (GenExpr(s.iterable) + (Emit1(INVOKE_ITER) + (EmitJump(CALL_ITER, distance)
    + EmitOperand(SET_LOCAL_POP, depth))))
  }

  lemma ForPlan(s: Stmt, depth: nat, lp: Loop, base: nat)
    requires s.For?
    ensures var size, store := BlockSize(s.body, depth + 2, depth + 2), |EmitOperand(SET_LOCAL_POP, depth)|;
      var head := ForSetup(s, depth, store + size + 3);
      var at := base + |head|;
      var end := at + size + 4;
      var after := end + BlockSize(s.orElse, depth + 2, lp.count);
      var els := GenBlock(s.orElse, depth + 2, lp, end);
      && StmtSize(s, depth, lp.count) == after - base + 2
      && |ForSetup(s, depth, UNPATCHED)| == |head| == 1 + |GenExpr(s.iterable)| + 1 + 3 + store
      && |els| == BlockSize(s.orElse, depth + 2, lp.count)
      && GenStmt(s, depth, lp, base)
          == head + (GenBlock(s.body, depth + 2, Loop(depth + 2, Some(after), Some(at + size)), at)
             + (EmitJump(LOOP_ITER, store + size + 3) + Emit1(POP) + els + GenPops(2)))
      && Holes(s, depth, lp.count, base, Breaking) == Holes(s.orElse, depth + 2, lp.count, end, Breaking)
      && Holes(s, depth, lp.count, base, Continuing) == Holes(s.orElse, depth + 2, lp.count, end, Continuing)
  {
    hide GenBlock, BlockSize, EmitJump, GenExpr, Emit1, HandlerHoles, HandlersSize, ElseSize, GenExit, EmitOperand, GenPops;
    var size, store := BlockSize(s.body, depth + 2, depth + 2), EmitOperand(SET_LOCAL_POP, depth);
    var at := base + 1 + |GenExpr(s.iterable)| + 1 + 3 + |store|;
    var end := at + size + 4;
    BlockLength(s.orElse, depth + 2, lp, end);
    var body := GenBlock(s.body, depth + 2, ForLoop(s, depth, lp, at), at);
    var els := GenBlock(s.orElse, depth + 2, lp, end);
    var again := EmitJump(LOOP_ITER, |store| + size + 3);
    assert GenStmt(s, depth, lp, base) == GenFor(s, depth, lp, base);
    var rest := body + (again + (Emit1(POP) + (els + GenPops(2))));
    Joined3(again, Emit1(POP), els, GenPops(2));
    var exit := EmitJump(CALL_ITER, |store| + size + 3);
    assert exit + (store + rest) == (exit + store) + rest;
    assert Emit1(INVOKE_ITER) + ((exit + store) + rest) == (Emit1(INVOKE_ITER) + (exit + store)) + rest;
    AppendTwice(GenExpr(s.iterable), Emit1(INVOKE_ITER) + (exit + store), rest);
    AppendTwice(Emit1(NONE), GenExpr(s.iterable) + (Emit1(INVOKE_ITER) + (exit + store)), rest);
  }

  lemma CloseSetup(s: Stmt, depth: nat, pre: Text, body: Text, again: Text)
    requires s.For?
    ensures var store := EmitOperand(SET_LOCAL_POP, depth);
      var exitJump, rest := |pre| + 1 + |GenExpr(s.iterable)| + 1 + 1, |store| + |body| + |again|;
      var text := pre + ForSetup(s, depth, UNPATCHED) + body + again;
      && Open(text, 0, exitJump) && |text| - exitJump - 2 == rest
      && Patch(text, 0, exitJump, rest) == pre + ForSetup(s, depth, rest) + body + again
  {
    hide GenExpr, Patch, EmitJump, HoleIn, EmitOperand, Emit1;
    var store := EmitOperand(SET_LOCAL_POP, depth);
    var before, rest := pre + Emit1(NONE) + GenExpr(s.iterable) + Emit1(INVOKE_ITER), |store| + |body| + |again|;
    PatchOver(before, CALL_ITER, store + body + again);
    Setup(s, depth, UNPATCHED, pre, body, again);
    Setup(s, depth, rest, pre, body, again);
  }

  lemma Setup(s: Stmt, depth: nat, distance: int, pre: Text, body: Text, again: Text)
    requires s.For?
    ensures pre + ForSetup(s, depth, distance) + body + again
         == pre + Emit1(NONE) + GenExpr(s.iterable) + Emit1(INVOKE_ITER) + EmitJump(CALL_ITER, distance)
            + (EmitOperand(SET_LOCAL_POP, depth) + body + again)
  {
    hide GenExpr, EmitJump, EmitOperand, Emit1;
    Joined5(pre, Emit1(NONE), GenExpr(s.iterable), Emit1(INVOKE_ITER), EmitJump(CALL_ITER, distance),
            EmitOperand(SET_LOCAL_POP, depth));
  }

  lemma ForDone(d: Draft, s: Stmt, scope: Scope, inLoop: bool, d': Draft, head: Text, at: nat, body: Text, again: Text,
                end: nat, els: Text, after: nat)
    requires s.For? && BlockOk(s.orElse, scope + [true, false], false, inLoop)
    requires d' == d.(text := d'.text, continues := d'.continues)
    requires head == ForSetup(s, |d.locals|, |EmitOperand(SET_LOCAL_POP, |d.locals|)| + BlockSize(s.body, |d.locals| + 2, |d.locals| + 2) + 3)
    requires at == |d.text| + |head| && end == at + BlockSize(s.body, |d.locals| + 2, |d.locals| + 2) + 4
    requires body == GenBlock(s.body, |d.locals| + 2,
                              Loop(|d.locals| + 2, Some(after), Some(at + BlockSize(s.body, |d.locals| + 2, |d.locals| + 2))), at)
    requires again == EmitJump(LOOP_ITER, |EmitOperand(SET_LOCAL_POP, |d.locals|)| + BlockSize(s.body, |d.locals| + 2, |d.locals| + 2) + 3)
    requires els == GenBlock(s.orElse, |d.locals| + 2, Loop(d.loopLocalCount, None, None), end)
    requires d'.text == d.text + head + body + (again + Emit1(POP) + els) + GenPops(2)
    requires after == end + BlockSize(s.orElse, |d.locals| + 2, d.loopLocalCount)
    requires d'.continues == d.continues + Holes(s.orElse, |d.locals| + 2, d.loopLocalCount, end, Continuing)
    ensures d' == Emitted(d, s)
  {
    hide GenBlock, BlockOk, BlockSize, EmitJump, GenStmt, StmtSize, Holes, ForSetup, Emit1, Emitted, EmitOperand, GenPops;
    var depth, lp := |d.locals|, Loop(d.loopLocalCount, None, None);
    ForPlan(s, depth, lp, |d.text|);
    NoBlockHoles(s.orElse, scope + [true, false], false, inLoop, depth + 2, lp.count, end, Breaking);
    var rest := again + Emit1(POP) + els;
    Joined3(d.text, head, body, rest + GenPops(2));
    AppendTwice(d.text + head + body, rest, GenPops(2));
    EmittedAs(d, s, d');
  }

  // ----- try -----

  ghost predicate TryOk(s: Stmt, scope: Scope, inBody: bool, inLoop: bool)
    requires s.Try?
  {
    && BlockOk(s.body, scope + [false, false], inBody, inLoop) && HandlersOk(s.handlers, scope, inBody, inLoop)
    && (s.els.Some? ==> s.handlers.Handler? && BlockOk(s.els.value, scope + [false, false], inBody, inLoop))
    && BlockOk(s.fin, scope + [false, false], inBody, inLoop)
  }

  /** The address after ENTER_EXCEPT, and the one of BEGIN_FINALLY. */
  ghost function TryAt(s: Stmt, depth: nat, count: nat, base: nat): nat
    requires s.Try?
  {
    base + 9 + BlockSize(s.body, depth + 2, count)
  }

  ghost function TryEnd(s: Stmt, depth: nat, count: nat, base: nat): nat
    requires s.Try?
  {
    TryAt(s, depth, count, base) + HandlersSize(s.handlers, depth, count) + ElseSize(s.els, depth, count)
  }

  /** A try up to its `finally`, for given operands of its own jumps. */
  ghost function TryShape(s: Stmt, depth: nat, lp: Loop, base: nat, over: int, enter: int, out: Option<nat>, next: Option<nat>): Text
    requires s.Try?
  {
    var at := TryAt(s, depth, lp.count, base);
    var body := GenBlock(s.body, depth + 2, lp, base + 3);
    EmitJump(PUSH_TRY, |body| + 3) + (body + (EmitJump(JUMP, over) + (EmitJump(ENTER_EXCEPT, enter)
    + (GenClauses(s.handlers, depth, lp, at, out, next)
    + GenElse(s.els, depth, lp, at + HandlersSize(s.handlers, depth, lp.count))))))
  }

  /** The jump past the clauses, once the `else` part is there: patched if there is one. */
  ghost function OverOpen(s: Stmt, depth: nat, count: nat): int
    requires s.Try?
  {
    if s.els.Some? then 3 + HandlersSize(s.handlers, depth, count) else UNPATCHED
  }

  ghost function OpenTry(s: Stmt, depth: nat, lp: Loop, base: nat): Text
    requires s.Try?
  {
    TryShape(s, depth, lp, base, OverOpen(s, depth, lp.count), UNPATCHED, None, None)
  }

  ghost function TryPart(s: Stmt, depth: nat, lp: Loop, base: nat): Text
    requires s.Try?
  {
    var end, handlers := TryEnd(s, depth, lp.count, base), HandlersSize(s.handlers, depth, lp.count);
    TryShape(s, depth, lp, base, 3 + handlers, handlers + ElseSize(s.els, depth, lp.count), Some(end), Some(end))
  }

  /** The jumps that wait for `finally`, other than the last filter's. */
  ghost function Exits(s: Stmt, depth: nat, count: nat, base: nat): seq<nat>
    requires s.Try?
  {
    var at := TryAt(s, depth, count, base);
    (if s.els.Some? then [at - 2] else [at - 5, at - 2]) + OutHoles(s.handlers, depth, count, at)
  }

  ghost function ClauseHoles(s: Stmt, depth: nat, count: nat, base: nat, kind: Kind): seq<nat>
    requires s.Try?
  {
    var at := TryAt(s, depth, count, base);
    HandlerHoles(s.handlers, depth, count, at, kind)
    + ElseHoles(s.els, depth, count, at + HandlersSize(s.handlers, depth, count), kind)
  }

  ghost function TryPartHoles(s: Stmt, depth: nat, count: nat, base: nat, kind: Kind): seq<nat>
    requires s.Try?
  {
    Holes(s.body, depth + 2, count, base + 3, kind) + ClauseHoles(s, depth, count, base, kind)
  }

  ghost function ElseHoles(els: Option<Stmt>, depth: nat, count: nat, at: nat, kind: Kind): seq<nat> {
    if els.None? then [] else Holes(els.value, depth + 2, count, at + 1, kind)
  }

  /** `pre` and the try up to its last clause, in the order it is emitted. */
  ghost function Opened(s: Stmt, depth: nat, lp: Loop, pre: Text, over: int): Text
    requires s.Try?
  {
    var body := GenBlock(s.body, depth + 2, lp, |pre| + 3);
    pre + EmitJump(PUSH_TRY, |body| + 3) + body + EmitJump(JUMP, over) + EmitJump(ENTER_EXCEPT, UNPATCHED)
    + GenClauses(s.handlers, depth, lp, TryAt(s, depth, lp.count, |pre|), None, None)
  }

  lemma OpenedAs(s: Stmt, depth: nat, lp: Loop, pre: Text)
    requires s.Try?
    ensures var body := GenBlock(s.body, depth + 2, lp, |pre| + 3);
      Opened(s, depth, lp, pre, UNPATCHED)
        == pre + EmitJump(PUSH_TRY, |body| + 3) + body + EmitJump(JUMP, UNPATCHED) + EmitJump(ENTER_EXCEPT, UNPATCHED)
           + GenClauses(s.handlers, depth, lp, TryAt(s, depth, lp.count, |pre|), None, None)
  {
  }

  lemma OpenedSize(s: Stmt, depth: nat, lp: Loop, pre: Text, over: int)
    requires s.Try?
    ensures |Opened(s, depth, lp, pre, over)| == TryAt(s, depth, lp.count, |pre|) + HandlersSize(s.handlers, depth, lp.count)
  {
    hide GenBlock, BlockSize, EmitJump, GenClauses, HandlersSize;
    BlockLength(s.body, depth + 2, lp, |pre| + 3);
    ClausesLength(s.handlers, depth, lp, TryAt(s, depth, lp.count, |pre|), None, None);
  }

  lemma OpenedElse(s: Stmt, depth: nat, lp: Loop, pre: Text)
    requires s.Try?
    ensures var text, end := Opened(s, depth, lp, pre, UNPATCHED), TryAt(s, depth, lp.count, |pre|) + HandlersSize(s.handlers, depth, lp.count);
      var skip, over := TryAt(s, depth, lp.count, |pre|) - 5, OverOpen(s, depth, lp.count);
      && Open(text, 0, skip)
      && (s.els.Some? ==> Patch(text, 0, skip, end - skip - 2) == Opened(s, depth, lp, pre, over))
      && Opened(s, depth, lp, pre, over) + GenElse(s.els, depth, lp, end) == pre + OpenTry(s, depth, lp, |pre|)
  {
    hide GenBlock, BlockSize, EmitJump, GenClauses, HandlersSize, GenElse, Patch, HoleIn;
    var at, handlers := TryAt(s, depth, lp.count, |pre|), HandlersSize(s.handlers, depth, lp.count);
    var body := GenBlock(s.body, depth + 2, lp, |pre| + 3);
    var push, enter, clauses := EmitJump(PUSH_TRY, |body| + 3), EmitJump(ENTER_EXCEPT, UNPATCHED), GenClauses(s.handlers, depth, lp, at, None, None);
    BlockLength(s.body, depth + 2, lp, |pre| + 3);
    ClausesLength(s.handlers, depth, lp, at, None, None);
    var before := pre + push + body;
    PatchOver(before, JUMP, enter + clauses);
    AppendTwice(before + EmitJump(JUMP, UNPATCHED), enter, clauses);
    AppendTwice(before + EmitJump(JUMP, |enter + clauses|), enter, clauses);
    Joined6(pre, push, body, EmitJump(JUMP, OverOpen(s, depth, lp.count)), enter, clauses, GenElse(s.els, depth, lp, at + handlers));
  }

  lemma TryShapeLength(s: Stmt, depth: nat, lp: Loop, base: nat, over: int, enter: int, out: Option<nat>, next: Option<nat>)
    requires s.Try?
    ensures |TryShape(s, depth, lp, base, over, enter, out, next)| == TryEnd(s, depth, lp.count, base) - base
    ensures |GenBlock(s.body, depth + 2, lp, base + 3)| == BlockSize(s.body, depth + 2, lp.count)
  {
    hide GenBlock, BlockSize, EmitJump, GenClauses, GenElse, HandlersSize, ElseSize;
    var at := TryAt(s, depth, lp.count, base);
    BlockLength(s.body, depth + 2, lp, base + 3);
    ClausesLength(s.handlers, depth, lp, at, out, next);
    ElseLength(s.els, depth, lp, at + HandlersSize(s.handlers, depth, lp.count));
  }

  lemma TryPlan(s: Stmt, depth: nat, lp: Loop, base: nat)
    requires s.Try?
    ensures var end, part := TryEnd(s, depth, lp.count, base), TryPart(s, depth, lp, base);
      var fin := GenBlock(s.fin, depth + 2, lp, end + 1);
      && StmtSize(s, depth, lp.count) == |part| + 1 + BlockSize(s.fin, depth + 2, lp.count) + 1 + |GenPops(2)|
      && |part| == end - base && |fin| == BlockSize(s.fin, depth + 2, lp.count)
      && GenStmt(s, depth, lp, base) == part + (Emit1(BEGIN_FINALLY) + fin + Emit1(END_FINALLY) + GenPops(2))
      && Holes(s, depth, lp.count, base, Breaking)
          == TryPartHoles(s, depth, lp.count, base, Breaking) + Holes(s.fin, depth + 2, lp.count, end + 1, Breaking)
      && Holes(s, depth, lp.count, base, Continuing)
          == TryPartHoles(s, depth, lp.count, base, Continuing) + Holes(s.fin, depth + 2, lp.count, end + 1, Continuing)
  {
    hide GenBlock, BlockSize, EmitJump, GenClauses, GenElse, HandlersSize, GenHandlers, HandlerHoles, Emit1, GenExpr;
    hide AlwaysTrue, GenExit, TryPartHoles, StmtSize, GenStmt, GenTry, Holes, TryAt, ClauseHoles, EmitOperand, GenFilter;
    var at, end := TryAt(s, depth, lp.count, base), TryEnd(s, depth, lp.count, base);
    var hsize := HandlersSize(s.handlers, depth, lp.count);
    TryShapeLength(s, depth, lp, base, 3 + hsize, hsize + ElseSize(s.els, depth, lp.count), Some(end), Some(end));
    BlockLength(s.fin, depth + 2, lp, end + 1);
    ClausesClosed(s.handlers, depth, lp, at, ElseSize(s.els, depth, lp.count), end);
    TryTail(s, depth, lp, base, GenFinally(s.fin, depth, lp, end));
    var fin := GenBlock(s.fin, depth + 2, lp, end + 1);
    Joined3(Emit1(BEGIN_FINALLY), fin, Emit1(END_FINALLY), GenPops(2));
    TryIs(s, depth, lp, base);
    HolesSplit(s, depth, lp.count, base, Breaking);
    HolesSplit(s, depth, lp.count, base, Continuing);
  }

  lemma TryIs(s: Stmt, depth: nat, lp: Loop, base: nat)
    requires s.Try?
    ensures GenStmt(s, depth, lp, base) == GenTry(s, depth, lp, base)
    ensures StmtSize(s, depth, lp.count) == TryEnd(s, depth, lp.count, base) - base + 4 + BlockSize(s.fin, depth + 2, lp.count)
  {
    hide GenTry, BlockSize, HandlersSize;
  }

  /** Codegen's nesting of the parts of a try, regrouped. */
  lemma TryTail(s: Stmt, depth: nat, lp: Loop, base: nat, tail: Text)
    requires s.Try? && tail == GenFinally(s.fin, depth, lp, TryEnd(s, depth, lp.count, base))
    requires var at, end, els := TryAt(s, depth, lp.count, base), TryEnd(s, depth, lp.count, base), ElseSize(s.els, depth, lp.count);
      GenClauses(s.handlers, depth, lp, at, Some(end), Some(end)) == GenHandlers(s.handlers, depth, lp, at, els)
    requires |GenBlock(s.body, depth + 2, lp, base + 3)| == BlockSize(s.body, depth + 2, lp.count)
    ensures GenTry(s, depth, lp, base) == TryPart(s, depth, lp, base) + tail
  {
    hide GenBlock, BlockSize, EmitJump, GenClauses, GenElse, HandlersSize, GenHandlers, ElseSize, GenFinally;
    var at, end := TryAt(s, depth, lp.count, base), TryEnd(s, depth, lp.count, base);
    var hsize, esize := HandlersSize(s.handlers, depth, lp.count), ElseSize(s.els, depth, lp.count);
    var body := GenBlock(s.body, depth + 2, lp, base + 3);
    var hs, els := GenHandlers(s.handlers, depth, lp, at, esize), GenElse(s.els, depth, lp, at + hsize);
    var push, over, enter := EmitJump(PUSH_TRY, |body| + 3), EmitJump(JUMP, 3 + hsize), EmitJump(ENTER_EXCEPT, hsize + esize);
    AppendTwice(hs, els, tail);
    AppendTwice(enter, hs + els, tail);
    AppendTwice(over, enter + (hs + els), tail);
    AppendTwice(body, over + (enter + (hs + els)), tail);
    AppendTwice(push, body + (over + (enter + (hs + els))), tail);
  }

  lemma HolesSplit(s: Stmt, depth: nat, count: nat, base: nat, kind: Kind)
    requires s.Try?
    ensures Holes(s, depth, count, base, kind)
         == TryPartHoles(s, depth, count, base, kind) + Holes(s.fin, depth + 2, count, TryEnd(s, depth, count, base) + 1, kind)
  {
    hide BlockSize, HandlersSize, HandlerHoles, GenExpr, AlwaysTrue, GenExit, ElseSize;
    var at := TryAt(s, depth, count, base);
    var a, b := Holes(s.body, depth + 2, count, base + 3, kind), HandlerHoles(s.handlers, depth, count, at, kind);
    var c := if s.els.None? then [] else Holes(s.els.value, depth + 2, count, at + HandlersSize(s.handlers, depth, count) + 1, kind);
    var d := Holes(s.fin, depth + 2, count, TryEnd(s, depth, count, base) + 1, kind);
    AppendTwice(b, c, d);
    AppendTwice(a, b + c, d);
  }

  lemma TryDone(d: Draft, s: Stmt, d': Draft, part: Text, at: nat, fin: Text)
    requires s.Try? && part == TryPart(s, |d.locals|, Loop(d.loopLocalCount, None, None), |d.text|) && at == |d.text| + |part|
    requires fin == GenBlock(s.fin, |d.locals| + 2, Loop(d.loopLocalCount, None, None), at + 1)
    requires d' == d.(text := d'.text, breaks := d'.breaks, continues := d'.continues)
    requires d'.text == d.text + part + Emit1(BEGIN_FINALLY) + fin + Emit1(END_FINALLY) + GenPops(2)
    requires d'.breaks == d.breaks + TryPartHoles(s, |d.locals|, d.loopLocalCount, |d.text|, Breaking)
                          + Holes(s.fin, |d.locals| + 2, d.loopLocalCount, at + 1, Breaking)
    requires d'.continues == d.continues + TryPartHoles(s, |d.locals|, d.loopLocalCount, |d.text|, Continuing)
                             + Holes(s.fin, |d.locals| + 2, d.loopLocalCount, at + 1, Continuing)
    ensures d' == Emitted(d, s)
  {
    hide GenBlock, GenStmt, StmtSize, Holes, Emitted, GenPops, Emit1, TryPart, TryPartHoles;
    var depth, count, base := |d.locals|, d.loopLocalCount, |d.text|;
    TryPlan(s, depth, Loop(count, None, None), base);
    Joined5(d.text, part, Emit1(BEGIN_FINALLY), fin, Emit1(END_FINALLY), GenPops(2));
    Joined3([], Emit1(BEGIN_FINALLY), fin, Emit1(END_FINALLY) + GenPops(2));
    AppendTwice(Emit1(BEGIN_FINALLY) + fin, Emit1(END_FINALLY), GenPops(2));
    AppendTwice(d.breaks, TryPartHoles(s, depth, count, base, Breaking), Holes(s.fin, depth + 2, count, at + 1, Breaking));
    AppendTwice(d.continues, TryPartHoles(s, depth, count, base, Continuing), Holes(s.fin, depth + 2, count, at + 1, Continuing));
    EmittedAs(d, s, d');
  }

  /** Patching the waiting jumps to the end of an open try. */
  lemma ExitsFill(s: Stmt, depth: nat, lp: Loop, pre: Text, end: nat)
    requires s.Try? && end == TryEnd(s, depth, lp.count, |pre|)
    ensures var offs, handlers := Exits(s, depth, lp.count, |pre|), HandlersSize(s.handlers, depth, lp.count);
      && Spaced(offs)
      && Fills(pre + OpenTry(s, depth, lp, |pre|), 0, offs, end,
               pre + TryShape(s, depth, lp, |pre|, 3 + handlers, handlers + ElseSize(s.els, depth, lp.count), Some(end), None))
  {
    hide Fills, GenBlock, BlockSize, EmitJump, GenClauses, GenElse, HandlersSize, ElseSize, OutHoles, Exits, OverOpen, TryEnd, Spaced;
    var base := |pre|;
    var at, hsize, esize := TryAt(s, depth, lp.count, base), HandlersSize(s.handlers, depth, lp.count), ElseSize(s.els, depth, lp.count);
    BlockLength(s.body, depth + 2, lp, base + 3);
    var body := GenBlock(s.body, depth + 2, lp, base + 3);
    var push := EmitJump(PUSH_TRY, |body| + 3);
    var h, h' := GenClauses(s.handlers, depth, lp, at, None, None), GenClauses(s.handlers, depth, lp, at, Some(end), None);
    var els := GenElse(s.els, depth, lp, at + hsize);
    var offs := Exits(s, depth, lp.count, base);
    var r, r' := EmitJump(ENTER_EXCEPT, UNPATCHED) + (h + els), EmitJump(ENTER_EXCEPT, hsize + esize) + (h' + els);
    var over, over' := EmitJump(JUMP, OverOpen(s, depth, lp.count)), EmitJump(JUMP, 3 + hsize);
    OverFills(s, depth, lp, base, end, els);
    FillsAfter(body, over + r, base + 3, offs, end, over' + r');
    FillsAfter(push, body + (over + r), base, offs, end, body + (over' + r'));
    FillsAfter(pre, push + (body + (over + r)), 0, offs, end, push + (body + (over' + r')));
  }

  /** The same from the jump past the clauses on. */
  lemma OverFills(s: Stmt, depth: nat, lp: Loop, base: nat, end: nat, els: Text)
    requires s.Try? && end == TryEnd(s, depth, lp.count, base)
    ensures var at, handlers, offs := TryAt(s, depth, lp.count, base), HandlersSize(s.handlers, depth, lp.count), Exits(s, depth, lp.count, base);
      && at >= 6 && Spaced(offs)
      && Fills(EmitJump(JUMP, OverOpen(s, depth, lp.count))
               + (EmitJump(ENTER_EXCEPT, UNPATCHED) + (GenClauses(s.handlers, depth, lp, at, None, None) + els)), at - 6, offs, end,
               EmitJump(JUMP, 3 + handlers)
               + (EmitJump(ENTER_EXCEPT, handlers + ElseSize(s.els, depth, lp.count)) + (GenClauses(s.handlers, depth, lp, at, Some(end), None) + els)))
  {
    hide Fills, GenBlock, BlockSize, EmitJump, GenClauses, GenElse, HandlersSize, ElseSize, OutHoles;
    var at, hsize, esize := TryAt(s, depth, lp.count, base), HandlersSize(s.handlers, depth, lp.count), ElseSize(s.els, depth, lp.count);
    OutsSpaced(s.handlers, depth, lp.count, at);
    var h, h' := GenClauses(s.handlers, depth, lp, at, None, None), GenClauses(s.handlers, depth, lp, at, Some(end), None);
    var outs := OutHoles(s.handlers, depth, lp.count, at);
    EnterFills(s, depth, lp, at, end, els);
    var r, r', offs := EmitJump(ENTER_EXCEPT, UNPATCHED) + (h + els), EmitJump(ENTER_EXCEPT, hsize + esize) + (h' + els), [at - 2] + outs;
    var over, over' := EmitJump(JUMP, OverOpen(s, depth, lp.count)), EmitJump(JUMP, 3 + hsize);
    if s.els.Some? {
      FillsAfter(over, r, at - 6, offs, end, r');
    } else {
      JumpFills(JUMP, at - 6, end);
      assert esize == 0 by { NoElse(s.els, depth, lp.count); }
      FillsConcat(over, r, at - 6, [at - 5], offs, end, over', r');
      assert [at - 5] + offs == [at - 5, at - 2] + outs;
    }
  }

  lemma EnterFills(s: Stmt, depth: nat, lp: Loop, at: nat, end: nat, els: Text)
    requires s.Try? && at >= 3
    ensures Fills(EmitJump(ENTER_EXCEPT, UNPATCHED) + (GenClauses(s.handlers, depth, lp, at, None, None) + els), at - 3,
                  [at - 2] + OutHoles(s.handlers, depth, lp.count, at), end,
                  EmitJump(ENTER_EXCEPT, end - at) + (GenClauses(s.handlers, depth, lp, at, Some(end), None) + els))
  {
    hide Fills, EmitJump, GenClauses, OutHoles, HandlersSize;
    var h, h' := GenClauses(s.handlers, depth, lp, at, None, None), GenClauses(s.handlers, depth, lp, at, Some(end), None);
    var outs := OutHoles(s.handlers, depth, lp.count, at);
    OutsFill(s.handlers, depth, lp, at, None, end);
    FillsBefore(h, els, at, outs, end, h');
    JumpFills(ENTER_EXCEPT, at - 3, end);
    FillsConcat(EmitJump(ENTER_EXCEPT, UNPATCHED), h + els, at - 3, [at - 2], outs, end, EmitJump(ENTER_EXCEPT, end - at), h' + els);
  }

  lemma NoElse(els: Option<Stmt>, depth: nat, count: nat)
    ensures els.None? ==> ElseSize(els, depth, count) == 0
  {
  }

  /** The last filter's jump then leads there too. */
  lemma NextFill(s: Stmt, depth: nat, lp: Loop, pre: Text, end: nat)
    requires s.Try? && s.handlers.Handler? && end == TryEnd(s, depth, lp.count, |pre|)
    ensures var off, handlers := NextHole(s.handlers, depth, lp.count, TryAt(s, depth, lp.count, |pre|)), HandlersSize(s.handlers, depth, lp.count);
      var text := pre + TryShape(s, depth, lp, |pre|, 3 + handlers, handlers + ElseSize(s.els, depth, lp.count), Some(end), None);
      Open(text, 0, off) && Patch(text, 0, off, end - off - 2) == pre + TryPart(s, depth, lp, |pre|)
  {
    hide Fills, GenBlock, BlockSize, EmitJump, GenClauses, GenElse, HandlersSize, ElseSize, NextHole;
    var base := |pre|;
    var at, hsize, esize := TryAt(s, depth, lp.count, base), HandlersSize(s.handlers, depth, lp.count), ElseSize(s.els, depth, lp.count);
    BlockLength(s.body, depth + 2, lp, base + 3);
    var body := GenBlock(s.body, depth + 2, lp, base + 3);
    var push, over, enter := EmitJump(PUSH_TRY, |body| + 3), EmitJump(JUMP, 3 + hsize), EmitJump(ENTER_EXCEPT, hsize + esize);
    var h, h' := GenClauses(s.handlers, depth, lp, at, Some(end), None), GenClauses(s.handlers, depth, lp, at, Some(end), Some(end));
    var els := GenElse(s.els, depth, lp, at + hsize);
    var off := [NextHole(s.handlers, depth, lp.count, at)];
    NextFills(s.handlers, depth, lp, at, Some(end), end);
    FillsBefore(h, els, at, off, end, h');
    FillsAfter(enter, h + els, at - 3, off, end, h' + els);
    FillsAfter(over, enter + (h + els), at - 6, off, end, enter + (h' + els));
    var r, r' := over + (enter + (h + els)), over + (enter + (h' + els));
    FillsAfter(body, r, base + 3, off, end, r');
    FillsAfter(push, body + r, base, off, end, body + r');
    FillsAfter(pre, push + (body + r), 0, off, end, push + (body + r'));
    FillsOne(pre + (push + (body + r)), 0, off[0], end, pre + (push + (body + r')));
  }

  lemma FillsOne(piece: Text, base: nat, off: nat, target: nat, filled: Text)
    requires Fills(piece, base, [off], target, filled)
    ensures Open(piece, base, off) && HoleIn(piece, base, off) && Patch(piece, base, off, target - off - 2) == filled
  {
    hide Patch;
    var patched := Patch(piece, base, off, target - off - 2);
    assert [off][..|[off]| - 1] == [] && HoleIn(piece, base, [off][0]);
    assert PatchAll(piece, base, [off], target) == PatchAll(patched, base, [], target) == patched;
  }

  lemma NoNext(s: Stmt, depth: nat, lp: Loop, base: nat, end: nat)
    requires s.Try? && s.handlers.NoHandler? && end == TryEnd(s, depth, lp.count, base)
    ensures var handlers := HandlersSize(s.handlers, depth, lp.count);
      TryShape(s, depth, lp, base, 3 + handlers, handlers + ElseSize(s.els, depth, lp.count), Some(end), None)
        == TryPart(s, depth, lp, base)
  {
    hide GenBlock, BlockSize, EmitJump, GenElse, ElseSize, HandlersSize, TryAt, TryEnd, GenClauses;
    var at := TryAt(s, depth, lp.count, base);
    var handlers, esize := HandlersSize(s.handlers, depth, lp.count), ElseSize(s.els, depth, lp.count);
    NoClauses(s.handlers, depth, lp, at, Some(end), None);
    NoClauses(s.handlers, depth, lp, at, Some(end), Some(end));
    var body, els := GenBlock(s.body, depth + 2, lp, base + 3), GenElse(s.els, depth, lp, at + handlers);
    var push, over, enter := EmitJump(PUSH_TRY, |body| + 3), EmitJump(JUMP, 3 + handlers), EmitJump(ENTER_EXCEPT, handlers + esize);
    assert TryShape(s, depth, lp, base, 3 + handlers, handlers + esize, Some(end), None)
        == push + (body + (over + (enter + ([] + els))));
    assert TryPart(s, depth, lp, base) == push + (body + (over + (enter + ([] + els))));
  }

  lemma NoClauses(hs: Handlers, depth: nat, lp: Loop, at: nat, out: Option<nat>, next: Option<nat>)
    requires hs.NoHandler?
    ensures GenClauses(hs, depth, lp, at, out, next) == []
  {
  }

  // ----- a try with neither except nor finally -----

  lemma BareTryPlan(s: Stmt, depth: nat, lp: Loop, base: nat)
    requires s.BareTry?
    ensures var body := GenBlock(s.body, depth + 2, lp, base + 3);
      && |body| == BlockSize(s.body, depth + 2, lp.count) && StmtSize(s, depth, lp.count) == 9 + |body| + |GenPops(2)|
      && GenStmt(s, depth, lp, base)
          == EmitJump(PUSH_TRY, |body| + 3) + (body + (EmitJump(JUMP, 3) + (EmitJump(ENTER_EXCEPT, 0) + GenPops(2))))
      && Holes(s, depth, lp.count, base, Breaking) == Holes(s.body, depth + 2, lp.count, base + 3, Breaking)
      && Holes(s, depth, lp.count, base, Continuing) == Holes(s.body, depth + 2, lp.count, base + 3, Continuing)
      && Decls(s) == 0
  {
    hide GenBlock, BlockSize, EmitJump, HandlersSize, HandlerHoles, ElseSize, GenExpr, GenExit, AlwaysTrue, EmitOperand;
    BlockLength(s.body, depth + 2, lp, base + 3);
    assert GenStmt(s, depth, lp, base) == GenBareTry(s, depth, lp, base);
    assert |GenPops(2)| == 2;
  }

  /** Pointing both jumps to the end of the handler's entry. */
  lemma BareTryExits(s: Stmt, pre: Text, depth: nat, lp: Loop, exits: seq<nat>)
    requires s.BareTry?
    requires var b := GenBlock(s.body, depth + 2, lp, |pre| + 3); exits == [|pre| + 3 + |b| + 1, |pre| + 3 + |b| + 4]
    ensures var b := GenBlock(s.body, depth + 2, lp, |pre| + 3);
      var before := pre + EmitJump(PUSH_TRY, |b| + 3) + b;
      var text := before + EmitJump(JUMP, UNPATCHED) + EmitJump(ENTER_EXCEPT, UNPATCHED);
      && exits[0..] == exits && Spaced(exits) && AllOpen(text, 0, exits) && HolesIn(text, 0, exits)
      && PatchAll(text, 0, exits, |text|) + GenPops(2)
          == pre + (EmitJump(PUSH_TRY, |b| + 3) + (b + (EmitJump(JUMP, 3) + (EmitJump(ENTER_EXCEPT, 0) + GenPops(2)))))
  {
    hide GenBlock, EmitJump, GenPops, Fills;
    var b := GenBlock(s.body, depth + 2, lp, |pre| + 3);
    var push, over, enter := EmitJump(PUSH_TRY, |b| + 3), EmitJump(JUMP, UNPATCHED), EmitJump(ENTER_EXCEPT, UNPATCHED);
    var before := pre + push + b;
    var end := |before| + 6;
    JumpFills(JUMP, |before|, end);
    JumpFills(ENTER_EXCEPT, |before| + 3, end);
    FillsConcat(over, enter, |before|, [exits[0]], [exits[1]], end, EmitJump(JUMP, 3), EmitJump(ENTER_EXCEPT, 0));
    assert [exits[0]] + [exits[1]] == exits;
    FillsAfter(before, over + enter, 0, exits, end, EmitJump(JUMP, 3) + EmitJump(ENTER_EXCEPT, 0));
    AppendTwice(before, over, enter);
    FillsAre(before + over + enter, 0, exits, end, before + (EmitJump(JUMP, 3) + EmitJump(ENTER_EXCEPT, 0)));
    AppendTwice(before, EmitJump(JUMP, 3), EmitJump(ENTER_EXCEPT, 0));
    Joined5(pre, push, b, EmitJump(JUMP, 3), EmitJump(ENTER_EXCEPT, 0), GenPops(2));
  }

  lemma FillsAre(piece: Text, base: nat, offs: seq<nat>, target: nat, filled: Text)
    requires Fills(piece, base, offs, target, filled)
    ensures HolesIn(piece, base, offs) && AllOpen(piece, base, offs) && PatchAll(piece, base, offs, target) == filled
  {
  }

  // ----- clauses -----

  /** The previous filter's jump leads to the next clause, if there is one. */
  ghost function Resolved(text: Text, next: int, hs: Handlers): Text
    requires next == -1 || (next >= 0 && Open(text, 0, next))
  {
    if next == -1 || hs.NoHandler? then text else Patch(text, 0, next, |text| - next - 2)
  }

  lemma ResolveNow(text: Text, next: int, hs: Handlers)
    requires next == -1 || (next >= 0 && Open(text, 0, next))
    ensures Resolved(text, next, hs) == if next == -1 || hs.NoHandler? then text else Patch(text, 0, next, |text| - next - 2)
  {
  }

  lemma ClausesUnfold(hs: Handlers, depth: nat, lp: Loop, at: nat, scope: Scope, inBody: bool, inLoop: bool)
    requires lp.brk.None? && lp.cont.None? && HandlersOk(hs, scope, inBody, inLoop)
    ensures hs.NoHandler? ==>
      && GenClauses(hs, depth, lp, at, None, None) == [] && OutHoles(hs, depth, lp.count, at) == []
      && HandlerHoles(hs, depth, lp.count, at, Breaking) == [] && HandlerHoles(hs, depth, lp.count, at, Continuing) == []
    ensures hs.Handler? ==>
      var at1, more := at + |GenFilter(hs.filter)| + 3, hs.more;
      var block := GenBlock(hs.body, depth + 2, lp, at1);
      var end := at1 + |block| + 3;
      && |block| == BlockSize(hs.body, depth + 2, lp.count)
      && BlockOk(hs.body, scope + [hs.named, false], inBody, inLoop) && HandlersOk(more, scope, inBody, inLoop)
      && HandlersSize(hs, depth, lp.count) == end - at + HandlersSize(more, depth, lp.count)
      && GenClauses(hs, depth, lp, at, None, None)
          == GenFilter(hs.filter) + (EmitJump(FILTER_EXCEPT, if more.NoHandler? then UNPATCHED else |block| + 3)
             + (block + (EmitJump(JUMP, UNPATCHED) + GenClauses(more, depth, lp, end, None, None))))
      && HandlerHoles(hs, depth, lp.count, at, Breaking)
          == Holes(hs.body, depth + 2, lp.count, at1, Breaking) + HandlerHoles(more, depth, lp.count, end, Breaking)
      && HandlerHoles(hs, depth, lp.count, at, Continuing)
          == Holes(hs.body, depth + 2, lp.count, at1, Continuing) + HandlerHoles(more, depth, lp.count, end, Continuing)
      && OutHoles(hs, depth, lp.count, at) == [end - 2] + OutHoles(more, depth, lp.count, end)
      && NextHole(hs, depth, lp.count, at) == if more.NoHandler? then at1 - 2 else NextHole(more, depth, lp.count, end)
  {
    hide GenBlock, BlockOk, BlockSize, EmitJump, Holes, GenExpr, Emit1, ExprOk;
    if hs.Handler? {
      BlockLength(hs.body, depth + 2, lp, at + |GenFilter(hs.filter)| + 3);
    }
  }

  lemma ClauseResolved(pre: Text, filter: Text, block: Text, more: Handlers)
    ensures var text := pre + filter + EmitJump(FILTER_EXCEPT, UNPATCHED) + block + EmitJump(JUMP, UNPATCHED);
      && Open(text, 0, |pre| + |filter| + 1)
      && Resolved(text, |pre| + |filter| + 1, more)
          == pre + filter + EmitJump(FILTER_EXCEPT, if more.NoHandler? then UNPATCHED else |block| + 3) + block
             + EmitJump(JUMP, UNPATCHED)
  {
    hide EmitJump, Patch, HoleIn;
    PatchOver(pre + filter, FILTER_EXCEPT, block + EmitJump(JUMP, UNPATCHED));
    AppendTwice(pre + filter + EmitJump(FILTER_EXCEPT, UNPATCHED), block, EmitJump(JUMP, UNPATCHED));
    AppendTwice(pre + filter + EmitJump(FILTER_EXCEPT, |block| + 3), block, EmitJump(JUMP, UNPATCHED));
  }

  /** Emitted spelled out for a statement that declares nothing. */
  lemma EmittedAs(d: Draft, s: Stmt, d': Draft)
    requires Decls(s) == 0
    requires var lp := Loop(d.loopLocalCount, None, None);
      && d'.text == d.text + GenStmt(s, |d.locals|, lp, |d.text|)
      && d'.breaks == d.breaks + Holes(s, |d.locals|, lp.count, |d.text|, Breaking)
      && d'.continues == d.continues + Holes(s, |d.locals|, lp.count, |d.text|, Continuing)
    requires d' == d.(text := d'.text, breaks := d'.breaks, continues := d'.continues)
    ensures d' == Emitted(d, s)
  {
    assert d.locals + [] == d.locals;
  }

  lemma AppendTwice<T>(a: seq<T>, b: seq<T>, c: seq<T>)
    ensures a + b + c == a + (b + c)
  {
  }

  lemma IfDone(d: Draft, s: Stmt, d': Draft)
    requires s.If?
    requires var lp := Loop(d.loopLocalCount, None, None);
      && d'.text == d.text + GenStmt(s, |d.locals|, lp, |d.text|)
      && d'.breaks == d.breaks + Holes(s, |d.locals|, lp.count, |d.text|, Breaking)
      && d'.continues == d.continues + Holes(s, |d.locals|, lp.count, |d.text|, Continuing)
    requires d' == d.(text := d'.text, breaks := d'.breaks, continues := d'.continues)
    ensures d' == Emitted(d, s)
  {
    hide GenStmt, Holes, Emitted;
    EmittedAs(d, s, d');
  }

  lemma IfPlan(s: Stmt, depth: nat, lp: Loop, base: nat)
    requires s.If?
    ensures var at, size, els := base + |GenExpr(s.cond)| + 3, BlockSize(s.thn, depth, lp.count), s.els;
      var thn := GenBlock(s.thn, depth, lp, at);
      && StmtSize(s, depth, lp.count) == at - base + size + (if els.None? then 0 else 3 + BlockSize(els.value, depth, lp.count))
      && |thn| == size
      && (els.None? ==>
          && GenStmt(s, depth, lp, base) == GenExpr(s.cond) + (EmitJump(POP_JUMP_IF_FALSE, |thn|) + thn)
          && Holes(s, depth, lp.count, base, Breaking) == Holes(s.thn, depth, lp.count, at, Breaking)
          && Holes(s, depth, lp.count, base, Continuing) == Holes(s.thn, depth, lp.count, at, Continuing))
      && (els.Some? ==>
          && var e := GenBlock(els.value, depth, lp, at + size + 3);
          && |e| == BlockSize(els.value, depth, lp.count)
          && GenStmt(s, depth, lp, base)
              == GenExpr(s.cond) + (EmitJump(POP_JUMP_IF_FALSE, |thn| + 3) + (thn + (EmitJump(JUMP, |e|) + e)))
          && Holes(s, depth, lp.count, base, Breaking)
              == Holes(s.thn, depth, lp.count, at, Breaking) + Holes(els.value, depth, lp.count, at + size + 3, Breaking)
          && Holes(s, depth, lp.count, base, Continuing)
              == Holes(s.thn, depth, lp.count, at, Continuing) + Holes(els.value, depth, lp.count, at + size + 3, Continuing))
  {
    hide GenBlock, BlockSize, EmitJump, GenExpr, Emit1, AlwaysTrue, HandlerHoles, HandlersSize, ElseSize, GenExit;
    BlockLength(s.thn, depth, lp, base + |GenExpr(s.cond)| + 3);
    if s.els.Some? {
      BlockLength(s.els.value, depth, lp, base + |GenExpr(s.cond)| + 3 + BlockSize(s.thn, depth, lp.count) + 3);
    }
  }

  lemma EmittedSizes(d: Draft, s: Stmt)
    ensures var d' := Emitted(d, s);
      && |d'.text| == |d.text| + StmtSize(s, |d.locals|, d.loopLocalCount) && |d'.locals| == |d.locals| + Decls(s)
      && d'.loopLocalCount == d.loopLocalCount && d'.scopeDepth == d.scopeDepth
  {
    hide GenStmt, Holes, StmtSize, Decls;
    StmtLength(s, |d.locals|, Loop(d.loopLocalCount, None, None), |d.text|);
  }

  lemma SeqSize(s: Stmt, depth: nat, count: nat)
    requires s.Seq?
    ensures StmtSize(s, depth, count) == StmtSize(s.first, depth, count) + StmtSize(s.second, depth + Decls(s.first), count)
  {
    hide Decls;
  }

  lemma EmittedSeq(d: Draft, s: Stmt)
    requires s.Seq?
    ensures Emitted(Emitted(d, s.first), s.second) == Emitted(d, s)
  {
    hide StmtSize, GenBlock, GenIf, GenWhile, GenFor, GenTry, GenRaise, GenExpr, GenLeaveLoop, Emit1, GenExit;
    hide BlockSize, HandlersSize, HandlerHoles, ElseSize, EmitOperand, AlwaysTrue;
    var d1 := Emitted(d, s.first);
    var d2, want := Emitted(d1, s.second), Emitted(d, s);
    StmtLength(s.first, |d.locals|, Loop(d.loopLocalCount, None, None), |d.text|);
    var lp := Loop(d.loopLocalCount, None, None);
    var first, second := GenStmt(s.first, |d.locals|, lp, |d.text|), GenStmt(s.second, |d1.locals|, lp, |d1.text|);
    assert GenStmt(s, |d.locals|, lp, |d.text|) == GenSeq(s, |d.locals|, lp, |d.text|) == first + second;
    assert d2.locals == want.locals;
    assert d2.text == d.text + (first + second);
    assert d2.breaks == want.breaks;
    assert d2.continues == want.continues;
  }

  lemma Joined3(pre: Text, a: Text, b: Text, c: Text)
    ensures pre + a + b + c == pre + (a + (b + c))
  {
  }

  lemma Joined4(pre: Text, a: Text, b: Text, c: Text, d: Text)
    ensures pre + a + b + c + d == pre + (a + (b + (c + d)))
  {
    Joined3(pre + a, b, c, d);
    assert pre + a + (b + (c + d)) == pre + (a + (b + (c + d)));
  }

  lemma Joined5(pre: Text, a: Text, b: Text, c: Text, d: Text, e: Text)
    ensures pre + a + b + c + d + e == pre + (a + (b + (c + (d + e))))
  {
    Joined3(pre + a + b, c, d, e);
    Joined3(pre, a, b, c + (d + e));
  }

  lemma Joined6(pre: Text, a: Text, b: Text, c: Text, d: Text, e: Text, f: Text)
    ensures pre + a + b + c + d + e + f == pre + (a + (b + (c + (d + (e + f)))))
  {
    Joined5(pre + a, b, c, d, e, f);
    assert pre + a + (b + (c + (d + (e + f)))) == pre + (a + (b + (c + (d + (e + f)))));
  }

  lemma Regrouped(pre: Text, a: Text, b: Text, c: Text, d: Text)
    ensures pre + (a + b) + c + d == pre + a + b + (c + d)
  {
  }

  lemma ShortSkip()
    ensures EmitJump(JUMP, 2) == [J(JUMP)] + [D1(2), D2(2)]
  {
  }

  /** Patching the jump between `pre` and `post` to the end makes it skip `post`. */
  lemma PatchOver(pre: Text, op: Op, post: Text)
    ensures var text := pre + EmitJump(op, UNPATCHED) + post;
      && Open(text, 0, |pre| + 1) && Patchable(text, |pre| + 1)
      && Patch(text, 0, |pre| + 1, |post|) == pre + EmitJump(op, |post|) + post
  {
  }

  // ----- the overlong table -----

  /** `i` is the first entry for `offset`. */
  ghost predicate First(table: seq<Overlong>, offset: nat, i: nat) {
    i < |table| && table[i].offset == offset && forall j | 0 <= j < i :: table[j].offset != offset
  }

  lemma {:induction false} LookupFirst(table: seq<Overlong>, offset: nat, i: nat)
    requires i <= |table| && forall j | 0 <= j < i :: table[j].offset != offset
    requires i < |table| ==> table[i].offset == offset
    ensures Lookup(table, offset) == if i < |table| then Some(table[i]) else None
    decreases i
  {
    if i > 0 {
      LookupFirst(table[1..], offset, i - 1);
    }
  }

  /** What EmitOverlongJump does to the table and the opcode byte, if anything. */
  ghost predicate Recorded(code: Code, table: seq<Overlong>, code': Code, table': seq<Overlong>, offset: nat, jump: nat)
    requires 0 < offset <= |code| == |code'|
  {
    var high := (jump / 0x10000) % 0x10000;
    if jump <= 0xFFFF then code'[offset - 1] == code[offset - 1] && table' == table
    else if Lookup(table, offset).None? then
      code'[offset - 1] == OVERLONG_JUMP && table' == table + [Overlong(offset, high, code[offset - 1])]
    else
      && code'[offset - 1] == code[offset - 1]
      && exists i: nat :: First(table, offset, i) && table' == table[i := table[i].(high := high)]
  }

  lemma {:induction false} LookupOther(table: seq<Overlong>, offset: nat, other: int, code: Code, code': Code,
                                       table': seq<Overlong>, jump: nat)
    requires 0 < offset <= |code| == |code'|
    requires Recorded(code, table, code', table', offset, jump) && other != offset
    ensures Lookup(table', other) == Lookup(table, other)
  {
    if jump > 0xFFFF {
      if Lookup(table, offset).None? {
        LookupAppend(table, table'[|table|], other);
      } else {
        var i: nat :| First(table, offset, i) && table' == table[i := table[i].(high := (jump / 0x10000) % 0x10000)];
        LookupUpdate(table, i, table'[i], other);
      }
    }
  }

  lemma {:induction false} LookupAppend(table: seq<Overlong>, e: Overlong, other: int)
    requires e.offset != other
    ensures Lookup(table + [e], other) == Lookup(table, other)
  {
    if table != [] {
      assert (table + [e])[1..] == table[1..] + [e];
      LookupAppend(table[1..], e, other);
    }
  }

  lemma {:induction false} LookupUpdate(table: seq<Overlong>, i: nat, e: Overlong, other: int)
    requires i < |table| && table[i].offset == e.offset != other
    ensures Lookup(table[i := e], other) == Lookup(table, other)
    decreases i
  {
    if i > 0 {
      assert table[i := e][1..] == table[1..][i - 1 := e];
      LookupUpdate(table[1..], i - 1, e, other);
    } else {
      assert table[i := e][1..] == table[1..];
    }
  }

  /** A jump's opcode and distance are at `offset`; one that is in the table already only gets further. */
  ghost predicate Patchable(text: Text, offset: nat) {
    && HoleIn(text, 0, offset) && text[offset - 1].J? && text[offset].D1? && text[offset + 1].D2?
    && (text[offset].distance > 0xFFFF ==> |text| - offset - 2 > 0xFFFF)
  }

  /** Every entry is for an operand that is in the code. */
  ghost predicate Recent(table: seq<Overlong>, size: nat) {
    forall i | 0 <= i < |table| :: 0 < table[i].offset && table[i].offset + 2 <= size
  }

  lemma LastOpen(text: Text, offs: seq<nat>)
    requires AllOpen(text, 0, offs) && offs != []
    ensures var n := |offs| - 1;
      && Patchable(text, offs[n])
      && forall distance: int :: AllOpen(Patch(text, 0, offs[n], distance), 0, offs[..n])
  {
    var n := |offs| - 1;
    assert Open(text, 0, offs[n]);
    forall distance: int ensures AllOpen(Patch(text, 0, offs[n], distance), 0, offs[..n]) {
      OthersOpen(text, 0, offs, n, distance);
      assert offs[..n] + offs[n + 1..] == offs[..n];
    }
  }

  lemma FirstOpen(text: Text, offs: seq<nat>)
    requires AllOpen(text, 0, offs) && offs != []
    ensures Patchable(text, offs[0])
    ensures forall distance: int :: AllOpen(Patch(text, 0, offs[0], distance), 0, offs[1..])
  {
    assert Open(text, 0, offs[0]);
    forall distance: int ensures AllOpen(Patch(text, 0, offs[0], distance), 0, offs[1..]) {
      OthersOpen(text, 0, offs, 0, distance);
      assert offs[..0] + offs[0 + 1..] == offs[1..];
    }
  }

  lemma HolesStay(text: Text, offset: nat, distance: int, offs: seq<nat>)
    requires HoleIn(text, 0, offset) && HolesIn(text, 0, offs)
    ensures HolesIn(Patch(text, 0, offset, distance), 0, offs)
  {
  }

  lemma HolesLonger(text: Text, more: Text, offs: seq<nat>)
    requires HolesIn(text, 0, offs)
    ensures HolesIn(text + more, 0, offs)
  {
  }

  lemma PatchedJump(text: Text, offset: nat, distance: int)
    requires Patchable(text, offset)
    ensures var patched := Patch(text, 0, offset, distance);
      && |patched| == |text| && patched[offset - 1].J? && patched[offset - 1..offset + 2] == EmitJump(patched[offset - 1].op, distance)
  {
  }

  /** A jump in a text is fetched from its code. */
  lemma JumpAt(code: Code, table: seq<Overlong>, text: Text, at: nat, op: Op, distance: int)
    requires At(code, table, 0, text) && at + 3 <= |text| && text[at..at + 3] == EmitJump(op, distance) && FormOf(op) == Jump
    ensures distance >= 0 && Fetch(code, table, at) == Some(Fetched(op, distance, at + 3))
  {
    hide Holds, Fetch, At;
    assert text == text[..at] + (text[at..at + 3] + text[at + 3..]);
    AtSplit3(code, table, 0, text[..at], text[at..at + 3], text[at + 3..]);
    FetchJump(code, table, at, op, distance);
  }

  lemma Appended(code: Code, table: seq<Overlong>, text: Text, b: Byte, cell: Cell)
    requires |text| == |code| && At(code, table, 0, text) && Recent(table, |code|) && Shows(b, cell)
    ensures At(code + [b], table, 0, text + [cell]) && Recent(table, |code| + 1)
  {
    NoEntry(table, |code|);
    forall i | 0 <= i < |text + [cell]| ensures Holds(code + [b], table, 0 + i, (text + [cell])[i]) {
      if i < |text| {
        assert Holds(code, table, 0 + i, text[i]);
      }
    }
  }

  lemma NoEntry(table: seq<Overlong>, size: nat)
    requires Recent(table, size)
    ensures Lookup(table, size) == None && Lookup(table, size + 1) == None
  {
    LookupFirst(table, size, |table|);
    LookupFirst(table, size + 1, |table|);
  }

  /** A patched jump stands in the code and the table as its opcode and its distance; nothing else has changed. */
  lemma Landed(code: Code, table: seq<Overlong>, code': Code, table': seq<Overlong>, text: Text, offset: nat, jump: nat)
    requires |text| == |code| == |code'| && At(code, table, 0, text) && Recent(table, |code|) && Patchable(text, offset)
    requires jump == |code| - offset - 2 < CODE_LIMIT && Recorded(code, table, code', table', offset, jump)
    requires forall i | 0 <= i < |code| && !(offset - 1 <= i < offset + 2) :: code'[i] == code[i]
    requires code'[offset] == High(jump) && code'[offset + 1] == Low(jump)
    ensures At(code', table', 0, Patch(text, 0, offset, jump)) && Recent(table', |code'|)
  {
    hide Recorded;
    var text' := Patch(text, 0, offset, jump);
    RecordedAt(code, table, code', table', text, offset, jump);
    forall i | 0 <= i < |text'| ensures Holds(code', table', 0 + i, text'[i]) {
      assert Holds(code, table, 0 + i, text[i]);
      if i != offset {
        LookupOther(table, offset, i, code, code', table', jump);
      }
      if i + 1 != offset {
        LookupOther(table, offset, i + 1, code, code', table', jump);
      }
    }
  }

  lemma RecordedAt(code: Code, table: seq<Overlong>, code': Code, table': seq<Overlong>, text: Text, offset: nat, jump: nat)
    requires |text| == |code| == |code'| && At(code, table, 0, text) && Recent(table, |code|) && Patchable(text, offset)
    requires jump == |code| - offset - 2 < CODE_LIMIT && Recorded(code, table, code', table', offset, jump)
    requires code'[offset] == High(jump) && code'[offset + 1] == Low(jump)
    ensures Holds(code', table', offset - 1, text[offset - 1]) && Holds(code', table', offset, D1(jump)) && Recent(table', |code'|)
  {
    assert Holds(code, table, 0 + (offset - 1), text[offset - 1]) && Holds(code, table, 0 + offset, text[offset]);
    if jump > 0xFFFF {
      var high := (jump / 0x10000) % 0x10000;
      if Lookup(table, offset).None? {
        forall j | 0 <= j < |table| ensures table[j].offset != offset {
          Missing(table, offset, j);
        }
        LookupFirst(table', offset, |table|);
      } else {
        var i: nat :| First(table, offset, i) && table' == table[i := table[i].(high := high)];
        LookupFirst(table, offset, i);
        LookupFirst(table', offset, i);
      }
    }
  }

  lemma {:induction false} Missing(table: seq<Overlong>, offset: nat, j: nat)
    requires Lookup(table, offset).None? && j < |table|
    ensures table[j].offset != offset
    decreases j
  {
    if j > 0 {
      Missing(table[1..], offset, j - 1);
    }
  }

  /** The jump back of a loop, its distance already known when its operand is emitted. */
  lemma LoopLands(code1: Code, table1: seq<Overlong>, code2: Code, code: Code, table: seq<Overlong>, text: Text,
                  op: Op, distance: nat)
    requires |text| == |code1| == |code2| && At(code1, table1, 0, text) && Recent(table1, |code1|) && distance < CODE_LIMIT
    requires text != [] && text[|text| - 1] == J(op) && Recorded(code1, table1, code2, table, |code1|, distance)
    requires forall i | 0 <= i < |code1| - 1 :: code2[i] == code1[i]
    requires code == code2 + [High(distance), Low(distance)]
    ensures At(code, table, 0, text + [D1(distance), D2(distance)]) && Recent(table, |code|)
  {
    hide Recorded;
    var offset := |code1|;
    var text' := text + [D1(distance), D2(distance)];
    assert Holds(code1, table1, 0 + (offset - 1), text[offset - 1]);
    NoEntry(table1, offset);
    LoopRecorded(code1, table1, code2, table, op, distance);
    forall i | 0 <= i < |text'| ensures Holds(code, table, 0 + i, text'[i]) {
      if i < offset - 1 {
        assert Holds(code1, table1, 0 + i, text[i]);
        LookupOther(table1, offset, i, code1, code2, table, distance);
        LookupOther(table1, offset, i + 1, code1, code2, table, distance);
      }
    }
  }

  lemma LoopFetched(code: Code, table: seq<Overlong>, text: Text, op: Op, distance: nat)
    requires At(code, table, 0, text + [D1(distance), D2(distance)]) && text != [] && text[|text| - 1] == J(op) && FormOf(op) == Jump
    ensures Fetch(code, table, |text| - 1) == Some(Fetched(op, distance, |text| + 2))
  {
    hide At, Fetch;
    var text' := text + [D1(distance), D2(distance)];
    assert text'[|text| - 1..|text| + 2] == EmitJump(op, distance);
    JumpAt(code, table, text', |text| - 1, op, distance);
  }

  lemma LoopRecorded(code1: Code, table1: seq<Overlong>, code2: Code, table: seq<Overlong>, op: Op, distance: nat)
    requires 0 < |code1| == |code2| && Recent(table1, |code1|) && distance < CODE_LIMIT
    requires code1[|code1| - 1] == ByteOf(op) && Recorded(code1, table1, code2, table, |code1|, distance)
    ensures Recent(table, |code1| + 2)
    ensures match Lookup(table, |code1|)
            case None => distance <= 0xFFFF && code2[|code1| - 1] == ByteOf(op)
            case Some(e) => e.high == distance / 0x10000 && e.op == ByteOf(op) && code2[|code1| - 1] == OVERLONG_JUMP
  {
    NoEntry(table1, |code1|);
    if distance > 0xFFFF {
      LookupFirst(table, |code1|, |table1|);
    }
  }
}
