/** Jumps left open while a loop body is compiled: where they are, and that patching them afterwards gives the
    code of a loop whose exits were known from the start. */
module Patching {
  import opened Options
  import opened Syntax
  import opened Bytecode
  import opened Codegen

  /** The two jump lists of a loop: `break` and `continue`. */
  datatype Kind = Breaking | Continuing

  function TargetOf(lp: Loop, kind: Kind): Option<nat> {
    if kind == Breaking then lp.brk else lp.cont
  }

  function Targeted(lp: Loop, kind: Kind, target: nat): Loop {
    if kind == Breaking then lp.(brk := Some(target)) else lp.(cont := Some(target))
  }

  // ----- overwriting operands -----

  /** A jump whose operand is at address `off` lies within a piece placed at `base`. */
  predicate HoleIn(piece: Text, base: nat, off: nat) {
    base < off && off + 2 <= base + |piece|
  }

  function Patch(piece: Text, base: nat, off: nat, distance: int): (c: Text)
    requires HoleIn(piece, base, off)
    ensures |c| == |piece|
  {
    piece[off - base := D1(distance)][off - base + 1 := D2(distance)]
  }

  predicate HolesIn(piece: Text, base: nat, offs: seq<nat>) {
    forall i | 0 <= i < |offs| :: HoleIn(piece, base, offs[i])
  }

  /** Point every listed jump at `target`, the last one first, as emitLoop and patchBreaks do. */
  function PatchAll(piece: Text, base: nat, offs: seq<nat>, target: nat): (c: Text)
    requires HolesIn(piece, base, offs)
    ensures |c| == |piece|
    decreases |offs|
  {
    if offs == [] then piece
    else
      var off := offs[|offs| - 1];
      PatchAll(Patch(piece, base, off, target - off - 2), base, offs[..|offs| - 1], target)
  }

  lemma {:induction false} PatchConcat(a: Text, b: Text, base: nat, oa: seq<nat>, ob: seq<nat>, target: nat)
    requires HolesIn(a, base, oa) && HolesIn(b, base + |a|, ob)
    ensures HolesIn(a + b, base, oa + ob)
    ensures PatchAll(a + b, base, oa + ob, target) == PatchAll(a, base, oa, target) + PatchAll(b, base + |a|, ob, target)
    decreases |ob|, |oa|
  {
    if ob != [] {
      var off, rest := ob[|ob| - 1], ob[..|ob| - 1];
      assert HoleIn(b, base + |a|, off);
      assert (oa + ob)[..|oa + ob| - 1] == oa + rest && (oa + ob)[|oa + ob| - 1] == off;
      var b' := Patch(b, base + |a|, off, target - off - 2);
      assert Patch(a + b, base, off, target - off - 2) == a + b';
      PatchConcat(a, b', base, oa, rest, target);
    } else if oa != [] {
      var off, rest := oa[|oa| - 1], oa[..|oa| - 1];
      assert oa + ob == oa && rest + ob == rest && HoleIn(a, base, off);
      var a' := Patch(a, base, off, target - off - 2);
      assert Patch(a + b, base, off, target - off - 2) == a' + b;
      PatchConcat(a', b, base, rest, ob, target);
    }
  }

  // ----- where the open jumps are -----

  function Holes(s: Stmt, depth: nat, count: nat, base: nat, kind: Kind): seq<nat>
    decreases s, 1
  {
    match s
    case Seq(a, b) =>
      Holes(a, depth, count, base, kind)
      + Holes(b, depth + Decls(a), count, base + StmtSize(a, depth, count), kind)
    case If(c, a, b) =>
      var at := base + |GenExpr(c)| + 3;
      Holes(a, depth, count, at, kind)
      + if b.None? then [] else Holes(b.value, depth, count, at + BlockSize(a, depth, count) + 3, kind)
    case While(c, body, els) =>
      Holes(els, depth, count, base + BlockSize(body, depth, depth)
                               + (if AlwaysTrue(c) then 3 else |GenExpr(c)| + 7), kind)
    case For(e, body, els) =>
      Holes(els, depth + 2, count, base + 1 + |GenExpr(e)| + 1 + 3 + |EmitOperand(SET_LOCAL_POP, depth)|
                                   + BlockSize(body, depth + 2, depth + 2) + 4, kind)
    case Try(body, hs, els, fin) =>
      var at := base + 9 + BlockSize(body, depth + 2, count);
      var at2 := at + HandlersSize(hs, depth, count);
      var at3 := at2 + ElseSize(els, depth, count) + 1;
      Holes(body, depth + 2, count, base + 3, kind)
      + (HandlerHoles(hs, depth, count, at, kind)
      + ((if els.None? then [] else Holes(els.value, depth + 2, count, at2 + 1, kind))
      + Holes(fin, depth + 2, count, at3, kind)))
    case BareTry(body) => Holes(body, depth + 2, count, base + 3, kind)
    case Break => if kind == Breaking then [base + |GenExit(depth, count)| + 1] else []
    case Continue => if kind == Continuing then [base + |GenExit(depth, count)| + 1] else []
    case _ => []
  }

  function HandlerHoles(hs: Handlers, depth: nat, count: nat, at: nat, kind: Kind): seq<nat>
    decreases hs, 0
  {
    match hs
    case NoHandler => []
    case Handler(f, _, body, more) =>
      var at1 := at + |GenFilter(f)| + 3;
      Holes(body, depth + 2, count, at1, kind)
      + HandlerHoles(more, depth, count, at1 + BlockSize(body, depth + 2, count) + 3, kind)
  }

  /** A statement outside every loop body leaves no `break` open; outside every loop, no `continue`. */
  lemma {:induction false} NoHoles(s: Stmt, scope: Scope, inBody: bool, inLoop: bool, depth: nat, count: nat,
                                   base: nat, kind: Kind)
    requires StmtOk(s, scope, inBody, inLoop) && !(if kind == Breaking then inBody else inLoop)
    ensures Holes(s, depth, count, base, kind) == []
    decreases s, 1
  {
    hide BlockSize, StmtSize, HandlersSize, ElseSize, GenExpr, Decls, GenExit, EmitOperand, ExprOk, HandlersOk, BlockOk, AlwaysTrue, HandlerHoles;
    match s
    case Seq(a, b) =>
      NoHoles(a, scope, inBody, inLoop, depth, count, base, kind);
      NoHoles(b, scope + Declared(Decls(a)), inBody, inLoop, depth + Decls(a), count,
              base + StmtSize(a, depth, count), kind);
    case If(c, a, b) =>
      NoBlockHoles(a, scope, inBody, inLoop, depth, count, base + |GenExpr(c)| + 3, kind);
      if b.Some? {
        NoBlockHoles(b.value, scope, inBody, inLoop, depth, count,
                base + |GenExpr(c)| + 3 + BlockSize(a, depth, count) + 3, kind);
      }
    case While(_, _, _) => NoLoopHoles(s, scope, inBody, inLoop, depth, count, base, kind);
    case For(_, _, _) => NoLoopHoles(s, scope, inBody, inLoop, depth, count, base, kind);
    case Try(_, _, _, _) => NoTryHoles(s, scope, inBody, inLoop, depth, count, base, kind);
    case BareTry(body) => NoBlockHoles(body, scope + [false, false], inBody, inLoop, depth + 2, count, base + 3, kind);
    case _ =>
  }

  lemma {:induction false} NoLoopHoles(s: Stmt, scope: Scope, inBody: bool, inLoop: bool, depth: nat, count: nat,
                                       base: nat, kind: Kind)
    requires (s.While? || s.For?) && StmtOk(s, scope, inBody, inLoop) && !(if kind == Breaking then inBody else inLoop)
    ensures Holes(s, depth, count, base, kind) == []
    decreases s, 0
  {
    hide BlockSize, StmtSize, GenExpr, GenExit, EmitOperand, ExprOk, BlockOk, AlwaysTrue;
    match s
    case While(c, body, els) =>
      NoBlockHoles(els, scope, false, inLoop, depth, count,
              base + BlockSize(body, depth, depth) + (if AlwaysTrue(c) then 3 else |GenExpr(c)| + 7), kind);
    case For(e, body, els) =>
      NoBlockHoles(els, scope + [true, false], false, inLoop, depth + 2, count,
              base + 1 + |GenExpr(e)| + 1 + 3 + |EmitOperand(SET_LOCAL_POP, depth)|
              + BlockSize(body, depth + 2, depth + 2) + 4, kind);
  }

  lemma {:induction false} NoBlockHoles(s: Stmt, scope: Scope, inBody: bool, inLoop: bool, depth: nat, count: nat,
                                        base: nat, kind: Kind)
    requires BlockOk(s, scope, inBody, inLoop) && !(if kind == Breaking then inBody else inLoop)
    ensures Holes(s, depth, count, base, kind) == []
    decreases s, 2
  {
    hide StmtOk, Holes;
    NoHoles(s, scope, inBody, inLoop, depth, count, base, kind);
  }

  lemma {:induction false} NoTryHoles(s: Stmt, scope: Scope, inBody: bool, inLoop: bool, depth: nat, count: nat,
                                      base: nat, kind: Kind)
    requires s.Try? && StmtOk(s, scope, inBody, inLoop) && !(if kind == Breaking then inBody else inLoop)
    ensures Holes(s, depth, count, base, kind) == []
    decreases s, 0
  {
    hide BlockSize, HandlersSize, ElseSize, HandlersOk, BlockOk, HandlerHoles;
    var at := base + 9 + BlockSize(s.body, depth + 2, count);
    var at2 := at + HandlersSize(s.handlers, depth, count);
    NoBlockHoles(s.body, scope + [false, false], inBody, inLoop, depth + 2, count, base + 3, kind);
    NoHandlerHoles(s.handlers, scope, inBody, inLoop, depth, count, at, kind);
    if s.els.Some? {
      NoBlockHoles(s.els.value, scope + [false, false], inBody, inLoop, depth + 2, count, at2 + 1, kind);
    }
    NoBlockHoles(s.fin, scope + [false, false], inBody, inLoop, depth + 2, count, at2 + ElseSize(s.els, depth, count) + 1, kind);
  }

  lemma {:induction false} NoHandlerHoles(hs: Handlers, scope: Scope, inBody: bool, inLoop: bool, depth: nat,
                                          count: nat, at: nat, kind: Kind)
    requires HandlersOk(hs, scope, inBody, inLoop) && !(if kind == Breaking then inBody else inLoop)
    ensures HandlerHoles(hs, depth, count, at, kind) == []
    decreases hs, 0
  {
    hide BlockOk, BlockSize, GenFilter, Holes;
    match hs
    case NoHandler =>
    case Handler(f, named, body, more) =>
      var at1 := at + |GenFilter(f)| + 3;
      NoBlockHoles(body, scope + [named, false], inBody, inLoop, depth + 2, count, at1, kind);
      NoHandlerHoles(more, scope, inBody, inLoop, depth, count, at1 + BlockSize(body, depth + 2, count) + 3, kind);
  }

  // ----- patching fills them -----

  /** A jump that has not been patched. */
  ghost predicate Open(piece: Text, base: nat, off: nat) {
    && HoleIn(piece, base, off)
    && piece[off - base - 1].J? && piece[off - base] == D1(UNPATCHED) && piece[off - base + 1] == D2(UNPATCHED)
  }

  ghost predicate AllOpen(piece: Text, base: nat, offs: seq<nat>) {
    && (forall i | 0 <= i < |offs| :: Open(piece, base, offs[i]))
    && forall i, j | 0 <= i < j < |offs| :: offs[i] != offs[j]
  }

  /** Patching one jump leaves the others open. */
  lemma OthersOpen(piece: Text, base: nat, offs: seq<nat>, i: nat, distance: int)
    requires AllOpen(piece, base, offs) && i < |offs| && HoleIn(piece, base, offs[i])
    ensures AllOpen(Patch(piece, base, offs[i], distance), base, offs[..i] + offs[i + 1..])
  {
    var rest, off := offs[..i] + offs[i + 1..], offs[i];
    var patched := Patch(piece, base, off, distance);
    assert Open(piece, base, off);
    forall k | 0 <= k < |rest| ensures Open(patched, base, rest[k]) {
      var other := rest[k];
      assert other == if k < i then offs[k] else offs[k + 1];
      assert Open(piece, base, other) && other != off;
      assert off != other - 1 && off != other + 1 && off + 1 != other - 1;
    }
  }

  lemma OpenConcat(a: Text, b: Text, base: nat, oa: seq<nat>, ob: seq<nat>)
    requires AllOpen(a, base, oa) && AllOpen(b, base + |a|, ob)
    ensures AllOpen(a + b, base, oa + ob)
  {
    var offs := oa + ob;
    forall i | 0 <= i < |offs| ensures Open(a + b, base, offs[i]) && (i < |oa| <==> offs[i] < base + |a|) {
      if i < |oa| {
        assert Open(a, base, oa[i]);
      } else {
        assert Open(b, base + |a|, ob[i - |oa|]);
      }
    }
  }

  /** `piece` with its open jumps `offs` pointed at `target` is `filled`. */
  ghost predicate Fills(piece: Text, base: nat, offs: seq<nat>, target: nat, filled: Text) {
    HolesIn(piece, base, offs) && AllOpen(piece, base, offs) && PatchAll(piece, base, offs, target) == filled
  }

  lemma Closed(piece: Text, base: nat, target: nat)
    ensures Fills(piece, base, [], target, piece)
  {
  }

  lemma FillsConcat(a: Text, b: Text, base: nat, oa: seq<nat>, ob: seq<nat>, target: nat, fa: Text, fb: Text)
    requires Fills(a, base, oa, target, fa) && Fills(b, base + |a|, ob, target, fb)
    ensures Fills(a + b, base, oa + ob, target, fa + fb)
  {
    PatchConcat(a, b, base, oa, ob, target);
    OpenConcat(a, b, base, oa, ob);
  }

  lemma FillsAfter(a: Text, b: Text, base: nat, ob: seq<nat>, target: nat, fb: Text)
    requires Fills(b, base + |a|, ob, target, fb)
    ensures Fills(a + b, base, ob, target, a + fb)
  {
    Closed(a, base, target);
    FillsConcat(a, b, base, [], ob, target, a, fb);
    assert [] + ob == ob;
  }

  lemma FillsBefore(a: Text, b: Text, base: nat, oa: seq<nat>, target: nat, fa: Text)
    requires Fills(a, base, oa, target, fa)
    ensures Fills(a + b, base, oa, target, fa + b)
  {
    Closed(b, base + |a|, target);
    FillsConcat(a, b, base, oa, [], target, fa, b);
    assert oa + [] == oa;
  }

  lemma FillsLeave(depth: nat, count: nat, base: nat, target: nat)
    ensures Fills(GenLeaveLoop(depth, count, None, base), base, [base + |GenExit(depth, count)| + 1], target,
                  GenLeaveLoop(depth, count, Some(target), base))
  {
    var exit := GenExit(depth, count);
    var at := base + |exit|;
    var jump := EmitJump(JUMP, UNPATCHED);
    assert [at + 1][..0] == [];
    assert Patch(jump, at, at + 1, target - (at + 1) - 2) == EmitJump(JUMP, target - (at + 3));
    assert Fills(jump, at, [at + 1], target, EmitJump(JUMP, target - (at + 3)));
    FillsAfter(exit, jump, base, [at + 1], target, EmitJump(JUMP, target - (at + 3)));
  }

  /** Compiling with one exit of the loop open and patching it later is compiling with the exit known. */
  lemma {:induction false} StmtFills(s: Stmt, depth: nat, lp: Loop, base: nat, kind: Kind, target: nat)
    requires TargetOf(lp, kind).None?
    ensures Fills(GenStmt(s, depth, lp, base), base, Holes(s, depth, lp.count, base, kind), target,
                  GenStmt(s, depth, Targeted(lp, kind, target), base))
    decreases s, 1
  {
    hide Fills, GenBlock, GenSeq, GenIf, GenWhile, GenFor, GenTry, GenBareTry, GenElse, GenFinally, GenHandlers, GenFilter,
      EmitJump, EmitOperand, Emit1, GenExpr, GenPops, Decls, BlockSize, HandlersSize, ElseSize, GenExit, StmtSize,
      GenLeaveLoop, GenRaise, HandlerHoles;
    match s
    case Seq(_, _) => SeqFills(s, depth, lp, base, kind, target);
    case If(_, _, _) => IfFills(s, depth, lp, base, kind, target);
    case While(_, _, _) => WhileFills(s, depth, lp, base, kind, target);
    case For(_, _, _) => ForFills(s, depth, lp, base, kind, target);
    case Try(_, _, _, _) => TryFills(s, depth, lp, base, kind, target);
    case BareTry(_) => BareTryFills(s, depth, lp, base, kind, target);
    case Break =>
      if kind == Breaking { FillsLeave(depth, lp.count, base, target); } else { Closed(GenStmt(s, depth, lp, base), base, target); }
    case Continue =>
      if kind == Continuing { FillsLeave(depth, lp.count, base, target); } else { Closed(GenStmt(s, depth, lp, base), base, target); }
    case _ => Closed(GenStmt(s, depth, lp, base), base, target);
  }

  lemma {:induction false} BlockFills(s: Stmt, depth: nat, lp: Loop, base: nat, kind: Kind, target: nat)
    requires TargetOf(lp, kind).None?
    ensures Fills(GenBlock(s, depth, lp, base), base, Holes(s, depth, lp.count, base, kind), target,
                  GenBlock(s, depth, Targeted(lp, kind, target), base))
    decreases s, 2
  {
    hide Fills, GenStmt, Holes, GenPops;
    StmtFills(s, depth, lp, base, kind, target);
    FillsBefore(GenStmt(s, depth, lp, base), GenPops(Decls(s)), base, Holes(s, depth, lp.count, base, kind), target,
                GenStmt(s, depth, Targeted(lp, kind, target), base));
  }

  lemma {:induction false} SeqFills(s: Stmt, depth: nat, lp: Loop, base: nat, kind: Kind, target: nat)
    requires s.Seq? && TargetOf(lp, kind).None?
    ensures Fills(GenSeq(s, depth, lp, base), base, Holes(s, depth, lp.count, base, kind), target,
                  GenSeq(s, depth, Targeted(lp, kind, target), base))
    decreases s, 0
  {
    hide Fills, GenStmt, StmtSize;
    var to := Targeted(lp, kind, target);
    var at := base + StmtSize(s.first, depth, lp.count);
    StmtLength(s.first, depth, lp, base);
    StmtLength(s.first, depth, to, base);
    StmtFills(s.first, depth, lp, base, kind, target);
    StmtFills(s.second, depth + Decls(s.first), lp, at, kind, target);
    FillsConcat(GenStmt(s.first, depth, lp, base), GenStmt(s.second, depth + Decls(s.first), lp, at), base,
                Holes(s.first, depth, lp.count, base, kind), Holes(s.second, depth + Decls(s.first), lp.count, at, kind),
                target, GenStmt(s.first, depth, to, base), GenStmt(s.second, depth + Decls(s.first), to, at));
  }

  lemma {:induction false} IfFills(s: Stmt, depth: nat, lp: Loop, base: nat, kind: Kind, target: nat)
    requires s.If? && TargetOf(lp, kind).None?
    ensures Fills(GenIf(s, depth, lp, base), base, Holes(s, depth, lp.count, base, kind), target,
                  GenIf(s, depth, Targeted(lp, kind, target), base))
    decreases s, 0
  {
    hide Fills, GenBlock, BlockSize, EmitJump, GenExpr, HandlerHoles, HandlersSize, ElseSize, AlwaysTrue;
    var to := Targeted(lp, kind, target);
    var at := base + |GenExpr(s.cond)| + 3;
    var size := BlockSize(s.thn, depth, lp.count);
    var holes := Holes(s.thn, depth, lp.count, at, kind);
    BlockLength(s.thn, depth, lp, at);
    BlockLength(s.thn, depth, to, at);
    BlockFills(s.thn, depth, lp, at, kind, target);
    var thn, thn' := GenBlock(s.thn, depth, lp, at), GenBlock(s.thn, depth, to, at);
    if s.els.None? {
      FillsAfter(EmitJump(POP_JUMP_IF_FALSE, size), thn, at - 3, holes, target, thn');
      FillsAfter(GenExpr(s.cond), EmitJump(POP_JUMP_IF_FALSE, size) + thn, base, holes, target,
                 EmitJump(POP_JUMP_IF_FALSE, size) + thn');
      assert holes + [] == holes;
    } else {
      var at2 := at + size + 3;
      BlockLength(s.els.value, depth, lp, at2);
      BlockLength(s.els.value, depth, to, at2);
      BlockFills(s.els.value, depth, lp, at2, kind, target);
      var els, els' := GenBlock(s.els.value, depth, lp, at2), GenBlock(s.els.value, depth, to, at2);
      var holes2 := Holes(s.els.value, depth, lp.count, at2, kind);
      var skip := EmitJump(JUMP, |els|);
      FillsAfter(skip, els, at2 - 3, holes2, target, els');
      FillsConcat(thn, skip + els, at, holes, holes2, target, thn', skip + els');
      FillsAfter(EmitJump(POP_JUMP_IF_FALSE, size + 3), thn + (skip + els), at - 3, holes + holes2, target,
                 thn' + (skip + els'));
      FillsAfter(GenExpr(s.cond), EmitJump(POP_JUMP_IF_FALSE, size + 3) + (thn + (skip + els)), base, holes + holes2,
                 target, EmitJump(POP_JUMP_IF_FALSE, size + 3) + (thn' + (skip + els')));
    }
  }

  lemma WhileHoles(s: Stmt, depth: nat, count: nat, base: nat, kind: Kind)
    requires s.While?
    ensures Holes(s, depth, count, base, kind)
         == Holes(s.orElse, depth, count, base + BlockSize(s.body, depth, depth)
                                          + (if AlwaysTrue(s.cond) then 3 else |GenExpr(s.cond)| + 7), kind)
  {
    hide BlockSize, GenExpr, AlwaysTrue;
  }

  lemma {:induction false} WhileFills(s: Stmt, depth: nat, lp: Loop, base: nat, kind: Kind, target: nat)
    requires s.While? && TargetOf(lp, kind).None?
    ensures Fills(GenWhile(s, depth, lp, base), base, Holes(s, depth, lp.count, base, kind), target,
                  GenWhile(s, depth, Targeted(lp, kind, target), base))
    decreases s, 0
  {
    hide Fills, GenBlock, BlockSize, EmitJump, GenExpr, Emit1, AlwaysTrue, Holes;
    WhileHoles(s, depth, lp.count, base, kind);
    var to := Targeted(lp, kind, target);
    var size := BlockSize(s.body, depth, depth);
    var at := base + if AlwaysTrue(s.cond) then 0 else |GenExpr(s.cond)| + 3;
    var body := GenBlock(s.body, depth, WhileLoop(s, depth, lp, at), at);
    BlockLength(s.body, depth, WhileLoop(s, depth, lp, at), at);
    var end := at + size + if AlwaysTrue(s.cond) then 3 else 4;
    BlockFills(s.orElse, depth, lp, end, kind, target);
    var holes := Holes(s.orElse, depth, lp.count, end, kind);
    var els, els' := GenBlock(s.orElse, depth, lp, end), GenBlock(s.orElse, depth, to, end);
    if AlwaysTrue(s.cond) {
      var loop := EmitJump(LOOP, size + 3);
      FillsAfter(loop, els, at + size, holes, target, els');
      FillsAfter(body, loop + els, at, holes, target, loop + els');
    } else {
      var cond, loop := GenExpr(s.cond), EmitJump(LOOP, |GenExpr(s.cond)| + 3 + size + 3);
      var exit := EmitJump(JUMP_IF_FALSE_OR_POP, size + 3);
      FillsAfter(Emit1(POP), els, end - 1, holes, target, els');
      FillsAfter(loop, Emit1(POP) + els, at + size, holes, target, Emit1(POP) + els');
      FillsAfter(body, loop + (Emit1(POP) + els), at, holes, target, loop + (Emit1(POP) + els'));
      FillsAfter(exit, body + (loop + (Emit1(POP) + els)), at - 3, holes, target, body + (loop + (Emit1(POP) + els')));
      FillsAfter(cond, exit + (body + (loop + (Emit1(POP) + els))), base, holes, target,
                 exit + (body + (loop + (Emit1(POP) + els'))));
    }
  }

  lemma {:induction false} ForFills(s: Stmt, depth: nat, lp: Loop, base: nat, kind: Kind, target: nat)
    requires s.For? && TargetOf(lp, kind).None?
    ensures Fills(GenFor(s, depth, lp, base), base, Holes(s, depth, lp.count, base, kind), target,
                  GenFor(s, depth, Targeted(lp, kind, target), base))
    decreases s, 0
  {
    hide Fills, GenBlock, BlockSize, EmitJump, GenExpr, Emit1, EmitOperand, GenPops;
    var to := Targeted(lp, kind, target);
    var e, store := GenExpr(s.iterable), EmitOperand(SET_LOCAL_POP, depth);
    var size := BlockSize(s.body, depth + 2, depth + 2);
    var at := base + 1 + |e| + 1 + 3 + |store|;
    var body := GenBlock(s.body, depth + 2, ForLoop(s, depth, lp, at), at);
    BlockLength(s.body, depth + 2, ForLoop(s, depth, lp, at), at);
    var end := at + size + 4;
    BlockFills(s.orElse, depth + 2, lp, end, kind, target);
    var holes := Holes(s.orElse, depth + 2, lp.count, end, kind);
    var els, els' := GenBlock(s.orElse, depth + 2, lp, end), GenBlock(s.orElse, depth + 2, to, end);
    var exit, again := EmitJump(CALL_ITER, |store| + size + 3), EmitJump(LOOP_ITER, |store| + size + 3);
    FillsBefore(els, GenPops(2), end, holes, target, els');
    var r, r' := els + GenPops(2), els' + GenPops(2);
    FillsAfter(Emit1(POP), r, end - 1, holes, target, r');
    r, r' := Emit1(POP) + r, Emit1(POP) + r';
    FillsAfter(again, r, at + size, holes, target, r');
    r, r' := again + r, again + r';
    FillsAfter(body, r, at, holes, target, r');
    r, r' := body + r, body + r';
    FillsAfter(store, r, at - |store|, holes, target, r');
    r, r' := store + r, store + r';
    FillsAfter(exit, r, base + 1 + |e| + 1, holes, target, r');
    r, r' := exit + r, exit + r';
    FillsAfter(Emit1(INVOKE_ITER), r, base + 1 + |e|, holes, target, r');
    r, r' := Emit1(INVOKE_ITER) + r, Emit1(INVOKE_ITER) + r';
    FillsAfter(e, r, base + 1, holes, target, r');
    FillsAfter(Emit1(NONE), e + r, base, holes, target, e + r');
  }

  lemma TryHoles(s: Stmt, depth: nat, count: nat, base: nat, kind: Kind)
    requires s.Try?
    ensures var at := base + 9 + BlockSize(s.body, depth + 2, count);
      var at2 := at + HandlersSize(s.handlers, depth, count);
      var els := if s.els.None? then [] else Holes(s.els.value, depth + 2, count, at2 + 1, kind);
      Holes(s, depth, count, base, kind)
        == Holes(s.body, depth + 2, count, base + 3, kind) + (HandlerHoles(s.handlers, depth, count, at, kind)
           + (els + Holes(s.fin, depth + 2, count, at2 + ElseSize(s.els, depth, count) + 1, kind)))
  {
    hide BlockSize, HandlersSize, ElseSize, HandlerHoles;
  }

  lemma {:induction false} TryFills(s: Stmt, depth: nat, lp: Loop, base: nat, kind: Kind, target: nat)
    requires s.Try? && TargetOf(lp, kind).None?
    ensures Fills(GenTry(s, depth, lp, base), base, Holes(s, depth, lp.count, base, kind), target,
                  GenTry(s, depth, Targeted(lp, kind, target), base))
    decreases s, 0
  {
    hide Fills, GenBlock, BlockSize, EmitJump, GenHandlers, HandlersSize, HandlerHoles, GenElse, GenFinally, ElseSize, Holes;
    TryHoles(s, depth, lp.count, base, kind);
    var to := Targeted(lp, kind, target);
    var size, hsize := BlockSize(s.body, depth + 2, lp.count), HandlersSize(s.handlers, depth, lp.count);
    var esize := ElseSize(s.els, depth, lp.count);
    var at := base + 9 + size;
    BlockLength(s.body, depth + 2, lp, base + 3);
    BlockFills(s.body, depth + 2, lp, base + 3, kind, target);
    HandlersLength(s.handlers, depth, lp, at, esize);
    HandlersFill(s.handlers, depth, lp, at, esize, kind, target);
    ElseLength(s.els, depth, lp, at + hsize);
    ElseFills(s.els, depth, lp, at + hsize, kind, target);
    FinallyFills(s.fin, depth, lp, at + hsize + esize, kind, target);
    var body, body' := GenBlock(s.body, depth + 2, lp, base + 3), GenBlock(s.body, depth + 2, to, base + 3);
    var hs, hs' := GenHandlers(s.handlers, depth, lp, at, esize), GenHandlers(s.handlers, depth, to, at, esize);
    var els, els' := GenElse(s.els, depth, lp, at + hsize), GenElse(s.els, depth, to, at + hsize);
    var fin, fin' := GenFinally(s.fin, depth, lp, at + hsize + esize), GenFinally(s.fin, depth, to, at + hsize + esize);
    var push, over, enter := EmitJump(PUSH_TRY, at - 3 - base - 3), EmitJump(JUMP, 3 + hsize), EmitJump(ENTER_EXCEPT, hsize + esize);
    var h1 := Holes(s.body, depth + 2, lp.count, base + 3, kind);
    var h2 := HandlerHoles(s.handlers, depth, lp.count, at, kind);
    var h3 := if s.els.None? then [] else Holes(s.els.value, depth + 2, lp.count, at + hsize + 1, kind);
    var h4 := Holes(s.fin, depth + 2, lp.count, at + hsize + esize + 1, kind);
    FillsConcat(els, fin, at + hsize, h3, h4, target, els', fin');
    FillsConcat(hs, els + fin, at, h2, h3 + h4, target, hs', els' + fin');
    var r, r', h := hs + (els + fin), hs' + (els' + fin'), h2 + (h3 + h4);
    FillsAfter(enter, r, at - 3, h, target, r');
    FillsAfter(over, enter + r, at - 6, h, target, enter + r');
    r, r' := over + (enter + r), over + (enter + r');
    FillsConcat(body, r, base + 3, h1, h, target, body', r');
    FillsAfter(push, body + r, base, h1 + h, target, body' + r');
  }

  lemma {:induction false} BareTryFills(s: Stmt, depth: nat, lp: Loop, base: nat, kind: Kind, target: nat)
    requires s.BareTry? && TargetOf(lp, kind).None?
    ensures Fills(GenBareTry(s, depth, lp, base), base, Holes(s, depth, lp.count, base, kind), target,
                  GenBareTry(s, depth, Targeted(lp, kind, target), base))
    decreases s, 0
  {
    hide Fills, GenBlock, BlockSize, EmitJump, GenPops, HandlerHoles, HandlersSize, ElseSize;
    BlockLength(s.body, depth + 2, lp, base + 3);
    BlockFills(s.body, depth + 2, lp, base + 3, kind, target);
    var holes := Holes(s.body, depth + 2, lp.count, base + 3, kind);
    var body, body' := GenBlock(s.body, depth + 2, lp, base + 3), GenBlock(s.body, depth + 2, Targeted(lp, kind, target), base + 3);
    var push, rest := EmitJump(PUSH_TRY, |body| + 3), EmitJump(JUMP, 3) + (EmitJump(ENTER_EXCEPT, 0) + GenPops(2));
    FillsBefore(body, rest, base + 3, holes, target, body');
    FillsAfter(push, body + rest, base, holes, target, body' + rest);
  }

  lemma {:induction false} ElseFills(els: Option<Stmt>, depth: nat, lp: Loop, at: nat, kind: Kind, target: nat)
    requires TargetOf(lp, kind).None?
    ensures Fills(GenElse(els, depth, lp, at), at,
                  if els.None? then [] else Holes(els.value, depth + 2, lp.count, at + 1, kind), target,
                  GenElse(els, depth, Targeted(lp, kind, target), at))
    decreases els, 3
  {
    hide Fills, GenBlock, Emit1, Holes;
    if els.None? {
      Closed([], at, target);
    } else {
      BlockFills(els.value, depth + 2, lp, at + 1, kind, target);
      FillsAfter(Emit1(TRY_ELSE), GenBlock(els.value, depth + 2, lp, at + 1), at,
                 Holes(els.value, depth + 2, lp.count, at + 1, kind), target,
                 GenBlock(els.value, depth + 2, Targeted(lp, kind, target), at + 1));
    }
  }

  lemma {:induction false} FinallyFills(fin: Stmt, depth: nat, lp: Loop, at: nat, kind: Kind, target: nat)
    requires TargetOf(lp, kind).None?
    ensures Fills(GenFinally(fin, depth, lp, at), at, Holes(fin, depth + 2, lp.count, at + 1, kind), target,
                  GenFinally(fin, depth, Targeted(lp, kind, target), at))
    decreases fin, 3
  {
    hide Fills, GenBlock, Emit1, Holes, GenPops;
    BlockFills(fin, depth + 2, lp, at + 1, kind, target);
    var holes := Holes(fin, depth + 2, lp.count, at + 1, kind);
    var block := GenBlock(fin, depth + 2, lp, at + 1);
    var block' := GenBlock(fin, depth + 2, Targeted(lp, kind, target), at + 1);
    var tail := Emit1(END_FINALLY) + GenPops(2);
    FillsBefore(block, tail, at + 1, holes, target, block');
    FillsAfter(Emit1(BEGIN_FINALLY), block + tail, at, holes, target, block' + tail);
  }

  lemma {:induction false} HandlersFill(hs: Handlers, depth: nat, lp: Loop, at: nat, tail: nat, kind: Kind, target: nat)
    requires TargetOf(lp, kind).None?
    ensures Fills(GenHandlers(hs, depth, lp, at, tail), at, HandlerHoles(hs, depth, lp.count, at, kind), target,
                  GenHandlers(hs, depth, Targeted(lp, kind, target), at, tail))
    decreases hs, 0
  {
    hide Fills, GenBlock, BlockSize, EmitJump, Holes, HandlersSize, GenFilter, TargetOf;
    match hs
    case NoHandler => Closed([], at, target);
    case Handler(f, _, body, more) =>
      var to := Targeted(lp, kind, target);
      var size := BlockSize(body, depth + 2, lp.count);
      var at1 := at + |GenFilter(f)| + 3;
      BlockLength(body, depth + 2, lp, at1);
      BlockFills(body, depth + 2, lp, at1, kind, target);
      HandlersFill(more, depth, lp, at1 + size + 3, tail, kind, target);
      var filter := EmitJump(FILTER_EXCEPT, size + 3 + if more.NoHandler? then tail else 0);
      var block, block' := GenBlock(body, depth + 2, lp, at1), GenBlock(body, depth + 2, to, at1);
      var out := EmitJump(JUMP, HandlersSize(more, depth, lp.count) + tail);
      var rest, rest' := GenHandlers(more, depth, lp, at1 + size + 3, tail), GenHandlers(more, depth, to, at1 + size + 3, tail);
      var h1, h2 := Holes(body, depth + 2, lp.count, at1, kind), HandlerHoles(more, depth, lp.count, at1 + size + 3, kind);
      FillsAfter(out, rest, at1 + size, h2, target, rest');
      FillsConcat(block, out + rest, at1, h1, h2, target, block', out + rest');
      var r, r' := block + (out + rest), block' + (out + rest');
      FillsAfter(filter, r, at1 - 3, h1 + h2, target, r');
      FillsAfter(GenFilter(f), filter + r, at, h1 + h2, target, filter + r');
  }

  // ----- the exits of a try -----

  /** The except clauses with the jumps that leave them (`out`) and the last filter's jump (`next`) perhaps open. */
  function GenClauses(hs: Handlers, depth: nat, lp: Loop, at: nat, out: Option<nat>, next: Option<nat>): Text
    decreases hs
  {
    match hs
    case NoHandler => []
    case Handler(f, _, body, more) =>
      var size := BlockSize(body, depth + 2, lp.count);
      var at1 := at + |GenFilter(f)| + 3;
      GenFilter(f) + (EmitJump(FILTER_EXCEPT, if more.NoHandler? then Distance(next, at1 - 3) else size + 3)
      + (GenBlock(body, depth + 2, lp, at1)
      + (EmitJump(JUMP, Distance(out, at1 + size))
      + GenClauses(more, depth, lp, at1 + size + 3, out, next))))
  }

  lemma {:induction false} ClausesClosed(hs: Handlers, depth: nat, lp: Loop, at: nat, tail: nat, target: nat)
    requires target == at + HandlersSize(hs, depth, lp.count) + tail
    ensures GenClauses(hs, depth, lp, at, Some(target), Some(target)) == GenHandlers(hs, depth, lp, at, tail)
    decreases hs
  {
    hide GenBlock, BlockSize, EmitJump, GenExpr, Emit1;
    match hs
    case NoHandler =>
    case Handler(f, _, body, more) =>
      ClausesClosed(more, depth, lp, at + |GenFilter(f)| + 3 + BlockSize(body, depth + 2, lp.count) + 3, tail, target);
  }

  lemma {:induction false} ClausesLength(hs: Handlers, depth: nat, lp: Loop, at: nat, out: Option<nat>, next: Option<nat>)
    ensures |GenClauses(hs, depth, lp, at, out, next)| == HandlersSize(hs, depth, lp.count)
    decreases hs
  {
    hide GenBlock, BlockSize, EmitJump, GenExpr, Emit1;
    match hs
    case NoHandler =>
    case Handler(f, _, body, more) =>
      var at1 := at + |GenFilter(f)| + 3;
      BlockLength(body, depth + 2, lp, at1);
      ClausesLength(more, depth, lp, at1 + BlockSize(body, depth + 2, lp.count) + 3, out, next);
  }

  function OutHoles(hs: Handlers, depth: nat, count: nat, at: nat): seq<nat>
    decreases hs
  {
    match hs
    case NoHandler => []
    case Handler(f, _, body, more) =>
      var end := at + |GenFilter(f)| + 3 + BlockSize(body, depth + 2, count);
      [end + 1] + OutHoles(more, depth, count, end + 3)
  }

  /** Where the last filter's jump keeps its operand. */
  function NextHole(hs: Handlers, depth: nat, count: nat, at: nat): nat
    requires hs.Handler?
    decreases hs
  {
    var at1 := at + |GenFilter(hs.filter)| + 3;
    if hs.more.NoHandler? then at1 - 2
    else NextHole(hs.more, depth, count, at1 + BlockSize(hs.body, depth + 2, count) + 3)
  }

  lemma JumpFills(op: Op, at: nat, target: nat)
    ensures Fills(EmitJump(op, UNPATCHED), at, [at + 1], target, EmitJump(op, target - (at + 3)))
  {
    assert [at + 1][..0] == [];
    assert Patch(EmitJump(op, UNPATCHED), at, at + 1, target - (at + 1) - 2) == EmitJump(op, target - (at + 3));
  }

  lemma {:induction false} OutsFill(hs: Handlers, depth: nat, lp: Loop, at: nat, next: Option<nat>, target: nat)
    ensures Fills(GenClauses(hs, depth, lp, at, None, next), at, OutHoles(hs, depth, lp.count, at), target,
                  GenClauses(hs, depth, lp, at, Some(target), next))
    decreases hs
  {
    hide Fills, GenBlock, BlockSize, EmitJump, GenFilter;
    match hs
    case NoHandler => Closed([], at, target);
    case Handler(f, _, body, more) =>
      var size := BlockSize(body, depth + 2, lp.count);
      var at1 := at + |GenFilter(f)| + 3;
      var end := at1 + size;
      BlockLength(body, depth + 2, lp, at1);
      OutsFill(more, depth, lp, end + 3, next, target);
      JumpFills(JUMP, end, target);
      var filter := EmitJump(FILTER_EXCEPT, if more.NoHandler? then Distance(next, at1 - 3) else size + 3);
      var block := GenBlock(body, depth + 2, lp, at1);
      var holes := OutHoles(hs, depth, lp.count, at);
      var r, r' := GenClauses(more, depth, lp, end + 3, None, next), GenClauses(more, depth, lp, end + 3, Some(target), next);
      FillsConcat(EmitJump(JUMP, UNPATCHED), r, end, [end + 1], OutHoles(more, depth, lp.count, end + 3), target,
                  EmitJump(JUMP, target - (end + 3)), r');
      r, r' := EmitJump(JUMP, UNPATCHED) + r, EmitJump(JUMP, target - (end + 3)) + r';
      FillsAfter(block, r, at1, holes, target, r');
      FillsAfter(filter, block + r, at1 - 3, holes, target, block + r');
      FillsAfter(GenFilter(f), filter + (block + r), at, holes, target, filter + (block + r'));
  }

  lemma {:induction false} NextFills(hs: Handlers, depth: nat, lp: Loop, at: nat, out: Option<nat>, target: nat)
    requires hs.Handler?
    ensures Fills(GenClauses(hs, depth, lp, at, out, None), at, [NextHole(hs, depth, lp.count, at)], target,
                  GenClauses(hs, depth, lp, at, out, Some(target)))
    decreases hs
  {
    hide Fills, GenBlock, BlockSize, EmitJump, GenFilter;
    var size := BlockSize(hs.body, depth + 2, lp.count);
    var at1 := at + |GenFilter(hs.filter)| + 3;
    BlockLength(hs.body, depth + 2, lp, at1);
    var block, leave := GenBlock(hs.body, depth + 2, lp, at1), EmitJump(JUMP, Distance(out, at1 + size));
    var hole := [NextHole(hs, depth, lp.count, at)];
    if hs.more.NoHandler? {
      JumpFills(FILTER_EXCEPT, at1 - 3, target);
      var rest := block + (leave + []);
      FillsBefore(EmitJump(FILTER_EXCEPT, UNPATCHED), rest, at1 - 3, hole, target, EmitJump(FILTER_EXCEPT, target - at1));
      FillsAfter(GenFilter(hs.filter), EmitJump(FILTER_EXCEPT, UNPATCHED) + rest, at, hole, target,
                 EmitJump(FILTER_EXCEPT, target - at1) + rest);
    } else {
      NextFills(hs.more, depth, lp, at1 + size + 3, out, target);
      var r := GenClauses(hs.more, depth, lp, at1 + size + 3, out, None);
      var r' := GenClauses(hs.more, depth, lp, at1 + size + 3, out, Some(target));
      FillsAfter(leave, r, at1 + size, hole, target, r');
      FillsAfter(block, leave + r, at1, hole, target, leave + r');
      var filter := EmitJump(FILTER_EXCEPT, size + 3);
      FillsAfter(filter, block + (leave + r), at1 - 3, hole, target, block + (leave + r'));
      FillsAfter(GenFilter(hs.filter), filter + (block + (leave + r)), at, hole, target, filter + (block + (leave + r')));
    }
  }

  // ----- patching in the order of emission -----

  /** Point every listed jump at `target`, the first one first, as tryStatement does. */
  function PatchForward(piece: Text, base: nat, offs: seq<nat>, target: nat): (c: Text)
    requires HolesIn(piece, base, offs)
    ensures |c| == |piece|
    decreases |offs|
  {
    if offs == [] then piece else PatchForward(Patch(piece, base, offs[0], target - offs[0] - 2), base, offs[1..], target)
  }

  /** The operands do not overlap. */
  ghost predicate Spaced(offs: seq<nat>) {
    forall i, j | 0 <= i < j < |offs| :: offs[i] + 2 <= offs[j]
  }

  lemma {:induction false} PatchFirst(piece: Text, base: nat, offs: seq<nat>, target: nat)
    requires HolesIn(piece, base, offs) && offs != [] && Spaced(offs)
    ensures PatchAll(piece, base, offs, target)
         == PatchAll(Patch(piece, base, offs[0], target - offs[0] - 2), base, offs[1..], target)
    decreases |offs|
  {
    if |offs| > 1 {
      var n := |offs| - 1;
      var first, last := offs[0], offs[n];
      var a, b := Patch(piece, base, first, target - first - 2), Patch(piece, base, last, target - last - 2);
      assert offs[..n][1..] == offs[1..][..n - 1];
      assert Patch(a, base, last, target - last - 2) == Patch(b, base, first, target - first - 2);
      PatchFirst(b, base, offs[..n], target);
    }
  }

  lemma {:induction false} ForwardIsAll(piece: Text, base: nat, offs: seq<nat>, target: nat)
    requires HolesIn(piece, base, offs) && Spaced(offs)
    ensures PatchForward(piece, base, offs, target) == PatchAll(piece, base, offs, target)
    decreases |offs|
  {
    if offs != [] {
      PatchFirst(piece, base, offs, target);
      ForwardIsAll(Patch(piece, base, offs[0], target - offs[0] - 2), base, offs[1..], target);
    }
  }

  lemma {:induction false} OutsSpaced(hs: Handlers, depth: nat, count: nat, at: nat)
    ensures Spaced(OutHoles(hs, depth, count, at))
    ensures forall i | 0 <= i < |OutHoles(hs, depth, count, at)| :: OutHoles(hs, depth, count, at)[i] > at + 2
    decreases hs
  {
    hide GenFilter, BlockSize;
    match hs
    case NoHandler =>
    case Handler(f, _, body, more) =>
      OutsSpaced(more, depth, count, at + |GenFilter(f)| + 3 + BlockSize(body, depth + 2, count) + 3);
  }
}
