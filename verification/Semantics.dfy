/** A big-step meaning for Syntax. Everything outside the compiled function (calls, operators, truth tests,
    iterators) is one oracle over the history of what has been done so far, so equal histories mean the
    same things were evaluated, once each and in the same order. */
module Semantics {
  import opened Options
  import opened Syntax

  datatype Event =
    | Called(callee: Value, args: seq<Value>)
    | Added(left: Value, right: Value)
    | Compared(op: CmpOp, left: Value, right: Value)
    | Contains(container: Value, item: Value)
    | Truth(v: Value)
    | Iterate(v: Value)
    | Next(iter: Value)
    | Loaded(name: nat)

  type Trace = seq<Event>

  datatype Res<+T> = Ok(v: T) | Err(exc: Value)

  datatype World = World(act: (Event, Trace) -> Res<Value>,
                         isInstance: (Value, Value) -> bool,
                         badBool: Value)

  /** The constant table. */
  type Pool = nat -> Value

  /** Values of the locals array by position; None marks an anonymous position. */
  type Env = seq<Option<Value>>

  function Shape(env: Env): (scope: Scope) {
    seq(|env|, i requires 0 <= i < |env| => env[i].Some?)
  }

  /** `not krk_isFalsey(v)`: decided here for the immediate types, by __bool__ or __len__ for the rest. */
  function Truthy(w: World, v: Value, tr: Trace): (Trace, Res<bool>) {
    match v
    case VNone => (tr, Ok(false))
    case VBool(b) => (tr, Ok(b))
    case VInt(n) => (tr, Ok(n != 0))
    case VTuple(es) => (tr, Ok(es != []))
    case _ =>
      (tr + [Truth(v)],
       match w.act(Truth(v), tr)
       case Ok(VBool(b)) => Ok(b)
       case Ok(_) => Err(w.badBool)
       case Err(x) => Err(x))
  }

  /** krk_raiseException: a class is instantiated first; failing to do so raises that failure instead. */
  function Raised(w: World, v: Value, cause: Option<Value>, tr: Trace): (Trace, Value) {
    if v.VClass? then
      var tr1 := tr + [Called(v, [])];
      match w.act(Called(v, []), tr)
      case Err(x) => (tr1, x)
      case Ok(x) => WithCause(w, x, cause, tr1)
    else WithCause(w, v, cause, tr)
  }

  function WithCause(w: World, exc: Value, cause: Option<Value>, tr: Trace): (Trace, Value) {
    if cause.Some? && cause.value.VClass? then
      (tr + [Called(cause.value, [])],
       match w.act(Called(cause.value, []), tr) case Err(x) => x case Ok(_) => exc)
    else (tr, exc)
  }

  /** OP_FILTER_EXCEPT's test. */
  predicate Matches(w: World, filter: Value, exc: Value) {
    match filter
    case VClass(_) => w.isInstance(exc, filter)
    case VTuple(es) => exists i | 0 <= i < |es| :: es[i].VClass? && w.isInstance(exc, es[i])
    case VNone => exc != VNone
    case _ => false
  }

  // ----- expressions -----

  datatype EvalResult = EvalResult(env: Env, tr: Trace, res: Res<Value>)

  function Act(w: World, ev: Event, env: Env, tr: Trace): (r: EvalResult) {
    EvalResult(env, tr + [ev], w.act(ev, tr))
  }

  function Negate(w: World, r: EvalResult): EvalResult {
    if r.res.Err? then r else
    var (tr, b) := Truthy(w, r.res.v, r.tr);
    EvalResult(r.env, tr, match b case Ok(t) => Ok(VBool(!t)) case Err(x) => Err(x))
  }

  function Comparison(w: World, op: CmpOp, a: Value, b: Value, env: Env, tr: Trace): EvalResult {
    match op
    case Is => EvalResult(env, tr, Ok(VBool(a == b)))
    case IsNot => Negate(w, EvalResult(env, tr, Ok(VBool(a == b))))
    case In => Act(w, Contains(b, a), env, tr)
    case NotIn => Negate(w, Act(w, Contains(b, a), env, tr))
    case Ne => Negate(w, Act(w, Compared(Eq, a, b), env, tr))
    case _ => Act(w, Compared(op, a, b), env, tr)
  }

  function EvalExpr(w: World, pool: Pool, e: Expr, env: Env, tr: Trace): EvalResult
    decreases e, 1
  {
    match e
    case Literal(v) => EvalResult(env, tr, Ok(v))
    case Const(i) => EvalResult(env, tr, Ok(pool(i)))
    case Global(i) => Act(w, Loaded(i), env, tr)
    case Local(i) => EvalResult(env, tr, Ok(if i < |env| && env[i].Some? then env[i].value else VNone))
    case Assign(_, _) => EvalAssign(w, pool, e, env, tr)
    case Add(_, _) => EvalAdd(w, pool, e, env, tr)
    case Not(a) => Negate(w, EvalExpr(w, pool, a, env, tr))
    case And(_, _) => EvalShortCircuit(w, pool, e, env, tr)
    case Or(_, _) => EvalShortCircuit(w, pool, e, env, tr)
    case Ternary(_, _, _) => EvalTernary(w, pool, e, env, tr)
    case Compare(_, _) => EvalCompare(w, pool, e, env, tr)
    case Call(_, _) => EvalCall(w, pool, e, env, tr)
  }

  function EvalAssign(w: World, pool: Pool, e: Expr, env: Env, tr: Trace): EvalResult
    requires e.Assign?
    decreases e, 0
  {
    var r := EvalExpr(w, pool, e.rhs, env, tr);
    if r.res.Ok? && e.target < |r.env| then r.(env := r.env[e.target := Some(r.res.v)]) else r
  }

  function EvalAdd(w: World, pool: Pool, e: Expr, env: Env, tr: Trace): EvalResult
    requires e.Add?
    decreases e, 0
  {
    var r := EvalExpr(w, pool, e.left, env, tr);
    if r.res.Err? then r else
    var r2 := EvalExpr(w, pool, e.right, r.env, r.tr);
    if r2.res.Err? then r2 else Act(w, Added(r.res.v, r2.res.v), r2.env, r2.tr)
  }

  /** `and` goes on to its right operand when the left one is true, `or` when it is false. */
  function EvalShortCircuit(w: World, pool: Pool, e: Expr, env: Env, tr: Trace): EvalResult
    requires e.And? || e.Or?
    decreases e, 0
  {
    var r := EvalExpr(w, pool, e.left, env, tr);
    if r.res.Err? then r else
    var (tr1, t) := Truthy(w, r.res.v, r.tr);
    if t.Err? then EvalResult(r.env, tr1, Err(t.exc))
    else if t.v == e.And? then EvalExpr(w, pool, e.right, r.env, tr1)
    else EvalResult(r.env, tr1, r.res)
  }

  function EvalTernary(w: World, pool: Pool, e: Expr, env: Env, tr: Trace): EvalResult
    requires e.Ternary?
    decreases e, 0
  {
    var r := EvalExpr(w, pool, e.cond, env, tr);
    if r.res.Err? then r else
    var (tr1, t) := Truthy(w, r.res.v, r.tr);
    if t.Err? then EvalResult(r.env, tr1, Err(t.exc))
    else EvalExpr(w, pool, if t.v then e.thenValue else e.elseValue, r.env, tr1)
  }

  function EvalCompare(w: World, pool: Pool, e: Expr, env: Env, tr: Trace): EvalResult
    requires e.Compare?
    decreases e, 0
  {
    var r := EvalExpr(w, pool, e.first, env, tr);
    if r.res.Err? then r else EvalLinks(w, pool, e.links, r.res.v, r.env, r.tr)
  }

  function EvalCall(w: World, pool: Pool, e: Expr, env: Env, tr: Trace): EvalResult
    requires e.Call?
    decreases e, 0
  {
    var r := EvalExpr(w, pool, e.callee, env, tr);
    if r.res.Err? then r else EvalArgs(w, pool, e.args, r.res.v, [], r.env, r.tr)
  }

  /** The rest of a chain whose operand so far is `left`: `left op x and (x ...)`, stopping at the first
      false comparison without touching later operands. */
  function EvalLinks(w: World, pool: Pool, links: Links, left: Value, env: Env, tr: Trace): EvalResult
    decreases links, 0
  {
    var r := EvalExpr(w, pool, links.operand, env, tr);
    if r.res.Err? then r else
    var c := Comparison(w, links.op, left, r.res.v, r.env, r.tr);
    if c.res.Err? || links.more.None? then c else
    var (tr1, t) := Truthy(w, c.res.v, c.tr);
    if t.Err? then EvalResult(c.env, tr1, Err(t.exc))
    else if t.v then EvalLinks(w, pool, links.more.value, r.res.v, c.env, tr1)
    else EvalResult(c.env, tr1, c.res)
  }

  function EvalArgs(w: World, pool: Pool, args: Exprs, callee: Value, done: seq<Value>, env: Env, tr: Trace)
    : EvalResult
    decreases args, 0
  {
    match args
    case NoExpr => Act(w, Called(callee, done), env, tr)
    case MoreExpr(e, rest) =>
      var r := EvalExpr(w, pool, e, env, tr);
      if r.res.Err? then r else EvalArgs(w, pool, rest, callee, done + [r.res.v], r.env, r.tr)
  }

  // ----- statements -----

  datatype Completion = Normal | Raises(exc: Value) | Returns(v: Value) | Breaks | Continues

  datatype Outcome = Done(env: Env, tr: Trace, c: Completion) | OutOfFuel

  function Fail(r: EvalResult): Outcome
    requires r.res.Err?
  {
    Done(r.env, r.tr, Raises(r.res.exc))
  }

  /** Leaving a scope forgets the locals declared in it, however it is left. */
  function Leave(o: Outcome, depth: nat): Outcome {
    if o.Done? then o.(env := Clip(o.env, depth)) else o
  }

  function Clip(env: Env, depth: nat): Env {
    if depth <= |env| then env[..depth] else env
  }

  /** `fuel` bounds only how often loops go round; every terminating run has enough of it. */
  function Exec(w: World, pool: Pool, s: Stmt, env: Env, tr: Trace, fuel: nat): Outcome
    decreases fuel, s, 2
  {
    match s
    case Skip => Done(env, tr, Normal)
    case Eval(e) =>
      var r := EvalExpr(w, pool, e, env, tr);
      if r.res.Err? then Fail(r) else Done(r.env, r.tr, Normal)
    case Let(e) =>
      var r := EvalExpr(w, pool, e, env, tr);
      if r.res.Err? then Fail(r) else Done(r.env + [Some(r.res.v)], r.tr, Normal)
    case Return(e) =>
      var r := EvalExpr(w, pool, e, env, tr);
      if r.res.Err? then Fail(r) else Done(r.env, r.tr, Returns(r.res.v))
    case Break => Done(env, tr, Breaks)
    case Continue => Done(env, tr, Continues)
    case Raise(_, _) => ExecRaise(w, pool, s, env, tr)
    case Seq(_, _) => ExecSeq(w, pool, s, env, tr, fuel)
    case If(_, _, _) => ExecIf(w, pool, s, env, tr, fuel)
    case While(_, _, _) => ExecWhile(w, pool, s, env, tr, fuel)
    case For(_, _, _) => ExecFor(w, pool, s, env, tr, fuel)
    case Try(_, _, _, _) => ExecTry(w, pool, s, env, tr, fuel)
    case BareTry(_) => ExecBareTry(w, pool, s, env, tr, fuel)
  }

  function ExecRaise(w: World, pool: Pool, s: Stmt, env: Env, tr: Trace): Outcome
    requires s.Raise?
  {
    var r := EvalExpr(w, pool, s.exc, env, tr);
    if r.res.Err? then Fail(r) else
    if s.cause.None? then
      var (tr1, x) := Raised(w, r.res.v, None, r.tr);
      Done(r.env, tr1, Raises(x))
    else
      var r2 := EvalExpr(w, pool, s.cause.value, r.env, r.tr);
      if r2.res.Err? then Fail(r2) else
      var (tr1, x) := Raised(w, r.res.v, Some(r2.res.v), r2.tr);
      Done(r2.env, tr1, Raises(x))
  }

  function ExecSeq(w: World, pool: Pool, s: Stmt, env: Env, tr: Trace, fuel: nat): Outcome
    requires s.Seq?
    decreases fuel, s, 1
  {
    var o := Exec(w, pool, s.first, env, tr, fuel);
    if o.Done? && o.c == Normal then Exec(w, pool, s.second, o.env, o.tr, fuel) else o
  }

  function ExecIf(w: World, pool: Pool, s: Stmt, env: Env, tr: Trace, fuel: nat): Outcome
    requires s.If?
    decreases fuel, s, 1
  {
    var r := EvalExpr(w, pool, s.cond, env, tr);
    if r.res.Err? then Fail(r) else
    var (tr1, t) := Truthy(w, r.res.v, r.tr);
    if t.Err? then Done(r.env, tr1, Raises(t.exc))
    else if t.v then ExecBlock(w, pool, s.thn, r.env, tr1, fuel)
    else if s.els.Some? then ExecBlock(w, pool, s.els.value, r.env, tr1, fuel)
    else Done(r.env, tr1, Normal)
  }

  function ExecWhile(w: World, pool: Pool, s: Stmt, env: Env, tr: Trace, fuel: nat): Outcome
    requires s.While?
    decreases fuel, s, 1
  {
    var r := EvalExpr(w, pool, s.cond, env, tr);
    if r.res.Err? then Fail(r) else
    var (tr1, t) := Truthy(w, r.res.v, r.tr);
    if t.Err? then Done(r.env, tr1, Raises(t.exc))
    else if !t.v then ExecBlock(w, pool, s.orElse, r.env, tr1, fuel)
    else WhileRound(w, pool, s, r.env, tr1, fuel)
  }

  /** A while loop whose condition has just held. */
  function WhileRound(w: World, pool: Pool, s: Stmt, env: Env, tr: Trace, fuel: nat): Outcome
    requires s.While?
    decreases fuel, s, 0
  {
    var o := ExecBlock(w, pool, s.body, env, tr, fuel);
    if !GoesRound(o) then LeavesLoop(o)
    else if fuel == 0 then OutOfFuel
    else ExecWhile(w, pool, s, o.env, o.tr, fuel - 1)
  }

  /** A loop body that ended normally or with `continue` goes round again. */
  predicate GoesRound(o: Outcome) {
    o.Done? && (o.c == Normal || o.c == Continues)
  }

  /** `break` ends the loop normally; everything else passes through it. */
  function LeavesLoop(o: Outcome): Outcome {
    if o.Done? && o.c == Breaks then o.(c := Normal) else o
  }

  /** The loop variable, None before the first round, is a local of its own; so is the iterator. */
  function ExecFor(w: World, pool: Pool, s: Stmt, env: Env, tr: Trace, fuel: nat): Outcome
    requires s.For?
    decreases fuel, s, 1
  {
    var r := EvalExpr(w, pool, s.iterable, env + [Some(VNone)], tr);
    if r.res.Err? then Leave(Fail(r), |env|) else
    var i := Act(w, Iterate(r.res.v), r.env, r.tr);
    if i.res.Err? then Leave(Fail(i), |env|)
    else Leave(ExecRounds(w, pool, s, i.res.v, i.env + [None], i.tr, fuel), |env|)
  }

  function ExecTry(w: World, pool: Pool, s: Stmt, env: Env, tr: Trace, fuel: nat): Outcome
    requires s.Try?
    decreases fuel, s, 1
  {
    var o := ExecProtected(w, pool, s, env, tr, fuel);
    if o.OutOfFuel? then o else ExecFinally(w, pool, s.fin, o, |env|, fuel)
  }

  /** A try that catches nothing and has nothing to do at its end should be its body, as a scope of its own. */
  function ExecUnguarded(w: World, pool: Pool, s: Stmt, env: Env, tr: Trace, fuel: nat): Outcome
    requires s.BareTry?
    decreases fuel, s, 0
  {
    Leave(ExecBlock(w, pool, s.body, env + [None, None], tr, fuel), |env|)
  }

  /** What it is: whatever its body ended in is dropped. Its handler is entered all the same, and nothing there resumes
      what is pending. */
  function ExecBareTry(w: World, pool: Pool, s: Stmt, env: Env, tr: Trace, fuel: nat): Outcome
    requires s.BareTry?
    decreases fuel, s, 1
  {
    var o := ExecUnguarded(w, pool, s, env, tr, fuel);
    if o.Done? then o.(c := Normal) else o
  }

  /** It is as it should be exactly when its body ends normally, or never. */
  lemma BareTryKeeps(w: World, pool: Pool, s: Stmt, env: Env, tr: Trace, fuel: nat)
    requires s.BareTry?
    ensures var o := ExecUnguarded(w, pool, s, env, tr, fuel);
      Exec(w, pool, s, env, tr, fuel) == o <==> o.OutOfFuel? || o.c == Normal
  {
    hide ExecBlock;
  }

  /** `finally` runs after whatever `o` was; `o`'s completion resumes unless `finally` completes abruptly. */
  function ExecFinally(w: World, pool: Pool, fin: Stmt, o: Outcome, depth: nat, fuel: nat): Outcome
    requires o.Done?
    decreases fuel, fin, 4
  {
    var f := ExecBlock(w, pool, fin, o.env + [None, None], o.tr, fuel);
    if f.OutOfFuel? then f else Leave(if f.c == Normal then f.(c := o.c) else f, depth)
  }

  function ExecBlock(w: World, pool: Pool, s: Stmt, env: Env, tr: Trace, fuel: nat): Outcome
    decreases fuel, s, 3
  {
    Leave(Exec(w, pool, s, env, tr, fuel), |env|)
  }

  /** One arrival at the head of a `for` loop over `it`; the last two locals are the loop variable and the
      iterator. An iterator that returns itself is exhausted. */
  function ExecRounds(w: World, pool: Pool, s: Stmt, it: Value, env: Env, tr: Trace, fuel: nat): Outcome
    requires s.For?
    decreases fuel, s, 0
  {
    var n := Act(w, Next(it), env, tr);
    if n.res.Err? then Fail(n)
    else if n.res.v == it then ExecBlock(w, pool, s.orElse, env, n.tr, fuel)
    else
      var o := ExecBlock(w, pool, s.body, SetLoopVariable(env, n.res.v), n.tr, fuel);
      if !GoesRound(o) then LeavesLoop(o)
      else if fuel == 0 then OutOfFuel
      else ExecRounds(w, pool, s, it, o.env, o.tr, fuel - 1)
  }

  function SetLoopVariable(env: Env, v: Value): Env {
    if |env| < 2 then env else env[|env| - 2 := Some(v)]
  }

  /** The try body with its `except` and `else` parts, before `finally`. */
  function ExecProtected(w: World, pool: Pool, s: Stmt, env: Env, tr: Trace, fuel: nat): Outcome
    requires s.Try?
    decreases fuel, s, 0
  {
    var o := Leave(ExecBlock(w, pool, s.body, env + [None, None], tr, fuel), |env|);
    if o.OutOfFuel? then o
    else if o.c.Raises? then ExecHandlers(w, pool, s.handlers, o.c.exc, o.env, o.tr, fuel)
    else if o.c == Normal && s.els.Some? then
      Leave(ExecBlock(w, pool, s.els.value, o.env + [None, None], o.tr, fuel), |env|)
    else o
  }

  function ExecHandlers(w: World, pool: Pool, hs: Handlers, exc: Value, env: Env, tr: Trace, fuel: nat): Outcome
    decreases fuel, hs, 0
  {
    match hs
    case NoHandler => Done(env, tr, Raises(exc))
    case Handler(f, named, body, more) =>
      var r := EvalFilter(w, pool, f, env + [None, None], tr);
      if r.res.Err? then Leave(Fail(r), |env|)
      else
        var outer := Clip(r.env, |env|);
        if Matches(w, r.res.v, exc) then
          Leave(ExecBlock(w, pool, body, outer + [if named then Some(exc) else None, None], r.tr, fuel), |env|)
        else ExecHandlers(w, pool, more, exc, outer, r.tr, fuel)
  }

  /** A bare `except` filters by None. */
  function EvalFilter(w: World, pool: Pool, f: Option<Expr>, env: Env, tr: Trace): EvalResult {
    if f.None? then EvalResult(env, tr, Ok(VNone)) else EvalExpr(w, pool, f.value, env, tr)
  }
}
