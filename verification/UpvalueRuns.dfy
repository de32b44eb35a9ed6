/** Whole runs of captures, writes, scope exits, suspensions and resumptions: every read is of the last write. */
module UpvalueRuns {
  import opened Sorting
  import opened Upvalues
  import opened UpvalueSteps

  /** One step. A started generator's yield gives what it was sent: that is the top of its saved stack, replaced. */
  ghost function Next<V>(s: State<V>, step: Step<V>): State<V>
    requires Ok(s) && Enabled(s, step)
  {
    match step
    case Assign(slot, value) => AssignStep(s, slot, value)
    case Declare(name, value) => DeclareStep(s, name, value)
    case Write(cell, value) => Written(s, cell, value)
    case Capture(slot, cell) => CaptureStep(s, slot, cell)
    case CaptureNone(name, cell, value) => CaptureNoneStep(s, name, cell, value)
    case Leave(last) => LeaveStep(s, last)
    case Build(g, names, values) => BuildStep(s, g, names, values)
    case Resume(g, started, sent) => ResumeStep(s, g, started, sent)
    case Suspend(g, base) => SuspendStep(s, g, base)
    case Discard(g) => DiscardStep(s, g)
  }

  function ResumeStep<V>(s: State<V>, g: GenId, started: bool, sent: V): State<V>
    requires Ok(s) && g in s.generators && (started ==> s.generators[g].args != [])
  {
    WakeOk(s, g);
    var t := WakeStep(s, g);
    if started then AssignStep(t, |t.stack| - 1, sent) else t
  }

  lemma NextOk<V>(s: State<V>, step: Step<V>)
    requires Ok(s) && Enabled(s, step)
    ensures Ok(Next(s, step))
  {
    match step
    case Assign(slot, value) => AssignOk(s, slot, value);
    case Declare(name, value) => DeclareOk(s, name, value);
    case Write(cell, value) => WriteOk(s, cell, value);
    case Capture(slot, cell) => CaptureOk(s, slot, cell);
    case CaptureNone(name, cell, value) => CaptureNoneOk(s, name, cell, value);
    case Leave(last) => LeaveOk(s, last);
    case Build(g, names, values) => BuildOk(s, g, names, values);
    case Resume(g, started, sent) => ResumeOk(s, g, started, sent);
    case Suspend(g, base) => SuspendOk(s, g, base);
    case Discard(g) => DiscardOk(s, g);
  }

  lemma ResumeOk<V>(s: State<V>, g: GenId, started: bool, sent: V)
    requires Ok(s) && g in s.generators && (started ==> s.generators[g].args != [])
    ensures Ok(ResumeStep(s, g, started, sent))
  {
    hide Ok, WakeStep, AssignStep;
    WakeOk(s, g);
    var t := WakeStep(s, g);
    if started {
      WokenTop(s, g);
      AssignOk(t, |t.stack| - 1, sent);
    }
  }

  // ----- what a run has written -----

  type History<V> = seq<(Variable, V)>

  /** The writes of one step, in order. */
  ghost function Writes<V>(s: State<V>, step: Step<V>): History<V>
    requires Ok(s) && Enabled(s, step)
  {
    match step
    case Assign(slot, value) => SlotVar(s, slot); [(s.slots[slot], value)]
    case Declare(name, value) => [(name, value)]
    case Write(cell, value) => ReadsLast(s, cell); [(s.cellVar[cell], value)]
    case CaptureNone(name, _, value) => [(name, value)]
    case Build(_, names, values) => seq(|names|, i requires 0 <= i < |names| => (names[i], values[i]))
    case Resume(g, true, sent) => [(TopOf(s, g), sent)]
    case Capture(_, _) => []
    case Leave(_) => []
    case Resume(_, false, _) => []
    case Suspend(_, _) => []
    case Discard(_) => []
  }

  function TopOf<V>(s: State<V>, g: GenId): Variable
    requires Ok(s) && g in s.generators && s.generators[g].args != []
  {
    s.kept[g][|s.kept[g]| - 1]
  }

  datatype Found<V> = Never | Last(value: V)

  /** The last value a history gives a variable. */
  function LastWrite<V>(history: History<V>, x: Variable): Found<V> {
    if history == [] then Never else
      var last := history[|history| - 1];
      if last.0 == x then Last(last.1) else LastWrite(history[..|history| - 1], x)
  }

  lemma {:induction false} LastOfBoth<V>(a: History<V>, b: History<V>, x: Variable)
    ensures LastWrite(a + b, x) == if LastWrite(b, x) == Never then LastWrite(a, x) else LastWrite(b, x)
    decreases |b|
  {
    if b == [] {
      assert a + b == a;
    } else {
      assert (a + b)[..|a + b| - 1] == a + b[..|b| - 1];
      LastOfBoth(a, b[..|b| - 1], x);
    }
  }

  /** The store is the history's. */
  ghost predicate Records<V>(history: History<V>, store: map<Variable, V>) {
    forall x :: LastWrite(history, x) == if x in store then Last(store[x]) else Never
  }

  lemma RecordOne<V>(history: History<V>, store: map<Variable, V>, x: Variable, v: V)
    requires Records(history, store)
    ensures Records(history + [(x, v)], store[x := v])
  {
    forall y ensures LastWrite(history + [(x, v)], y) == if y in store[x := v] then Last(store[x := v][y]) else Never {
      assert (history + [(x, v)])[..|history|] == history;
    }
  }

  lemma {:induction false} RecordGiven<V>(history: History<V>, store: map<Variable, V>, names: seq<Variable>, values: seq<V>)
    requires Records(history, store) && |names| == |values|
    ensures Records(history + seq(|names|, i requires 0 <= i < |names| => (names[i], values[i])), Given(store, names, values))
    decreases |names|
  {
    var all := seq(|names|, i requires 0 <= i < |names| => (names[i], values[i]));
    if names == [] {
      assert history + all == history;
    } else {
      var n := |names| - 1;
      var less := seq(n, i requires 0 <= i < n => (names[..n][i], values[..n][i]));
      RecordGiven(history, store, names[..n], values[..n]);
      RecordOne(history + less, Given(store, names[..n], values[..n]), names[n], values[n]);
      assert history + all == history + less + [(names[n], values[n])];
    }
  }

  lemma NextRecords<V>(s: State<V>, step: Step<V>, history: History<V>)
    requires Ok(s) && Enabled(s, step) && Records(history, s.store)
    ensures Records(history + Writes(s, step), Next(s, step).store)
  {
    hide Ok, Records;
    match step
    case Assign(slot, value) =>
      SlotVar(s, slot);
      RecordOne(history, s.store, s.slots[slot], value);
    case Declare(name, value) => RecordOne(history, s.store, name, value);
    case Write(cell, value) =>
      ReadsLast(s, cell);
      RecordOne(history, s.store, s.cellVar[cell], value);
    case CaptureNone(name, _, value) => RecordOne(history, s.store, name, value);
    case Build(_, names, values) => RecordGiven(history, s.store, names, values);
    case Resume(g, true, sent) =>
      WokenTop(s, g);
      RecordOne(history, s.store, TopOf(s, g), sent);
    case _ => assert history + [] == history;
  }

  lemma WokenTop<V>(s: State<V>, g: GenId)
    requires Ok(s) && g in s.generators && s.generators[g].args != []
    ensures var t := WakeStep(s, g); |t.stack| == |t.slots| > 0 && t.slots[|t.slots| - 1] == TopOf(s, g) && t.store == s.store
  {
    hide Placed, Listed, CellsOk, OneCell;
  }

  // ----- runs -----

  ghost predicate Runs<V>(s: State<V>, steps: seq<Step<V>>)
    requires Ok(s)
    decreases |steps|
  {
    steps != [] ==> Enabled(s, steps[0]) && (NextOk(s, steps[0]); Runs(Next(s, steps[0]), steps[1..]))
  }

  ghost function Run<V>(s: State<V>, steps: seq<Step<V>>): (t: State<V>)
    requires Ok(s) && Runs(s, steps)
    ensures Ok(t)
    decreases |steps|
  {
    if steps == [] then s else NextOk(s, steps[0]); Run(Next(s, steps[0]), steps[1..])
  }

  ghost function AllWrites<V>(s: State<V>, steps: seq<Step<V>>): History<V>
    requires Ok(s) && Runs(s, steps)
    decreases |steps|
  {
    if steps == [] then [] else NextOk(s, steps[0]); Writes(s, steps[0]) + AllWrites(Next(s, steps[0]), steps[1..])
  }

  function Start<V>(): (s: State<V>)
    ensures Ok(s)
  {
    State([], [], map[], map[], [], map[], map[], map[])
  }

  lemma {:induction false} RunRecords<V>(s: State<V>, steps: seq<Step<V>>, history: History<V>)
    requires Ok(s) && Runs(s, steps) && Records(history, s.store)
    ensures Records(history + AllWrites(s, steps), Run(s, steps).store)
    decreases |steps|
  {
    hide Ok, Enabled, Next, Writes, Records;
    if steps == [] {
      assert history + [] == history;
    } else {
      NextOk(s, steps[0]);
      NextRecords(s, steps[0], history);
      RunRecords(Next(s, steps[0]), steps[1..], history + Writes(s, steps[0]));
      assert history + Writes(s, steps[0]) + AllWrites(Next(s, steps[0]), steps[1..]) == history + AllWrites(s, steps);
    }
  }

  /** After any run, a read through any cell, wherever its variable lives by then, gives the last value any write gave
      that variable; and there is one cell to a variable, so all closures over it read the same one. */
  lemma EveryReadIsOfTheLastWrite<V>(steps: seq<Step<V>>, c: CellId)
    requires Runs(Start<V>(), steps) && c in Run(Start<V>(), steps).cells
    ensures c in Run(Start<V>(), steps).cellVar
    ensures var t := Run(Start<V>(), steps);
            && LastWrite(AllWrites(Start(), steps), t.cellVar[c]) == Last(Read(t, c))
            && forall d | d in t.cellVar && t.cellVar[d] == t.cellVar[c] :: d == c
  {
    var t := Run(Start<V>(), steps);
    RunRecords(Start<V>(), steps, []);
    assert [] + AllWrites(Start(), steps) == AllWrites(Start(), steps);
    ReadsLast(t, c);
    Parts(t);
    hide Ok;
  }

  // ----- entering an exception handler -----

  /** handleException, OP_RETURN and OP_EXIT_LOOP at a handler at position `at`: what is there and above is closed and
      dropped, the slot below is given what is to resume, and a new handler is pushed. */
  ghost function ToHandler<V>(s: State<V>, at: nat, saved: V, name: Variable, handler: V): (t: State<V>)
    requires Ok(s) && 0 < at < |s.stack| && name !in s.store
    ensures Ok(t)
  {
    hide Ok, LeaveStep;
    LeaveOk(s, at);
    LeaveKeeps(s, at);
    var left := LeaveStep(s, at);
    AssignOk(left, at - 1, saved);
    DeclareOk(AssignStep(left, at - 1, saved), name, handler);
    DeclareStep(AssignStep(left, at - 1, saved), name, handler)
  }

  lemma LeaveKeeps<V>(s: State<V>, last: nat)
    requires Ok(s) && last <= |s.stack|
    ensures var t := LeaveStep(s, last);
      && |s.stack| == |s.slots| && |t.stack| == last && t.slots == s.slots[..last] && t.store == s.store && t.cellVar == s.cellVar
      && t.cells.Keys == s.cells.Keys && (last > 0 ==> s.slots[last - 1] in s.store)
  {
    AllOpen(s);
  }

  /** The slot below a try's handler is its `as` variable while an `except` block runs, and no cell over it is closed
      here. So a closure over the caught exception reads, from then on, what the block left with; every other closure
      reads what it read before. */
  lemma CaughtOverwritten<V>(s: State<V>, at: nat, saved: V, name: Variable, handler: V, c: CellId)
    requires Ok(s) && 0 < at < |s.stack| == |s.slots| && name !in s.store && c in s.cells
    ensures c in s.cellVar && c in ToHandler(s, at, saved, name, handler).cells
    ensures var t := ToHandler(s, at, saved, name, handler);
      && Read(t, c) == (if s.cellVar[c] == s.slots[at - 1] then saved else Read(s, c))
      && (Read(t, c) == Read(s, c) <==> s.cellVar[c] != s.slots[at - 1] || saved == Read(s, c))
  {
    hide Ok, LeaveStep, Read;
    LeaveOk(s, at);
    LeaveKeeps(s, at);
    ReadsLast(s, c);
    ReadsLast(ToHandler(s, at, saved, name, handler), c);
  }

  /** `except ... as e: return` with a closure over `e`: the exception is 7, what is returned 9. */
  lemma CaughtOverwrittenOccurs()
    ensures var s := State([7, 5], [0], map[0 := Upvalue(0, Running, 7)], map[], [0, 1], map[], map[0 := 0], map[0 := 7, 1 := 5]);
      && Ok(s) && Read(s, 0) == 7
      && 0 in ToHandler(s, 1, 9, 2, 6).cells && Read(ToHandler(s, 1, 9, 2, 6), 0) == 9
  {
    var s := State([7, 5], [0], map[0 := Upvalue(0, Running, 7)], map[], [0, 1], map[], map[0 := 0], map[0 := 7, 1 := 5]);
    assert Ok(s);
    CaughtOverwritten(s, 1, 9, 2, 6, 0);
  }

  // ----- capture and suspension -----

  /** The cell a capture gives is the one cell of the slot's variable: an older one if there is any. */
  lemma CaptureGives<V>(s: State<V>, slot: nat, cell: CellId)
    requires Ok(s) && slot < |s.stack| && cell !in s.cells && slot < |s.slots|
    ensures forall c | c in s.cells && c in s.cellVar && s.cellVar[c] == s.slots[slot] ::
              Captured(s, slot) && CellAt(s, slot) < |s.open| && s.open[CellAt(s, slot)] == c
    ensures !Captured(s, slot) ==> cell in CaptureStep(s, slot, cell).cellVar && CaptureStep(s, slot, cell).cellVar[cell] == s.slots[slot]
  {
    Parts(s);
    AllOpen(s);
    var k := CellAt(s, slot);
    CutAt(s.cells, s.open, slot + 1);
    if Captured(s, slot) {
      assert s.cellVar[s.open[k]] == s.slots[slot];
    } else {
      hide Ok;
      NotYet(s, slot, k);
    }
  }

  /** A generator that suspends and is woken at the same height is back as it was: cells, their order, and the stack. */
  lemma SuspendThenWake<V>(s: State<V>, g: GenId, base: nat)
    requires Ok(s) && base <= |s.stack| && g !in s.generators
    ensures Ok(SuspendStep(s, g, base)) && g in SuspendStep(s, g, base).generators
    ensures WakeStep(SuspendStep(s, g, base), g) == s
  {
    hide Ok, Placed, Stored, Listed, CellsOk, OneCell, SuspendStep, CutWhere, Moved, Reversed;
    var t := SuspendStep(s, g, base);
    SuspendOk(s, g, base);
    var k := SuspendIs(s, g, base);
    Parts(s);
    OpenRunning(s);
    var list := s.open[..k];
    assert list + s.open[k..] == s.open;
    MovedBack(s.cells, list, base, g, |t.stack|);
    ReversedTwice(list);
    KeptKeys(s);
    assert s.generators[g := t.generators[g]] - {g} == s.generators;
    assert s.kept[g := t.kept[g]] - {g} == s.kept;
    assert s.stack[..base] + s.stack[base..] == s.stack;
    assert s.slots[..base] + s.slots[base..] == s.slots;
  }

  lemma KeptKeys<V>(s: State<V>)
    requires Stored(s)
    ensures s.kept.Keys == s.generators.Keys
  {
  }

  lemma MovedBack<V>(cells: map<CellId, Upvalue<V>>, list: seq<CellId>, base: nat, g: GenId, height: nat)
    requires height == base && forall c | c in list :: c in cells && cells[c].owner == Running
    ensures Moved(Moved(cells, list, 0 - base, Sleeping(g)), Reversed(list), height, Running) == cells
  {
    var there := Moved(cells, list, 0 - base, Sleeping(g));
    var back := Moved(there, Reversed(list), height, Running);
    forall c | c in cells ensures c in back && back[c] == cells[c] {
      SameMembers(list, c);
    }
  }

  lemma SameMembers(list: seq<CellId>, c: CellId)
    ensures c in Reversed(list) <==> c in list
  {
    if c in list {
      var i :| 0 <= i < |list| && list[i] == c;
      assert Reversed(list)[|list| - 1 - i] == c;
    }
  }
}
