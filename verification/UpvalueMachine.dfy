/** The running thread: captureUpvalue, closeUpvalues and a generator's call, as they relink cells one at a time. */
module UpvalueMachine {
  import opened Sorting
  import opened Upvalues
  import opened UpvalueSteps
  import opened UpvalueRuns

  class Machine<V(0,==)> {
    var stack: seq<V>
    /** The list headed by openUpvalues, first to last. */
    var open: seq<CellId>
    var cells: map<CellId, Upvalue<V>>
    var generators: map<GenId, Generator<V>>
    /** Cells made so far. */
    var made: nat
    ghost var slots: seq<Variable>
    ghost var kept: map<GenId, seq<Variable>>
    ghost var cellVar: map<CellId, Variable>
    ghost var store: map<Variable, V>

    ghost function Now(): State<V>
      reads this
    {
      State(stack, open, cells, generators, slots, kept, cellVar, store)
    }

    ghost predicate Valid()
      reads this
    {
      Ok(Now()) && forall c | c in cells :: c < made
    }

    constructor ()
      ensures Valid() && Now() == Start()
    {
      stack, open, cells, generators, made := [], [], map[], map[], 0;
      slots, kept, cellVar, store := [], map[], map[], map[];
    }

    method GetUpvalue(c: CellId) returns (v: V)
      requires Valid() && c in cells
      ensures v == Read(Now(), c) && c in cellVar && cellVar[c] in store && v == store[cellVar[c]]
    {
      ReadsLast(Now(), c);
      var u := cells[c];
      if u.location == -1 {
        v := u.closed;
      } else {
        CellThere(Now(), c);
        match u.owner
        case Running => v := stack[u.location];
        case Sleeping(g) => v := generators[g].args[u.location];
      }
    }

    method SetUpvalue(c: CellId, v: V)
      requires Valid() && c in cells
      modifies this
      ensures Valid() && Now() == Written(old(Now()), c, v) && made == old(made)
    {
      hide Ok;
      WriteOk(Now(), c, v);
      ReadsLast(Now(), c);
      var u := cells[c];
      if u.location == -1 {
        cells := cells[c := u.(closed := v)];
      } else {
        CellThere(Now(), c);
        match u.owner
        case Running => stack := stack[u.location := v];
        case Sleeping(g) => generators := generators[g := generators[g].(args := generators[g].args[u.location := v])];
      }
      store := store[cellVar[c] := v];
    }

    method CaptureUpvalue(slot: nat) returns (c: CellId)
      requires Valid() && slot < |stack|
      modifies this
      ensures Valid() && Now() == CaptureStep(old(Now()), slot, old(made))
      ensures |stack| == |slots| && c in cells && c in cellVar && cellVar[c] == slots[slot]
    {
      hide Ok, Above, Pointing, Descending;
      ghost var was := Now();
      AllOpen(was);
      SlotVar(was, slot);
      CaptureOk(was, slot, made);
      var k := 0;
      while k < |open| && cells[open[k]].location > slot
        invariant k <= |open| && Now() == was && made == old(made)
        invariant forall i | 0 <= i < k :: cells[open[i]].location >= slot + 1
      {
        k := k + 1;
      }
      CutHere(cells, open, slot + 1, k);
      OpenVar(was, k);
      if k < |open| && cells[open[k]].location == slot {
        return open[k];
      }
      c := made;
      cells := cells[c := Upvalue(slot, Running, stack[slot])];
      cellVar := cellVar[c := slots[slot]];
      open := open[..k] + [c] + open[k..];
      made := made + 1;
    }

    /** The stack comes down to `last`, the cells at or above it closed first. */
    method LeaveScope(last: nat)
      requires Valid() && last <= |stack|
      modifies this
      ensures Valid() && Now() == LeaveStep(old(Now()), last)
    {
      hide Ok, Closed;
      ghost var was := Now();
      LeaveOk(was, last);
      AllOpen(was);
      ghost var k := CloseUpvalues(last);
      stack, slots := stack[..last], slots[..last];
    }

    method CloseUpvalues(last: nat) returns (ghost k: nat)
      requires Valid() && last <= |stack|
      modifies this`open, this`cells
      ensures forall i | 0 <= i < |old(open)| :: old(open)[i] in old(cells)
      ensures k == Above(old(cells), old(open), last) && k <= |old(open)|
      ensures open == old(open)[k..] && cells == Closed(old(cells), old(open)[..k], stack)
    {
      hide Ok, Closed;
      ghost var was := Now();
      AllOpen(was);
      k := 0;
      NoneClosed(cells, stack);
      assert open[..0] == [];
      while open != [] && cells[open[0]].location >= last
        invariant k <= |was.open| && open == was.open[k..] && cells == Closed(was.cells, was.open[..k], stack)
        invariant forall i | 0 <= i < k :: was.cells[was.open[i]].location >= last
        invariant forall i | k <= i < |was.open| :: cells[was.open[i]] == was.cells[was.open[i]]
        decreases |open|
      {
        var c := open[0];
        assert c == was.open[k];
        Once(was, k);
        CloseNext(was.cells, was.open, k, stack);
        cells := cells[c := cells[c].(closed := stack[cells[c].location])];
        cells := cells[c := cells[c].(location := -1)];
        open := open[1..];
        k := k + 1;
      }
      CutHere(was.cells, was.open, last, k);
    }

    method BuildGenerator(g: GenId, args: seq<V>, ghost names: seq<Variable>)
      requires Valid() && g !in generators && |names| == |args| && Fresh(Now(), names)
      modifies this
      ensures Valid() && Now() == BuildStep(old(Now()), g, names, args)
    {
      hide Ok;
      BuildOk(Now(), g, names, args);
      generators := generators[g := Generator(args, [])];
      kept := kept[g := names];
      store := Given(store, names, args);
    }

    /** The entry of a generator's call: the generator wakes, and what it was sent takes the place of what it yielded. */
    method Resume(g: GenId, started: bool, sent: V)
      requires Valid() && g in generators && (started ==> generators[g].args != [])
      modifies this
      ensures Valid() && Now() == ResumeStep(old(Now()), g, started, sent)
    {
      hide Ok;
      ghost var was := Now();
      ResumeOk(was, g, started, sent);
      Wake(g);
      if started {
        hide WakeStep;
        WokenTop(was, g);
        SlotVar(Now(), |stack| - 1);
        store := store[slots[|stack| - 1] := sent];
        ghost var full := stack;
        stack := stack[..|stack| - 1];
        stack := stack + [sent];
        assert stack == full[|full| - 1 := sent];
      }
    }

    /** A generator's stack and its cells go back to the thread. */
    method Wake(g: GenId)
      requires Valid() && g in generators
      modifies this
      ensures Valid() && Now() == WakeStep(old(Now()), g)
    {
      hide Ok, Moved, Reversed;
      ghost var was := Now();
      WakeOk(was, g);
      KeptOf(was, g);
      SavedOnce(was, g);
      var base := |stack|;
      var args := generators[g].args;
      var i := 0;
      while i < |args|
        invariant i <= |args| && Now() == was.(stack := was.stack + args[..i]) && made == old(made)
      {
        stack := stack + [args[i]];
        i := i + 1;
      }
      TakeBack(generators[g].captured, base);
      slots := slots + kept[g];
      generators, kept := generators - {g}, kept - {g};
      assert Now() == WakeStep(was, g);
    }

    /** Point a generator's cells back at the thread's stack, each going on the front of the open list. */
    method TakeBack(list: seq<CellId>, base: nat)
      requires forall i | 0 <= i < |list| :: list[i] in cells
      requires forall i, j | 0 <= i < j < |list| :: list[i] != list[j]
      modifies this`open, this`cells
      ensures open == Reversed(list) + old(open) && cells == Moved(old(cells), list, base, Running)
    {
      hide Moved, Reversed;
      var captured := list;
      ghost var k := 0;
      NoneMoved(cells, base, Running);
      assert Reversed(list[..0]) == [];
      while captured != []
        invariant k <= |list| && captured == list[k..] && open == Reversed(list[..k]) + old(open)
        invariant cells == Moved(old(cells), list[..k], base, Running)
        invariant forall i | k <= i < |list| :: cells[list[i]] == old(cells)[list[i]]
        decreases |captured|
      {
        var c := captured[0];
        assert c == list[k];
        MoveNext(old(cells), list, k, base, Running);
        TurnNext(list, k);
        cells := cells[c := cells[c].(owner := Running)];
        cells := cells[c := cells[c].(location := cells[c].location + base)];
        captured := captured[1..];
        open := [c] + open;
        k := k + 1;
      }
      assert list[..k] == list;
    }

    /** The exit of a generator's call that yielded: what is above `base` is saved, cells and all. */
    method Suspend(g: GenId, base: nat)
      requires Valid() && g !in generators && base <= |stack|
      modifies this
      ensures Valid() && Now() == SuspendStep(old(Now()), g, base)
    {
      hide Ok, Moved, Reversed;
      ghost var was := Now();
      SuspendOk(was, g, base);
      AllOpen(was);
      var captured := HandOver(g, base);
      generators := generators[g := Generator(stack[base..], captured)];
      kept := kept[g := slots[base..]];
      stack, slots := stack[..base], slots[..base];
      assert Now() == SuspendStep(was, g, base);
    }

    /** Redirect the open cells at or above `base` to a generator's saved stack. */
    method HandOver(g: GenId, base: nat) returns (captured: seq<CellId>)
      requires Valid() && base <= |stack|
      modifies this`open, this`cells
      ensures forall i | 0 <= i < |old(open)| :: old(open)[i] in old(cells)
      ensures Above(old(cells), old(open), base) <= |old(open)|
      ensures open == old(open)[Above(old(cells), old(open), base)..]
      ensures captured == Reversed(old(open)[..Above(old(cells), old(open), base)])
      ensures cells == Moved(old(cells), old(open)[..Above(old(cells), old(open), base)], 0 - base, Sleeping(g))
    {
      hide Ok, Moved, Reversed;
      ghost var was := Now();
      AllOpen(was);
      captured := [];
      ghost var k := 0;
      NoneMoved(cells, 0 - base, Sleeping(g));
      assert Reversed(was.open[..0]) == [];
      while open != [] && cells[open[0]].location >= base
        invariant k <= |was.open| && captured == Reversed(was.open[..k])
        invariant open == was.open[k..] && cells == Moved(was.cells, was.open[..k], 0 - base, Sleeping(g))
        invariant forall i | 0 <= i < k :: was.cells[was.open[i]].location >= base
        invariant forall i | k <= i < |was.open| :: cells[was.open[i]] == was.cells[was.open[i]]
        decreases |open|
      {
        var c := open[0];
        assert c == was.open[k];
        Once(was, k);
        MoveNext(was.cells, was.open, k, 0 - base, Sleeping(g));
        TurnNext(was.open, k);
        cells := cells[c := cells[c].(location := cells[c].location - base)];
        cells := cells[c := cells[c].(owner := Sleeping(g))];
        open := open[1..];
        captured := [c] + captured;
        k := k + 1;
      }
      CutHere(was.cells, was.open, base, k);
    }

    /** A generator is swept, or raises before it wakes: its cells close over its saved stack. */
    method Discard(g: GenId)
      requires Valid() && g in generators
      modifies this
      ensures Valid() && Now() == DiscardStep(old(Now()), g)
    {
      hide Ok, Closed;
      ghost var was := Now();
      DiscardOk(was, g);
      var gen := generators[g];
      var captured := gen.captured;
      ghost var list, k := captured, 0;
      NoneClosed(cells, gen.args);
      SavedOnce(was, g);
      while captured != []
        invariant k <= |list| && captured == list[k..] && made == old(made)
        invariant Now() == was.(cells := Closed(was.cells, list[..k], gen.args))
        invariant forall i | k <= i < |list| :: list[i] in cells && list[i] in was.cells && cells[list[i]] == was.cells[list[i]]
        decreases |captured|
      {
        var c := captured[0];
        assert c == list[k];
        CloseNext(was.cells, list, k, gen.args);
        cells := cells[c := cells[c].(closed := gen.args[cells[c].location])];
        cells := cells[c := cells[c].(location := -1)];
        captured := captured[1..];
        k := k + 1;
      }
      assert list[..k] == list;
      generators, kept := generators - {g}, kept - {g};
    }
  }

  /** A walk that stops where Above does. */
  lemma CutHere<V>(cells: map<CellId, Upvalue<V>>, list: seq<CellId>, slot: int, k: nat)
    requires k <= |list| && (forall i | 0 <= i < |list| :: list[i] in cells)
    requires forall i | 0 <= i < k :: cells[list[i]].location >= slot
    requires k < |list| ==> cells[list[k]].location < slot
    ensures k == Above(cells, list, slot)
  {
  }

  lemma OpenVar<V>(s: State<V>, k: nat)
    requires Ok(s)
    ensures k < |s.open| ==>
      && s.open[k] in s.cells && s.open[k] in s.cellVar && 0 <= s.cells[s.open[k]].location < |s.slots|
      && s.cellVar[s.open[k]] == s.slots[s.cells[s.open[k]].location]
  {
  }

  lemma NoneClosed<V>(cells: map<CellId, Upvalue<V>>, values: seq<V>)
    ensures Closed(cells, [], values) == cells
  {
  }

  lemma Once<V>(s: State<V>, k: nat)
    requires Ok(s) && k < |s.open|
    ensures s.open[k] in s.cells && 0 <= s.cells[s.open[k]].location < |s.stack| == |s.slots|
    ensures forall i | 0 <= i < |s.open| && i != k :: s.open[i] != s.open[k]
  {
  }

  lemma CloseNext<V>(cells: map<CellId, Upvalue<V>>, list: seq<CellId>, k: nat, values: seq<V>)
    requires k < |list| && list[k] in cells && 0 <= cells[list[k]].location < |values|
    ensures Closed(cells, list[..k + 1], values)
         == Closed(cells, list[..k], values)[list[k] := cells[list[k]].(location := -1, closed := values[cells[list[k]].location])]
  {
    assert list[..k + 1] == list[..k] + [list[k]];
  }

  lemma KeptOf<V>(s: State<V>, g: GenId)
    requires Ok(s) && g in s.generators
    ensures g in s.kept && |s.kept[g]| == |s.generators[g].args| && |s.slots| == |s.stack|
  {
  }

  lemma SavedOnce<V>(s: State<V>, g: GenId)
    requires Ok(s) && g in s.generators
    ensures forall i | 0 <= i < |s.generators[g].captured| ::
              && s.generators[g].captured[i] in s.cells
              && s.cells[s.generators[g].captured[i]].owner == Sleeping(g)
              && 0 <= s.cells[s.generators[g].captured[i]].location < |s.generators[g].args|
    ensures forall i, j | 0 <= i < j < |s.generators[g].captured| :: s.generators[g].captured[i] != s.generators[g].captured[j]
  {
    var list := s.generators[g].captured;
    var back := Reversed(list);
    forall i, j | 0 <= i < j < |list|
      ensures list[i] != list[j]
    {
      assert s.cells[back[|list| - 1 - j]].location > s.cells[back[|list| - 1 - i]].location;
    }
  }

  lemma NoneMoved<V>(cells: map<CellId, Upvalue<V>>, shift: int, owner: Owner)
    ensures Moved(cells, [], shift, owner) == cells
  {
  }

  lemma MoveNext<V>(cells: map<CellId, Upvalue<V>>, list: seq<CellId>, k: nat, shift: int, owner: Owner)
    requires k < |list| && list[k] in cells
    ensures Moved(cells, list[..k + 1], shift, owner)
         == Moved(cells, list[..k], shift, owner)[list[k] := cells[list[k]].(location := cells[list[k]].location + shift, owner := owner)]
  {
    assert list[..k + 1] == list[..k] + [list[k]];
  }

  lemma TurnNext(list: seq<CellId>, k: nat)
    requires k < |list|
    ensures Reversed(list[..k + 1]) == [list[k]] + Reversed(list[..k])
  {
  }
}
