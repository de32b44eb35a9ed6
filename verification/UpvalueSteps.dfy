/** What happens to closure cells when a variable is captured, a scope ends, or a generator suspends, resumes or dies;
    and that over any run a read through a cell gives what was last written to its variable. */
module UpvalueSteps {
  import opened Sorting
  import opened Upvalues

  // ----- moving cells -----

  /** How many cells of a falling list are at or above a slot: the loops of closeUpvalues and of a suspension stop there. */
  function Above<V>(cells: map<CellId, Upvalue<V>>, list: seq<CellId>, slot: int): (k: nat)
    requires forall i | 0 <= i < |list| :: list[i] in cells
    ensures k <= |list|
    ensures forall i | 0 <= i < k :: cells[list[i]].location >= slot
    ensures k < |list| ==> cells[list[k]].location < slot
  {
    if list == [] || cells[list[0]].location < slot then 0 else 1 + Above(cells, list[1..], slot)
  }

  /** The cells of a list closed over the values they point to. */
  function Closed<V>(cells: map<CellId, Upvalue<V>>, list: seq<CellId>, values: seq<V>): (r: map<CellId, Upvalue<V>>)
    ensures r.Keys == cells.Keys
  {
    map c | c in cells ::
      if c in list && 0 <= cells[c].location < |values|
      then cells[c].(location := -1, closed := values[cells[c].location])
      else cells[c]
  }

  /** The cells of a list moved along a stack, and given to another. */
  function Moved<V>(cells: map<CellId, Upvalue<V>>, list: seq<CellId>, shift: int, owner: Owner): (r: map<CellId, Upvalue<V>>)
    ensures r.Keys == cells.Keys
  {
    map c | c in cells ::
      if c in list then cells[c].(location := cells[c].location + shift, owner := owner) else cells[c]
  }

  /** The store once the variables of a list are given values, first to last. */
  function Given<V>(store: map<Variable, V>, vars: seq<Variable>, values: seq<V>): map<Variable, V>
    requires |vars| == |values|
  {
    if vars == [] then store else
      var n := |vars| - 1;
      Given(store, vars[..n], values[..n])[vars[n] := values[n]]
  }

  lemma {:induction false} GivenHolds<V>(store: map<Variable, V>, vars: seq<Variable>, values: seq<V>)
    requires |vars| == |values| && Distinct(vars)
    ensures Holds(Given(store, vars, values), vars, values)
    ensures forall x | x in store && x !in vars :: x in Given(store, vars, values) && Given(store, vars, values)[x] == store[x]
    decreases |vars|
  {
    if vars != [] {
      var n := |vars| - 1;
      GivenHolds(store, vars[..n], values[..n]);
      assert vars == vars[..n] + [vars[n]];
    }
  }

  // ----- the steps -----

  datatype Step<V> =
    | Assign(slot: nat, value: V)                            // OP_SET_LOCAL
    | Declare(name: Variable, value: V)                      // a push
    | Write(cell: CellId, value: V)                          // OP_SET_UPVALUE
    | Capture(slot: nat, cell: CellId)                       // OP_CLOSURE, a local of the enclosing function
    | CaptureNone(name: Variable, cell: CellId, value: V)    // OP_CLOSURE, a cell of its own
    | Leave(last: nat)                                       // closeUpvalues, then the stack top comes down
    | Build(g: GenId, names: seq<Variable>, values: seq<V>)  // a generator is made, not started
    | Resume(g: GenId, started: bool, sent: V)
    | Suspend(g: GenId, base: nat)
    | Discard(g: GenId)                                      // a sleeping generator is swept

  ghost predicate Fresh<V>(s: State<V>, names: seq<Variable>) {
    Distinct(names) && forall i | 0 <= i < |names| :: names[i] !in s.store
  }

  ghost predicate Enabled<V>(s: State<V>, step: Step<V>) {
    match step
    case Assign(slot, _) => slot < |s.stack|
    case Declare(name, _) => name !in s.store
    case Write(cell, _) => cell in s.cells
    case Capture(slot, cell) => slot < |s.stack| && cell !in s.cells
    case CaptureNone(name, cell, _) => name !in s.store && cell !in s.cells
    case Leave(last) => last <= |s.stack|
    case Build(g, names, values) => g !in s.generators && |names| == |values| && Fresh(s, names)
    case Resume(g, started, _) => g in s.generators && (started ==> s.generators[g].args != [])
    case Suspend(g, base) => g !in s.generators && base <= |s.stack|
    case Discard(g) => g in s.generators
  }

  /** Where captureUpvalue's walk stops. */
  function CellAt<V>(s: State<V>, slot: nat): (k: nat)
    requires Ok(s)
    ensures k <= |s.open|
  {
    AllOpen(s);
    Above(s.cells, s.open, slot + 1)
  }

  /** Does the slot have a cell already? */
  predicate Captured<V>(s: State<V>, slot: nat)
    requires Ok(s)
  {
    var k := CellAt(s, slot);
    AllOpen(s);
    k < |s.open| && s.cells[s.open[k]].location == slot
  }

  function CaptureStep<V>(s: State<V>, slot: nat, cell: CellId): State<V>
    requires Ok(s) && slot < |s.stack| && cell !in s.cells
  {
    SlotVar(s, slot);
    if Captured(s, slot) then s else
      var k := CellAt(s, slot);
      s.(cells := s.cells[cell := Upvalue(slot, Running, s.stack[slot])], cellVar := s.cellVar[cell := s.slots[slot]],
         open := s.open[..k] + [cell] + s.open[k..])
  }

  function LeaveStep<V>(s: State<V>, last: nat): State<V>
    requires Ok(s) && last <= |s.stack|
  {
    AllOpen(s);
    var k := Above(s.cells, s.open, last);
    s.(cells := Closed(s.cells, s.open[..k], s.stack), open := s.open[k..], stack := s.stack[..last], slots := s.slots[..last])
  }

  function SuspendStep<V>(s: State<V>, g: GenId, base: nat): State<V>
    requires Ok(s) && base <= |s.stack| && g !in s.generators
  {
    AllOpen(s);
    var k, top: int := Above(s.cells, s.open, base), base;
    s.(cells := Moved(s.cells, s.open[..k], -top, Sleeping(g)), open := s.open[k..],
       stack := s.stack[..base], slots := s.slots[..base],
       generators := s.generators[g := Generator(s.stack[base..], Reversed(s.open[..k]))],
       kept := s.kept[g := s.slots[base..]])
  }

  /** A generator's stack goes back on top of the running one, whatever its height now is. */
  function WakeStep<V>(s: State<V>, g: GenId): State<V>
    requires Ok(s) && g in s.generators
  {
    assert g in s.kept;
    var gen := s.generators[g];
    s.(cells := Moved(s.cells, gen.captured, |s.stack|, Running), open := Reversed(gen.captured) + s.open,
       stack := s.stack + gen.args, slots := s.slots + s.kept[g],
       generators := s.generators - {g}, kept := s.kept - {g})
  }

  function AssignStep<V>(s: State<V>, slot: nat, value: V): State<V>
    requires Ok(s) && slot < |s.stack|
  {
    SlotVar(s, slot);
    s.(stack := s.stack[slot := value], store := s.store[s.slots[slot] := value])
  }

  function DiscardStep<V>(s: State<V>, g: GenId): State<V>
    requires Ok(s) && g in s.generators
  {
    s.(cells := Closed(s.cells, s.generators[g].captured, s.generators[g].args),
       generators := s.generators - {g}, kept := s.kept - {g})
  }

  function BuildStep<V>(s: State<V>, g: GenId, names: seq<Variable>, values: seq<V>): State<V>
    requires |names| == |values|
  {
    s.(generators := s.generators[g := Generator(values, [])], kept := s.kept[g := names],
       store := Given(s.store, names, values))
  }

  function DeclareStep<V>(s: State<V>, name: Variable, value: V): State<V> {
    s.(stack := s.stack + [value], slots := s.slots + [name], store := s.store[name := value])
  }

  function CaptureNoneStep<V>(s: State<V>, name: Variable, cell: CellId, value: V): State<V> {
    s.(cells := s.cells[cell := Upvalue(-1, Running, value)], cellVar := s.cellVar[cell := name], store := s.store[name := value])
  }

  lemma AllOpen<V>(s: State<V>)
    requires Ok(s)
    ensures |s.stack| == |s.slots|
    ensures forall i | 0 <= i < |s.open| :: s.open[i] in s.cells
  {
  }

  lemma SlotVar<V>(s: State<V>, slot: nat)
    requires Ok(s) && slot < |s.stack|
    ensures slot < |s.slots| && s.slots[slot] in s.store && s.store[s.slots[slot]] == s.stack[slot]
  {
  }

  // ----- every step keeps the invariant -----

  /** A falling list is cut exactly at the slot, and names no cell twice. */
  lemma CutAt<V>(cells: map<CellId, Upvalue<V>>, list: seq<CellId>, slot: int)
    requires Descending(cells, list) && forall i | 0 <= i < |list| :: list[i] in cells
    ensures forall i | 0 <= i < |list| :: (i < Above(cells, list, slot) <==> cells[list[i]].location >= slot)
    ensures forall i, j | 0 <= i < j < |list| :: list[i] != list[j]
  {
    var k := Above(cells, list, slot);
    forall i | 0 <= i < |list|
      ensures i < k <==> cells[list[i]].location >= slot
    {
      if k < i {
        assert cells[list[k]].location > cells[list[i]].location;
      }
    }
  }

  lemma AssignOk<V>(s: State<V>, slot: nat, value: V)
    requires Ok(s) && slot < |s.stack|
    ensures Ok(AssignStep(s, slot, value))
  {
    var t := AssignStep(s, slot, value);
    Parts(s);
    SlotVar(s, slot);
    hide Ok;
    assert Listed(t) by {
      hide Placed, Stored, CellsOk;
      UnmovedListed(s, t);
    }
    assert CellsOk(t) by {
      hide Listed, Placed, Stored;
      forall c | c in t.cells ensures CellOk(t, c) {
        assert CellOk(s, c);
      }
    }
    assert Stored(t) by {
      hide Listed, CellsOk;
    }
    Whole(t);
  }

  lemma DeclareOk<V>(s: State<V>, name: Variable, value: V)
    requires Ok(s) && name !in s.store
    ensures Ok(DeclareStep(s, name, value))
  {
    hide Ok, Placed, Stored, Listed, CellsOk, OneCell;
    var t := DeclareStep(s, name, value);
    Parts(s);
    NotPlaced(s, name);
    DeclarePlaced(s, name, value);
    DeclareListed(s, name, value);
    DeclareCells(s, name, value);
    OneCellKept(s, t);
    Whole(t);
  }

  lemma DeclarePlaced<V>(s: State<V>, name: Variable, value: V)
    requires Placed(s) && Stored(s) && name !in s.store
    ensures Placed(DeclareStep(s, name, value)) && Stored(DeclareStep(s, name, value))
  {
    NotPlaced(s, name);
  }

  lemma DeclareListed<V>(s: State<V>, name: Variable, value: V)
    requires Listed(s)
    ensures Listed(DeclareStep(s, name, value))
  {
    hide Descending, Reversed;
    var t := DeclareStep(s, name, value);
    UnmovedKept(s, t, s.open, Running, s.slots);
    GeneratorsKept(s, t);
  }

  lemma DeclareCells<V>(s: State<V>, name: Variable, value: V)
    requires CellsOk(s) && name !in s.store
    ensures CellsOk(DeclareStep(s, name, value))
  {
    var t := DeclareStep(s, name, value);
    forall c | c in t.cells ensures CellOk(t, c) {
      assert CellOk(s, c);
    }
  }

  lemma GeneratorsKept<V>(s: State<V>, t: State<V>)
    requires Listed(s) && t.generators == s.generators && t.kept == s.kept
    requires forall c | c in s.cells && c in s.cellVar ::
               c in t.cells && c in t.cellVar && t.cellVar[c] == s.cellVar[c] && (s.cells[c].owner != Running ==> t.cells[c] == s.cells[c])
    ensures t.kept.Keys == t.generators.Keys
    ensures forall g | g in t.generators ::
              Pointing(t, t.generators[g].captured, Sleeping(g), t.kept[g]) && Descending(t.cells, Reversed(t.generators[g].captured))
  {
    hide Descending;
    forall g | g in s.generators
      ensures Pointing(t, t.generators[g].captured, Sleeping(g), t.kept[g])
      ensures Descending(t.cells, Reversed(t.generators[g].captured))
    {
      UnmovedGenerator(s, t, g);
    }
  }

  lemma CaptureOk<V>(s: State<V>, slot: nat, cell: CellId)
    requires Ok(s) && slot < |s.stack| && cell !in s.cells
    ensures Ok(CaptureStep(s, slot, cell))
  {
    hide Ok, Placed, Stored, Listed, CellsOk, OneCell;
    var t := CaptureStep(s, slot, cell);
    var k := CellAt(s, slot);
    Parts(s);
    AllOpen(s);
    if !Captured(s, slot) {
      assert Descending(s.cells, s.open) by { Falls(s); }
      CutAt(s.cells, s.open, slot + 1);
      NotYet(s, slot, k);
      CaptureIs(s, slot, cell);
      hide Captured, CaptureStep, CellAt;
      Insertion(s, t, slot, k, cell);
      PlacedKept(s, t);
      OneMore(s, t, s.slots[slot], cell);
      Whole(t);
    }
  }

  lemma Falls<V>(s: State<V>)
    requires Listed(s)
    ensures Descending(s.cells, s.open)
  {
  }

  lemma PlacedKept<V>(s: State<V>, t: State<V>)
    requires Placed(s) && Stored(s) && t.slots == s.slots && t.kept == s.kept && t.generators == s.generators
    requires t.stack == s.stack && t.store == s.store
    ensures Placed(t) && Stored(t)
  {
  }

  lemma CaptureIs<V>(s: State<V>, slot: nat, cell: CellId)
    requires Ok(s) && slot < |s.stack| && cell !in s.cells && !Captured(s, slot)
    ensures slot < |s.slots| && Inserted(s, CaptureStep(s, slot, cell), slot, CellAt(s, slot), cell)
  {
    SlotVar(s, slot);
  }

  ghost predicate Inserted<V>(s: State<V>, t: State<V>, slot: nat, k: nat, cell: CellId) {
    && k <= |s.open| && slot < |s.stack| && slot < |s.slots|
    && t == s.(cells := s.cells[cell := Upvalue(slot, Running, s.stack[slot])], cellVar := s.cellVar[cell := s.slots[slot]],
               open := s.open[..k] + [cell] + s.open[k..])
  }

  /** Putting a new cell in its place keeps the open list falling and every cell in a list. */
  lemma Insertion<V>(s: State<V>, t: State<V>, slot: nat, k: nat, cell: CellId)
    requires Listed(s) && CellsOk(s) && Inserted(s, t, slot, k, cell) && cell !in s.cells
    requires forall i | 0 <= i < |s.open| :: s.open[i] in s.cells && (i < k <==> s.cells[s.open[i]].location >= slot + 1)
    requires forall i | 0 <= i < |s.open| :: s.cells[s.open[i]].location != slot
    ensures Listed(t) && CellsOk(t)
  {
    assert CellsOk(t) by {
      hide Listed, CellOk, Inserted;
      forall c | c in t.cells ensures CellOk(t, c) {
        assert c == cell || c in s.cells by { InsertKeys(s, t, slot, k, cell); }
        InsertionCell(s, t, slot, k, cell, c);
      }
    }
    hide CellsOk;
    InsertionOpen(s, t, slot, k, cell);
    GeneratorsKept(s, t);
  }

  lemma InsertKeys<V>(s: State<V>, t: State<V>, slot: nat, k: nat, cell: CellId)
    requires Inserted(s, t, slot, k, cell)
    ensures t.cells.Keys == s.cells.Keys + {cell}
  {
  }

  lemma InsertionCell<V>(s: State<V>, t: State<V>, slot: nat, k: nat, cell: CellId, c: CellId)
    requires Inserted(s, t, slot, k, cell) && cell !in s.cells && (c == cell || (c in s.cells && CellOk(s, c)))
    ensures CellOk(t, c)
  {
    if c == cell {
      assert t.open[k] == cell;
    } else if c in s.open {
      assert c in s.open[..k] || c in s.open[k..];
    }
  }

  lemma InsertionOpen<V>(s: State<V>, t: State<V>, slot: nat, k: nat, cell: CellId)
    requires Pointing(s, s.open, Running, s.slots) && Descending(s.cells, s.open)
    requires Inserted(s, t, slot, k, cell) && cell !in s.cells
    requires forall i | 0 <= i < |s.open| :: s.open[i] in s.cells && (i < k <==> s.cells[s.open[i]].location >= slot + 1)
    requires forall i | 0 <= i < |s.open| :: s.cells[s.open[i]].location != slot
    ensures Pointing(t, t.open, Running, t.slots) && Descending(t.cells, t.open)
  {
    var places := Places(s, s.open);
    InsertedPlaces(s, t, slot, k, cell);
    FallsInserted(places, k, slot);
    PlacesFall(s, s.open);
    assert Pointing(t, t.open, Running, t.slots) by {
      assert forall i | 0 <= i < k :: t.open[i] == s.open[i];
      assert forall i | k < i < |t.open| :: t.open[i] == s.open[i - 1];
      assert t.open[k] == cell;
    }
    hide Pointing;
    PlacesFall(t, t.open);
  }

  /** The slots a list's cells point to. */
  ghost function Places<V>(s: State<V>, list: seq<CellId>): seq<int>
    requires forall i | 0 <= i < |list| :: list[i] in s.cells
  {
    seq(|list|, i requires 0 <= i < |list| => s.cells[list[i]].location)
  }

  ghost predicate Falling(places: seq<int>) {
    forall i, j | 0 <= i < j < |places| :: places[i] > places[j]
  }

  lemma PlacesFall<V>(s: State<V>, list: seq<CellId>)
    requires forall i | 0 <= i < |list| :: list[i] in s.cells
    ensures Descending(s.cells, list) <==> Falling(Places(s, list))
  {
    forall i | 0 <= i < |list| ensures Places(s, list)[i] == s.cells[list[i]].location {
    }
  }

  lemma InsertedPlaces<V>(s: State<V>, t: State<V>, slot: nat, k: nat, cell: CellId)
    requires Inserted(s, t, slot, k, cell) && cell !in s.cells && forall i | 0 <= i < |s.open| :: s.open[i] in s.cells
    ensures forall i | 0 <= i < |t.open| :: t.open[i] in t.cells
    ensures var p := Places(s, s.open); Places(t, t.open) == p[..k] + [slot as int] + p[k..]
  {
  }

  lemma FallsInserted(places: seq<int>, k: nat, slot: int)
    requires k <= |places| && Falling(places)
    requires (forall i | 0 <= i < k :: places[i] > slot) && forall i | k <= i < |places| :: places[i] < slot
    ensures Falling(places[..k] + [slot] + places[k..])
  {
  }

  /** When the walk stops short of a cell for the slot, the slot's variable has none. */
  lemma NotYet<V>(s: State<V>, slot: nat, k: nat)
    requires Placed(s) && Listed(s) && CellsOk(s) && Stored(s) && slot < |s.slots| && k <= |s.open|
    requires forall i | 0 <= i < |s.open| :: s.open[i] in s.cells && (i < k <==> s.cells[s.open[i]].location >= slot + 1)
    requires k < |s.open| ==> s.cells[s.open[k]].location != slot
    ensures forall i | 0 <= i < |s.open| :: s.cells[s.open[i]].location != slot
    ensures forall c | c in s.cells && c in s.cellVar :: s.cellVar[c] != s.slots[slot]
  {
    hide Stored;
    forall i | 0 <= i < |s.open|
      ensures s.cells[s.open[i]].location != slot
    {
      if k < i {
        assert s.cells[s.open[k]].location > s.cells[s.open[i]].location;
      }
    }
    forall c | c in s.cells && c in s.cellVar
      ensures s.cellVar[c] != s.slots[slot]
    {
      assert CellOk(s, c);
      if s.cells[c].location != -1 {
        match s.cells[c].owner
        case Running =>
          var i :| 0 <= i < |s.open| && s.open[i] == c;
        case Sleeping(g) =>
          var i :| 0 <= i < |s.generators[g].captured| && s.generators[g].captured[i] == c;
          assert Disjoint(s.slots, s.kept[g]);
      }
    }
  }

  lemma CaptureNoneOk<V>(s: State<V>, name: Variable, cell: CellId, value: V)
    requires Ok(s) && name !in s.store && cell !in s.cells
    ensures Ok(CaptureNoneStep(s, name, cell, value))
  {
    hide Ok, Placed, Stored, Listed, CellsOk, OneCell;
    var t := CaptureNoneStep(s, name, cell, value);
    Parts(s);
    forall c | c in s.cells ensures c in s.cellVar && s.cellVar[c] != name {
      ReadsLast(s, c);
    }
    NotPlaced(s, name);
    CaptureNoneCells(s, name, cell, value);
    CaptureNoneStored(s, name, cell, value);
    CaptureNoneListed(s, name, cell, value);
    assert OneCell(t) by { OneMore(s, t, name, cell); }
    Whole(t);
  }

  lemma NotPlaced<V>(s: State<V>, name: Variable)
    requires Stored(s) && name !in s.store
    ensures name !in s.slots && forall g | g in s.kept :: name !in s.kept[g]
  {
  }

  lemma OneMore<V>(s: State<V>, t: State<V>, name: Variable, cell: CellId)
    requires OneCell(s) && cell !in s.cells && forall c | c in s.cells && c in s.cellVar :: s.cellVar[c] != name
    requires t.cellVar == s.cellVar[cell := name] && t.cells.Keys == s.cells.Keys + {cell}
    ensures OneCell(t)
  {
  }

  lemma CaptureNoneListed<V>(s: State<V>, name: Variable, cell: CellId, value: V)
    requires Listed(s) && cell !in s.cells
    ensures Listed(CaptureNoneStep(s, name, cell, value))
  {
    hide Reversed;
    var t := CaptureNoneStep(s, name, cell, value);
    GeneratorsKept(s, t);
    UnmovedKept(s, t, s.open, Running, s.slots);
    hide Pointing, Descending;
  }

  lemma CaptureNoneStored<V>(s: State<V>, name: Variable, cell: CellId, value: V)
    requires Placed(s) && Stored(s) && name !in s.store
    ensures Placed(CaptureNoneStep(s, name, cell, value)) && Stored(CaptureNoneStep(s, name, cell, value))
  {
    hide Distinct, Disjoint;
  }

  lemma CaptureNoneCells<V>(s: State<V>, name: Variable, cell: CellId, value: V)
    requires CellsOk(s) && name !in s.slots && cell !in s.cells && name !in s.store
    requires forall g | g in s.kept :: name !in s.kept[g]
    requires forall c | c in s.cells :: c in s.cellVar && s.cellVar[c] != name
    ensures CellsOk(CaptureNoneStep(s, name, cell, value))
  {
    var t := CaptureNoneStep(s, name, cell, value);
    forall c | c in t.cells ensures CellOk(t, c) {
      if c != cell {
        assert CellOk(s, c);
      }
    }
  }

  /** An open cell is in its list once, at its variable's place. */
  lemma OpenCell<V>(s: State<V>, c: CellId)
    requires Placed(s) && Stored(s) && Listed(s) && CellOk(s, c) && s.cells[c].owner == Running && s.cells[c].location != -1
    ensures c in s.open && s.cells[c].location < |s.slots| == |s.stack| && s.cellVar[c] == s.slots[s.cells[c].location]
    ensures s.cellVar[c] in s.store && s.store[s.cellVar[c]] == s.stack[s.cells[c].location]
    ensures forall g | g in s.kept :: s.cellVar[c] !in s.kept[g]
  {
    var i :| 0 <= i < |s.open| && s.open[i] == c;
  }

  lemma LeaveOk<V>(s: State<V>, last: nat)
    requires Ok(s) && last <= |s.stack|
    ensures Ok(LeaveStep(s, last))
  {
    var t := LeaveStep(s, last);
    Parts(s);
    AllOpen(s);
    var k := Above(s.cells, s.open, last);
    CutAt(s.cells, s.open, last);
    hide Ok;
    assert Stored(t) && Placed(t) by {
      hide Listed, CellsOk, OneCell, Above;
    }
    assert OneCell(t) by {
      hide Placed, Stored, Listed, CellsOk, Above;
    }
    LeaveListed(s, last);
    assert CellsOk(t) by {
      hide Above;
      forall c | c in t.cells ensures CellOk(t, c) {
        LeaveCell(s, last, c);
      }
    }
    Whole(t);
  }

  lemma LeaveListed<V>(s: State<V>, last: nat)
    requires Ok(s) && last <= |s.stack|
    ensures Listed(LeaveStep(s, last))
  {
    var t := LeaveStep(s, last);
    Parts(s);
    AllOpen(s);
    var k := Above(s.cells, s.open, last);
    CutAt(s.cells, s.open, last);
    hide Ok, Above, Placed, Stored, CellsOk, OneCell;
    OpenRunning(s);
    hide Descending;
    assert t.kept.Keys == t.generators.Keys && forall g | g in t.generators ::
        Pointing(t, t.generators[g].captured, Sleeping(g), t.kept[g]) && Descending(t.cells, Reversed(t.generators[g].captured)) by {
      GeneratorsKept(s, t);
    }
    Suffix(s, t, k, last);
  }

  lemma OpenRunning<V>(s: State<V>)
    requires Listed(s)
    ensures forall c | c in s.open :: c in s.cells && s.cells[c].owner == Running
  {
  }

  /** What is left of the open list once the top of the stack, and its cells, have gone. */
  lemma Suffix<V>(s: State<V>, t: State<V>, k: nat, height: nat)
    requires Listed(s) && k <= |s.open| && height <= |s.slots|
    requires t.open == s.open[k..] && t.slots == s.slots[..height] && t.cells.Keys == s.cells.Keys && t.cellVar == s.cellVar
    requires forall c | c in s.cells && c !in s.open[..k] :: t.cells[c] == s.cells[c]
    requires forall i, j | 0 <= i < j < |s.open| :: s.open[i] != s.open[j]
    requires forall i | 0 <= i < |s.open| :: s.open[i] in s.cells && (i < k <==> s.cells[s.open[i]].location >= height)
    ensures Pointing(t, t.open, Running, t.slots) && Descending(t.cells, t.open)
  {
    forall i | 0 <= i < |t.open|
      ensures s.open[k + i] in s.cells && t.open[i] == s.open[k + i] && t.cells[t.open[i]] == s.cells[s.open[k + i]]
    {
      assert s.open[k + i] !in s.open[..k];
    }
  }

  lemma LeaveCell<V>(s: State<V>, last: nat, c: CellId)
    requires Ok(s) && last <= |s.stack| && c in s.cells
    ensures CellOk(LeaveStep(s, last), c)
  {
    var t := LeaveStep(s, last);
    Parts(s);
    AllOpen(s);
    var k := Above(s.cells, s.open, last);
    CutAt(s.cells, s.open, last);
    assert CellOk(s, c);
    if s.cells[c].location != -1 && s.cells[c].owner == Running {
      OpenCell(s, c);
    }
    hide Ok, Above, Stored, CellsOk, OneCell, Listed;
    assert c in s.open ==> c in s.open[..k] || c in s.open[k..];
  }

  // ----- suspension -----

  /** A suspension, its cut of the open list named. */
  ghost predicate Split<V>(s: State<V>, t: State<V>, g: GenId, k: nat, base: nat) {
    && k <= |s.open| && base <= |s.stack| == |s.slots| && g !in s.generators
    && t.cells == Moved(s.cells, s.open[..k], 0 - base, Sleeping(g)) && t.open == s.open[k..] && t.cellVar == s.cellVar
    && t.stack == s.stack[..base] && t.slots == s.slots[..base] && t.store == s.store
    && t.generators == s.generators[g := Generator(s.stack[base..], Reversed(s.open[..k]))]
    && t.kept == s.kept[g := s.slots[base..]]
  }

  ghost predicate CutWhere<V>(s: State<V>, k: nat, slot: int) {
    && (forall i | 0 <= i < |s.open| :: s.open[i] in s.cells && (i < k <==> s.cells[s.open[i]].location >= slot))
    && forall i, j | 0 <= i < j < |s.open| :: s.open[i] != s.open[j]
  }

  lemma SuspendIs<V>(s: State<V>, g: GenId, base: nat) returns (k: nat)
    requires Ok(s) && base <= |s.stack| && g !in s.generators
    ensures Split(s, SuspendStep(s, g, base), g, k, base) && CutWhere(s, k, base)
  {
    AllOpen(s);
    k := Above(s.cells, s.open, base);
    CutAt(s.cells, s.open, base);
  }

  lemma SuspendOk<V>(s: State<V>, g: GenId, base: nat)
    requires Ok(s) && base <= |s.stack| && g !in s.generators
    ensures Ok(SuspendStep(s, g, base))
  {
    var t := SuspendStep(s, g, base);
    Parts(s);
    var k := SuspendIs(s, g, base);
    hide Ok, SuspendStep;
    assert OneCell(t) by { hide Placed, Stored, Listed, CellsOk, CutWhere; }
    assert s.kept.Keys == s.generators.Keys;
    hide Placed, Stored, Listed, CellsOk, CutWhere, Split, OneCell;
    SuspendPlaced(s, t, g, k, base);
    SuspendListed(s, t, g, k, base);
    SuspendCells(s, t, g, k, base);
    Whole(t);
  }

  lemma SuspendPlaced<V>(s: State<V>, t: State<V>, g: GenId, k: nat, base: nat)
    requires Placed(s) && Stored(s) && Split(s, t, g, k, base)
    ensures Placed(t) && Stored(t)
  {
    assert Stored(t) by { hide Placed; }
    hide Stored;
    forall h | h in t.kept
      ensures Distinct(t.kept[h]) && Disjoint(t.slots, t.kept[h])
    {
      if h != g {
        assert Disjoint(s.slots, s.kept[h]);
      }
    }
    forall h, i | h in t.kept && i in t.kept && h != i
      ensures Disjoint(t.kept[h], t.kept[i])
    {
      if h == g {
        assert Disjoint(s.slots, s.kept[i]);
      } else if i == g {
        assert Disjoint(s.slots, s.kept[h]);
      }
    }
    hide Disjoint, Distinct;
  }

  lemma SuspendCells<V>(s: State<V>, t: State<V>, g: GenId, k: nat, base: nat)
    requires CellsOk(s) && Listed(s) && s.kept.Keys == s.generators.Keys && Split(s, t, g, k, base) && CutWhere(s, k, base)
    ensures CellsOk(t)
  {
    OpenRunning(s);
    hide Listed;
    forall c | c in t.cells ensures CellOk(t, c) {
      assert CellOk(s, c);
      if c in s.open {
        SuspendCell(s, t, g, k, base, c);
      } else {
        assert c !in s.open[..k];
        hide CutWhere, CellsOk;
      }
    }
  }

  lemma SuspendCell<V>(s: State<V>, t: State<V>, g: GenId, k: nat, base: nat, c: CellId)
    requires Split(s, t, g, k, base) && CutWhere(s, k, base) && c in s.open && c in s.cells && CellOk(s, c)
    requires s.cells[c].owner == Running && s.cells[c].location >= 0
    ensures CellOk(t, c)
  {
    var i :| 0 <= i < |s.open| && s.open[i] == c;
    if i < k {
      assert s.open[..k][i] == c;
      assert Reversed(s.open[..k])[k - 1 - i] == c;
      assert c in t.generators[g].captured;
    } else {
      assert s.open[k..][i - k] == c;
      assert c !in s.open[..k];
    }
  }

  lemma SuspendListed<V>(s: State<V>, t: State<V>, g: GenId, k: nat, base: nat)
    requires Listed(s) && Split(s, t, g, k, base) && CutWhere(s, k, base)
    ensures Listed(t)
  {
    OpenRunning(s);
    Suffix(s, t, k, base);
    hide Descending;
    assert Pointing(t, t.generators[g].captured, Sleeping(g), t.kept[g]) && Descending(t.cells, Reversed(t.generators[g].captured)) by {
      SavedList(s, t, g, k, base);
    }
    hide CutWhere;
    forall h | h in t.generators
      ensures Pointing(t, t.generators[h].captured, Sleeping(h), t.kept[h])
      ensures Descending(t.cells, Reversed(t.generators[h].captured))
    {
      if h != g {
        UnmovedGenerator(s, t, h);
      }
    }
    hide Pointing;
  }

  /** The cells a suspension takes rise up the saved stack. */
  lemma SavedList<V>(s: State<V>, t: State<V>, g: GenId, k: nat, base: nat)
    requires Pointing(s, s.open, Running, s.slots) && Descending(s.cells, s.open)
    requires Split(s, t, g, k, base) && CutWhere(s, k, base)
    ensures Pointing(t, t.generators[g].captured, Sleeping(g), t.kept[g])
    ensures Descending(t.cells, Reversed(t.generators[g].captured))
  {
    var list := s.open[..k];
    assert Descending(t.cells, list) by {
      hide Pointing, Reversed;
      FallsMoved(s.cells, list, 0 - base, Sleeping(g));
    }
    ReversedTwice(list);
    hide Descending;
    SavedPoints(s, t, g, k, base);
  }

  lemma FallsMoved<V>(cells: map<CellId, Upvalue<V>>, list: seq<CellId>, shift: int, owner: Owner)
    requires Descending(cells, list) && forall i | 0 <= i < |list| :: list[i] in cells
    ensures Descending(Moved(cells, list, shift, owner), list)
  {
    var moved := Moved(cells, list, shift, owner);
    forall i | 0 <= i < |list|
      ensures list[i] in moved && moved[list[i]].location == cells[list[i]].location + shift
    {
    }
    hide Moved;
  }

  lemma SavedPoints<V>(s: State<V>, t: State<V>, g: GenId, k: nat, base: nat)
    requires Pointing(s, s.open, Running, s.slots) && Split(s, t, g, k, base) && CutWhere(s, k, base)
    ensures Pointing(t, t.generators[g].captured, Sleeping(g), t.kept[g])
  {
    var list := Reversed(s.open[..k]);
    forall i | 0 <= i < |list|
      ensures list[i] in t.cells && list[i] in t.cellVar && t.cells[list[i]].owner == Sleeping(g)
      ensures 0 <= t.cells[list[i]].location < |t.kept[g]| && t.cellVar[list[i]] == t.kept[g][t.cells[list[i]].location]
    {
      var c := s.open[k - 1 - i];
      assert list[i] == s.open[..k][k - 1 - i] == c;
      assert t.cells[c] == s.cells[c].(location := s.cells[c].location - base, owner := Sleeping(g));
    }
  }

  // ----- waking -----

  lemma WakeOk<V>(s: State<V>, g: GenId)
    requires Ok(s) && g in s.generators
    ensures Ok(WakeStep(s, g))
  {
    var t := WakeStep(s, g);
    Parts(s);
    WakeListed(s, g);
    WakePlaced(s, g);
    assert CellsOk(t) by {
      hide Ok, Placed, Stored, Listed;
      forall c | c in t.cells ensures CellOk(t, c) {
        WakeCell(s, g, c);
      }
    }
    hide Ok, Placed, Stored, Listed, CellsOk;
    Whole(t);
  }

  lemma WakePlaced<V>(s: State<V>, g: GenId)
    requires Ok(s) && g in s.generators
    ensures Placed(WakeStep(s, g)) && Stored(WakeStep(s, g))
  {
    var t := WakeStep(s, g);
    Parts(s);
    hide Ok, Listed, CellsOk, OneCell;
    assert t.slots == s.slots + s.kept[g];
    assert Disjoint(s.slots, s.kept[g]);
    forall h | h in t.kept
      ensures Distinct(t.kept[h]) && Disjoint(t.slots, t.kept[h])
    {
      assert Disjoint(s.slots, s.kept[h]) && Disjoint(s.kept[g], s.kept[h]);
    }
    assert Distinct(t.slots);
    hide Disjoint, Distinct;
  }

  lemma WakeCell<V>(s: State<V>, g: GenId, c: CellId)
    requires Ok(s) && g in s.generators && c in s.cells
    ensures CellOk(WakeStep(s, g), c)
  {
    hide Ok, Stored, CellsOk, OneCell, Listed, Placed;
    var t := WakeStep(s, g);
    OkCell(s, c);
    Sleeps(s, g);
    var list := s.generators[g].captured;
    if c in list {
      var i :| 0 <= i < |list| && list[i] == c;
      assert Reversed(list)[|list| - 1 - i] == c;
    }
  }

  lemma Sleeps<V>(s: State<V>, g: GenId)
    requires Ok(s) && g in s.generators
    ensures forall c | c in s.generators[g].captured :: c in s.cells && s.cells[c].owner == Sleeping(g) && s.cells[c].location >= 0
    ensures g in s.kept && s.kept.Keys == s.generators.Keys
  {
    hide Distinct, Disjoint, CellsOk, OneCell;
  }

  lemma WakeListed<V>(s: State<V>, g: GenId)
    requires Ok(s) && g in s.generators
    ensures Listed(WakeStep(s, g))
  {
    var t := WakeStep(s, g);
    Parts(s);
    AllOpen(s);
    OpenRunning(s);
    assert |s.kept[g]| == |s.generators[g].args|;
    hide Ok, Placed, Stored, CellsOk, OneCell;
    WokenList(s, t, g);
    hide Descending;
    forall h | h in t.generators
      ensures Pointing(t, t.generators[h].captured, Sleeping(h), t.kept[h])
      ensures Descending(t.cells, Reversed(t.generators[h].captured))
    {
      UnmovedGenerator(s, t, h);
    }
    hide Pointing;
  }

  /** The cells of a woken generator, turned round, go on top of the open list. */
  lemma WokenList<V>(s: State<V>, t: State<V>, g: GenId)
    requires Listed(s) && g in s.generators && |s.slots| == |s.stack|
    requires t.cells == Moved(s.cells, s.generators[g].captured, |s.stack|, Running) && t.cellVar == s.cellVar
    requires t.open == Reversed(s.generators[g].captured) + s.open && t.slots == s.slots + s.kept[g]
    ensures Pointing(t, t.open, Running, t.slots) && Descending(t.cells, t.open)
  {
    var list, n := s.generators[g].captured, |s.generators[g].captured|;
    var back := Reversed(list);
    forall i | 0 <= i < n
      ensures t.open[i] == back[i] == list[n - 1 - i] && back[i] in list
    {
    }
    forall i | n <= i < |t.open|
      ensures t.open[i] == s.open[i - n] && t.cells[t.open[i]] == s.cells[s.open[i - n]]
    {
      assert s.cells[s.open[i - n]].owner == Running;
    }
    assert Pointing(t, t.open, Running, t.slots);
    forall i, j | 0 <= i < j < |t.open|
      ensures t.open[i] in t.cells && t.open[j] in t.cells && t.cells[t.open[i]].location > t.cells[t.open[j]].location
    {
      if j < n {
        assert s.cells[back[i]].location > s.cells[back[j]].location;
      } else if n <= i {
        assert s.cells[s.open[i - n]].location > s.cells[s.open[j - n]].location;
      }
    }
  }

  // ----- a swept generator, a built one -----

  lemma DiscardOk<V>(s: State<V>, g: GenId)
    requires Ok(s) && g in s.generators
    ensures Ok(DiscardStep(s, g))
  {
    hide Ok, Placed, Stored, Listed, CellsOk, OneCell, DiscardStep;
    Parts(s);
    DiscardPlaced(s, g);
    DiscardListed(s, g);
    DiscardCells(s, g);
    Whole(DiscardStep(s, g));
  }

  lemma DiscardPlaced<V>(s: State<V>, g: GenId)
    requires Ok(s) && g in s.generators
    ensures Placed(DiscardStep(s, g)) && Stored(DiscardStep(s, g)) && OneCell(DiscardStep(s, g))
  {
    hide Ok, Listed, CellsOk, Distinct, Disjoint, Holds;
    Parts(s);
  }

  lemma DiscardListed<V>(s: State<V>, g: GenId)
    requires Ok(s) && g in s.generators
    ensures Listed(DiscardStep(s, g))
  {
    hide Ok, Placed, Stored, CellsOk, OneCell, Descending;
    var t := DiscardStep(s, g);
    Parts(s);
    OpenRunning(s);
    assert Unmoved(s, t, s.open);
    forall h | h in t.generators
      ensures Unmoved(s, t, t.generators[h].captured)
    {
    }
    UnmovedKept(s, t, s.open, Running, s.slots);
    hide Unmoved;
    forall h | h in t.generators
      ensures Pointing(t, t.generators[h].captured, Sleeping(h), t.kept[h])
      ensures Descending(t.cells, Reversed(t.generators[h].captured))
    {
      UnmovedGenerator(s, t, h);
    }
    hide Pointing;
  }

  lemma DiscardCells<V>(s: State<V>, g: GenId)
    requires Ok(s) && g in s.generators
    ensures CellsOk(DiscardStep(s, g))
  {
    hide Ok, CellOk;
    forall c | c in DiscardStep(s, g).cells ensures CellOk(DiscardStep(s, g), c) {
      DiscardCell(s, g, c);
    }
  }

  lemma DiscardCell<V>(s: State<V>, g: GenId, c: CellId)
    requires Ok(s) && g in s.generators && c in s.cells
    ensures CellOk(DiscardStep(s, g), c)
  {
    var t := DiscardStep(s, g);
    Parts(s);
    assert CellOk(s, c);
    ReadsLast(s, c);
    if c in s.generators[g].captured {
      CellThere(s, c);
      hide Ok, Listed, CellsOk, OneCell;
      var x := s.cellVar[c];
      assert Disjoint(s.slots, s.kept[g]);
      assert forall h | h in t.kept :: Disjoint(s.kept[h], s.kept[g]);
    }
  }

  lemma BuildOk<V>(s: State<V>, g: GenId, names: seq<Variable>, values: seq<V>)
    requires Ok(s) && g !in s.generators && |names| == |values| && Fresh(s, names)
    ensures Ok(BuildStep(s, g, names, values))
  {
    hide Ok, Placed, Stored, Listed, CellsOk, OneCell, Given;
    var t := BuildStep(s, g, names, values);
    Parts(s);
    BuildPlaced(s, g, names, values);
    BuildListed(s, g, names, values);
    BuildCells(s, g, names, values);
    assert OneCell(t) by { OneCellKept(s, t); }
    Whole(t);
  }

  lemma OneCellKept<V>(s: State<V>, t: State<V>)
    requires OneCell(s) && t.cellVar == s.cellVar && t.cells.Keys == s.cells.Keys
    ensures OneCell(t)
  {
  }

  lemma BuildCells<V>(s: State<V>, g: GenId, names: seq<Variable>, values: seq<V>)
    requires Ok(s) && g !in s.generators && |names| == |values| && Fresh(s, names)
    ensures CellsOk(BuildStep(s, g, names, values))
  {
    hide Ok, Placed, Stored, Listed, OneCell, Given;
    var t := BuildStep(s, g, names, values);
    GivenHolds(s.store, names, values);
    Parts(s);
    forall c | c in t.cells ensures CellOk(t, c) {
      assert CellOk(s, c);
      ReadsLast(s, c);
      assert s.cellVar[c] !in names;
    }
  }

  lemma BuildListed<V>(s: State<V>, g: GenId, names: seq<Variable>, values: seq<V>)
    requires Ok(s) && g !in s.generators && |names| == |values|
    ensures Listed(BuildStep(s, g, names, values))
  {
    hide Ok, Placed, Stored, CellsOk, OneCell, Given;
    var t := BuildStep(s, g, names, values);
    Parts(s);
    UnmovedKept(s, t, s.open, Running, s.slots);
    assert Reversed(t.generators[g].captured) == [];
    assert Descending(t.cells, Reversed(t.generators[g].captured));
    hide Descending;
    forall h | h in t.generators
      ensures Pointing(t, t.generators[h].captured, Sleeping(h), t.kept[h])
      ensures Descending(t.cells, Reversed(t.generators[h].captured))
    {
      if h != g {
        UnmovedGenerator(s, t, h);
      }
    }
    hide Pointing;
  }

  lemma BuildPlaced<V>(s: State<V>, g: GenId, names: seq<Variable>, values: seq<V>)
    requires Placed(s) && Stored(s) && g !in s.generators && |names| == |values| && Fresh(s, names)
    ensures Placed(BuildStep(s, g, names, values)) && Stored(BuildStep(s, g, names, values))
  {
    var t := BuildStep(s, g, names, values);
    GivenHolds(s.store, names, values);
    hide Given;
    assert forall i | 0 <= i < |s.slots| :: s.slots[i] in s.store;
    assert forall h, i | h in s.kept && 0 <= i < |s.kept[h]| :: s.kept[h][i] in s.store;
    assert Stored(t);
    hide Stored, Holds;
    forall h | h in s.kept
      ensures Disjoint(s.kept[h], names) && Disjoint(names, s.kept[h])
    {
    }
    assert Disjoint(s.slots, names);
  }
}
