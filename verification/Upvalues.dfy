/** Closure cells of src/vm.c and src/obj_gen.c: cells point into the running stack, into a suspended generator's
    saved stack, or hold their value themselves. The ghost half of a state names variables and says what each one
    was last given. */
module Upvalues {
  import opened Sorting

  type CellId = nat
  type GenId = nat
  type Variable = nat

  datatype Owner = Running | Sleeping(g: GenId)

  /** KrkUpvalue; location -1 means closed. */
  datatype Upvalue<V> = Upvalue(location: int, owner: Owner, closed: V)

  /** A suspended generator: its part of the stack, and the cells into it. */
  datatype Generator<V> = Generator(args: seq<V>, captured: seq<CellId>)

  /** Everything a Machine holds. `slots` and `kept` say which variable each position of the stack, or of a
      suspended generator's, is; `cellVar` says whose cell a cell is; `store` is what was last written. */
  datatype State<V> = State(stack: seq<V>, open: seq<CellId>, cells: map<CellId, Upvalue<V>>,
                            generators: map<GenId, Generator<V>>, slots: seq<Variable>, kept: map<GenId, seq<Variable>>,
                            cellVar: map<CellId, Variable>, store: map<Variable, V>)

  /** No two positions hold the same variable. */
  ghost predicate Distinct(vars: seq<Variable>) {
    forall i, j | 0 <= i < j < |vars| :: vars[i] != vars[j]
  }

  ghost predicate Disjoint(a: seq<Variable>, b: seq<Variable>) {
    forall i | 0 <= i < |a| :: a[i] !in b
  }

  /** Each position holds what its variable was last given. */
  ghost predicate Holds<V>(store: map<Variable, V>, vars: seq<Variable>, values: seq<V>) {
    |vars| == |values| && forall i | 0 <= i < |vars| :: vars[i] in store && store[vars[i]] == values[i]
  }

  /** Every variable on a stack is on one stack, in one place. */
  ghost predicate Placed<V>(s: State<V>) {
    && Distinct(s.slots)
    && s.kept.Keys == s.generators.Keys
    && (forall g | g in s.kept :: Distinct(s.kept[g]) && Disjoint(s.slots, s.kept[g]))
    && forall g, h | g in s.kept && h in s.kept && g != h :: Disjoint(s.kept[g], s.kept[h])
  }

  ghost predicate Stored<V>(s: State<V>) {
    && s.kept.Keys == s.generators.Keys && Holds(s.store, s.slots, s.stack)
    && forall g | g in s.generators :: Holds(s.store, s.kept[g], s.generators[g].args)
  }

  /** Cells into one stack, each the cell of the variable it points to. */
  ghost predicate Pointing<V>(s: State<V>, list: seq<CellId>, owner: Owner, vars: seq<Variable>) {
    forall i | 0 <= i < |list| ::
      && list[i] in s.cells && list[i] in s.cellVar && s.cells[list[i]].owner == owner
      && 0 <= s.cells[list[i]].location < |vars| && s.cellVar[list[i]] == vars[s.cells[list[i]].location]
  }

  ghost predicate Descending<V>(cells: map<CellId, Upvalue<V>>, list: seq<CellId>) {
    forall i, j | 0 <= i < j < |list| ::
      list[i] in cells && list[j] in cells && cells[list[i]].location > cells[list[j]].location
  }

  /** The open list goes strictly down the stack, a suspended generator's list strictly up its own. */
  ghost predicate Listed<V>(s: State<V>) {
    && Pointing(s, s.open, Running, s.slots) && Descending(s.cells, s.open)
    && s.kept.Keys == s.generators.Keys
    && forall g | g in s.generators ::
         Pointing(s, s.generators[g].captured, Sleeping(g), s.kept[g]) && Descending(s.cells, Reversed(s.generators[g].captured))
  }

  /** An open cell is in the list of its owner; a closed one holds its variable, which is on no stack any more. */
  ghost predicate CellOk<V>(s: State<V>, c: CellId) {
    && c in s.cells && c in s.cellVar
    && if s.cells[c].location == -1 then
        && s.cellVar[c] in s.store && s.store[s.cellVar[c]] == s.cells[c].closed
        && s.cellVar[c] !in s.slots && forall g | g in s.kept :: s.cellVar[c] !in s.kept[g]
      else match s.cells[c].owner
        case Running => c in s.open
        case Sleeping(g) => g in s.generators && c in s.generators[g].captured
  }

  /** Every variable has at most one cell. */
  ghost predicate OneCell<V>(s: State<V>) {
    s.cellVar.Keys == s.cells.Keys
    && forall c, d | c in s.cellVar && d in s.cellVar && s.cellVar[c] == s.cellVar[d] :: c == d
  }

  ghost predicate CellsOk<V>(s: State<V>) {
    forall c | c in s.cells :: CellOk(s, c)
  }

  ghost predicate Ok<V>(s: State<V>) {
    Placed(s) && Stored(s) && Listed(s) && CellsOk(s) && OneCell(s)
  }

  lemma Parts<V>(s: State<V>)
    requires Ok(s)
    ensures Placed(s) && Stored(s) && Listed(s) && CellsOk(s) && OneCell(s)
  {
  }

  lemma Whole<V>(s: State<V>)
    requires Placed(s) && Stored(s) && Listed(s) && CellsOk(s) && OneCell(s)
    ensures Ok(s)
  {
  }

  /** The cells of a list have stayed where they were. */
  ghost predicate Unmoved<V>(s: State<V>, t: State<V>, list: seq<CellId>) {
    forall i | 0 <= i < |list| ::
      && list[i] in s.cells && list[i] in t.cells && list[i] in s.cellVar && list[i] in t.cellVar
      && t.cells[list[i]].location == s.cells[list[i]].location && t.cells[list[i]].owner == s.cells[list[i]].owner
      && t.cellVar[list[i]] == s.cellVar[list[i]]
  }

  lemma UnmovedKept<V>(s: State<V>, t: State<V>, list: seq<CellId>, owner: Owner, vars: seq<Variable>)
    requires Unmoved(s, t, list) && Pointing(s, list, owner, vars)
    ensures Pointing(t, list, owner, vars)
    ensures Descending(s.cells, list) ==> Descending(t.cells, list)
    ensures Descending(s.cells, Reversed(list)) ==> Descending(t.cells, Reversed(list))
  {
  }

  lemma UnmovedGenerator<V>(s: State<V>, t: State<V>, g: GenId)
    requires Listed(s) && g in s.generators && g in s.kept && g in t.generators && g in t.kept
    requires t.generators[g].captured == s.generators[g].captured && t.kept[g] == s.kept[g]
    requires Unmoved(s, t, s.generators[g].captured)
    ensures Pointing(t, t.generators[g].captured, Sleeping(g), t.kept[g])
    ensures Descending(t.cells, Reversed(t.generators[g].captured))
  {
    UnmovedKept(s, t, s.generators[g].captured, Sleeping(g), s.kept[g]);
  }

  lemma UnmovedListed<V>(s: State<V>, t: State<V>)
    requires Listed(s) && t.open == s.open && t.slots == s.slots && t.kept == s.kept && t.cellVar == s.cellVar
    requires t.generators.Keys == s.generators.Keys && t.cells.Keys == s.cells.Keys
    requires forall g | g in s.generators :: t.generators[g].captured == s.generators[g].captured
    requires forall c | c in s.cells :: t.cells[c].location == s.cells[c].location && t.cells[c].owner == s.cells[c].owner
    ensures Listed(t)
  {
    hide Descending;
    UnmovedKept(s, t, s.open, Running, s.slots);
    forall g | g in s.generators
      ensures Pointing(t, t.generators[g].captured, Sleeping(g), t.kept[g])
      ensures Descending(t.cells, Reversed(t.generators[g].captured))
    {
      UnmovedGenerator(s, t, g);
    }
  }

  // ----- reading and writing through a cell -----

  /** UPVALUE_LOCATION. */
  function Read<V>(s: State<V>, c: CellId): V
    requires Ok(s) && c in s.cells
  {
    var u := s.cells[c];
    if u.location == -1 then u.closed else
      CellThere(s, c);
      match u.owner
      case Running => s.stack[u.location]
      case Sleeping(g) => s.generators[g].args[u.location]
  }

  lemma CellThere<V>(s: State<V>, c: CellId)
    requires Ok(s) && c in s.cells && s.cells[c].location != -1
    ensures c in s.cellVar && 0 <= s.cells[c].location
    ensures match s.cells[c].owner
            case Running => s.cells[c].location < |s.stack| == |s.slots| && s.cellVar[c] == s.slots[s.cells[c].location]
            case Sleeping(g) =>
              && g in s.generators && g in s.kept && s.cells[c].location < |s.generators[g].args| == |s.kept[g]|
              && s.cellVar[c] == s.kept[g][s.cells[c].location]
  {
    assert CellOk(s, c);
    match s.cells[c].owner
    case Running => var i :| 0 <= i < |s.open| && s.open[i] == c;
    case Sleeping(g) => var i :| 0 <= i < |s.generators[g].captured| && s.generators[g].captured[i] == c;
  }

  /** A read through any cell gives what was last written to its variable. */
  lemma ReadsLast<V>(s: State<V>, c: CellId)
    requires Ok(s) && c in s.cells
    ensures c in s.cellVar && s.cellVar[c] in s.store && Read(s, c) == s.store[s.cellVar[c]]
  {
    assert CellOk(s, c);
    if s.cells[c].location != -1 {
      CellThere(s, c);
    }
  }

  /** A write through a cell. */
  function Written<V>(s: State<V>, c: CellId, v: V): State<V>
    requires Ok(s) && c in s.cells
  {
    assert c in s.cellVar by { ReadsLast(s, c); }
    var u := s.cells[c];
    var t := s.(store := s.store[s.cellVar[c] := v]);
    if u.location == -1 then t.(cells := s.cells[c := u.(closed := v)]) else
      CellThere(s, c);
      match u.owner
      case Running => t.(stack := s.stack[u.location := v])
      case Sleeping(g) =>
        var gen := s.generators[g];
        t.(generators := s.generators[g := gen.(args := gen.args[u.location := v])])
  }

  /** What a write leaves alone. */
  lemma WriteKeeps<V>(s: State<V>, c: CellId, v: V)
    requires Ok(s) && c in s.cells
    ensures var t := Written(s, c, v);
            && t.open == s.open && t.slots == s.slots && t.kept == s.kept && t.cellVar == s.cellVar
            && t.generators.Keys == s.generators.Keys && t.cells.Keys == s.cells.Keys
            && (forall g | g in s.generators :: t.generators[g].captured == s.generators[g].captured)
            && forall d | d in s.cells :: t.cells[d].location == s.cells[d].location && t.cells[d].owner == s.cells[d].owner
  {
    hide Placed, Stored, Listed, CellsOk, OneCell;
    if s.cells[c].location != -1 {
      CellThere(s, c);
    }
  }

  lemma WriteOk<V>(s: State<V>, c: CellId, v: V)
    requires Ok(s) && c in s.cells
    ensures Ok(Written(s, c, v))
  {
    WriteStored(s, c, v);
    WriteListed(s, c, v);
    WriteCells(s, c, v);
    WriteKeeps(s, c, v);
    Parts(s);
    hide Ok, Written, Stored, Listed, CellsOk;
    assert Placed(Written(s, c, v)) && OneCell(Written(s, c, v));
    Whole(Written(s, c, v));
  }

  lemma WriteStored<V>(s: State<V>, c: CellId, v: V)
    requires Ok(s) && c in s.cells
    ensures Stored(Written(s, c, v))
  {
    hide Ok, Listed, CellsOk, OneCell;
    ReadsLast(s, c);
    Parts(s);
    var x := s.cellVar[c];
    var u := s.cells[c];
    if u.location == -1 {
      assert CellOk(s, c) by { OkCell(s, c); }
    } else {
      CellThere(s, c);
      match u.owner
      case Running =>
      case Sleeping(h) =>
        assert x !in s.slots;
        assert forall g | g in s.kept && g != h :: x !in s.kept[g];
    }
  }

  lemma OkCell<V>(s: State<V>, c: CellId)
    requires Ok(s) && c in s.cells
    ensures CellOk(s, c)
  {
  }

  lemma WriteListed<V>(s: State<V>, c: CellId, v: V)
    requires Ok(s) && c in s.cells
    ensures Listed(Written(s, c, v))
  {
    WriteKeeps(s, c, v);
    Parts(s);
    hide Ok, Written, Stored, Placed, CellsOk, OneCell;
    UnmovedListed(s, Written(s, c, v));
  }

  lemma WriteCells<V>(s: State<V>, c: CellId, v: V)
    requires Ok(s) && c in s.cells
    ensures CellsOk(Written(s, c, v))
  {
    hide Listed, Stored, Placed;
    var t := Written(s, c, v);
    forall d | d in t.cells ensures CellOk(t, d) {
      assert CellOk(s, d) && CellOk(s, c);
    }
  }

  /** A write through one cell is what every closure over its variable reads, and no other read changes. */
  lemma WriteIsShared<V>(s: State<V>, c: CellId, v: V, d: CellId)
    requires Ok(s) && c in s.cells && d in s.cells
    ensures Ok(Written(s, c, v)) && d in Written(s, c, v).cells
    ensures Read(Written(s, c, v), d) == if d == c then v else Read(s, d)
  {
    WriteOk(s, c, v);
    hide Ok;
    ReadsLast(s, c);
    ReadsLast(s, d);
    ReadsLast(Written(s, c, v), d);
    assert OneCell(s) by { Parts(s); }
  }
}
