/** The garbage collector of src/memory.c: mark with a gray stack, then sweep a linked list of all objects. An object
    found unreachable is kept once more, flagged; it goes when a later sweep finds it unreachable and flagged. */
module Collector {
  import opened Options

  type Obj = nat

  /** What blackenObject marks for each live object. */
  type Refs = map<Obj, seq<Obj>>

  // ----- reachability -----

  ghost predicate Path(refs: Refs, p: seq<Obj>) {
    |p| > 0 && forall i | 0 <= i < |p| - 1 :: p[i] in refs && p[i + 1] in refs[p[i]]
  }

  ghost predicate Ends(refs: Refs, roots: seq<Obj>, o: Obj, p: seq<Obj>) {
    Path(refs, p) && p[0] in roots && p[|p| - 1] == o
  }

  ghost predicate Reachable(refs: Refs, roots: seq<Obj>, o: Obj) {
    exists p :: Ends(refs, roots, o, p)
  }

  lemma RootReachable(refs: Refs, roots: seq<Obj>, o: Obj)
    requires o in roots
    ensures Reachable(refs, roots, o)
  {
    assert Ends(refs, roots, o, [o]);
  }

  lemma ReferentReachable(refs: Refs, roots: seq<Obj>, o: Obj, r: Obj)
    requires Reachable(refs, roots, o) && o in refs && r in refs[o]
    ensures Reachable(refs, roots, r)
  {
    var p :| Ends(refs, roots, o, p);
    assert Ends(refs, roots, r, p + [r]);
  }

  /** A set that holds the roots and all its members refer to holds everything reachable. */
  ghost predicate Closed(refs: Refs, roots: seq<Obj>, s: set<Obj>) {
    && (forall o | o in roots :: o in s)
    && forall o, r | o in s && o in refs && r in refs[o] :: r in s
  }

  lemma {:induction false} ClosedHolds(refs: Refs, roots: seq<Obj>, s: set<Obj>, o: Obj, p: seq<Obj>)
    requires Closed(refs, roots, s) && Ends(refs, roots, o, p)
    ensures o in s
    decreases |p|
  {
    if |p| > 1 {
      var q := p[..|p| - 1];
      ClosedHolds(refs, roots, s, q[|q| - 1], q);
    }
  }

  lemma ClosedReachable(refs: Refs, roots: seq<Obj>, s: set<Obj>)
    requires Closed(refs, roots, s)
    ensures forall o | Reachable(refs, roots, o) :: o in s
  {
    forall o | Reachable(refs, roots, o) ensures o in s {
      var p :| Ends(refs, roots, o, p);
      ClosedHolds(refs, roots, s, o, p);
    }
  }

  // ----- the object list -----

  ghost predicate Chain(head: Option<Obj>, next: map<Obj, Option<Obj>>, list: seq<Obj>) {
    && head == (if list == [] then None else Some(list[0]))
    && forall i | 0 <= i < |list| :: list[i] in next && next[list[i]] == After(list, i)
  }

  ghost function After(list: seq<Obj>, i: nat): Option<Obj>
    requires i < |list|
  {
    if i + 1 < |list| then Some(list[i + 1]) else None
  }

  ghost function Last(list: seq<Obj>): Option<Obj> {
    if list == [] then None else Some(list[|list| - 1])
  }

  ghost predicate Distinct(list: seq<Obj>) {
    forall i, j | 0 <= i < j < |list| :: list[i] != list[j]
  }

  ghost function Filtered(list: seq<Obj>, gone: set<Obj>): (r: seq<Obj>)
    ensures forall o :: o in r <==> o in list && o !in gone
    ensures |r| <= |list|
  {
    if list == [] then [] else
      var n := |list| - 1;
      Filtered(list[..n], gone) + if list[n] in gone then [] else [list[n]]
  }

  lemma {:induction false} FilteredDistinct(list: seq<Obj>, gone: set<Obj>)
    requires Distinct(list)
    ensures Distinct(Filtered(list, gone))
    decreases |list|
  {
    if list != [] {
      FilteredDistinct(list[..|list| - 1], gone);
    }
  }

  // ----- what a collection does, whole -----

  /** The heap between collections. */
  datatype State = State(refs: Refs, roots: seq<Obj>, second: set<Obj>, immortal: set<Obj>)

  ghost predicate Reached(s: State, o: Obj) {
    Reachable(s.refs, s.roots, o)
  }

  /** What cannot be reached now and could not at an earlier sweep. */
  ghost function Garbage(s: State): (g: set<Obj>)
    ensures forall o :: o in g <==> o in s.refs && !Reached(s, o) && o !in s.immortal && o in s.second
  {
    set o | o in s.refs && !Reached(s, o) && o !in s.immortal && o in s.second
  }

  ghost function Collected(s: State): State {
    var g := Garbage(s);
    s.(refs := map o | o in s.refs && o !in g :: s.refs[o],
       second := set o | o in s.refs && o !in g && !Reached(s, o) && o !in s.immortal)
  }

  /** Nothing reachable is lost, and nothing else becomes reachable. */
  lemma CollectedReaches(s: State)
    requires forall o | Reached(s, o) :: o in s.refs
    ensures forall o :: Reached(Collected(s), o) <==> Reached(s, o)
  {
    var t := Collected(s);
    forall o | Reached(t, o) ensures Reached(s, o) {
      var p :| Ends(t.refs, t.roots, o, p);
      assert Ends(s.refs, s.roots, o, p);
    }
    forall o | Reached(s, o) ensures Reached(t, o) {
      var p :| Ends(s.refs, s.roots, o, p);
      forall i | 0 <= i < |p| - 1 ensures p[i] in t.refs {
        assert Ends(s.refs, s.roots, p[i], p[..i + 1]);
        assert Reached(s, p[i]);
      }
      assert Ends(t.refs, t.roots, o, p);
    }
  }

  // ----- the heap -----

  /** Marked objects are on the gray stack or black, each in one place only. */
  ghost predicate Shaded(gray: seq<Obj>, blackened: seq<Obj>, marked: set<Obj>) {
    && Distinct(gray) && Distinct(blackened)
    && (forall o :: o in marked <==> o in gray || o in blackened)
    && forall o | o in gray :: o !in blackened
  }

  /** What black objects refer to is marked. */
  ghost predicate Done(refs: Refs, blackened: seq<Obj>, marked: set<Obj>) {
    forall o | o in blackened && o in refs :: forall r | r in refs[o] :: r in marked
  }

  ghost predicate AllReachable(refs: Refs, roots: seq<Obj>, marked: set<Obj>) {
    forall o | o in marked :: Reachable(refs, roots, o)
  }

  lemma ShadedMore(gray: seq<Obj>, blackened: seq<Obj>, marked: set<Obj>, o: Obj)
    requires Shaded(gray, blackened, marked)
    ensures Shaded(if o in marked then gray else gray + [o], blackened, marked + {o})
  {
    if o in marked {
      assert marked + {o} == marked;
    } else {
      assert Distinct(gray + [o]);
    }
  }

  lemma ShadedPop(gray: seq<Obj>, blackened: seq<Obj>, marked: set<Obj>)
    requires Shaded(gray, blackened, marked) && gray != []
    ensures Shaded(gray[..|gray| - 1], blackened + [gray[|gray| - 1]], marked)
    ensures gray[|gray| - 1] !in blackened && gray[|gray| - 1] in marked
  {
    var n := |gray| - 1;
    var o := gray[n];
    assert gray == gray[..n] + [o];
    assert o in gray;
    forall x ensures x in gray <==> x == o || x in gray[..n] {
    }
    forall i | 0 <= i < n ensures gray[i] != o {
    }
    assert o !in gray[..n];
    forall i | 0 <= i < |blackened| ensures blackened[i] != o {
      assert blackened[i] in blackened;
    }
  }

  /** With nothing gray, what is marked is black, and closed. */
  lemma AllBlack(refs: Refs, roots: seq<Obj>, blackened: seq<Obj>, marked: set<Obj>)
    requires Shaded([], blackened, marked) && Done(refs, blackened, marked) && AllReachable(refs, roots, marked)
    requires forall o | o in roots :: o in marked
    ensures Distinct(blackened) && forall o :: o in marked <==> o in blackened
    ensures forall o :: o in marked <==> Reachable(refs, roots, o)
  {
    assert Closed(refs, roots, marked);
    ClosedReachable(refs, roots, marked);
  }

  lemma ReachesMore(refs: Refs, roots: seq<Obj>, marked: set<Obj>, o: Obj)
    requires AllReachable(refs, roots, marked) && Reachable(refs, roots, o)
    ensures AllReachable(refs, roots, marked + {o})
  {
  }

  lemma DoneMore(refs: Refs, blackened: seq<Obj>, before: set<Obj>, marked: set<Obj>, o: Obj)
    requires Done(refs, blackened, before) && before <= marked && o in refs && forall r | r in refs[o] :: r in marked
    ensures Done(refs, blackened + [o], marked)
  {
  }

  class Heap {
    /** vm.objects and each object's next. */
    var head: Option<Obj>
    var next: map<Obj, Option<Obj>>
    ghost var list: seq<Obj>
    var refs: Refs
    var roots: seq<Obj>
    /** Flags. */
    var marked: set<Obj>
    var secondChance: set<Obj>
    var immortal: set<Obj>
    /** vm.grayStack. */
    var gray: seq<Obj>
    /** The keys of vm.strings, gaps and all. */
    var strings: seq<Option<Obj>>
    /** What has been blackened by this collection, in order. */
    ghost var blackened: seq<Obj>

    ghost predicate Valid()
      reads this
    {
      && Chain(head, next, list) && Distinct(list)
      && (forall o :: o in list <==> o in refs)
      && (forall o | Reachable(refs, roots, o) :: o in refs)
      && (forall o | o in secondChance :: o in refs)
      && marked == {} && gray == []
    }

    ghost function Snapshot(): State
      reads this
    {
      State(refs, roots, secondChance, immortal)
    }

    /** Every black object's references are marked, and nothing unreachable is. */
    ghost predicate Tracing(from: seq<Obj>)
      reads this
    {
      && Shaded(gray, blackened, marked) && (forall o | o in from :: o in marked)
      && Done(refs, blackened, marked) && AllReachable(refs, roots, marked)
    }

    method MarkObject(o: Obj)
      modifies this`marked, this`gray
      ensures marked == old(marked) + {o}
      ensures gray == if o in old(marked) then old(gray) else old(gray) + [o]
    {
      if o in marked {
        return;
      }
      marked := marked + {o};
      gray := gray + [o];
    }

    method MarkRoots()
      requires gray == [] && marked == {} && blackened == []
      modifies this`marked, this`gray
      ensures Tracing(roots)
    {
      var i := 0;
      while i < |roots|
        invariant i <= |roots| && Tracing(roots[..i])
      {
        RootReachable(refs, roots, roots[i]);
        ShadedMore(gray, blackened, marked, roots[i]);
        MarkObject(roots[i]);
        i := i + 1;
      }
      assert roots[..i] == roots;
    }

    /** Mark what an object, just taken off the gray stack, refers to. */
    method BlackenObject(o: Obj, ghost from: seq<Obj>)
      requires o in refs && Shaded(gray, blackened + [o], marked) && Done(refs, blackened, marked)
      requires (forall x | x in from :: x in marked) && Reachable(refs, roots, o) && AllReachable(refs, roots, marked)
      modifies this`marked, this`gray, this`blackened
      ensures Tracing(from) && blackened == old(blackened) + [o]
    {
      hide Reachable, AllReachable, Shaded, Done;
      blackened := blackened + [o];
      var i := 0;
      while i < |refs[o]|
        invariant i <= |refs[o]| && blackened == old(blackened) + [o] && old(marked) <= marked
        invariant Shaded(gray, blackened, marked) && AllReachable(refs, roots, marked)
        invariant forall x | x in refs[o][..i] :: x in marked
      {
        ReferentReachable(refs, roots, o, refs[o][i]);
        ShadedMore(gray, blackened, marked, refs[o][i]);
        ReachesMore(refs, roots, marked, refs[o][i]);
        MarkObject(refs[o][i]);
        i := i + 1;
      }
      DoneMore(refs, old(blackened), old(marked), marked, o);
    }

    /** Empty the gray stack. What ends up marked is exactly what can be reached, each object blackened once. */
    method TraceReferences()
      requires Tracing(roots) && forall o | Reachable(refs, roots, o) :: o in refs
      modifies this`marked, this`gray, this`blackened
      ensures gray == [] && Distinct(blackened) && forall o :: o in marked <==> o in blackened
      ensures forall o :: o in marked <==> Reachable(refs, roots, o)
    {
      hide Reachable, Shaded, Done;
      while |gray| > 0
        invariant Tracing(roots)
        decreases refs.Keys - (set x | x in blackened)
      {
        var o := gray[|gray| - 1];
        ghost var was := set x | x in blackened;
        ShadedPop(gray, blackened, marked);
        gray := gray[..|gray| - 1];
        BlackenObject(o, roots);
        assert o in refs.Keys - was;
      }
      AllBlack(refs, roots, blackened, marked);
    }

    /** Take unmarked strings out of the table that interns them. */
    method RemoveWhite()
      modifies this`strings
      ensures |strings| == |old(strings)|
      ensures forall i | 0 <= i < |strings| ::
                strings[i] == if old(strings)[i].Some? && old(strings)[i].value in marked then old(strings)[i] else None
    {
      var i := 0;
      while i < |strings|
        invariant i <= |strings| == |old(strings)|
        invariant forall k | 0 <= k < i ::
                    strings[k] == if old(strings)[k].Some? && old(strings)[k].value in marked then old(strings)[k] else None
        invariant forall k | i <= k < |strings| :: strings[k] == old(strings)[k]
      {
        if strings[i].Some? && strings[i].value !in marked {
          strings := strings[i := None];
        }
        i := i + 1;
      }
    }

    /** What the next sweep frees. */
    ghost function Doomed(): (d: set<Obj>)
      reads this
      ensures forall o :: o in d <==> o in list && o !in marked && o !in immortal && o in secondChance
    {
      set o | o in list && o !in marked && o !in immortal && o in secondChance
    }

    /** Take an object, whose neighbours are known, out of the list. */
    method Unlink(previous: Option<Obj>, o: Obj, ghost before: seq<Obj>, ghost after: seq<Obj>)
      requires list == before + [o] + after && Chain(head, next, list) && Distinct(list) && o in next
      requires previous == Last(before)
      modifies this`head, this`next, this`list
      ensures list == before + after && Chain(head, next, list) && Distinct(list)
    {
      hide Chain, Distinct;
      Unlinked(head, next, before, o, after);
      if previous.Some? {
        next := next[previous.value := next[o]];
      } else {
        head := next[o];
      }
      next := next - {o};
      list := before + after;
    }

    /** One object of a sweep: kept with its flags cleared, freed, or kept and flagged. */
    method SweepOne(o: Obj, previous: Option<Obj>, ghost was: seq<Obj>, ghost gone: set<Obj>, ghost m: set<Obj>, ghost s: set<Obj>,
                    ghost refs0: Refs, ghost k: nat, ghost kept: seq<Obj>)
      returns (current: Option<Obj>, previous': Option<Obj>, freed: bool, ghost kept': seq<Obj>)
      requires k < |was| && o == was[k] && previous == Last(kept)
      requires Chain(head, next, list) && Distinct(list) && Split(list, kept, was, k)
      requires Sweeping(was, gone, m, s, immortal, refs0, k, kept, refs, marked, secondChance)
      modifies this`head, this`next, this`list, this`refs, this`marked, this`secondChance
      ensures current == (if k + 1 < |was| then Some(was[k + 1]) else None) && previous' == Last(kept')
      ensures Chain(head, next, list) && Distinct(list) && Split(list, kept', was, k + 1)
      ensures Sweeping(was, gone, m, s, immortal, refs0, k + 1, kept', refs, marked, secondChance)
      ensures |kept'| == |kept| + if freed then 0 else 1
    {
      hide Chain, Distinct, Sweeping, Last, Split, Doomed;
      NextOf(head, next, list, kept, was, k);
      SweepNext(was, gone, m, s, immortal, refs0, k, kept, refs, marked, secondChance);
      SplitNext(list, kept, was, k);
      current := next[o];
      if o in immortal || o in marked {
        marked, secondChance := marked - {o}, secondChance - {o};
        previous', freed, kept' := Some(o), false, kept + [o];
      } else if o in secondChance {
        Unlink(previous, o, kept, was[k + 1..]);
        refs, secondChance := refs - {o}, secondChance - {o};
        previous', freed, kept' := previous, true, kept;
      } else {
        secondChance := secondChance + {o};
        previous', freed, kept' := Some(o), false, kept + [o];
      }
    }

    /** Walk the list: clear the flags of what is marked or immortal, unlink and free what is flagged, flag the rest. */
    method Sweep() returns (count: nat)
      requires Chain(head, next, list) && Distinct(list) && (forall o :: o in list <==> o in refs)
      requires (forall o | o in marked :: o in list) && forall o | o in secondChance :: o in list
      modifies this`head, this`next, this`list, this`refs, this`marked, this`secondChance
      ensures Chain(head, next, list) && Distinct(list) && forall o :: o in list <==> o in refs
      ensures list == Filtered(old(list), old(Doomed())) && count == |old(list)| - |list|
      ensures forall o | o in refs :: o in old(refs) && refs[o] == old(refs)[o]
      ensures marked == {}
      ensures forall o :: o in secondChance <==> o in list && o !in old(marked) && o !in immortal
    {
      hide Chain, Distinct, Filtered, Sweeping, Last, Split;
      ghost var was, gone, m, s, refs0 := list, Doomed(), marked, secondChance, refs;
      ghost var k, kept := 0, [];
      var previous: Option<Obj> := None;
      var current := head;
      count := 0;
      SweepStarts(was, gone, m, s, immortal, refs);
      SplitStarts(head, next, list);
      while current.Some?
        invariant k <= |was| && count == k - |kept|
        invariant current == (if k < |was| then Some(was[k]) else None) && previous == Last(kept)
        invariant Chain(head, next, list) && Distinct(list) && Split(list, kept, was, k)
        invariant Sweeping(was, gone, m, s, immortal, refs0, k, kept, refs, marked, secondChance)
        decreases |was| - k
      {
        var freed: bool;
        current, previous, freed, kept := SweepOne(current.value, previous, was, gone, m, s, refs0, k, kept);
        if freed {
          count := count + 1;
        }
        k := k + 1;
      }
      SplitEnds(list, kept, was);
      SweepEnds(was, gone, m, s, immortal, refs0, kept, refs, marked, secondChance);
    }

    /** krk_collectGarbage. */
    method Collect() returns (count: nat)
      requires Valid()
      modifies this
      ensures Valid() && Snapshot() == Collected(old(Snapshot()))
      ensures list == Filtered(old(list), Garbage(old(Snapshot()))) && count == |old(list)| - |list|
      ensures Distinct(blackened) && forall o :: o in blackened <==> old(Reachable(refs, roots, o))
      ensures |strings| == |old(strings)|
      ensures forall i | 0 <= i < |strings| :: strings[i] == (
                if old(strings)[i].Some? && Reached(old(Snapshot()), old(strings)[i].value) then old(strings)[i] else None)
    {
      hide Chain, Distinct, Filtered, Reachable, Garbage;
      ghost var was := Snapshot();
      blackened := [];
      CollectedReaches(was);
      MarkRoots();
      TraceReferences();
      RemoveWhite();
      assert Doomed() == Garbage(was) by {
        assert forall o :: o in Doomed() <==> o in Garbage(was);
      }
      ghost var flagged := secondChance;
      ghost var before := list;
      count := Sweep();
      FilteredMembers(before, Garbage(was));
      assert refs == Collected(was).refs;
      assert secondChance == Collected(was).second;
    }
  }

  lemma FilteredMembers(list: seq<Obj>, gone: set<Obj>)
    ensures forall o :: o in Filtered(list, gone) <==> o in list && o !in gone
  {
  }

  ghost function Members(list: seq<Obj>): (s: set<Obj>) {
    set o | o in list
  }

  /** A sweep that has passed k objects and kept `kept`. */
  ghost predicate Sweeping(was: seq<Obj>, gone: set<Obj>, m: set<Obj>, s: set<Obj>, immortal: set<Obj>, refs0: Refs,
                           k: nat, kept: seq<Obj>, refs: Refs, marked: set<Obj>, second: set<Obj>) {
    && k <= |was| && Distinct(was) && kept == Filtered(was[..k], gone)
    && gone == Members(was) * s - m - immortal
    && (forall o | o in refs :: o in refs0 && refs[o] == refs0[o])
    && FlagsAt(Members(kept), Members(was[k..]), m, s, immortal, refs.Keys, marked, second)
  }

  ghost predicate FlagsAt(behind: set<Obj>, ahead: set<Obj>, m: set<Obj>, s: set<Obj>, immortal: set<Obj>,
                          live: set<Obj>, marked: set<Obj>, second: set<Obj>) {
    live == behind + ahead && marked == m * ahead && second == (behind - m - immortal) + ahead * s
  }

  lemma SweepStarts(was: seq<Obj>, gone: set<Obj>, m: set<Obj>, s: set<Obj>, immortal: set<Obj>, refs: Refs)
    requires Distinct(was) && (forall o :: o in was <==> o in refs)
    requires (forall o | o in m :: o in was) && (forall o | o in s :: o in was)
    requires forall o :: o in gone <==> o in was && o !in m && o !in immortal && o in s
    ensures Sweeping(was, gone, m, s, immortal, refs, 0, [], refs, m, s)
  {
    assert was[..0] == [] && was[0..] == was;
    assert gone == Members(was) * s - m - immortal;
  }

  /** One object, each of the three ways. */
  lemma SweepNext(was: seq<Obj>, gone: set<Obj>, m: set<Obj>, s: set<Obj>, immortal: set<Obj>, refs0: Refs,
                  k: nat, kept: seq<Obj>, refs: Refs, marked: set<Obj>, second: set<Obj>)
    requires Sweeping(was, gone, m, s, immortal, refs0, k, kept, refs, marked, second) && k < |was|
    ensures var o := was[k];
      if o in immortal || o in marked then
        Sweeping(was, gone, m, s, immortal, refs0, k + 1, kept + [o], refs, marked - {o}, second - {o})
      else if o in second then
        Sweeping(was, gone, m, s, immortal, refs0, k + 1, kept, refs - {o}, marked, second - {o})
      else
        Sweeping(was, gone, m, s, immortal, refs0, k + 1, kept + [o], refs, marked, second + {o})
  {
    hide Filtered, Distinct, Members, FlagsAt;
    FilteredNext(was, k, gone);
    var o := was[k];
    MembersNext(was, k, kept, gone);
    FlagsNext(Members(kept), Members(was[k + 1..]), m, s, immortal, refs.Keys, marked, second, o);
    assert (refs - {o}).Keys == refs.Keys - {o};
    assert marked == m * Members(was[k..]) && second == (Members(kept) - m - immortal) + Members(was[k..]) * s by {
      FlagsAre(Members(kept), Members(was[k..]), m, s, immortal, refs.Keys, marked, second);
    }
  }

  lemma FlagsAre(behind: set<Obj>, ahead: set<Obj>, m: set<Obj>, s: set<Obj>, immortal: set<Obj>,
                 live: set<Obj>, marked: set<Obj>, second: set<Obj>)
    requires FlagsAt(behind, ahead, m, s, immortal, live, marked, second)
    ensures marked == m * ahead && second == (behind - m - immortal) + ahead * s
  {
  }

  lemma MembersNext(was: seq<Obj>, k: nat, kept: seq<Obj>, gone: set<Obj>)
    requires k < |was| && Distinct(was) && kept == Filtered(was[..k], gone)
    ensures Members(was[k..]) == Members(was[k + 1..]) + {was[k]} && Members(kept + [was[k]]) == Members(kept) + {was[k]}
    ensures was[k] !in Members(was[k + 1..]) && was[k] !in Members(kept) && was[k] in Members(was)
  {
    AtCut(was, k);
  }

  lemma FlagsNext(behind: set<Obj>, ahead: set<Obj>, m: set<Obj>, s: set<Obj>, immortal: set<Obj>,
                  live: set<Obj>, marked: set<Obj>, second: set<Obj>, o: Obj)
    requires FlagsAt(behind, ahead + {o}, m, s, immortal, live, marked, second) && o !in behind && o !in ahead
    ensures o in immortal || o in marked ==>
              FlagsAt(behind + {o}, ahead, m, s, immortal, live, marked - {o}, second - {o})
    ensures o !in immortal && o !in marked && o in second ==>
              FlagsAt(behind, ahead, m, s, immortal, live - {o}, marked, second - {o})
    ensures o !in immortal && o !in marked && o !in second ==>
              FlagsAt(behind + {o}, ahead, m, s, immortal, live, marked, second + {o})
  {
  }

  lemma SweepEnds(was: seq<Obj>, gone: set<Obj>, m: set<Obj>, s: set<Obj>, immortal: set<Obj>, refs0: Refs,
                  kept: seq<Obj>, refs: Refs, marked: set<Obj>, second: set<Obj>)
    requires Sweeping(was, gone, m, s, immortal, refs0, |was|, kept, refs, marked, second)
    ensures kept == Filtered(was, gone) && (forall o :: o in kept <==> o in refs) && Distinct(was)
    ensures (forall o | o in refs :: o in refs0 && refs[o] == refs0[o]) && marked == {}
    ensures forall o :: o in second <==> o in kept && o !in m && o !in immortal
  {
    assert was[..|was|] == was && was[|was|..] == [];
    assert Members([]) == {};
  }

  /** The element at a cut is nowhere else. */
  lemma AtCut(was: seq<Obj>, k: nat)
    requires k < |was| && Distinct(was)
    ensures was[k] in was[k..] && was[k] !in was[k + 1..] && was[k] !in was[..k] && was[k..] == [was[k]] + was[k + 1..]
  {
  }

  lemma FilteredNext(was: seq<Obj>, k: nat, gone: set<Obj>)
    requires k < |was|
    ensures Filtered(was[..k + 1], gone) == Filtered(was[..k], gone) + if was[k] in gone then [] else [was[k]]
  {
    assert was[..k + 1][..k] == was[..k];
  }

  /** The list is what has been kept and what is still to come. */
  ghost predicate Split(list: seq<Obj>, kept: seq<Obj>, was: seq<Obj>, k: nat) {
    k <= |was| && list == kept + was[k..]
  }

  lemma SplitStarts(head: Option<Obj>, next: map<Obj, Option<Obj>>, list: seq<Obj>)
    requires Chain(head, next, list)
    ensures Split(list, [], list, 0) && Last([]) == None
    ensures head == if list == [] then None else Some(list[0])
  {
  }

  lemma SplitNext(list: seq<Obj>, kept: seq<Obj>, was: seq<Obj>, k: nat)
    requires k < |was| && Split(list, kept, was, k)
    ensures list == kept + [was[k]] + was[k + 1..]
    ensures Split(list, kept + [was[k]], was, k + 1) && Last(kept + [was[k]]) == Some(was[k])
    ensures Split(kept + was[k + 1..], kept, was, k + 1)
  {
  }

  lemma SplitEnds(list: seq<Obj>, kept: seq<Obj>, was: seq<Obj>)
    requires Split(list, kept, was, |was|)
    ensures list == kept
  {
  }

  lemma NextOf(head: Option<Obj>, next: map<Obj, Option<Obj>>, list: seq<Obj>, kept: seq<Obj>, was: seq<Obj>, k: nat)
    requires k < |was| && Chain(head, next, list) && Split(list, kept, was, k)
    ensures was[k] in next && next[was[k]] == if k + 1 < |was| then Some(was[k + 1]) else None
  {
    assert list[|kept|] == was[k];
    assert next[list[|kept|]] == After(list, |kept|);
  }

  /** Taking an object out of the chain. */
  lemma Unlinked(head: Option<Obj>, next: map<Obj, Option<Obj>>, a: seq<Obj>, x: Obj, b: seq<Obj>)
    requires Chain(head, next, a + [x] + b) && Distinct(a + [x] + b) && x in next
    ensures a != [] ==> Chain(head, next[a[|a| - 1] := next[x]] - {x}, a + b)
    ensures a == [] ==> Chain(next[x], next - {x}, a + b)
    ensures Distinct(a + b)
  {
    hide Distinct, After;
    var list, list' := a + [x] + b, a + b;
    Around(a, x, b);
    assert list[|a|] == x && next[x] == After(list, |a|);
    if a == [] {
      FirstAfter(list, list');
      hide Chain;
      assert Chain(next[x], next - {x}, list') by { ChainWithout(head, next, a, x, b); }
    } else {
      ChainAround(head, next, a, x, b);
    }
  }

  lemma ChainWithout(head: Option<Obj>, next: map<Obj, Option<Obj>>, a: seq<Obj>, x: Obj, b: seq<Obj>)
    requires a == [] && Chain(head, next, a + [x] + b) && Distinct(a + [x] + b) && x in next
    ensures Chain(next[x], next - {x}, a + b)
  {
    hide Distinct, After;
    var list, list' := a + [x] + b, a + b;
    Around(a, x, b);
    FirstAfter(list, list');
    assert list[0] == x;
    forall i | 0 <= i < |list'|
      ensures list'[i] in next - {x} && (next - {x})[list'[i]] == After(list', i)
    {
      assert list'[i] == list[i + 1];
    }
  }

  lemma ChainAround(head: Option<Obj>, next: map<Obj, Option<Obj>>, a: seq<Obj>, x: Obj, b: seq<Obj>)
    requires a != [] && Chain(head, next, a + [x] + b) && Distinct(a + [x] + b) && x in next
    ensures Chain(head, next[a[|a| - 1] := next[x]] - {x}, a + b)
  {
    hide Distinct, After;
    var list, list' := a + [x] + b, a + b;
    Around(a, x, b);
    assert list[|a|] == x;
    var next' := next[a[|a| - 1] := next[x]] - {x};
    forall i | 0 <= i < |list'|
      ensures list'[i] in next' && next'[list'[i]] == After(list', i)
    {
      assert list'[i] == if i < |a| then list[i] else list[i + 1];
    }
  }

  /** Positions once x has gone. */
  lemma Around(a: seq<Obj>, x: Obj, b: seq<Obj>)
    requires Distinct(a + [x] + b)
    ensures Distinct(a + b)
    ensures forall i | 0 <= i < |a + b| :: (a + b)[i] == (if i < |a| then (a + [x] + b)[i] else (a + [x] + b)[i + 1]) && (a + b)[i] != x
    ensures a != [] ==> forall i | 0 <= i < |a + b| && i != |a| - 1 :: (a + b)[i] != a[|a| - 1]
    ensures forall i | 0 <= i < |a + b| ::
              After(a + b, i) == After(a + [x] + b, if i + 1 < |a| then i else if i + 1 == |a| then |a| else i + 1)
  {
    var list, list' := a + [x] + b, a + b;
    assert list[|a|] == x && (a != [] ==> list[|a| - 1] == a[|a| - 1]);
    forall i | 0 <= i < |list'|
      ensures list'[i] == (if i < |a| then list[i] else list[i + 1]) && list'[i] != x
    {
    }
    forall i, j | 0 <= i < j < |list'| ensures list'[i] != list'[j] {
      var i', j' := if i < |a| then i else i + 1, if j < |a| then j else j + 1;
      assert list[i'] != list[j'];
    }
  }

  lemma FirstAfter(list: seq<Obj>, list': seq<Obj>)
    requires |list| > 0 && list' == list[1..]
    ensures After(list, 0) == if list' == [] then None else Some(list'[0])
  {
  }

  /** What is unreachable and mortal lasts one collection more, never two. */
  lemma TwoCollections(s: State)
    requires forall o | Reached(s, o) :: o in s.refs
    ensures forall o :: o in Collected(Collected(s)).refs <==> o in s.refs && (Reached(s, o) || o in s.immortal)
  {
    hide Reached;
    CollectedReaches(s);
  }

  // ----- runs of the program between collections -----

  /** A program makes objects, stores into them and moves its roots, with references it can reach. */
  datatype Action = Allocate(o: Obj, rs: seq<Obj>) | Store(o: Obj, rs: seq<Obj>) | SetRoots(rs: seq<Obj>) | Collection

  ghost predicate CanReach(s: State, rs: seq<Obj>) {
    forall r | r in rs :: Reached(s, r)
  }

  ghost predicate Enabled(s: State, a: Action) {
    match a
    case Allocate(o, rs) => o !in s.refs && CanReach(s, rs)
    case Store(o, rs) => Reached(s, o) && CanReach(s, rs)
    case SetRoots(rs) => CanReach(s, rs)
    case Collection => true
  }

  ghost function Act(s: State, a: Action): State {
    match a
    case Allocate(o, rs) => s.(refs := s.refs[o := rs], roots := s.roots + [o])
    case Store(o, rs) => s.(refs := s.refs[o := rs])
    case SetRoots(rs) => s.(roots := rs)
    case Collection => Collected(s)
  }

  /** An object no root leads to, that only its flag keeps. */
  ghost predicate Stranded(s: State, o: Obj) {
    o in s.immortal && !Reached(s, o)
  }

  ghost predicate Refers(s: State, o: Obj, r: Obj) {
    o in s.refs && r in s.refs[o]
  }

  /** Flags mark only what cannot be reached; what refers to a flagged object is flagged too, and what refers to a
      freed one is stranded. */
  ghost predicate Sound(s: State) {
    && (forall o | Reached(s, o) :: o in s.refs)
    && (forall o | o in s.second :: o in s.refs && !Reached(s, o))
    && (forall o, r | Refers(s, o, r) && r in s.second :: o in s.second || Stranded(s, o))
    && forall o, r | Refers(s, o, r) && r !in s.refs :: Stranded(s, o)
  }

  lemma ReferentReached(s: State, o: Obj, r: Obj)
    requires Reached(s, o) && Refers(s, o, r)
    ensures Reached(s, r)
  {
    ReferentReachable(s.refs, s.roots, o, r);
  }

  lemma CollectionSound(s: State)
    requires Sound(s)
    ensures Sound(Collected(s))
  {
    var t := Collected(s);
    CollectedReaches(s);
    hide Reached;
    forall o, r | Refers(t, o, r) && (r in t.second || r !in t.refs)
      ensures o in t.second || Stranded(t, o)
      ensures r !in t.refs ==> Stranded(t, o)
    {
      assert Refers(s, o, r);
      if Reached(s, o) {
        ReferentReached(s, o, r);
      }
    }
  }

  /** A program cannot bring back what it cannot reach. */
  lemma ReachedBefore(s: State, a: Action)
    requires Sound(s) && Enabled(s, a) && !a.Collection?
    ensures forall o | Reached(Act(s, a), o) :: Reached(s, o) || (a.Allocate? && o == a.o)
  {
    var t := Act(s, a);
    var seen := (set o | o in s.refs && Reached(s, o)) + if a.Allocate? then {a.o} else {};
    forall o | o in t.roots ensures o in seen {
      if a.Store? || (a.Allocate? && o in s.roots) {
        RootReachable(s.refs, s.roots, o);
      }
      assert Reached(s, o) || (a.Allocate? && o == a.o);
    }
    forall o, r | o in seen && o in t.refs && r in t.refs[o] ensures r in seen {
      if Reached(s, o) && Refers(s, o, r) {
        ReferentReached(s, o, r);
      }
      assert Reached(s, r);
    }
    ClosedReachable(t.refs, t.roots, seen);
  }

  lemma ActSound(s: State, a: Action)
    requires Sound(s) && Enabled(s, a)
    ensures Sound(Act(s, a))
  {
    if a.Collection? {
      CollectionSound(s);
    } else {
      ReachedBefore(s, a);
      hide Reached;
      var t := Act(s, a);
      forall o, r | Refers(t, o, r) && (r in t.second || r !in t.refs)
        ensures o in t.second || Stranded(t, o)
        ensures r !in t.refs ==> Stranded(t, o)
      {
        assert Refers(s, o, r);
      }
    }
  }

  ghost predicate Runs(s: State, actions: seq<Action>)
    decreases |actions|
  {
    actions != [] ==> Enabled(s, actions[0]) && Runs(Act(s, actions[0]), actions[1..])
  }

  ghost function Run(s: State, actions: seq<Action>): State
    decreases |actions|
  {
    if actions == [] then s else Run(Act(s, actions[0]), actions[1..])
  }

  /** Over any run, everything reachable is there, and only a stranded immortal object can refer to one that is not. */
  lemma {:induction false} NothingDangles(s: State, actions: seq<Action>)
    requires Sound(s) && Runs(s, actions)
    ensures var t := Run(s, actions);
            && (forall o | Reached(t, o) :: o in t.refs)
            && forall o, r | Refers(t, o, r) && !Stranded(t, o) :: r in t.refs
    decreases |actions|
  {
    hide Act, Enabled, Reached, Refers, Stranded;
    if actions != [] {
      ActSound(s, actions[0]);
      NothingDangles(Act(s, actions[0]), actions[1..]);
      assert Run(s, actions) == Run(Act(s, actions[0]), actions[1..]);
    }
  }

  ghost predicate Dangles(s: State, o: Obj, r: Obj) {
    Refers(s, o, r) && r !in s.refs
  }

  /** A collection leaves a dangling reference exactly when a stranded object refers to what it frees, or to what had
      gone already. */
  lemma CollectionDangles(s: State)
    requires Sound(s)
    ensures (exists o, r :: Dangles(Collected(s), o, r)) <==>
              exists o, r :: Stranded(s, o) && Refers(s, o, r) && (r !in s.refs || r in Garbage(s))
  {
    hide Reached;
    var t := Collected(s);
    if o, r :| Dangles(t, o, r) {
      assert Refers(s, o, r);
      if Reached(s, o) {
        ReferentReached(s, o, r);
      }
      assert Stranded(s, o);
    }
    if o, r :| Stranded(s, o) && Refers(s, o, r) && (r !in s.refs || r in Garbage(s)) {
      assert Dangles(t, o, r);
    }
  }

  /** After two, in terms a caller can read off before the first: nothing dangles exactly when all that a stranded object
      refers to is there, and reachable or immortal itself. */
  lemma TwiceDangles(s: State)
    requires Sound(s)
    ensures (forall o, r :: !Dangles(Collected(Collected(s)), o, r)) <==>
              forall o, r | Stranded(s, o) && Refers(s, o, r) :: r in s.refs && (Reached(s, r) || r in s.immortal)
  {
    hide Reached, Garbage;
    TwoCollections(s);
    var t := Collected(Collected(s));
    forall o, r
      ensures Dangles(t, o, r) <==> Refers(s, o, r) && Stranded(s, o) && !(r in s.refs && (Reached(s, r) || r in s.immortal))
    {
      if Refers(s, o, r) && Reached(s, o) {
        ReferentReached(s, o, r);
      }
      assert o in t.refs <==> o in s.refs && (Reached(s, o) || o in s.immortal);
      assert r in t.refs <==> r in s.refs && (Reached(s, r) || r in s.immortal);
    }
  }

  /** A stranded immortal can: what it refers to goes at the second collection. */
  lemma StrandedDangles()
    ensures var s := State(map[0 := [1], 1 := []], [], {}, {0});
            Sound(s) && Refers(Collected(Collected(s)), 0, 1) && 1 !in Collected(Collected(s)).refs
  {
    var s := State(map[0 := [1], 1 := []], [], {}, {0});
    ClosedReachable(s.refs, s.roots, {});
    assert forall o :: Reached(s, o) ==> o in {};
    TwoCollections(s);
    CollectedReaches(s);
    CollectedReaches(Collected(s));
    hide Reached;
    assert 0 in Collected(s).refs && 0 in Collected(Collected(s)).refs;
  }
}
