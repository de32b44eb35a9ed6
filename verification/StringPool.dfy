/** The strings of src/object.c under collection: one table holds each text once, and a collection drops from it what it
    could not mark, a whole collection before the object itself may go. */
module StringPool {
  import opened Collector

  /** The heap, the strings the table holds, and the text of every string object that is still there. */
  datatype Pool = Pool(heap: State, table: set<Obj>, text: map<Obj, string>)

  ghost predicate Found(p: Pool, x: string, o: Obj) {
    o in p.table && o in p.text && p.text[o] == x
  }

  /** Two objects for one text. */
  ghost predicate Twice(p: Pool, x: string, a: Obj, b: Obj) {
    a != b && a in p.text && b in p.text && p.text[a] == x == p.text[b]
  }

  /** A collection, with what it does to the table. */
  ghost function Swept(p: Pool): Pool {
    var heap := Collected(p.heap);
    Pool(heap, set o | o in p.table && Reached(p.heap, o), map o | o in p.text && o in heap.refs :: p.text[o])
  }

  /** krk_copyString gives r, which the caller then holds: the table's string of that text, or a new one. (Making the new one
      may collect first; a text that was not in the table before a collection is not in it after.) */
  ghost predicate Copies(p: Pool, x: string, r: Obj, q: Pool) {
    if exists o :: Found(p, x, o) then
      Found(p, x, r) && q == p.(heap := p.heap.(roots := p.heap.roots + [r]))
    else
      r !in p.heap.refs && q == Pool(Act(p.heap, Allocate(r, [])), p.table + {r}, p.text[r := x])
  }

  /** The table holds reachable strings all, and each text once; nothing in it is flagged to go. */
  ghost predicate PoolOk(p: Pool) {
    && Sound(p.heap) && (forall o | o in p.text :: o in p.heap.refs && p.heap.refs[o] == [])
    && (forall o | o in p.table :: o in p.text && o !in p.heap.second)
    && (forall o | o in p.text && Reached(p.heap, o) :: o in p.table)
    && forall a, b | a in p.table && b in p.table && a != b :: p.text[a] != p.text[b]
  }

  datatype Event = Does(action: Action) | Makes(text: string, result: Obj)

  /** A step of a program. It stores into no string, and makes strings only through the table. */
  ghost predicate Steps(p: Pool, e: Event, q: Pool) {
    match e
    case Makes(x, r) => Copies(p, x, r, q)
    case Does(a) =>
      && Enabled(p.heap, a) && (a.Store? ==> a.o !in p.text)
      && q == if a.Collection? then Swept(p) else p.(heap := Act(p.heap, a))
  }

  lemma SweptOk(p: Pool)
    requires PoolOk(p)
    ensures PoolOk(Swept(p))
  {
    CollectionSound(p.heap);
    CollectedReaches(p.heap);
    hide Reached, Sound;
  }

  lemma DoesOk(p: Pool, a: Action)
    requires PoolOk(p) && Enabled(p.heap, a) && !a.Collection? && (a.Store? ==> a.o !in p.text)
    ensures PoolOk(p.(heap := Act(p.heap, a)))
  {
    ActSound(p.heap, a);
    ReachedBefore(p.heap, a);
    hide Reached, Sound;
  }

  /** A string the table gives back has no references, so holding it brings back itself alone. */
  lemma HeldReaches(s: State, r: Obj)
    requires r in s.refs && s.refs[r] == []
    ensures forall o | Reached(s.(roots := s.roots + [r]), o) :: Reached(s, o) || o == r
  {
    var t := s.(roots := s.roots + [r]);
    forall o | Reached(t, o) ensures Reached(s, o) || o == r {
      var p :| Ends(t.refs, t.roots, o, p);
      assert |p| > 1 ==> p[0] in t.refs && p[1] in t.refs[p[0]];
      if p[0] in s.roots {
        assert Ends(s.refs, s.roots, o, p);
      }
    }
  }

  lemma HeldKeeps(s: State, r: Obj)
    ensures forall o | Reached(s, o) :: Reached(s.(roots := s.roots + [r]), o)
  {
    forall o | Reached(s, o) ensures Reached(s.(roots := s.roots + [r]), o) {
      var p :| Ends(s.refs, s.roots, o, p);
      assert Ends(s.refs, s.roots + [r], o, p);
    }
  }

  lemma HeldOk(p: Pool, r: Obj)
    requires PoolOk(p) && r in p.table
    ensures PoolOk(p.(heap := p.heap.(roots := p.heap.roots + [r])))
  {
    HeldReaches(p.heap, r);
    HeldKeeps(p.heap, r);
    hide Reached;
    var t := p.heap.(roots := p.heap.roots + [r]);
    forall o, x | Refers(t, o, x) && (x in t.second || x !in t.refs)
      ensures o in t.second || Stranded(t, o)
      ensures x !in t.refs ==> Stranded(t, o)
    {
      assert Refers(p.heap, o, x);
    }
  }

  lemma CopiesOk(p: Pool, x: string, r: Obj, q: Pool)
    requires PoolOk(p) && Copies(p, x, r, q)
    ensures PoolOk(q) && Found(q, x, r)
  {
    if exists o :: Found(p, x, o) {
      HeldOk(p, r);
    } else {
      var a := Allocate(r, []);
      ActSound(p.heap, a);
      ReachedBefore(p.heap, a);
      hide Reached, Sound;
      forall o | o in q.table && o != r ensures q.text[o] != x {
        assert !Found(p, x, o);
      }
    }
  }

  lemma StepsOk(p: Pool, e: Event, q: Pool)
    requires PoolOk(p) && Steps(p, e, q)
    ensures PoolOk(q)
  {
    hide PoolOk, Copies, Reached;
    match e
    case Makes(x, r) => CopiesOk(p, x, r, q);
    case Does(a) =>
      if a.Collection? {
        SweptOk(p);
      } else {
        DoesOk(p, a);
      }
  }

  ghost predicate History(pools: seq<Pool>, events: seq<Event>) {
    |pools| == |events| + 1 && forall i | 0 <= i < |events| :: Steps(pools[i], events[i], pools[i + 1])
  }

  /** Over any run, two reachable strings with the same text are the same object, and a string that the table gives back
      is one that no later step can have freed. */
  lemma {:induction false} OneOfEach(pools: seq<Pool>, events: seq<Event>)
    requires History(pools, events) && PoolOk(pools[0])
    ensures var q := pools[|events|];
            && PoolOk(q)
            && (forall a, b | a in q.text && b in q.text && Reached(q.heap, a) && Reached(q.heap, b) && q.text[a] == q.text[b] :: a == b)
            && forall a | a in q.table :: a in q.heap.refs && a !in Garbage(q.heap)
    decreases |events|
  {
    hide Reached, Steps;
    if events != [] {
      var n := |events| - 1;
      OneOfEach(pools[..n + 1], events[..n]);
      assert Steps(pools[n], events[n], pools[n + 1]);
      StepsOk(pools[n], events[n], pools[n + 1]);
    }
  }

  ghost predicate Once(p: Pool, x: string) {
    forall a, b :: !Twice(p, x, a, b)
  }

  /** The string cannot be reached, and the next collection keeps it all the same: it has no flag yet, or never goes. */
  ghost predicate Lingers(p: Pool, x: string, o: Obj) {
    o in p.text && p.text[o] == x && !Reached(p.heap, o) && (o in p.heap.immortal || o !in p.heap.second)
  }

  /** After a collection, a text there was one string of is made a second time exactly when that string lingers. */
  lemma MadeTwice(p: Pool, x: string, r: Obj, q: Pool)
    requires PoolOk(p) && Once(p, x) && Copies(Swept(p), x, r, q)
    ensures Once(q, x) <==> forall o :: !Lingers(p, x, o)
  {
    hide Reached, Sound;
    var s := Swept(p);
    if o :| Lingers(p, x, o) {
      assert o in s.text;
      forall y ensures !Found(s, x, y) {
        assert !Twice(p, x, o, y);
      }
      assert Twice(q, x, o, r);
    }
    if a, b :| Twice(q, x, a, b) {
      var o := if a == r then b else a;
      assert !Twice(p, x, a, b) && !Found(s, x, o);
      assert Lingers(p, x, o);
    }
  }

  lemma NothingHeld(s: State)
    requires s.roots == []
    ensures forall o :: !Reached(s, o)
  {
    ClosedReachable(s.refs, s.roots, {});
    forall o ensures !Reached(s, o) {
      assert Reached(s, o) ==> o in {};
    }
  }

  /** One string, which nothing holds any more: a collection, and its text is made again. */
  lemma MadeTwiceOccurs()
    ensures var p := Pool(State(map[0 := []], [], {}, {}), {0}, map[0 := "a"]);
            PoolOk(p) && Once(p, "a") && exists q :: Copies(Swept(p), "a", 1, q) && !Once(q, "a")
  {
    var p := Pool(State(map[0 := []], [], {}, {}), {0}, map[0 := "a"]);
    hide Reached;
    NothingHeld(p.heap);
    var s := Swept(p);
    assert 0 in s.text && forall o :: !Found(s, "a", o);
    var q := Pool(Act(s.heap, Allocate(1, [])), s.table + {1}, s.text[1 := "a"]);
    assert Copies(s, "a", 1, q) && Twice(q, "a", 0, 1);
  }
}
