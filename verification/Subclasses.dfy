/** Classes under collection: a class's table of subclasses is not marked through, and loses a class only when that is
    freed, so `__subclasses__` (src/obj_base.c) hands out classes that nothing else leads to. */
module Subclasses {
  import opened Collector

  /** The heap, and the base of every class that is still there. */
  datatype Classes = Classes(heap: State, base: map<Obj, Obj>)

  /** The keys of a class's table. */
  ghost function Table(k: Classes, b: Obj): (cs: set<Obj>)
    ensures forall c :: c in cs <==> c in k.base && k.base[c] == b
  {
    set c | c in k.base && k.base[c] == b
  }

  /** A class refers to its base. No object is immortal: nothing in the repository makes one so. */
  ghost predicate ClassesOk(k: Classes) {
    && Sound(k.heap) && k.heap.immortal == {}
    && forall c | c in k.base :: c in k.heap.refs && Refers(k.heap, c, k.base[c])
  }

  datatype Event = Does(action: Action) | MakesClass(c: Obj, base: Obj, rs: seq<Obj>) | HandsOut(base: Obj, cs: seq<Obj>)

  /** A step of a program: one that uses only what it can reach and leaves a class its base, a class statement, or a call
      of `__subclasses__`, after which it holds every class of the table. */
  ghost predicate Steps(k: Classes, e: Event, l: Classes) {
    match e
    case Does(a) =>
      && Enabled(k.heap, a) && (a.Store? && a.o in k.base ==> k.base[a.o] in a.rs)
      && l == var heap := Act(k.heap, a); Classes(heap, map c | c in k.base && c in heap.refs :: k.base[c])
    case MakesClass(c, b, rs) =>
      var made := Allocate(c, [b] + rs);
      Enabled(k.heap, made) && l == Classes(Act(k.heap, made), k.base[c := b])
    case HandsOut(b, cs) =>
      && Reached(k.heap, b) && (forall c :: c in cs <==> c in Table(k, b))
      && l == k.(heap := k.heap.(roots := k.heap.roots + cs))
  }

  /** Nothing handed out is flagged to go. */
  ghost predicate Careful(k: Classes, e: Event) {
    e.HandsOut? ==> forall c | c in Table(k, e.base) :: c !in k.heap.second
  }

  ghost predicate Broken(s: State) {
    exists o, r :: Dangles(s, o, r)
  }

  // ----- what keeps the heap whole -----

  /** Holding more of what is there and not flagged. */
  lemma HeldSound(s: State, cs: seq<Obj>)
    requires Sound(s) && s.immortal == {} && forall c | c in cs :: c in s.refs && c !in s.second
    ensures Sound(s.(roots := s.roots + cs))
  {
    var t := s.(roots := s.roots + cs);
    var kept := set o | o in s.refs && o !in s.second;
    forall o | o in t.roots ensures o in kept {
      if o in s.roots {
        RootReachable(s.refs, s.roots, o);
        assert Reached(s, o);
      }
    }
    forall o, r | o in kept && o in s.refs && r in s.refs[o] ensures r in kept {
      assert Refers(s, o, r);
    }
    ClosedReachable(t.refs, t.roots, kept);
    hide Reachable;
    forall o, r | Refers(t, o, r) && (r in t.second || r !in t.refs) ensures o in t.second && r in t.refs {
      assert Refers(s, o, r);
    }
  }

  lemma DoesOk(k: Classes, a: Action, l: Classes)
    requires ClassesOk(k) && Steps(k, Does(a), l)
    ensures ClassesOk(l)
  {
    ActSound(k.heap, a);
    hide Sound, Reached, Garbage;
    forall c | c in l.base ensures Refers(l.heap, c, l.base[c]) {
      assert Refers(k.heap, c, k.base[c]);
    }
  }

  lemma MakesOk(k: Classes, c: Obj, b: Obj, rs: seq<Obj>, l: Classes)
    requires ClassesOk(k) && Steps(k, MakesClass(c, b, rs), l)
    ensures ClassesOk(l)
  {
    ActSound(k.heap, Allocate(c, [b] + rs));
    hide Sound, Reached;
    forall d | d in l.base ensures Refers(l.heap, d, l.base[d]) {
      assert d != c ==> Refers(k.heap, d, k.base[d]);
    }
  }

  lemma StepsOk(k: Classes, e: Event, l: Classes)
    requires ClassesOk(k) && Steps(k, e, l) && Careful(k, e)
    ensures ClassesOk(l)
  {
    match e
    case Does(a) => DoesOk(k, a, l);
    case MakesClass(c, b, rs) => MakesOk(k, c, b, rs, l);
    case HandsOut(b, cs) =>
      HeldSound(k.heap, cs);
      hide Sound, Reached;
      forall c | c in l.base ensures Refers(l.heap, c, l.base[c]) {
        assert Refers(k.heap, c, k.base[c]);
      }
  }

  ghost predicate History(ks: seq<Classes>, events: seq<Event>) {
    |ks| == |events| + 1 && forall i | 0 <= i < |events| :: Steps(ks[i], events[i], ks[i + 1])
  }

  /** Over any run in which no class handed out was flagged, every reference there is leads to something that is there. */
  lemma {:induction false} NothingBreaks(ks: seq<Classes>, events: seq<Event>)
    requires History(ks, events) && ClassesOk(ks[0]) && forall i | 0 <= i < |events| :: Careful(ks[i], events[i])
    ensures var l := ks[|events|]; ClassesOk(l) && !Broken(l.heap) && forall o | Reached(l.heap, o) :: o in l.heap.refs
    decreases |events|
  {
    hide Steps, Careful, Reached;
    if events == [] {
      assert Runs(ks[0].heap, []);
      NothingDangles(ks[0].heap, []);
    } else {
      var n := |events| - 1;
      NothingBreaks(ks[..n + 1], events[..n]);
      assert Steps(ks[n], events[n], ks[n + 1]);
      StepsOk(ks[n], events[n], ks[n + 1]);
    }
  }

  // ----- exactly then -----

  lemma {:induction false} SameImmortals(s: State, actions: seq<Action>)
    ensures Run(s, actions).immortal == s.immortal
    decreases |actions|
  {
    hide Reached, Garbage;
    if actions != [] {
      SameImmortals(Act(s, actions[0]), actions[1..]);
    }
  }

  lemma {:induction false} FreshObj(taken: set<Obj>) returns (o: Obj)
    ensures o !in taken && forall x | x in taken :: x < o
    decreases taken
  {
    if taken == {} {
      o := 0;
    } else {
      var x :| x in taken;
      o := FreshObj(taken - {x});
      o := if o <= x then x + 1 else o;
      forall y | y in taken ensures y < o {
        assert y == x || y in taken - {x};
      }
    }
  }

  /** A flagged object that can be reached again: a new one that refers to it, both dropped, and the next collection
      frees the one and keeps the other. */
  lemma FlagBreaks(s: State, c: Obj) returns (actions: seq<Action>)
    requires c in s.refs && c in s.second && c in s.roots && s.immortal == {}
    requires forall o | o in s.second :: o in s.refs
    ensures Runs(s, actions) && Broken(Run(s, actions))
  {
    var d := FreshObj(s.refs.Keys);
    var made := Act(s, Allocate(d, [c]));
    var dropped := Act(made, SetRoots([]));
    var swept := Act(dropped, Collection);
    RootReachable(s.refs, s.roots, c);
    ClosedReachable(dropped.refs, dropped.roots, {});
    assert forall o :: Reached(dropped, o) ==> o in {};
    assert c in Garbage(dropped) && d !in Garbage(dropped);
    assert Dangles(swept, d, c);
    actions := [Allocate(d, [c]), SetRoots([]), Collection];
    assert Reached(s, c);
    hide Reached, Garbage, Collected;
    ThreeSteps(s, actions);
  }

  lemma ThreeSteps(s: State, actions: seq<Action>)
    requires |actions| == 3
    ensures var (a, b, c) := (actions[0], actions[1], actions[2]);
      && Run(s, actions) == Act(Act(Act(s, a), b), c)
      && (Enabled(s, a) && Enabled(Act(s, a), b) && Enabled(Act(Act(s, a), b), c) ==> Runs(s, actions))
  {
    hide Act, Enabled;
    var s1 := Act(s, actions[0]);
    var s2 := Act(s1, actions[1]);
    var s3 := Act(s2, actions[2]);
    var last, rest := actions[2..], actions[1..];
    assert last == [actions[2]] && rest == [actions[1]] + last && actions == [actions[0]] + rest && last[1..] == [];
    assert rest[1..] == last;
    assert Run(s3, []) == s3 && Runs(s3, []);
    assert Run(s2, last) == Run(s3, last[1..]) && (Enabled(s2, last[0]) ==> Runs(s2, last));
    assert Run(s1, rest) == Run(s2, last) && (Enabled(s1, rest[0]) && Runs(s2, last) ==> Runs(s1, rest));
    assert Run(s, actions) == Run(s1, rest) && (Enabled(s, actions[0]) && Runs(s1, rest) ==> Runs(s, actions));
  }

  /** After `__subclasses__` a program that does nothing but use what it then reaches can break the heap exactly if one of
      the classes it was handed is flagged. */
  lemma HandedOutBreaks(k: Classes, b: Obj, cs: seq<Obj>, l: Classes)
    requires ClassesOk(k) && Steps(k, HandsOut(b, cs), l)
    ensures (exists actions :: Runs(l.heap, actions) && Broken(Run(l.heap, actions)))
       <==> exists c :: c in Table(k, b) && c in k.heap.second
  {
    hide Reached, Enabled, Act;
    if c :| c in Table(k, b) && c in k.heap.second {
      var actions := FlagBreaks(l.heap, c);
    } else {
      StepsOk(k, HandsOut(b, cs), l);
      forall actions | Runs(l.heap, actions) ensures !Broken(Run(l.heap, actions)) {
        NothingDangles(l.heap, actions);
        SameImmortals(l.heap, actions);
      }
    }
  }

  lemma OnlyBase(s: State)
    requires s.roots == [0] && 0 in s.refs && s.refs[0] == []
    ensures forall o :: Reached(s, o) <==> o == 0
  {
    ClosedReachable(s.refs, s.roots, {0});
    RootReachable(s.refs, s.roots, 0);
    forall o ensures Reached(s, o) <==> o == 0 {
      assert Reached(s, o) ==> o in {0};
    }
  }

  /** The heap with class 0 held, class 1 made from it and dropped: one collection flags class 1. */
  lemma Dropped(k: Classes) returns (l: Classes)
    requires k == Classes(State(map[0 := [], 1 := [0]], [0], {}, {}), map[1 := 0])
    ensures l == k.(heap := k.heap.(second := {1})) && Steps(k, Does(Collection), l)
  {
    l := k.(heap := k.heap.(second := {1}));
    OnlyBase(k.heap);
    hide Reached;
    assert Garbage(k.heap) == {};
    assert Collected(k.heap) == l.heap;
    assert l.base == map c | c in k.base && c in l.heap.refs :: k.base[c];
  }

  /** Class 2, which refers to class 1, made and dropped with it: a collection frees class 1 and flags class 2. */
  lemma DroppedAgain(k: Classes) returns (l: Classes)
    requires k == Classes(State(map[0 := [], 1 := [0], 2 := [0, 1]], [0], {1}, {}), map[1 := 0, 2 := 0])
    ensures l == Classes(State(map[0 := [], 2 := [0, 1]], [0], {2}, {}), map[2 := 0]) && Steps(k, Does(Collection), l)
  {
    l := Classes(State(map[0 := [], 2 := [0, 1]], [0], {2}, {}), map[2 := 0]);
    OnlyBase(k.heap);
    hide Reached;
    assert Garbage(k.heap) == {1};
    assert Collected(k.heap) == l.heap;
    assert l.base == map c | c in k.base && c in l.heap.refs :: k.base[c];
  }

  lemma Held(k: Classes, rs: seq<Obj>)
    requires forall r | r in rs :: r in k.heap.roots
    ensures CanReach(k.heap, rs)
  {
    forall r | r in rs ensures Reached(k.heap, r) {
      RootReachable(k.heap.refs, k.heap.roots, r);
    }
  }

  lemma MakesFrom(k: Classes, c: Obj, b: Obj, rs: seq<Obj>) returns (l: Classes)
    requires c !in k.heap.refs && forall r | r in [b] + rs :: r in k.heap.roots
    ensures l == Classes(k.heap.(refs := k.heap.refs[c := [b] + rs], roots := k.heap.roots + [c]), k.base[c := b])
    ensures Steps(k, MakesClass(c, b, rs), l)
  {
    Held(k, [b] + rs);
    l := Classes(Act(k.heap, Allocate(c, [b] + rs)), k.base[c := b]);
  }

  lemma Drops(k: Classes, rs: seq<Obj>) returns (l: Classes)
    requires (forall r | r in rs :: r in k.heap.roots) && forall c | c in k.base :: c in k.heap.refs
    ensures l == k.(heap := k.heap.(roots := rs)) && Steps(k, Does(SetRoots(rs)), l)
  {
    Held(k, rs);
    l := k.(heap := k.heap.(roots := rs));
    assert l.base == map c | c in k.base && c in l.heap.refs :: k.base[c];
  }

  lemma HandsOne(k: Classes, b: Obj, c: Obj) returns (l: Classes)
    requires b in k.heap.roots && Table(k, b) == {c}
    ensures l == k.(heap := k.heap.(roots := k.heap.roots + [c])) && Steps(k, HandsOut(b, [c]), l)
  {
    Held(k, [b]);
    l := k.(heap := k.heap.(roots := k.heap.roots + [c]));
    assert forall x :: x in [c] <==> x in Table(k, b);
    assert b in [b];
  }

  /** A class made and dropped, and collected once; handed out, and put into another class; both dropped, and collected
      once more; and the other class handed out: it can be reached, and refers to one that is freed. */
  lemma HandedOutOccurs() returns (ks: seq<Classes>, events: seq<Event>)
    ensures History(ks, events) && ClassesOk(ks[0])
    ensures exists o, r :: Reached(ks[|events|].heap, o) && Dangles(ks[|events|].heap, o, r)
  {
    hide Steps, Reached, Table;
    var k0 := Classes(State(map[0 := []], [0], {}, {}), map[]);
    OnlyBase(k0.heap);
    var k1 := MakesFrom(k0, 1, 0, []);
    assert [0] + [] == [0];
    var k2 := Drops(k1, [0]);
    var k3 := Dropped(k2);
    OneSubclass(k3, 1);
    var k4 := HandsOne(k3, 0, 1);
    var k5 := MakesFrom(k4, 2, 0, [1]);
    var k6 := Drops(k5, [0]);
    assert [0] + [1] == [0, 1];
    var k7 := DroppedAgain(k6);
    OneSubclass(k7, 2);
    var k8 := HandsOne(k7, 0, 2);
    LeadsNowhere(k8);
    ks := [k0, k1, k2, k3, k4, k5, k6, k7, k8];
    events := [MakesClass(1, 0, []), Does(SetRoots([0])), Does(Collection), HandsOut(0, [1]), MakesClass(2, 0, [1]),
               Does(SetRoots([0])), Does(Collection), HandsOut(0, [2])];
    assert |events| == 8 && ks[8] == k8;
  }

  lemma LeadsNowhere(k: Classes)
    requires k.heap.refs == map[0 := [], 2 := [0, 1]] && k.heap.roots == [0] + [2]
    ensures exists o, r :: Reached(k.heap, o) && Dangles(k.heap, o, r)
  {
    RootReachable(k.heap.refs, k.heap.roots, 2);
    assert 1 in k.heap.refs[2];
    assert Reached(k.heap, 2) && Dangles(k.heap, 2, 1);
  }

  lemma OneSubclass(k: Classes, c: Obj)
    requires k.base == map[c := 0]
    ensures Table(k, 0) == {c}
  {
  }
}
