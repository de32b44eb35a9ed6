/** The inherited method cache of src/vm.c: a direct-mapped table of 4096 entries, each stamped with the cache index its
    class had. Invalidation gives a class and its subclasses index 0, and stops early at a class that already has it. */
module MethodCache {
  import opened Options

  type ClassId = nat

  /** Names are interned: one string, one object. */
  type Name = string

  datatype Class<V> = Class(base: Option<ClassId>, methods: map<Name, V>, subclasses: seq<ClassId>, hash: bv32,
                            cacheIndex: nat, eqMethod: Option<V>, hashMethod: Option<V>)

  datatype Entry<V> = Entry(name: Option<Name>, owner: Option<ClassId>, value: V, index: nat)

  /** What a lookup finds, and where. */
  datatype Answer<V> = Missing | In(owner: ClassId, value: V)

  const CACHE_SIZE := 4096
  const EQ: Name := "__eq__"
  const HASH: Name := "__hash__"

  type Classes<V> = seq<Class<V>>

  // ----- the hierarchy -----

  ghost predicate NoRepeats(list: seq<ClassId>) {
    forall i, j | 0 <= i < j < |list| :: list[i] != list[j]
  }

  /** A class is made after its base, which lists it once. */
  ghost predicate Tree<V>(cs: Classes<V>) {
    && (forall c | 0 <= c < |cs| && cs[c].base.Some? :: cs[c].base.value < c && c in cs[cs[c].base.value].subclasses)
    && (forall c, d {:trigger d in cs[c].subclasses} | 0 <= c < |cs| && d in cs[c].subclasses :: c < d < |cs| && cs[d].base == Some(c))
    && forall c | 0 <= c < |cs| :: NoRepeats(cs[c].subclasses)
  }

  /** The walk up the base chain, uncached. */
  ghost function Find<V>(cs: Classes<V>, c: ClassId, name: Name): (a: Answer<V>)
    requires c < |cs| && Tree(cs)
    ensures a.In? ==> a.owner <= c && name in cs[a.owner].methods && cs[a.owner].methods[name] == a.value
  {
    if name in cs[c].methods then In(c, cs[c].methods[name])
    else if cs[c].base.None? then Missing
    else Find(cs, cs[c].base.value, name)
  }

  /** Every class from c up to the one that has the name, or to the root, has been given an index. */
  ghost predicate Warm<V>(cs: Classes<V>, c: ClassId, name: Name)
    requires c < |cs| && Tree(cs)
  {
    cs[c].cacheIndex != 0 && (name in cs[c].methods || cs[c].base.None? || Warm(cs, cs[c].base.value, name))
  }

  /** d is c or below it, and every class from d up to c has an index. */
  ghost predicate Linked<V>(cs: Classes<V>, d: ClassId, c: ClassId)
    requires d < |cs| && Tree(cs)
  {
    cs[d].cacheIndex != 0 && (d == c || (cs[d].base.Some? && Linked(cs, cs[d].base.value, c)))
  }

  // ----- what keeps the cache right -----

  ghost predicate Good<V>(cs: Classes<V>, e: Entry<V>)
    requires Tree(cs)
  {
    e.name.Some? ==>
      && e.index != 0
      && forall c | 0 <= c < |cs| && cs[c].cacheIndex == e.index ::
           Warm(cs, c, e.name.value) && Answers(e, Find(cs, c, e.name.value))
  }

  /** The value of a cached miss means nothing. */
  ghost predicate Answers<V>(e: Entry<V>, a: Answer<V>) {
    if a.Missing? then e.owner.None? else e.owner == Some(a.owner) && e.value == a.value
  }

  ghost predicate Stamped<V>(cs: Classes<V>, next: nat) {
    && next > 0
    && (forall c | 0 <= c < |cs| :: cs[c].cacheIndex < next)
    && forall c, d | 0 <= c < d < |cs| && cs[c].cacheIndex != 0 :: cs[c].cacheIndex != cs[d].cacheIndex
  }

  ghost predicate CacheOk<V>(cs: Classes<V>, cache: seq<Entry<V>>, next: nat) {
    && Tree(cs) && Stamped(cs, next)
    && forall i | 0 <= i < |cache| :: cache[i].index < next && Good(cs, cache[i])
  }

  // ----- invalidation -----

  /** b is a after some classes were given index 0. Tables change only where the index is 0, and zeros go down:
      a class linked to one that lost its index has lost its own. */
  ghost predicate Cleared<V>(a: Classes<V>, b: Classes<V>)
    requires Tree(a)
  {
    && SameShape(a, b)
    && (forall c | 0 <= c < |a| :: b[c].cacheIndex == 0 || b[c] == a[c])
    && forall d, e | 0 <= d < |a| && 0 <= e < |a| && Linked(a, d, e) && b[e].cacheIndex == 0 :: b[d].cacheIndex == 0
  }

  ghost predicate SameShape<V>(a: Classes<V>, b: Classes<V>) {
    |a| == |b| && forall c | 0 <= c < |a| ::
      a[c].base == b[c].base && a[c].subclasses == b[c].subclasses && a[c].hash == b[c].hash
  }

  lemma ShapeTree<V>(a: Classes<V>, b: Classes<V>)
    requires SameShape(a, b) && Tree(a)
    ensures Tree(b)
  {
    forall c | 0 <= c < |b| && b[c].base.Some?
      ensures b[c].base.value < c && c in b[b[c].base.value].subclasses
    {
      assert a[c].base == b[c].base;
    }
    forall c, d | 0 <= c < |b| && d in b[c].subclasses
      ensures c < d < |b| && b[d].base == Some(c)
    {
      assert d in a[c].subclasses;
    }
    forall c | 0 <= c < |b| ensures NoRepeats(b[c].subclasses) {
      assert NoRepeats(a[c].subclasses);
    }
  }

  /** A chain that kept its bottom index kept all of them, and finds what it found. */
  lemma {:induction false} ChainKept<V>(a: Classes<V>, b: Classes<V>, d: ClassId, x: ClassId, name: Name)
    requires Tree(a) && Tree(b) && Cleared(a, b) && d < |a| && x < |a| && b[d].cacheIndex != 0
    requires Linked(a, d, x) && Warm(a, x, name)
    ensures Find(a, x, name) == Find(b, x, name) && Warm(b, x, name)
    decreases x
  {
    assert b[x] == a[x];
    if name !in a[x].methods && a[x].base.Some? {
      LinkedUp(a, d, x);
      ChainKept(a, b, d, a[x].base.value, name);
    }
  }

  lemma {:induction false} LinkedUp<V>(cs: Classes<V>, d: ClassId, x: ClassId)
    requires Tree(cs) && d < |cs| && x < |cs| && Linked(cs, d, x) && cs[x].base.Some? && cs[cs[x].base.value].cacheIndex != 0
    ensures Linked(cs, d, cs[x].base.value)
    decreases d
  {
    if d != x {
      LinkedUp(cs, cs[d].base.value, x);
    } else {
      assert Linked(cs, cs[x].base.value, cs[x].base.value);
    }
  }

  /** Clearing keeps every entry right. */
  lemma ClearedOk<V>(a: Classes<V>, b: Classes<V>, cache: seq<Entry<V>>, next: nat)
    requires CacheOk(a, cache, next) && Cleared(a, b)
    ensures CacheOk(b, cache, next)
  {
    ShapeTree(a, b);
    assert Stamped(b, next);
    forall i | 0 <= i < |cache|
      ensures Good(b, cache[i])
    {
      assert Good(a, cache[i]);
      if cache[i].name.Some? {
        forall c | 0 <= c < |b| && b[c].cacheIndex == cache[i].index
          ensures Warm(b, c, cache[i].name.value) && Find(b, c, cache[i].name.value) == Find(a, c, cache[i].name.value)
        {
          ChainKept(a, b, c, c, cache[i].name.value);
        }
      }
    }
  }

  // ----- lookups -----

  /** b is a after some classes without an index were given one. */
  ghost predicate Warmed<V>(a: Classes<V>, b: Classes<V>) {
    |a| == |b| && forall c | 0 <= c < |a| :: b[c] == a[c] || (a[c].cacheIndex == 0 && b[c] == a[c].(cacheIndex := b[c].cacheIndex))
  }

  lemma WarmedTree<V>(a: Classes<V>, b: Classes<V>)
    requires Warmed(a, b) && Tree(a)
    ensures Tree(b)
  {
    assert SameShape(a, b);
    ShapeTree(a, b);
  }

  lemma {:induction false} WarmedKeeps<V>(a: Classes<V>, b: Classes<V>, c: ClassId, name: Name)
    requires Tree(a) && Tree(b) && Warmed(a, b) && c < |a|
    ensures Find(a, c, name) == Find(b, c, name)
    ensures Warm(a, c, name) ==> Warm(b, c, name)
    decreases c
  {
    assert b[c] == a[c] || b[c] == a[c].(cacheIndex := b[c].cacheIndex);
    if name !in a[c].methods && a[c].base.Some? {
      WarmedKeeps(a, b, a[c].base.value, name);
    }
  }

  /** A new index is no entry's. */
  lemma IndexedOk<V>(a: Classes<V>, b: Classes<V>, c: ClassId, cache: seq<Entry<V>>, next: nat)
    requires CacheOk(a, cache, next) && c < |a| && a[c].cacheIndex == 0 && b == a[c := a[c].(cacheIndex := next)]
    ensures CacheOk(b, cache, next + 1) && Warmed(a, b)
  {
    WarmedTree(a, b);
    forall i | 0 <= i < |cache|
      ensures Good(b, cache[i])
    {
      assert Good(a, cache[i]);
      if cache[i].name.Some? {
        forall d | 0 <= d < |b| && b[d].cacheIndex == cache[i].index
          ensures Warm(b, d, cache[i].name.value) && Find(b, d, cache[i].name.value) == Find(a, d, cache[i].name.value)
        {
          assert d != c;
          WarmedKeeps(a, b, d, cache[i].name.value);
        }
      }
    }
  }

  /** An entry filled from a walk. */
  lemma FilledOk<V>(cs: Classes<V>, cache: seq<Entry<V>>, next: nat, slot: nat, e: Entry<V>, c: ClassId)
    requires CacheOk(cs, cache, next) && slot < |cache| && c < |cs| && e.name.Some? && e.index == cs[c].cacheIndex
    requires Warm(cs, c, e.name.value) && Answers(e, Find(cs, c, e.name.value))
    ensures CacheOk(cs, cache[slot := e], next)
  {
    forall d | 0 <= d < |cs| && cs[d].cacheIndex == e.index ensures d == c {
    }
    assert Good(cs, e);
    var cache' := cache[slot := e];
    forall i | 0 <= i < |cache'|
      ensures cache'[i].index < next && Good(cs, cache'[i])
    {
      assert i != slot ==> cache'[i] == cache[i];
    }
  }

  // ----- changing a class -----

  predicate Dunder(name: Name) {
    |name| > 1 && name[0] == '_' && name[1] == '_'
  }

  /** One class's table changed and its index gone, and everything below it cleared. */
  lemma EditedOk<V>(a: Classes<V>, edited: Classes<V>, b: Classes<V>, c: ClassId)
    requires Tree(a) && c < |a| == |edited| && edited == a[c := edited[c]] && edited[c] == a[c].(methods := edited[c].methods)
    requires Tree(edited) && Cleared(edited, b) && b[c].cacheIndex == 0
    ensures Cleared(a, b)
  {
    forall d, e | 0 <= d < |a| && 0 <= e < |a| && Linked(a, d, e) && b[e].cacheIndex == 0
      ensures b[d].cacheIndex == 0
    {
      LinkedSame(a, edited, d, e);
    }
  }

  lemma {:induction false} LinkedSame<V>(a: Classes<V>, b: Classes<V>, d: ClassId, e: ClassId)
    requires Tree(a) && Tree(b) && |a| == |b| && d < |a| && e < |a| && Linked(a, d, e)
    requires forall c | 0 <= c < |a| :: b[c].base == a[c].base && b[c].cacheIndex == a[c].cacheIndex
    ensures Linked(b, d, e)
    decreases d
  {
    if d != e {
      LinkedSame(a, b, a[d].base.value, e);
    }
  }

  /** Part of a clearing under way: c has lost its index, and so have the subclasses seen so far, with all below them. */
  ghost predicate Clearing<V>(a: Classes<V>, b: Classes<V>, c: ClassId, seen: nat)
    requires Tree(a) && c < |a| && seen <= |a[c].subclasses|
  {
    && SameShape(a, b) && b[c].cacheIndex == 0
    && (forall d | 0 <= d < c :: b[d] == a[d])
    && (forall d | 0 <= d < |a| :: b[d].cacheIndex == 0 || b[d] == a[d])
    && (forall k | 0 <= k < seen :: a[c].subclasses[k] < |b| && b[a[c].subclasses[k]].cacheIndex == 0)
    && forall d, e | 0 <= d < |a| && 0 <= e < |a| && e != c && Linked(a, d, e) && b[e].cacheIndex == 0 :: b[d].cacheIndex == 0
  }

  lemma ClearingStarts<V>(a: Classes<V>, b: Classes<V>, c: ClassId)
    requires Tree(a) && c < |a| && SameShape(a, b) && b[c].cacheIndex == 0
    requires forall d | 0 <= d < |a| && d != c :: b[d] == a[d]
    ensures Clearing(a, b, c, 0)
  {
    forall d, e | 0 <= d < |a| && 0 <= e < |a| && e != c && Linked(a, d, e)
      ensures b[e].cacheIndex != 0
    {
      LinkedTop(a, d, e);
    }
  }

  lemma {:induction false} LinkedTop<V>(cs: Classes<V>, d: ClassId, e: ClassId)
    requires Tree(cs) && d < |cs| && e < |cs| && Linked(cs, d, e)
    ensures cs[e].cacheIndex != 0 && e <= d && Linked(cs, e, e)
    decreases d
  {
    if d != e {
      LinkedTop(cs, cs[d].base.value, e);
    }
  }

  lemma ClearingNext<V>(a: Classes<V>, b: Classes<V>, b': Classes<V>, c: ClassId, seen: nat)
    requires Tree(a) && Tree(b) && c < |a| && seen < |a[c].subclasses| && Clearing(a, b, c, seen)
    requires Cleared(b, b') && a[c].subclasses[seen] < |b'| && b'[a[c].subclasses[seen]].cacheIndex == 0
    requires forall d | 0 <= d < a[c].subclasses[seen] :: b'[d] == b[d]
    ensures Clearing(a, b', c, seen + 1)
  {
    var s := a[c].subclasses[seen];
    assert s in a[c].subclasses;
    forall d, e | 0 <= d < |a| && 0 <= e < |a| && e != c && Linked(a, d, e)
      ensures b'[e].cacheIndex == 0 ==> b'[d].cacheIndex == 0
    {
      ClearingLink(a, b, b', c, seen, d, e);
    }
    assert SameShape(a, b') by { hide Linked; }
    forall d | 0 <= d < |a|
      ensures (b'[d].cacheIndex == 0 || b'[d] == a[d]) && (d < c ==> b'[d] == a[d])
    {
      assert b'[d].cacheIndex == 0 || b'[d] == b[d];
    }
    hide Linked, Cleared, Tree;
  }

  lemma ClearingLink<V>(a: Classes<V>, b: Classes<V>, b': Classes<V>, c: ClassId, seen: nat, d: ClassId, e: ClassId)
    requires Tree(a) && Tree(b) && c < |a| && seen < |a[c].subclasses| && Clearing(a, b, c, seen)
    requires Cleared(b, b') && c < a[c].subclasses[seen] < |b| && forall d | 0 <= d < a[c].subclasses[seen] :: b'[d] == b[d]
    requires d < |a| && e < |a| && e != c && Linked(a, d, e)
    ensures b'[e].cacheIndex == 0 ==> b'[d].cacheIndex == 0
  {
    LinkedTop(a, d, e);
    if c < e && b[d].cacheIndex != 0 {
      LinkedSurvives(a, b, c, d, d, e);
    }
  }

  /** Above c nothing has been lost; below it, a chain that kept its bottom index is whole. */
  lemma {:induction false} LinkedSurvives<V>(a: Classes<V>, b: Classes<V>, c: ClassId, d: ClassId, x: ClassId, e: ClassId)
    requires Tree(a) && Tree(b) && SameShape(a, b) && d < |a| && x < |a| && c < e < |a|
    requires forall x, y | 0 <= x < |a| && 0 <= y < |a| && y != c && Linked(a, x, y) && b[y].cacheIndex == 0 :: b[x].cacheIndex == 0
    requires Linked(a, d, x) && Linked(a, x, e) && b[d].cacheIndex != 0
    ensures Linked(b, x, e)
    decreases x
  {
    LinkedTop(a, x, e);
    assert b[x].cacheIndex != 0;
    if x != e {
      LinkedTop(a, a[x].base.value, e);
      LinkedUp(a, d, x);
      LinkedSurvives(a, b, c, d, a[x].base.value, e);
    }
  }

  lemma ClearingDone<V>(a: Classes<V>, b: Classes<V>, c: ClassId)
    requires Tree(a) && c < |a| && Clearing(a, b, c, |a[c].subclasses|)
    ensures Cleared(a, b)
  {
    forall d, e | 0 <= d < |a| && 0 <= e < |a| && Linked(a, d, e) && b[e].cacheIndex == 0
      ensures b[d].cacheIndex == 0
    {
      if e == c && d != c {
        var s := LinkedThrough(a, d, c);
      }
    }
  }

  /** A chain to c comes through one of its subclasses. */
  lemma {:induction false} LinkedThrough<V>(cs: Classes<V>, d: ClassId, c: ClassId) returns (s: ClassId)
    requires Tree(cs) && d < |cs| && c < |cs| && d != c && Linked(cs, d, c)
    ensures s < |cs| && s in cs[c].subclasses && s != c && Linked(cs, d, s)
    decreases d
  {
    if cs[d].base.value == c {
      s := d;
    } else {
      s := LinkedThrough(cs, cs[d].base.value, c);
    }
  }

  /** Clearing a class that has no index is clearing nothing. */
  lemma ClearedSelf<V>(cs: Classes<V>)
    requires Tree(cs)
    ensures Cleared(cs, cs)
  {
    forall d, e | 0 <= d < |cs| && 0 <= e < |cs| && Linked(cs, d, e) ensures cs[e].cacheIndex != 0 {
      LinkedTop(cs, d, e);
    }
  }

  /** A hit is right. */
  lemma HitIsRight<V>(cs: Classes<V>, cache: seq<Entry<V>>, next: nat, slot: nat, c: ClassId, name: Name)
    requires CacheOk(cs, cache, next) && slot < |cache| && c < |cs|
    requires cache[slot].name == Some(name) && cache[slot].index == cs[c].cacheIndex
    ensures Warm(cs, c, name) && Answers(cache[slot], Find(cs, c, name))
  {
    assert Good(cs, cache[slot]);
  }

  /** One step of the walk, the base's answer known. */
  lemma WalkStep<V>(a: Classes<V>, b: Classes<V>, c: ClassId, name: Name, e: Entry<V>)
    requires Tree(a) && Tree(b) && Warmed(a, b) && c < |a| && b[c].cacheIndex != 0
    requires if name in a[c].methods then e.owner == Some(c) && e.value == a[c].methods[name]
             else if a[c].base.Some? then Warm(b, a[c].base.value, name) && Answers(e, Find(a, a[c].base.value, name))
             else e.owner.None?
    ensures Warm(b, c, name) && Answers(e, Find(b, c, name)) && Find(b, c, name) == Find(a, c, name)
  {
    WarmedKeeps(a, b, c, name);
    assert b[c] == a[c] || b[c] == a[c].(cacheIndex := b[c].cacheIndex);
  }

  lemma WarmedTwice<V>(a: Classes<V>, b: Classes<V>, c: Classes<V>)
    requires Warmed(a, b) && Warmed(b, c)
    ensures Warmed(a, c)
  {
    forall k | 0 <= k < |a|
      ensures c[k] == a[k] || (a[k].cacheIndex == 0 && c[k] == a[k].(cacheIndex := c[k].cacheIndex))
    {
      assert b[k] == a[k] || (a[k].cacheIndex == 0 && b[k] == a[k].(cacheIndex := b[k].cacheIndex));
    }
  }

  lemma SameSize<V>(a: Classes<V>, b: Classes<V>)
    requires Warmed(a, b)
    ensures |a| == |b|
  {
  }

  lemma CacheTree<V>(cs: Classes<V>, cache: seq<Entry<V>>, next: nat)
    requires CacheOk(cs, cache, next)
    ensures Tree(cs) && Warmed(cs, cs) && next > 0
    ensures forall c | 0 <= c < |cs| && cs[c].base.Some? :: cs[c].base.value < c
  {
  }

  // ----- special slots -----

  /** A slot keeps what its name finds, if that is callable. */
  ghost function Special<V>(cs: Classes<V>, callable: V -> bool, c: ClassId, name: Name): Option<V>
    requires c < |cs| && Tree(cs)
  {
    match Find(cs, c, name)
    case Missing => None
    case In(_, v) => if callable(v) then Some(v) else None
  }

  /** The slots of one class: a class with an __eq__ of its own and its base's __hash__ has no hash. */
  ghost predicate SlotsRight<V>(cs: Classes<V>, callable: V -> bool, c: ClassId)
    requires c < |cs| && Tree(cs)
  {
    && cs[c].eqMethod == Special(cs, callable, c, EQ)
    && cs[c].hashMethod == (var h := Special(cs, callable, c, HASH); if Unhashed(cs, c, h) then None else h)
  }

  /** A class that has an __eq__ of its own and, but for its own table, would find its base's __hash__. */
  ghost predicate Deserted<V>(cs: Classes<V>, callable: V -> bool, c: ClassId)
    requires c < |cs| && Tree(cs)
  {
    && cs[c].base.Some? && cs[c].eqMethod != cs[cs[c].base.value].eqMethod
    && Special(cs, callable, cs[c].base.value, HASH) == cs[cs[c].base.value].hashMethod
  }

  /** The class's table is as given, with `__hash__ = None` added exactly where it would hide its base's. */
  ghost predicate TableRight<V>(given: map<Name, V>, cs: Classes<V>, callable: V -> bool, none: V, c: ClassId)
    requires c < |cs| && Tree(cs)
  {
    cs[c].methods == if HASH !in given && Deserted(cs, callable, c) then given[HASH := none] else given
  }

  ghost predicate Refreshed<V>(given: map<Name, V>, cs: Classes<V>, callable: V -> bool, none: V, c: ClassId)
    requires c < |cs| && Tree(cs)
  {
    SlotsRight(cs, callable, c) && TableRight(given, cs, callable, none, c)
  }

  ghost predicate AllRight<V>(cs: Classes<V>, callable: V -> bool)
    requires Tree(cs)
  {
    forall c | 0 <= c < |cs| :: SlotsRight(cs, callable, c)
  }

  ghost predicate Unhashed<V>(cs: Classes<V>, c: ClassId, h: Option<V>)
    requires c < |cs| && Tree(cs)
  {
    cs[c].base.Some? && cs[c].eqMethod != cs[cs[c].base.value].eqMethod && h == cs[cs[c].base.value].hashMethod
  }

  /** The class defines both `__eq__` and `__hash__`, its `__eq__` fills the slot differently from its base's, and its
      `__hash__` is the very function its base keeps. */
  ghost predicate RepeatsHash<V>(given: map<Name, V>, callable: V -> bool, base: Class<V>) {
    && EQ in given && HASH in given && callable(given[HASH]) && base.hashMethod == Some(given[HASH])
    && base.eqMethod != if callable(given[EQ]) then Some(given[EQ]) else None
  }

  /** The slot holds what `__hash__` finds, except in a class that repeats its base's. */
  lemma HashSlotFollows<V>(given: map<Name, V>, cs: Classes<V>, callable: V -> bool, none: V, c: ClassId)
    requires Tree(cs) && c < |cs| && !callable(none) && Refreshed(given, cs, callable, none, c)
    requires cs[c].base.Some? ==> SlotsRight(cs, callable, cs[c].base.value)
    ensures cs[c].hashMethod == Special(cs, callable, c, HASH) <==>
              !(cs[c].base.Some? && RepeatsHash(given, callable, cs[cs[c].base.value]))
  {
    assert EQ[2] != HASH[2];
    if cs[c].base.Some? && HASH !in given {
      assert !Deserted(cs, callable, c) ==> Find(cs, c, HASH) == Find(cs, cs[c].base.value, HASH);
    }
  }

  lemma WarmedRight<V>(a: Classes<V>, b: Classes<V>, callable: V -> bool)
    requires Tree(a) && Tree(b) && Warmed(a, b) && AllRight(a, callable)
    ensures AllRight(b, callable)
  {
    forall c | 0 <= c < |b| ensures SlotsRight(b, callable, c) {
      WarmedKeeps(a, b, c, EQ);
      WarmedKeeps(a, b, c, HASH);
      assert SlotsRight(a, callable, c);
      assert b[c].base == a[c].base;
    }
  }

  /** d is c or below it. */
  ghost predicate Under<V>(cs: Classes<V>, d: ClassId, c: ClassId)
    requires d < |cs| && Tree(cs)
  {
    d == c || (cs[d].base.Some? && Under(cs, cs[d].base.value, c))
  }

  /** Whatever is not under c is as it was. */
  ghost predicate OnlyUnder<V>(a: Classes<V>, b: Classes<V>, c: ClassId)
    requires Tree(a)
  {
    SameShape(a, b) && forall d | 0 <= d < |a| && !Under(a, d, c) :: b[d] == a[d]
  }

  lemma {:induction false} FindElsewhere<V>(a: Classes<V>, b: Classes<V>, c: ClassId, d: ClassId, name: Name)
    requires Tree(a) && Tree(b) && OnlyUnder(a, b, c) && d < |a| && !Under(a, d, c)
    ensures Find(b, d, name) == Find(a, d, name)
    decreases d
  {
    assert b[d] == a[d];
    if name !in a[d].methods && a[d].base.Some? {
      FindElsewhere(a, b, c, a[d].base.value, name);
    }
  }

  lemma RightElsewhere<V>(a: Classes<V>, b: Classes<V>, callable: V -> bool, c: ClassId, d: ClassId)
    requires Tree(a) && Tree(b) && OnlyUnder(a, b, c) && d < |a| && !Under(a, d, c) && SlotsRight(a, callable, d)
    ensures SlotsRight(b, callable, d)
  {
    FindElsewhere(a, b, c, d, EQ);
    FindElsewhere(a, b, c, d, HASH);
  }

  lemma RefreshedElsewhere<V>(given: map<Name, V>, a: Classes<V>, b: Classes<V>, callable: V -> bool, none: V, c: ClassId, d: ClassId)
    requires Tree(a) && Tree(b) && OnlyUnder(a, b, c) && d < |a| && !Under(a, d, c) && Refreshed(given, a, callable, none, d)
    ensures Refreshed(given, b, callable, none, d)
  {
    RightElsewhere(a, b, callable, c, d);
    if a[d].base.Some? {
      assert !Under(a, a[d].base.value, c);
      FindElsewhere(a, b, c, a[d].base.value, HASH);
    }
  }

  lemma {:induction false} UnderSame<V>(a: Classes<V>, b: Classes<V>, d: ClassId, c: ClassId)
    requires Tree(a) && Tree(b) && SameShape(a, b) && d < |a|
    ensures Under(a, d, c) == Under(b, d, c)
    decreases d
  {
    assert a[d].base == b[d].base;
    if d != c && a[d].base.Some? {
      UnderSame(a, b, a[d].base.value, c);
    }
  }

  lemma {:induction false} UnderAbove<V>(cs: Classes<V>, d: ClassId, c: ClassId)
    requires Tree(cs) && d < |cs| && Under(cs, d, c)
    ensures c <= d
    decreases d
  {
    if d != c {
      UnderAbove(cs, cs[d].base.value, c);
    }
  }

  /** What is under a subclass is under its base. */
  lemma {:induction false} UnderChild<V>(cs: Classes<V>, d: ClassId, s: ClassId, c: ClassId)
    requires Tree(cs) && d < |cs| && c < |cs| && s in cs[c].subclasses && Under(cs, d, s)
    ensures Under(cs, d, c)
    decreases d
  {
    if d != s {
      UnderChild(cs, cs[d].base.value, s, c);
    } else {
      assert Under(cs, c, c);
    }
  }

  lemma {:induction false} UnderThrough<V>(cs: Classes<V>, d: ClassId, c: ClassId) returns (s: ClassId)
    requires Tree(cs) && d < |cs| && c < |cs| && d != c && Under(cs, d, c)
    ensures s in cs[c].subclasses && Under(cs, d, s)
    decreases d
  {
    if cs[d].base.value == c {
      s := d;
    } else {
      s := UnderThrough(cs, cs[d].base.value, c);
    }
  }

  /** A finalization under way: c itself is done, and the subclasses seen so far with everything under them; the others
      have not been touched. */
  ghost predicate Finalizing<V>(a: Classes<V>, b: Classes<V>, callable: V -> bool, none: V, c: ClassId, seen: nat)
    requires Tree(a) && Tree(b) && c < |a| && seen <= |a[c].subclasses|
  {
    && OnlyUnder(a, b, c) && Refreshed(a[c].methods, b, callable, none, c)
    && (forall k, d | 0 <= k < seen && 0 <= d < |a| && Under(a, d, a[c].subclasses[k]) :: Refreshed(a[d].methods, b, callable, none, d))
    && forall k, d | seen <= k < |a[c].subclasses| && 0 <= d < |a| && Under(a, d, a[c].subclasses[k]) :: b[d] == a[d]
  }

  lemma FinalizingNext<V>(a: Classes<V>, b: Classes<V>, b': Classes<V>, callable: V -> bool, none: V, c: ClassId, seen: nat)
    requires Tree(a) && Tree(b) && Tree(b') && c < |a| && seen < |a[c].subclasses|
    requires Finalizing(a, b, callable, none, c, seen) && OnlyUnder(b, b', a[c].subclasses[seen])
    requires forall d | 0 <= d < |b| && Under(b, d, a[c].subclasses[seen]) :: Refreshed(b[d].methods, b', callable, none, d)
    ensures Finalizing(a, b', callable, none, c, seen + 1)
  {
    hide Under, Refreshed, Tree;
    var s := a[c].subclasses[seen];
    SubclassBelow(a, b, c, s);
    forall d | 0 <= d < |a|
      ensures Under(b, d, s) == Under(a, d, s) && (Under(a, d, s) ==> Under(a, d, c))
    {
      UnderSame(a, b, d, s);
      if Under(a, d, s) {
        UnderChild(a, d, s, c);
      }
    }
    RefreshedElsewhere(a[c].methods, b, b', callable, none, s, c);
    forall k, d | 0 <= k < seen + 1 && 0 <= d < |a| && Under(a, d, a[c].subclasses[k])
      ensures Refreshed(a[d].methods, b', callable, none, d)
    {
      if !Under(b, d, s) {
        RefreshedElsewhere(a[d].methods, b, b', callable, none, s, d);
      } else {
        assert b[d] == a[d];
      }
    }
    forall k, d | seen + 1 <= k < |a[c].subclasses| && 0 <= d < |a| && Under(a, d, a[c].subclasses[k])
      ensures b'[d] == a[d]
    {
      SubclassesApart(a, c, seen, k, d);
    }
    assert OnlyUnder(a, b', c) by { hide Finalizing; OnlyTwice(a, b, b', c, s); }
  }

  /** What is under one subclass is not under another. */
  lemma SubclassesApart<V>(cs: Classes<V>, c: ClassId, i: nat, j: nat, d: ClassId)
    requires Tree(cs) && c < |cs| && i < j < |cs[c].subclasses| && d < |cs| && Under(cs, d, cs[c].subclasses[j])
    ensures !Under(cs, d, cs[c].subclasses[i])
  {
    var s1, s2 := cs[c].subclasses[i], cs[c].subclasses[j];
    assert s1 in cs[c].subclasses && s2 in cs[c].subclasses;
    assert NoRepeats(cs[c].subclasses);
    if Under(cs, d, s1) {
      UnderOne(cs, d, s1, s2, c);
    }
  }

  lemma {:induction false} UnderOne<V>(cs: Classes<V>, d: ClassId, s1: ClassId, s2: ClassId, c: ClassId)
    requires Tree(cs) && d < |cs| && c < |cs| && s1 in cs[c].subclasses && s2 in cs[c].subclasses
    requires Under(cs, d, s1) && Under(cs, d, s2)
    ensures s1 == s2
    decreases d
  {
    if d != s1 && d != s2 {
      UnderOne(cs, cs[d].base.value, s1, s2, c);
    } else if d == s1 && d != s2 {
      UnderAbove(cs, c, s2);
    } else if d == s2 && d != s1 {
      UnderAbove(cs, c, s1);
    }
  }

  lemma OnlyTwice<V>(a: Classes<V>, b: Classes<V>, b': Classes<V>, c: ClassId, s: ClassId)
    requires Tree(a) && Tree(b) && OnlyUnder(a, b, c) && OnlyUnder(b, b', s)
    requires forall d | 0 <= d < |a| :: Under(b, d, s) ==> Under(a, d, c)
    ensures OnlyUnder(a, b', c)
  {
    hide Under, Tree;
  }

  lemma SubclassBelow<V>(a: Classes<V>, b: Classes<V>, c: ClassId, s: ClassId)
    requires Tree(a) && Tree(b) && SameShape(a, b) && c < |a| && s in a[c].subclasses
    ensures c < s < |a| && a[s].base == Some(c) && !Under(b, c, s)
  {
    if Under(b, c, s) {
      UnderAbove(b, c, s);
    }
  }

  lemma FinalizingDone<V>(a: Classes<V>, b: Classes<V>, callable: V -> bool, none: V, c: ClassId, d: ClassId)
    requires Tree(a) && Tree(b) && c < |a| && d < |a| && Finalizing(a, b, callable, none, c, |a[c].subclasses|) && Under(a, d, c)
    ensures Refreshed(a[d].methods, b, callable, none, d)
  {
    if d != c {
      var s := UnderThrough(a, d, c);
      var k :| 0 <= k < |a[c].subclasses| && a[c].subclasses[k] == s;
    }
  }

  // ----- the machine -----

  /** An entry's place. */
  function Slot(name: bv32, type_: bv32): (i: nat)
    ensures i < CACHE_SIZE
  {
    ((name ^ (type_ << 4)) & 0xFFF) as nat
  }

  class Cache<V(==)> {
    var classes: Classes<V>
    var cache: array<Entry<V>>
    var nextCount: nat
    const hashOf: Name -> bv32
    /** Is it a function a class may keep in a special slot? */
    const callable: V -> bool
    const none: V

    /** Every entry that can be hit is right, and every special slot holds what its name finds. */
    ghost predicate Valid()
      reads this, cache
    {
      && cache.Length == CACHE_SIZE && CacheOk(classes, cache[..], nextCount)
      && !callable(none) && AllRight(classes, callable)
    }

    constructor (hashOf: Name -> bv32, callable: V -> bool, none: V)
      requires !callable(none)
      ensures Valid() && fresh(cache) && classes == []
      ensures this.hashOf == hashOf && this.callable == callable && this.none == none
    {
      this.hashOf, this.callable, this.none := hashOf, callable, none;
      classes, nextCount := [], 1;
      cache := new Entry<V>[CACHE_SIZE](_ => Entry(None, None, none, 0));
    }

    /** The cached lookup is the walk up the base chain. `given` is what the caller's variable held: a miss leaves that,
        or whatever a cached miss was left with. */
    method CheckCache(c: ClassId, name: Name, given: V) returns (owner: Option<ClassId>, value: V)
      requires Valid() && c < |classes|
      modifies this`classes, this`nextCount, cache
      ensures Valid() && cache == old(cache) && Warmed(old(classes), classes) && Warm(classes, c, name)
      ensures Tree(old(classes))
      ensures match Find(old(classes), c, name)
              case Missing => owner.None?
              case In(o, v) => owner == Some(o) && value == v
      decreases c
    {
      hide CacheOk, Good, Find, Warm, Tree, Warmed, Stamped, Slot, AllRight;
      ghost var was := classes;
      CacheTree(was, cache[..], nextCount);
      var slot := Slot(hashOf(name), classes[c].hash);
      var entry := cache[slot];
      if entry.name == Some(name) && entry.index == classes[c].cacheIndex {
        HitIsRight(classes, cache[..], nextCount, slot, c, name);
        return entry.owner, entry.value;
      }
      if name in classes[c].methods {
        owner, value := Some(c), classes[c].methods[name];
      } else if classes[c].base.Some? {
        owner, value := CheckCache(classes[c].base.value, name, given);
      } else {
        owner, value := None, given;
      }
      CacheTree(classes, cache[..], nextCount);
      SameSize(was, classes);
      Remember(was, c, name, slot, owner, value);
    }

    /** Give the class an index if it has none, and fill the entry with what the walk found. */
    method Remember(ghost was: Classes<V>, c: ClassId, name: Name, slot: nat, owner: Option<ClassId>, value: V)
      requires Valid() && c < |classes| == |was| && slot < CACHE_SIZE && Tree(was) && Warmed(was, classes)
      requires if name in was[c].methods then owner == Some(c) && value == was[c].methods[name]
               else if was[c].base.Some? then
                 && was[c].base.value < |was| && Warm(classes, was[c].base.value, name)
                 && Answers(Entry(Some(name), owner, value, 0), Find(was, was[c].base.value, name))
               else owner.None?
      modifies this`classes, this`nextCount, cache
      ensures Valid() && cache == old(cache) && |classes| == |was| && Warmed(was, classes) && Warm(classes, c, name)
      ensures Answers(Entry(Some(name), owner, value, 0), Find(was, c, name))
    {
      hide CacheOk, Good, Find, Warm, Tree, Warmed, Stamped, AllRight;
      ghost var after := classes;
      CacheTree(after, cache[..], nextCount);
      if classes[c].cacheIndex == 0 {
        IndexedOk(after, after[c := after[c].(cacheIndex := nextCount)], c, cache[..], nextCount);
        classes := classes[c := classes[c].(cacheIndex := nextCount)];
        nextCount := nextCount + 1;
        WarmedTwice(was, after, classes);
        WarmedRight(after, classes, callable);
        CacheTree(classes, cache[..], nextCount);
        if name !in was[c].methods && was[c].base.Some? {
          WarmedKeeps(after, classes, was[c].base.value, name);
        }
      }
      var filled := Entry(Some(name), owner, value, classes[c].cacheIndex);
      WalkStep(was, classes, c, name, filled);
      FilledOk(classes, cache[..], nextCount, slot, filled, c);
      cache[slot] := filled;
    }

    /** Drop every cached answer that went through c. */
    method ClearCache(c: ClassId)
      requires Tree(classes) && c < |classes|
      modifies this`classes
      ensures Tree(old(classes)) && Tree(classes) && |classes| == |old(classes)|
      ensures Cleared(old(classes), classes) && classes[c].cacheIndex == 0
      ensures forall d | 0 <= d < |classes| :: classes[d] == old(classes)[d].(cacheIndex := classes[d].cacheIndex)
      ensures forall d | 0 <= d < c :: classes[d] == old(classes)[d]
      decreases |classes| - c
    {
      hide Linked, Cleared;
      ghost var was := classes;
      if classes[c].cacheIndex != 0 {
        classes := classes[c := classes[c].(cacheIndex := 0)];
        ClearingStarts(was, classes, c);
        var subclasses, i := classes[c].subclasses, 0;
        while i < |subclasses|
          invariant i <= |subclasses| && |classes| == |was| && Clearing(was, classes, c, i)
          invariant forall d | 0 <= d < |classes| :: classes[d] == was[d].(cacheIndex := classes[d].cacheIndex)
        {
          ghost var before := classes;
          ShapeTree(was, before);
          assert subclasses[i] in was[c].subclasses && subclasses[i] in before[c].subclasses;
          ClearCache(subclasses[i]);
          ClearingNext(was, before, classes, c, i);
          i := i + 1;
        }
        ClearingDone(was, classes, c);
        ShapeTree(was, classes);
      } else {
        ClearedSelf(classes);
      }
    }

    /** The walk krk_finalizeClass does for each special name. */
    method LookUpSpecial(c: ClassId, name: Name) returns (found: Option<V>)
      requires Tree(classes) && c < |classes|
      ensures found == Special(classes, callable, c, name)
    {
      var b: Option<ClassId> := Some(c);
      while b.Some?
        invariant b.Some? ==> b.value < |classes| && Find(classes, c, name) == Find(classes, b.value, name)
        invariant b.None? ==> Find(classes, c, name) == Missing
        decreases if b.Some? then b.value + 1 else 0
      {
        if name in classes[b.value].methods {
          var v := classes[b.value].methods[name];
          return if callable(v) then Some(v) else None;
        }
        b := classes[b.value].base;
      }
      return None;
    }

    /** Recompute the special slots of c and of everything under it. None of those keeps an index, so nothing cached
        for them is valid; the one table entry this may add is `__hash__ = None`. */
    method Finalize(c: ClassId)
      requires Tree(classes) && c < |classes| && !callable(none)
      modifies this`classes
      ensures Tree(old(classes)) && Tree(classes) && |classes| == |old(classes)|
      ensures Cleared(old(classes), classes) && classes[c].cacheIndex == 0
      ensures forall d | 0 <= d < c :: classes[d] == old(classes)[d]
      ensures OnlyUnder(old(classes), classes, c)
      ensures forall d | 0 <= d < |classes| && Under(old(classes), d, c) ::
                Refreshed(old(classes)[d].methods, classes, callable, none, d)
      decreases |classes| - c
    {
      hide Linked, Cleared, Special, Under, Find;
      ghost var was := classes;
      FinalizeSelf(c);
      var subclasses, i := classes[c].subclasses, 0;
      while i < |subclasses|
        invariant i <= |subclasses| && |classes| == |was| && Tree(classes) && Clearing(was, classes, c, i)
        invariant Finalizing(was, classes, callable, none, c, i)
      {
        ghost var before := classes;
        assert subclasses[i] in was[c].subclasses && subclasses[i] in before[c].subclasses;
        Finalize(subclasses[i]);
        ClearingNext(was, before, classes, c, i);
        FinalizingNext(was, before, classes, callable, none, c, i);
        i := i + 1;
      }
      ClearingDone(was, classes, c);
      forall d | 0 <= d < |classes| && Under(was, d, c)
        ensures Refreshed(was[d].methods, classes, callable, none, d)
      {
        FinalizingDone(was, classes, callable, none, c, d);
      }
    }

    /** The class's own part of a finalization. */
    method FinalizeSelf(c: ClassId)
      requires Tree(classes) && c < |classes| && !callable(none)
      modifies this`classes
      ensures Tree(old(classes)) && Tree(classes) && |classes| == |old(classes)|
      ensures Clearing(old(classes), classes, c, 0) && Finalizing(old(classes), classes, callable, none, c, 0)
    {
      ghost var was := classes;
      classes := classes[c := classes[c].(cacheIndex := 0)];
      ShapeTree(was, classes);
      var eq := LookUpSpecial(c, EQ);
      var hash := LookUpSpecial(c, HASH);
      var methods := classes[c].methods;
      if classes[c].base.Some? && eq != classes[classes[c].base.value].eqMethod {
        if hash == classes[classes[c].base.value].hashMethod {
          hash := None;
          if HASH !in methods {
            methods := methods[HASH := none];
          }
        }
      }
      ghost var before := classes;
      classes := classes[c := classes[c].(methods := methods, eqMethod := eq, hashMethod := hash)];
      SelfDone(was, before, classes, callable, none, c);
    }

    /** valueSetProperty on a class. */
    method SetAttribute(c: ClassId, name: Name, value: V)
      requires Valid() && c < |classes|
      modifies this`classes
      ensures Valid() && |classes| == |old(classes)|
      ensures Edited(old(classes), classes, c, old(classes[c].methods)[name := value], name, callable, none)
    {
      hide CacheOk, AllRight, Find, Special, Cleared, Under, Linked;
      ghost var was := classes;
      CacheTree(was, cache[..], nextCount);
      classes := classes[c := classes[c].(methods := classes[c].methods[name := value])];
      Recache(was, c, name);
    }

    /** valueDelProperty on a class. */
    method DeleteAttribute(c: ClassId, name: Name) returns (ok: bool)
      requires Valid() && c < |classes|
      modifies this`classes
      ensures Valid() && |classes| == |old(classes)|
      ensures ok == (name in old(classes[c].methods))
      ensures if ok then Edited(old(classes), classes, c, old(classes[c].methods) - {name}, name, callable, none) else classes == old(classes)
    {
      hide CacheOk, AllRight, Find, Special, Cleared, Under, Linked;
      ghost var was := classes;
      CacheTree(was, cache[..], nextCount);
      if name !in classes[c].methods {
        return false;
      }
      classes := classes[c := classes[c].(methods := classes[c].methods - {name})];
      Recache(was, c, name);
      ok := true;
    }

    /** After a table has changed: a special name refreshes slots everywhere below, any other only drops answers. */
    method Recache(ghost was: Classes<V>, c: ClassId, name: Name)
      requires cache.Length == CACHE_SIZE && CacheOk(was, cache[..], nextCount) && !callable(none)
      requires Tree(was) && AllRight(was, callable) && c < |classes| == |was|
      requires classes == was[c := was[c].(methods := classes[c].methods)]
      requires forall n | n in was[c].methods.Keys + classes[c].methods.Keys && n != name ::
                 n in was[c].methods && n in classes[c].methods && was[c].methods[n] == classes[c].methods[n]
      modifies this`classes
      ensures Valid() && |classes| == |was| && Edited(was, classes, c, old(classes[c].methods), name, callable, none)
    {
      hide CacheOk, AllRight, Find, Special, Cleared, Under, Linked;
      ghost var edited := classes;
      assert SameShape(was, edited);
      ShapeTree(was, edited);
      if Dunder(name) {
        Finalize(c);
        FinalizedRight(was, edited, classes, callable, none, c);
        FinalizedTables(was, edited, classes, callable, none, c, name);
      } else {
        ClearCache(c);
        PlainRight(was, edited, classes, callable, c, name);
      }
      EditedOk(was, edited, classes, c);
      ClearedOk(was, classes, cache[..], nextCount);
    }

    /** krk_newClass and what type.__new__ then does with it. */
    method MakeClass(base: Option<ClassId>, methods: map<Name, V>, hash: bv32) returns (c: ClassId)
      requires Valid() && (base.Some? ==> base.value < |classes|)
      modifies this`classes
      ensures Valid() && c == |old(classes)| && |classes| == c + 1
      ensures classes[c].base == base && Tree(classes) && TableRight(methods, classes, callable, none, c)
      ensures classes[c].hashMethod == Special(classes, callable, c, HASH) <==>
                !(base.Some? && RepeatsHash(methods, callable, old(classes)[base.value]))
      ensures forall d | 0 <= d < c :: classes[d].base == old(classes[d].base) && classes[d].methods == old(classes[d].methods)
    {
      hide CacheOk, AllRight, Find, Special, Cleared, Under, Linked;
      ghost var was := classes;
      CacheTree(was, cache[..], nextCount);
      c := |classes|;
      classes := classes + [Class(base, methods, [], hash, 0, None, None)];
      if base.Some? {
        var above := classes[base.value];
        classes := classes[base.value := above.(subclasses := above.subclasses + [c])];
      }
      ghost var grown := classes;
      GrownOk(was, grown, cache[..], nextCount);
      Finalize(c);
      ClearedOk(grown, classes, cache[..], nextCount);
      GrownRight(was, grown, classes, callable, none);
      MadeClass(grown, classes, callable, none, base);
    }
  }

  /** A class that writes an `__eq__` of its own and keeps its base's `__hash__` under its own name: the lookup finds the
      function, the slot does not have it. */
  method HashLostOccurs() returns (found: Option<int>, slot: Option<int>)
    ensures found == Some(2) && slot == None
  {
    hide CacheOk, AllRight, Under, Linked, Cleared;
    var machine := new Cache<int>(_ => 0, (v: int) => v != 0, 0);
    var base := machine.MakeClass(None, map["__eq__" := 1, "__hash__" := 2], 0);
    assert SlotsRight(machine.classes, machine.callable, base) by { FirstRight(machine.classes, machine.callable); }
    assert EQ[2] != HASH[2];
    var c := machine.MakeClass(Some(base), map["__eq__" := 3, "__hash__" := 2], 0);
    found := machine.LookUpSpecial(c, "__hash__");
    slot := machine.classes[c].hashMethod;
    assert SlotsRight(machine.classes, machine.callable, c) by { FirstRight(machine.classes, machine.callable); }
  }

  lemma FirstRight<V>(cs: Classes<V>, callable: V -> bool)
    requires Tree(cs) && AllRight(cs, callable)
    ensures forall c | 0 <= c < |cs| :: SlotsRight(cs, callable, c)
  {
  }

  /** The slots of a class just made, in terms of its base as it was. */
  lemma MadeClass<V>(a: Classes<V>, b: Classes<V>, callable: V -> bool, none: V, base: Option<ClassId>)
    requires Tree(b) && AllRight(b, callable) && 0 < |a| == |b| && b[|a| - 1].base == base && !callable(none)
    requires Refreshed(a[|a| - 1].methods, b, callable, none, |a| - 1)
    requires forall d | 0 <= d < |a| - 1 :: b[d] == a[d]
    ensures TableRight(a[|a| - 1].methods, b, callable, none, |a| - 1)
    ensures b[|a| - 1].hashMethod == Special(b, callable, |a| - 1, HASH) <==>
              !(base.Some? && RepeatsHash(a[|a| - 1].methods, callable, a[base.value]))
  {
    HashSlotFollows(a[|a| - 1].methods, b, callable, none, |a| - 1);
  }

  /** One class's table is as given and everyone else's as before, but for the `__hash__ = None` that a special name
      brings to those under it. */
  ghost predicate Edited<V>(a: Classes<V>, b: Classes<V>, c: ClassId, methods: map<Name, V>, name: Name, callable: V -> bool, none: V) {
    && |b| == |a| && c < |a| && Tree(b)
    && forall d | 0 <= d < |a| ::
         && b[d].base == a[d].base
         && var given := if d == c then methods else a[d].methods;
            if Dunder(name) && Under(b, d, c) then TableRight(given, b, callable, none, d) else b[d].methods == given
  }

  lemma SelfRefreshed<V>(a: Classes<V>, mid: Classes<V>, b: Classes<V>, callable: V -> bool, none: V, c: ClassId)
    requires Tree(mid) && Tree(b) && SelfStep(a, mid, b, callable, none, c) && !callable(none)
    ensures Refreshed(a[c].methods, b, callable, none, c)
  {
    if a[c].base.Some? {
      AboveSame(mid, b, c, a[c].base.value, EQ);
      AboveSame(mid, b, c, a[c].base.value, HASH);
    }
    assert EQ[2] != HASH[2];
  }

  /** What a class's own part of a finalization leaves. */
  ghost predicate SelfStep<V>(a: Classes<V>, mid: Classes<V>, b: Classes<V>, callable: V -> bool, none: V, c: ClassId)
    requires Tree(mid)
  {
    && c < |a| && mid == a[c := a[c].(cacheIndex := 0)] && |b| == |a| && b == mid[c := b[c]]
    && b[c] == mid[c].(methods := b[c].methods, eqMethod := Special(mid, callable, c, EQ), hashMethod := b[c].hashMethod)
    && (a[c].base.Some? ==> a[c].base.value < c)
    && var h := Special(mid, callable, c, HASH);
       var unhashed := a[c].base.Some? && b[c].eqMethod != a[a[c].base.value].eqMethod && h == a[a[c].base.value].hashMethod;
       && b[c].hashMethod == (if unhashed then None else h)
       && b[c].methods == if unhashed && HASH !in a[c].methods then a[c].methods[HASH := none] else a[c].methods
  }

  lemma SelfDone<V>(a: Classes<V>, mid: Classes<V>, b: Classes<V>, callable: V -> bool, none: V, c: ClassId)
    requires Tree(a) && Tree(mid) && SelfStep(a, mid, b, callable, none, c) && !callable(none)
    ensures Tree(b) && Clearing(a, b, c, 0) && Finalizing(a, b, callable, none, c, 0)
  {
    hide Refreshed, Special, Find, Linked, Cleared;
    SelfShape(a, mid, b, callable, none, c);
    SelfRefreshed(a, mid, b, callable, none, c);
    assert OnlyUnder(a, b, c);
    forall k, d | 0 <= k < |a[c].subclasses| && 0 <= d < |a| && Under(a, d, a[c].subclasses[k])
      ensures b[d] == a[d]
    {
      assert a[c].subclasses[k] in a[c].subclasses;
      SubclassBelow(a, a, c, a[c].subclasses[k]);
    }
    hide Under;
  }

  lemma SelfShape<V>(a: Classes<V>, mid: Classes<V>, b: Classes<V>, callable: V -> bool, none: V, c: ClassId)
    requires Tree(a) && Tree(mid) && SelfStep(a, mid, b, callable, none, c)
    ensures SameShape(a, b) && Tree(b) && Clearing(a, b, c, 0)
  {
    hide Special, Find;
    assert SameShape(a, b);
    ShapeTree(a, b);
    ClearingStarts(a, b, c);
  }

  /** Changing a class changes nothing a class made before it finds. */
  lemma {:induction false} AboveSame<V>(a: Classes<V>, b: Classes<V>, c: ClassId, d: ClassId, name: Name)
    requires Tree(a) && Tree(b) && |a| == |b| && d < c < |a| && forall x | 0 <= x < c :: b[x] == a[x]
    ensures Find(b, d, name) == Find(a, d, name)
    decreases d
  {
    if name !in a[d].methods && a[d].base.Some? {
      AboveSame(a, b, c, a[d].base.value, name);
    }
  }

  lemma FinalizedTables<V>(a: Classes<V>, edited: Classes<V>, b: Classes<V>, callable: V -> bool, none: V, c: ClassId, name: Name)
    requires Tree(a) && Tree(edited) && Tree(b) && c < |a| == |edited| && SameShape(a, edited) && Dunder(name)
    requires edited == a[c := a[c].(methods := edited[c].methods)] && OnlyUnder(edited, b, c)
    requires forall d | 0 <= d < |b| && Under(edited, d, c) :: Refreshed(edited[d].methods, b, callable, none, d)
    ensures Edited(a, b, c, edited[c].methods, name, callable, none)
  {
    hide TableRight, SlotsRight, Tree;
    assert Under(edited, c, c);
    hide Under;
    forall d | 0 <= d < |a|
      ensures b[d].base == a[d].base && Under(b, d, c) == Under(edited, d, c)
    {
      UnderSame(edited, b, d, c);
      assert edited[d].base == b[d].base;
    }
  }

  lemma FinalizedRight<V>(a: Classes<V>, edited: Classes<V>, b: Classes<V>, callable: V -> bool, none: V, c: ClassId)
    requires Tree(a) && Tree(edited) && Tree(b) && AllRight(a, callable) && c < |a| == |edited|
    requires edited == a[c := a[c].(methods := edited[c].methods)] && OnlyUnder(edited, b, c)
    requires forall d | 0 <= d < |b| && Under(edited, d, c) :: Refreshed(edited[d].methods, b, callable, none, d)
    ensures AllRight(b, callable)
  {
    assert SameShape(a, edited);
    forall d | 0 <= d < |b|
      ensures SlotsRight(b, callable, d)
    {
      UnderSame(a, edited, d, c);
      if !Under(edited, d, c) {
        OnlyEdited(a, edited, b, c);
        RightElsewhere(a, b, callable, c, d);
      }
    }
  }

  lemma OnlyEdited<V>(a: Classes<V>, edited: Classes<V>, b: Classes<V>, c: ClassId)
    requires Tree(a) && Tree(edited) && c < |a| == |edited| && SameShape(a, edited)
    requires edited == a[c := a[c].(methods := edited[c].methods)] && OnlyUnder(edited, b, c)
    ensures OnlyUnder(a, b, c)
  {
    forall d | 0 <= d < |a| && !Under(a, d, c) ensures b[d] == a[d] {
      UnderSame(a, edited, d, c);
    }
  }

  /** A name that is not special changes no special slot. */
  lemma PlainRight<V>(a: Classes<V>, edited: Classes<V>, b: Classes<V>, callable: V -> bool, c: ClassId, name: Name)
    requires Tree(a) && Tree(edited) && Tree(b) && AllRight(a, callable) && c < |a| == |edited| == |b|
    requires edited == a[c := a[c].(methods := edited[c].methods)] && !Dunder(name)
    requires forall n | n in a[c].methods.Keys + edited[c].methods.Keys && n != name ::
               n in a[c].methods && n in edited[c].methods && a[c].methods[n] == edited[c].methods[n]
    requires forall d | 0 <= d < |b| :: b[d] == edited[d].(cacheIndex := b[d].cacheIndex)
    ensures AllRight(b, callable)
  {
    assert Dunder(EQ) && Dunder(HASH);
    forall d | 0 <= d < |b|
      ensures SlotsRight(b, callable, d)
    {
      OtherName(a, b, c, d, EQ, name);
      OtherName(a, b, c, d, HASH, name);
      assert SlotsRight(a, callable, d);
    }
  }

  lemma {:induction false} OtherName<V>(a: Classes<V>, b: Classes<V>, c: ClassId, d: ClassId, special: Name, name: Name)
    requires Tree(a) && Tree(b) && d < |a| == |b| && c < |a| && special != name
    requires forall n | n in a[c].methods.Keys + b[c].methods.Keys && n != name ::
               n in a[c].methods && n in b[c].methods && a[c].methods[n] == b[c].methods[n]
    requires forall x | 0 <= x < |a| :: b[x].base == a[x].base && (x != c ==> b[x].methods == a[x].methods)
    ensures Find(b, d, special) == Find(a, d, special)
    decreases d
  {
    if special !in a[d].methods && a[d].base.Some? {
      OtherName(a, b, c, a[d].base.value, special, name);
    }
  }

  /** b is a with one class more, listed under its base. */
  ghost predicate Grown<V>(a: Classes<V>, b: Classes<V>) {
    && |b| == |a| + 1 && b[|a|].cacheIndex == 0 && b[|a|].subclasses == []
    && (b[|a|].base.Some? ==> b[|a|].base.value < |a|)
    && forall d | 0 <= d < |a| :: b[d] == if b[|a|].base == Some(d) then a[d].(subclasses := a[d].subclasses + [|a|]) else a[d]
  }

  lemma GrownTree<V>(a: Classes<V>, b: Classes<V>)
    requires Tree(a) && Grown(a, b)
    ensures Tree(b)
  {
    forall c | 0 <= c < |b| && b[c].base.Some?
      ensures b[c].base.value < c && c in b[b[c].base.value].subclasses
    {
      if c < |a| {
        assert c in a[a[c].base.value].subclasses;
      }
    }
    forall c, d | 0 <= c < |b| && d in b[c].subclasses
      ensures c < d < |b| && b[d].base == Some(c)
    {
      if d != |a| {
        assert d in a[c].subclasses;
      }
    }
    forall c | 0 <= c < |b| ensures NoRepeats(b[c].subclasses) {
      if c < |a| {
        assert NoRepeats(a[c].subclasses) && |a| !in a[c].subclasses;
      }
    }
  }

  lemma {:induction false} GrownKeeps<V>(a: Classes<V>, b: Classes<V>, c: ClassId, name: Name)
    requires Tree(a) && Tree(b) && Grown(a, b) && c < |a|
    ensures Find(b, c, name) == Find(a, c, name) && Warm(b, c, name) == Warm(a, c, name)
    decreases c
  {
    if name !in a[c].methods && a[c].base.Some? {
      GrownKeeps(a, b, a[c].base.value, name);
    }
  }

  lemma GrownOk<V>(a: Classes<V>, b: Classes<V>, cache: seq<Entry<V>>, next: nat)
    requires CacheOk(a, cache, next) && Grown(a, b)
    ensures CacheOk(b, cache, next) && Tree(b)
  {
    GrownTree(a, b);
    forall i | 0 <= i < |cache|
      ensures Good(b, cache[i])
    {
      assert Good(a, cache[i]);
      if cache[i].name.Some? {
        forall c | 0 <= c < |b| && b[c].cacheIndex == cache[i].index
          ensures c < |a| && Warm(b, c, cache[i].name.value) && Find(b, c, cache[i].name.value) == Find(a, c, cache[i].name.value)
        {
          assert c < |a|;
          GrownKeeps(a, b, c, cache[i].name.value);
        }
      }
    }
  }

  lemma GrownRight<V>(a: Classes<V>, grown: Classes<V>, b: Classes<V>, callable: V -> bool, none: V)
    requires Tree(a) && Tree(grown) && Tree(b) && AllRight(a, callable) && Grown(a, grown)
    requires OnlyUnder(grown, b, |a|)
    requires forall d | 0 <= d < |b| && Under(grown, d, |a|) :: Refreshed(grown[d].methods, b, callable, none, d)
    ensures AllRight(b, callable) && Refreshed(grown[|a|].methods, b, callable, none, |a|)
  {
    hide Tree, SlotsRight, TableRight;
    assert Under(grown, |a|, |a|);
    hide Under;
    forall d | 0 <= d < |b|
      ensures SlotsRight(b, callable, d)
    {
      if !Under(grown, d, |a|) {
        GrownElsewhere(a, grown, b, callable, d);
      }
    }
  }

  lemma GrownElsewhere<V>(a: Classes<V>, grown: Classes<V>, b: Classes<V>, callable: V -> bool, d: ClassId)
    requires Tree(a) && Tree(grown) && Tree(b) && AllRight(a, callable) && Grown(a, grown)
    requires OnlyUnder(grown, b, |a|) && d < |b| && d != |a| && !Under(grown, d, |a|)
    ensures SlotsRight(b, callable, d)
  {
    hide Under, OnlyUnder, Find;
    assert |b| == |grown| by { SizeOf(grown, b, |a|); }
    GrownKeeps(a, grown, d, EQ);
    GrownKeeps(a, grown, d, HASH);
    assert SlotsRight(a, callable, d);
    RightElsewhere(grown, b, callable, |a|, d);
  }

  lemma SizeOf<V>(a: Classes<V>, b: Classes<V>, c: ClassId)
    requires Tree(a) && OnlyUnder(a, b, c)
    ensures |b| == |a|
  {
  }
}
