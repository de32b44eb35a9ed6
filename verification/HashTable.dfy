/** The ordered hash table of src/table.c: an array of entries in order of insertion, gaps left by deletions, and an
    array of slots holding an entry's place, -1 where nothing has been, -2 where something was. It refines a list of
    pairs. */
module HashTable {
  import opened Options

  /** The last two arrays of a table hold these. */
  datatype Entry<K, V> = Gap | Pair(key: K, value: V)

  const EMPTY := -1
  const TOMBSTONE := -2

  type Hash<!K> = K -> Option<nat>
  type Equal<!K> = (K, K) -> bool

  /** Equal keys hash alike, and a key equals itself. */
  ghost predicate Consistent<K(!new)>(hash: Hash<K>, eq: Equal<K>) {
    && (forall a :: eq(a, a))
    && (forall a, b :: eq(a, b) ==> eq(b, a) && hash(a) == hash(b))
    && forall a, b, c :: eq(a, b) && eq(b, c) ==> eq(a, c)
  }

  /** The comparators: identity, or equality. */
  predicate Match<K(==)>(eq: Equal<K>, exact: bool, a: K, b: K) {
    if exact then a == b else eq(a, b)
  }

  // ----- probing, by distance from home -----

  function At(home: nat, t: nat, capacity: nat): (i: nat)
    requires home < capacity && t < capacity
    ensures i < capacity
  {
    if home + t < capacity then home + t else home + t - capacity
  }

  function Dist(home: nat, i: nat, capacity: nat): (t: nat)
    requires home < capacity && i < capacity
    ensures t < capacity && At(home, t, capacity) == i
    ensures forall u | 0 <= u < capacity && At(home, u, capacity) == i :: u == t
  {
    if home <= i then i - home else i + capacity - home
  }

  function Home(h: nat, capacity: nat): (home: nat)
    requires capacity > 0
    ensures home < capacity
  {
    h % capacity
  }

  /** No slot on the way from home to i has never been used. */
  ghost predicate Walk(ix: seq<int>, home: nat, i: nat)
    requires home < |ix| && i < |ix|
  {
    forall t | 0 <= t < Dist(home, i, |ix|) :: ix[At(home, t, |ix|)] != EMPTY
  }

  // ----- the invariant -----

  ghost predicate HasSlot(ix: seq<int>, j: nat) {
    exists i :: 0 <= i < |ix| && ix[i] == j
  }

  /** Slots and live entries are one to one. */
  ghost predicate Linked<K, V>(es: seq<Entry<K, V>>, ix: seq<int>, used: nat) {
    && used <= |es| && |es| == |ix|
    && (forall i | 0 <= i < |ix| :: ix[i] == EMPTY || ix[i] == TOMBSTONE || (0 <= ix[i] < used && es[ix[i]].Pair?))
    && (forall i, k | 0 <= i < k < |ix| && ix[i] >= 0 :: ix[i] != ix[k])
    && forall j: nat | j < used && es[j].Pair? :: HasSlot(ix, j)
  }

  /** Every live entry can be walked to from its home. */
  ghost predicate Probed<K, V>(es: seq<Entry<K, V>>, ix: seq<int>, used: nat, hash: Hash<K>)
    requires Linked(es, ix, used)
  {
    forall i | 0 <= i < |ix| && ix[i] >= 0 ::
      && hash(es[ix[i]].key).Some?
      && Walk(ix, Home(hash(es[ix[i]].key).value, |ix|), i)
  }

  ghost predicate Unique<K, V>(es: seq<Entry<K, V>>, used: nat, eq: Equal<K>)
    requires used <= |es|
  {
    forall j, k | 0 <= j < used && 0 <= k < used && j != k && es[j].Pair? && es[k].Pair? :: !eq(es[j].key, es[k].key)
  }

  ghost predicate Ok<K, V>(es: seq<Entry<K, V>>, ix: seq<int>, used: nat, hash: Hash<K>, eq: Equal<K>) {
    && Linked(es, ix, used) && Probed(es, ix, used, hash) && Unique(es, used, eq)
    && NonEmpty(ix) <= used
  }

  /** How many slots have ever been used. */
  function NonEmpty(ix: seq<int>): (n: nat)
    ensures n <= |ix|
  {
    if ix == [] then 0 else NonEmpty(ix[..|ix| - 1]) + if ix[|ix| - 1] == EMPTY then 0 else 1
  }

  lemma {:induction false} NonEmptyUpdate(ix: seq<int>, i: nat, v: int)
    requires i < |ix|
    ensures NonEmpty(ix[i := v]) == NonEmpty(ix) - (if ix[i] == EMPTY then 0 else 1) + if v == EMPTY then 0 else 1
    decreases |ix|
  {
    var n := |ix| - 1;
    if i == n {
      assert ix[i := v][..n] == ix[..n];
    } else {
      assert ix[i := v][..n] == ix[..n][i := v];
      NonEmptyUpdate(ix[..n], i, v);
    }
  }

  lemma {:induction false} SomeEmpty(ix: seq<int>) returns (i: nat)
    requires NonEmpty(ix) < |ix|
    ensures i < |ix| && ix[i] == EMPTY
    decreases |ix|
  {
    var n := |ix| - 1;
    if ix[n] == EMPTY {
      i := n;
    } else {
      i := SomeEmpty(ix[..n]);
    }
  }

  lemma {:induction false} AllEmpty(ix: seq<int>)
    requires forall i | 0 <= i < |ix| :: ix[i] == EMPTY
    ensures NonEmpty(ix) == 0
    decreases |ix|
  {
    if ix != [] {
      AllEmpty(ix[..|ix| - 1]);
    }
  }

  // ----- what a probe finds -----

  ghost predicate Absent<K, V>(es: seq<Entry<K, V>>, used: nat, eq: Equal<K>, exact: bool, key: K)
    requires used <= |es|
  {
    forall j | 0 <= j < used && es[j].Pair? :: !Match(eq, exact, es[j].key, key)
  }

  /** The slot of the entry a key matches, or where an entry for it may go. */
  ghost predicate Lands<K, V>(es: seq<Entry<K, V>>, ix: seq<int>, used: nat, hash: Hash<K>, eq: Equal<K>, exact: bool,
                                  key: K, index: int)
    requires Linked(es, ix, used) && |ix| > 0
  {
    if hash(key).None? then index == -1 else
      && 0 <= index < |ix|
      && if ix[index] >= 0 then Match(eq, exact, es[ix[index]].key, key)
         else Absent(es, used, eq, exact, key) && Walk(ix, Home(hash(key).value, |ix|), index)
  }

  /** A live entry is on the walk from its home, before any slot never used. */
  lemma WalkFinds<K(!new), V>(es: seq<Entry<K, V>>, ix: seq<int>, used: nat, hash: Hash<K>, j: nat) returns (u: nat)
    requires Linked(es, ix, used) && Probed(es, ix, used, hash) && j < used && es[j].Pair?
    ensures hash(es[j].key).Some? && u < |ix|
    ensures var home := Home(hash(es[j].key).value, |ix|);
            ix[At(home, u, |ix|)] == j && forall t | 0 <= t < u :: ix[At(home, t, |ix|)] != EMPTY
  {
    assert HasSlot(ix, j);
    var i :| 0 <= i < |ix| && ix[i] == j;
    var home := Home(hash(es[j].key).value, |ix|);
    assert Walk(ix, home, i);
    u := Dist(home, i, |ix|);
  }

  /** A walk of t steps from home that has met neither an unused slot nor a match. */
  ghost predicate Passed<K, V>(es: seq<Entry<K, V>>, ix: seq<int>, used: nat, home: nat, t: nat, eq: Equal<K>, exact: bool, key: K)
    requires Linked(es, ix, used) && home < |ix| && t <= |ix|
  {
    forall u | 0 <= u < t ::
      && ix[At(home, u, |ix|)] != EMPTY
      && (ix[At(home, u, |ix|)] >= 0 ==> !Match(eq, exact, es[ix[At(home, u, |ix|)]].key, key))
  }

  /** A walk that meets an unused slot with no match before it will meet none. */
  lemma WalkEnds<K(!new), V>(es: seq<Entry<K, V>>, ix: seq<int>, used: nat, hash: Hash<K>, eq: Equal<K>, exact: bool,
                            key: K, t: nat)
    requires Consistent(hash, eq) && Linked(es, ix, used) && Probed(es, ix, used, hash) && t < |ix| && hash(key).Some?
    requires ix[At(Home(hash(key).value, |ix|), t, |ix|)] == EMPTY
    requires Passed(es, ix, used, Home(hash(key).value, |ix|), t, eq, exact, key)
    ensures Absent(es, used, eq, exact, key)
  {
    hide Probed, Walk;
    forall j: nat | j < used && es[j].Pair?
      ensures !Match(eq, exact, es[j].key, key)
    {
      if hash(es[j].key) == hash(key) {
        var u := WalkFinds(es, ix, used, hash, j);
        assert u < t;
      }
    }
  }

  lemma PassedNext<K, V>(es: seq<Entry<K, V>>, ix: seq<int>, used: nat, home: nat, t: nat, eq: Equal<K>, exact: bool, key: K)
    requires Linked(es, ix, used) && home < |ix| && t < |ix| && Passed(es, ix, used, home, t, eq, exact, key)
    requires ix[At(home, t, |ix|)] != EMPTY
    requires ix[At(home, t, |ix|)] >= 0 ==> !Match(eq, exact, es[ix[At(home, t, |ix|)]].key, key)
    ensures Passed(es, ix, used, home, t + 1, eq, exact, key)
  {
  }

  lemma PassedWalk<K, V>(es: seq<Entry<K, V>>, ix: seq<int>, used: nat, home: nat, t: nat, s: nat, eq: Equal<K>, exact: bool, key: K)
    requires Linked(es, ix, used) && home < |ix| && s <= t < |ix| && Passed(es, ix, used, home, t, eq, exact, key)
    ensures Walk(ix, home, At(home, s, |ix|))
  {
    assert Dist(home, At(home, s, |ix|), |ix|) == s;
  }

  lemma SlotBounds<K, V>(es: seq<Entry<K, V>>, ix: seq<int>, used: nat, i: nat)
    requires Linked(es, ix, used) && i < |ix|
    ensures ix[i] == EMPTY || ix[i] == TOMBSTONE || (0 <= ix[i] < |es| && es[ix[i]].Pair?)
  {
  }

  /** Putting a key that matches nothing where its walk ended. */
  lemma InsertOk<K(!new), V>(es: seq<Entry<K, V>>, ix: seq<int>, used: nat, hash: Hash<K>, eq: Equal<K>, index: nat, e: Entry<K, V>)
    requires Consistent(hash, eq) && Ok(es, ix, used, hash, eq) && used < |es| && index < |ix| && ix[index] < 0
    requires e.Pair? && hash(e.key).Some? && Absent(es, used, eq, false, e.key) && Walk(ix, Home(hash(e.key).value, |ix|), index)
    ensures Ok(es[used := e], ix[index := used], used + 1, hash, eq)
  {
    hide Walk, Consistent, Unique, Absent, Linked, Probed;
    NonEmptyUpdate(ix, index, used);
    InsertLinked(es, ix, used, index, e);
    InsertUnique(es, used, hash, eq, e);
    InsertProbed(es, ix, used, hash, index, e);
  }

  lemma InsertUnique<K(!new), V>(es: seq<Entry<K, V>>, used: nat, hash: Hash<K>, eq: Equal<K>, e: Entry<K, V>)
    requires Consistent(hash, eq) && used < |es| && Unique(es, used, eq) && e.Pair? && Absent(es, used, eq, false, e.key)
    ensures Unique(es[used := e], used + 1, eq)
  {
  }

  lemma InsertLinked<K, V>(es: seq<Entry<K, V>>, ix: seq<int>, used: nat, index: nat, e: Entry<K, V>)
    requires Linked(es, ix, used) && used < |es| && index < |ix| && ix[index] < 0 && e.Pair?
    ensures Linked(es[used := e], ix[index := used], used + 1)
  {
    var es', ix' := es[used := e], ix[index := used];
    forall j: nat | j < used + 1 && es'[j].Pair?
      ensures HasSlot(ix', j)
    {
      if j < used {
        assert HasSlot(ix, j);
        var i :| 0 <= i < |ix| && ix[i] == j;
        assert ix'[i] == j;
      } else {
        assert ix'[index] == j;
      }
    }
  }

  lemma InsertProbed<K(!new), V>(es: seq<Entry<K, V>>, ix: seq<int>, used: nat, hash: Hash<K>, index: nat, e: Entry<K, V>)
    requires Linked(es, ix, used) && Probed(es, ix, used, hash) && used < |es| && index < |ix| && ix[index] < 0
    requires e.Pair? && hash(e.key).Some? && Walk(ix, Home(hash(e.key).value, |ix|), index)
    requires Linked(es[used := e], ix[index := used], used + 1)
    ensures Probed(es[used := e], ix[index := used], used + 1, hash)
  {
    var es', ix' := es[used := e], ix[index := used];
    forall i | 0 <= i < |ix'| && ix'[i] >= 0
      ensures hash(es'[ix'[i]].key).Some? && Walk(ix', Home(hash(es'[ix'[i]].key).value, |ix'|), i)
    {
      if i != index {
        assert es'[ix'[i]] == es[ix[i]];
        WalkKept(ix, Home(hash(es[ix[i]].key).value, |ix|), i, index, used);
      } else {
        WalkKept(ix, Home(hash(e.key).value, |ix|), i, index, used);
      }
    }
  }

  lemma WalkKept(ix: seq<int>, home: nat, i: nat, index: nat, v: int)
    requires home < |ix| && i < |ix| && index < |ix| && Walk(ix, home, i) && v != EMPTY
    ensures Walk(ix[index := v], home, i)
  {
  }

  /** Taking an entry out. */
  lemma DeleteOk<K(!new), V>(es: seq<Entry<K, V>>, ix: seq<int>, used: nat, hash: Hash<K>, eq: Equal<K>, index: nat)
    requires Ok(es, ix, used, hash, eq) && index < |ix| && ix[index] >= 0
    ensures Ok(es[ix[index] := Gap], ix[index := TOMBSTONE], used, hash, eq)
  {
    var es', ix' := es[ix[index] := Gap], ix[index := TOMBSTONE];
    NonEmptyUpdate(ix, index, TOMBSTONE);
    assert Linked(es', ix', used) by {
      hide Walk, Unique;
      forall j: nat | j < used && es'[j].Pair?
        ensures HasSlot(ix', j)
      {
        var i :| 0 <= i < |ix| && ix[i] == j;
        assert ix'[i] == j;
      }
    }
    hide Unique;
    forall i | 0 <= i < |ix'| && ix'[i] >= 0
      ensures hash(es'[ix'[i]].key).Some? && Walk(ix', Home(hash(es'[ix'[i]].key).value, |ix'|), i)
    {
      assert es'[ix'[i]] == es[ix[i]];
      WalkKept(ix, Home(hash(es[ix[i]].key).value, |ix|), i, index, TOMBSTONE);
    }
    assert Unique(es', used, eq) by { DeleteUnique(es, used, eq, ix[index]); }
  }

  lemma DeleteUnique<K, V>(es: seq<Entry<K, V>>, used: nat, eq: Equal<K>, j: nat)
    requires used <= |es| && j < |es| && Unique(es, used, eq)
    ensures Unique(es[j := Gap], used, eq)
  {
  }

  // ----- the list a table stands for -----

  type Assoc<K, V> = seq<(K, V)>

  function Live<K, V>(es: seq<Entry<K, V>>): (r: Assoc<K, V>)
    ensures |r| <= |es|
  {
    if es == [] then [] else
      var n := |es| - 1;
      Live(es[..n]) + if es[n].Pair? then [(es[n].key, es[n].value)] else []
  }

  lemma {:induction false} LiveConcat<K, V>(a: seq<Entry<K, V>>, b: seq<Entry<K, V>>)
    ensures Live(a + b) == Live(a) + Live(b)
    decreases |b|
  {
    if b == [] {
      assert a + b == a;
    } else {
      var n := |b| - 1;
      assert (a + b)[..|a + b| - 1] == a + b[..n];
      LiveConcat(a, b[..n]);
    }
  }

  lemma {:induction false} LiveNone<K, V>(es: seq<Entry<K, V>>)
    requires forall i | 0 <= i < |es| :: es[i].Gap?
    ensures Live(es) == []
    decreases |es|
  {
    if es != [] {
      LiveNone(es[..|es| - 1]);
    }
  }

  /** The list is what comes before an entry, the entry, and what comes after. */
  lemma LiveSplit<K, V>(es: seq<Entry<K, V>>, j: nat)
    requires j < |es|
    ensures Live(es) == Live(es[..j]) + (if es[j].Pair? then [(es[j].key, es[j].value)] else []) + Live(es[j + 1..])
  {
    hide Live;
    var a, b := es[..j], es[j + 1..];
    LiveConcat(a + [es[j]], b);
    LiveConcat(a, [es[j]]);
    LiveOne(es[j]);
    SplitAt(es, j);
  }

  lemma SplitAt<T>(s: seq<T>, j: nat)
    requires j < |s|
    ensures s == s[..j] + [s[j]] + s[j + 1..]
  {
  }

  lemma LiveOne<K, V>(e: Entry<K, V>)
    ensures Live([e]) == if e.Pair? then [(e.key, e.value)] else []
  {
    assert [e][..0] == [];
  }

  lemma LiveUpdate<K, V>(es: seq<Entry<K, V>>, j: nat, e: Entry<K, V>)
    requires j < |es|
    ensures Live(es[j := e]) == Live(es[..j]) + (if e.Pair? then [(e.key, e.value)] else []) + Live(es[j + 1..])
  {
    var es' := es[j := e];
    LiveSplit(es', j);
    assert es'[..j] == es[..j] && es'[j + 1..] == es[j + 1..];
  }

  /** Where a pair of the list comes from. */
  lemma {:induction false} LiveFrom<K, V>(es: seq<Entry<K, V>>, q: nat) returns (j: nat)
    requires q < |Live(es)|
    ensures j < |es| && es[j].Pair? && Live(es)[q] == (es[j].key, es[j].value)
    decreases |es|
  {
    var n := |es| - 1;
    if q < |Live(es[..n])| {
      j := LiveFrom(es[..n], q);
    } else {
      j := n;
    }
  }

  /** The first pair whose key matches, or the length of the list. */
  function Position<K(==), V>(list: Assoc<K, V>, eq: Equal<K>, exact: bool, key: K): (p: nat)
    ensures p <= |list|
    ensures p < |list| ==> Match(eq, exact, list[p].0, key)
    ensures forall q | 0 <= q < p :: !Match(eq, exact, list[q].0, key)
  {
    if list == [] || Match(eq, exact, list[0].0, key) then 0 else 1 + Position(list[1..], eq, exact, key)
  }

  function Put<K(==), V>(list: Assoc<K, V>, eq: Equal<K>, exact: bool, key: K, value: V): Assoc<K, V> {
    var p := Position(list, eq, exact, key);
    if p < |list| then list[p := (list[p].0, value)] else list + [(key, value)]
  }

  function Removed<K(==), V>(list: Assoc<K, V>, eq: Equal<K>, exact: bool, key: K): Assoc<K, V> {
    var p := Position(list, eq, exact, key);
    if p < |list| then list[..p] + list[p + 1..] else list
  }

  function Lookup<K(==), V>(list: Assoc<K, V>, eq: Equal<K>, exact: bool, key: K): Option<V> {
    var p := Position(list, eq, exact, key);
    if p < |list| then Some(list[p].1) else None
  }

  /** Deleting a key and setting it again moves it to the end, with the new key object. */
  lemma SetAgainGoesLast<K, V>(list: Assoc<K, V>, eq: Equal<K>, exact: bool, key: K, value: V)
    requires Position(list, eq, exact, key) < |list|
    requires forall q | Position(list, eq, exact, key) < q < |list| :: !Match(eq, exact, list[q].0, key)
    ensures Put(Removed(list, eq, exact, key), eq, exact, key, value) == Removed(list, eq, exact, key) + [(key, value)]
  {
    var p, rest := Position(list, eq, exact, key), Removed(list, eq, exact, key);
    forall q | 0 <= q < |rest|
      ensures !Match(eq, exact, rest[q].0, key)
    {
      assert rest[q] == if q < p then list[q] else list[q + 1];
    }
  }

  /** The entry a key matches is the first match of the list. */
  lemma PositionOf<K(!new), V>(es: seq<Entry<K, V>>, used: nat, hash: Hash<K>, eq: Equal<K>, exact: bool, key: K, j: nat)
    requires Consistent(hash, eq) && used <= |es| && Unique(es, used, eq) && j < used && es[j].Pair?
    requires forall i | used <= i < |es| :: es[i].Gap?
    requires Match(eq, exact, es[j].key, key)
    ensures Position(Live(es), eq, exact, key) == |Live(es[..j])| < |Live(es)|
    ensures Live(es)[|Live(es[..j])|] == (es[j].key, es[j].value)
  {
    LiveSplit(es, j);
    var p := |Live(es[..j])|;
    forall q | 0 <= q < p
      ensures !Match(eq, exact, Live(es)[q].0, key)
    {
      var i := LiveFrom(es[..j], q);
      assert Live(es)[q] == Live(es[..j])[q] == (es[i].key, es[i].value);
      assert !eq(es[i].key, es[j].key);
      MatchesMeet(hash, eq, exact, es[i].key, es[j].key, key);
    }
    assert Match(eq, exact, Live(es)[p].0, key);
    var q := Position(Live(es), eq, exact, key);
    assert !(q < p) && !(p < q);
  }

  lemma MatchesMeet<K(!new)>(hash: Hash<K>, eq: Equal<K>, exact: bool, a: K, b: K, key: K)
    requires Consistent(hash, eq)
    ensures Match(eq, exact, a, key) && Match(eq, exact, b, key) ==> eq(a, b)
  {
  }

  lemma PositionNone<K, V>(es: seq<Entry<K, V>>, used: nat, eq: Equal<K>, exact: bool, key: K)
    requires used <= |es| && Absent(es, used, eq, exact, key) && forall i | used <= i < |es| :: es[i].Gap?
    ensures Position(Live(es), eq, exact, key) == |Live(es)|
  {
    var p := Position(Live(es), eq, exact, key);
    if p < |Live(es)| {
      var j := LiveFrom(es, p);
      assert false;
    }
  }

  /** A new entry goes to the end of the list. */
  lemma LiveAppend<K, V>(es: seq<Entry<K, V>>, used: nat, e: Entry<K, V>)
    requires used < |es| && e.Pair? && forall i | used <= i < |es| :: es[i].Gap?
    ensures Live(es[used := e]) == Live(es) + [(e.key, e.value)]
  {
    LiveUpdate(es, used, e);
    LiveSplit(es, used);
    LiveNone(es[used + 1..]);
  }

  // ----- the table -----

  /** Capacities are 0, or 8 doubled some number of times. */
  predicate Size(capacity: nat) {
    capacity == 0 || capacity == 8 || (capacity > 8 && capacity % 2 == 0 && Size(capacity / 2))
  }

  function Grown(capacity: nat): (c: nat)
    ensures c * 3 / 4 > capacity * 3 / 4 && (Size(capacity) ==> Size(c))
  {
    assert capacity * 2 / 2 == capacity;
    if capacity < 8 then 8 else capacity * 2
  }

  class Table<K(==, !new), V> {
    var entries: array<Entry<K, V>>
    var indexes: array<int>
    var count: nat
    var used: nat
    const hash: Hash<K>
    const eq: Equal<K>

    ghost predicate Valid()
      reads this, entries, indexes
    {
      && Consistent(hash, eq) && entries.Length == indexes.Length && Size(entries.Length)
      && used <= entries.Length * 3 / 4
      && Ok(entries[..], indexes[..], used, hash, eq)
      && (forall j | used <= j < entries.Length :: entries[j].Gap?)
      && count == |Live(entries[..])|
    }

    ghost function Contents(): Assoc<K, V>
      reads this, entries
    {
      Live(entries[..])
    }

    constructor (hash: Hash<K>, eq: Equal<K>)
      requires Consistent(hash, eq)
      ensures Valid() && Contents() == [] && fresh(entries) && fresh(indexes)
      ensures this.hash == hash && this.eq == eq
    {
      this.hash, this.eq := hash, eq;
      entries := new Entry<K, V>[0];
      indexes := new int[0];
      count, used := 0, 0;
    }

    /** The slot a key lands on. There is always an unused slot to stop at, so a walk never comes back to a tombstone. */
    static method IndexKey(es: array<Entry<K, V>>, ix: array<int>, ghost used: nat, hash: Hash<K>, eq: Equal<K>, key: K, exact: bool)
      returns (index: int)
      requires Consistent(hash, eq) && Linked(es[..], ix[..], used) && Probed(es[..], ix[..], used, hash)
      requires NonEmpty(ix[..]) < ix.Length
      ensures Lands(es[..], ix[..], used, hash, eq, exact, key, index)
    {
      hide Consistent, Linked, Probed, Walk, Absent, Passed, NonEmpty, At, Dist, Home;
      var h := hash(key);
      if h.None? {
        return -1;
      }
      ghost var E, X := es[..], ix[..];
      var capacity := ix.Length;
      ghost var home := Home(h.value, capacity);
      var tombstone := -1;
      ghost var ended := SomeEmpty(X);
      ghost var t, seen := 0, 0;
      index := Home(h.value, capacity);
      StartsAt(home, capacity);
      assert Passed(E, X, used, home, 0, eq, exact, key) by { PassedNone(E, X, used, home, eq, exact, key); }
      while true
        invariant 0 <= index < capacity && t <= Dist(home, ended, capacity) && index == At(home, t, capacity)
        invariant Passed(E, X, used, home, t, eq, exact, key)
        invariant tombstone == -1 || (seen < t && tombstone == At(home, seen, capacity) && X[tombstone] == TOMBSTONE)
        decreases capacity - t
      {
        SlotBounds(E, X, used, index);
        if ix[index] == EMPTY {
          WalkEnds(E, X, used, hash, eq, exact, key, t);
          if tombstone != -1 {
            PassedWalk(E, X, used, home, t, seen, eq, exact, key);
            return tombstone;
          }
          PassedWalk(E, X, used, home, t, t, eq, exact, key);
          return index;
        } else if ix[index] == TOMBSTONE {
          if tombstone != -1 {
            Apart(home, seen, t, capacity);
            assert tombstone != index;
          }
          if tombstone == -1 {
            tombstone, seen := index, t;
          }
        } else if Match(eq, exact, es[ix[index]].key, key) {
          return index;
        }
        assert t != Dist(home, ended, capacity);
        PassedNext(E, X, used, home, t, eq, exact, key);
        index := Stepped(index, home, t, capacity);
        t := t + 1;
      }
    }

    /** Rewrite the entries without their gaps, and index them afresh. */
    method AdjustCapacity(capacity: nat)
      requires Valid() && Size(capacity) && count <= capacity * 3 / 4
      modifies this
      ensures Valid() && Contents() == old(Contents()) && entries.Length == capacity && used == count == old(count)
      ensures fresh(entries) && fresh(indexes)
    {
      hide Ok, Linked, Probed, Unique, NonEmpty, Live, Consistent, Lands, Absent;
      ghost var was := entries[..];
      var nentries := new Entry<K, V>[capacity](_ => Gap);
      var nindexes := new int[capacity](_ => EMPTY);
      var i, e := 0, 0;
      FreshOk(nentries[..], nindexes[..], hash, eq);
      assert Live(was[..0]) == [] by { LiveNone(was[..0]); }
      LiveNone(nentries[..]);
      while i < count
        invariant i <= count && e <= |was| && entries == old(entries) && entries[..] == was && fresh(nentries) && fresh(nindexes)
        invariant count == old(count) && used == old(used) && indexes == old(indexes)
        invariant nentries.Length == nindexes.Length == capacity
        invariant Ok(nentries[..], nindexes[..], i, hash, eq) && Dense(nentries[..], i)
        invariant Live(nentries[..]) == Live(was[..e]) && |Live(was[..e])| == i
      {
        assert was[..e] == entries[..e];
        e := NextPair(e);
        assert was[..e] == entries[..e];
        ghost var E, X := nentries[..], nindexes[..];
        ghost var entry := was[e];
        OkLive(was, indexes[..], used, hash, eq, e);
        MovedAbsent(was, used, hash, eq, E, i, e);
        nentries[i] := entries[e];
        assert nentries[..] == E[i := entry];
        OkBeyond(E, X, i, hash, eq, entry);
        OkRoom(X, i, E, hash, eq);
        var indexkey := IndexKey(nentries, nindexes, i, hash, eq, entries[e].key, true);
        LandsFree(E, X, i, hash, eq, entry, indexkey);
        nindexes[indexkey] := i;
        assert nindexes[..] == X[indexkey := i];
        InsertOk(E, X, i, hash, eq, indexkey, entry);
        DenseNext(E, i, entry);
        LiveAppend(E, i, entry);
        LiveNext(was, e);
        e := e + 1;
        i := i + 1;
      }
      LiveRest(was, e);
      entries, indexes := nentries, nindexes;
      used := count;
      DenseLive(nentries[..], i);
    }

    /** Skip gaps. */
    method NextPair(from: nat) returns (e: nat)
      requires from <= entries.Length && |Live(entries[..from])| < |Live(entries[..])|
      ensures from <= e < entries.Length && entries[e].Pair? && Live(entries[..e]) == Live(entries[..from])
    {
      e := from;
      LiveRestIf(entries[..], e);
      while entries[e].Gap?
        invariant from <= e < entries.Length && Live(entries[..e]) == Live(entries[..from])
        decreases entries.Length - e
      {
        LiveNext(entries[..], e);
        e := e + 1;
        assert entries[..][..e] == entries[..e];
        LiveRestIf(entries[..], e);
      }
    }

    /** The slot a key lands on in this table, and what that says of the list. */
    method Locate(key: K, exact: bool) returns (index: int)
      requires Valid() && entries.Length > 0
      ensures Linked(entries[..], indexes[..], used) && Lands(entries[..], indexes[..], used, hash, eq, exact, key, index)
      ensures hash(key).None? ==> index == -1
      ensures hash(key).Some? ==> 0 <= index < indexes.Length && indexes[index] < used
      ensures hash(key).Some? && indexes[index] < 0 ==>
                Position(Contents(), eq, exact, key) == |Contents()| && Absent(entries[..], used, eq, exact, key)
      ensures hash(key).Some? && indexes[index] >= 0 ==>
                && entries[indexes[index]].Pair?
                && Position(Contents(), eq, exact, key) == |Live(entries[..indexes[index]])| < |Contents()|
                && Contents()[|Live(entries[..indexes[index]])|] == (entries[indexes[index]].key, entries[indexes[index]].value)
    {
      hide Consistent, Walk, NonEmpty, Unique, Live, Match;
      index := IndexKey(entries, indexes, used, hash, eq, key, exact);
      if hash(key).Some? {
        SlotBounds(entries[..], indexes[..], used, index);
        if indexes[index] < 0 {
          PositionNone(entries[..], used, eq, exact, key);
        } else {
          PositionOf(entries[..], used, hash, eq, exact, key, indexes[index]);
          assert entries[..][..indexes[index]] == entries[..indexes[index]];
        }
      }
    }

    /** krk_tableSet, krk_tableSetExact: a key that is there keeps its place and its key; a new one goes last. An identity
        set of a key that equals one there without being it would make a second entry for equal keys, of which a lookup by
        equality gives the one its probe meets first; a table that is only ever set by identity has no such pair. */
    method Set(key: K, value: V, exact: bool) returns (isNew: bool)
      requires Valid() && (exact ==> forall p | p in Contents() && eq(p.0, key) :: p.0 == key)
      modifies this, entries, indexes
      ensures Valid() && hash(key) == old(hash(key))
      ensures entries == old(entries) || fresh(entries)
      ensures indexes == old(indexes) || fresh(indexes)
      ensures hash(key).None? ==> !isNew && Contents() == old(Contents())
      ensures hash(key).Some? ==> isNew == (Position(old(Contents()), eq, exact, key) == |old(Contents())|)
      ensures hash(key).Some? ==> Contents() == Put(old(Contents()), eq, exact, key, value)
    {
      hide Ok, Consistent, Live, Position, Absent, Unique, Put;
      if used + 1 > entries.Length * 3 / 4 {
        AdjustCapacity(Grown(entries.Length));
      }
      isNew := Store(key, value, exact);
    }

    /** The rest of a set, once there is room for one entry more. */
    method Store(key: K, value: V, exact: bool) returns (isNew: bool)
      requires Valid() && used + 1 <= entries.Length * 3 / 4
      requires exact ==> forall p | p in Contents() && eq(p.0, key) :: p.0 == key
      modifies this`used, this`count, entries, indexes
      ensures Valid()
      ensures hash(key).None? ==> !isNew && Contents() == old(Contents())
      ensures hash(key).Some? ==> isNew == (Position(old(Contents()), eq, exact, key) == |old(Contents())|)
      ensures hash(key).Some? ==> Contents() == Put(old(Contents()), eq, exact, key, value)
    {
      hide Ok, Consistent, Live, Position, Absent, Unique;
      ghost var list := Contents();
      var index := Locate(key, exact);
      if index < 0 {
        return false;
      }
      isNew := indexes[index] < 0;
      ghost var E, X := entries[..], indexes[..];
      if isNew {
        AbsentWholly(E, used, hash, eq, exact, key);
        WalkTo(E, X, used, hash, eq, exact, key, index);
        InsertOk(E, X, used, hash, eq, index, Pair(key, value));
        LiveAppend(E, used, Pair(key, value));
        indexes[index] := used;
        entries[used] := Pair(key, value);
        assert entries[..] == E[used := Pair(key, value)] && indexes[..] == X[index := used];
        used := used + 1;
        count := count + 1;
      } else {
        var j: nat := indexes[index];
        ghost var entry := Pair(entries[j].key, value);
        ReplaceOk(E, X, used, hash, eq, j, value);
        LiveUpdate(E, j, entry);
        LiveSplit(E, j);
        assert E[..j] == entries[..j];
        entries[j] := Pair(entries[j].key, value);
        assert entries[..] == E[j := entry] && indexes[..] == X;
        Replaced(list, Live(E[..j]), (E[j].key, E[j].value), Live(E[j + 1..]), (E[j].key, value));
      }
    }

    /** krk_tableSetIfExists. */
    method SetIfExists(key: K, value: V) returns (found: bool)
      requires Valid()
      modifies entries
      ensures Valid()
      ensures found == (hash(key).Some? && Position(old(Contents()), eq, false, key) < |old(Contents())|)
      ensures Contents() == if found then Put(old(Contents()), eq, false, key, value) else old(Contents())
    {
      hide Ok, Consistent, Live, Position, Absent, Unique;
      ghost var list := Contents();
      if count == 0 {
        return false;
      }
      assert entries.Length > 0 by { NotNone(entries[..]); }
      var index := Locate(key, false);
      if index < 0 || indexes[index] < 0 {
        return false;
      }
      ghost var E, X := entries[..], indexes[..];
      var j: nat := indexes[index];
      ghost var entry := Pair(entries[j].key, value);
      ReplaceOk(E, X, used, hash, eq, j, value);
      LiveUpdate(E, j, entry);
      LiveSplit(E, j);
      assert E[..j] == entries[..j];
      entries[j] := Pair(entries[j].key, value);
      assert entries[..] == E[j := entry] && indexes[..] == X;
      Replaced(list, Live(E[..j]), (E[j].key, E[j].value), Live(E[j + 1..]), (E[j].key, value));
      found := true;
    }

    /** krk_tableGet. */
    method Get(key: K, exact: bool) returns (value: Option<V>)
      requires Valid()
      ensures value == if hash(key).Some? then Lookup(Contents(), eq, exact, key) else None
    {
      hide Ok, Consistent, Live, Position, Absent, Unique;
      if count == 0 {
        return None;
      }
      assert entries.Length > 0 by { NotNone(entries[..]); }
      var index := Locate(key, exact);
      if index < 0 || indexes[index] < 0 {
        return None;
      }
      value := Some(entries[indexes[index]].value);
    }

    /** krk_tableDelete, krk_tableDeleteExact. */
    method Delete(key: K, exact: bool) returns (found: bool)
      requires Valid()
      modifies this, entries, indexes
      ensures Valid() && entries == old(entries) && indexes == old(indexes) && used == old(used)
      ensures found == (hash(key).Some? && Position(old(Contents()), eq, exact, key) < |old(Contents())|)
      ensures Contents() == if found then Removed(old(Contents()), eq, exact, key) else old(Contents())
    {
      hide Ok, Consistent, Live, Position, Absent, Unique;
      ghost var list := Contents();
      if count == 0 {
        return false;
      }
      assert entries.Length > 0 by { NotNone(entries[..]); }
      var index := Locate(key, exact);
      if index < 0 || indexes[index] < 0 {
        return false;
      }
      ghost var E, X := entries[..], indexes[..];
      ghost var j: nat := indexes[index];
      DeleteOk(E, X, used, hash, eq, index);
      LiveUpdate(E, j, Gap);
      LiveSplit(E, j);
      assert E[..j] == entries[..j];
      count := count - 1;
      entries[indexes[index]] := Gap;
      indexes[index] := TOMBSTONE;
      assert entries[..] == E[j := Gap] && indexes[..] == X[index := TOMBSTONE];
      TakenOut(list, Live(E[..j]), (E[j].key, E[j].value), Live(E[j + 1..]));
      found := true;
    }
  }

  lemma PassedNone<K, V>(es: seq<Entry<K, V>>, ix: seq<int>, used: nat, home: nat, eq: Equal<K>, exact: bool, key: K)
    requires Linked(es, ix, used) && home < |ix|
    ensures Passed(es, ix, used, home, 0, eq, exact, key)
  {
  }

  lemma StartsAt(home: nat, capacity: nat)
    requires home < capacity
    ensures At(home, 0, capacity) == home
  {
  }

  lemma Apart(home: nat, s: nat, t: nat, capacity: nat)
    requires home < capacity && s < t < capacity
    ensures At(home, s, capacity) != At(home, t, capacity)
  {
  }

  function Stepped(index: nat, ghost home: nat, ghost t: nat, capacity: nat): (next: nat)
    requires home < capacity && t + 1 < capacity && index == At(home, t, capacity)
    ensures next == At(home, t + 1, capacity)
  {
    (index + 1) % capacity
  }

  /** The first n entries are live and the rest are gaps. */
  ghost predicate Dense<K, V>(es: seq<Entry<K, V>>, n: nat) {
    n <= |es| && (forall j | 0 <= j < n :: es[j].Pair?) && forall j | n <= j < |es| :: es[j].Gap?
  }

  lemma DenseNext<K, V>(es: seq<Entry<K, V>>, n: nat, e: Entry<K, V>)
    requires Dense(es, n) && n < |es| && e.Pair?
    ensures Dense(es[n := e], n + 1)
  {
  }

  lemma {:induction false} DenseLive<K, V>(es: seq<Entry<K, V>>, n: nat)
    requires Dense(es, n)
    ensures |Live(es)| == n && forall j | 0 <= j < n :: Live(es)[j] == (es[j].key, es[j].value)
    decreases |es|
  {
    if es != [] {
      DenseLive(es[..|es| - 1], if n == |es| then n - 1 else n);
    }
  }

  lemma FreshOk<K(!new), V>(es: seq<Entry<K, V>>, ix: seq<int>, hash: Hash<K>, eq: Equal<K>)
    requires |es| == |ix| && (forall j | 0 <= j < |es| :: es[j].Gap?) && forall i | 0 <= i < |ix| :: ix[i] == EMPTY
    ensures Ok(es, ix, 0, hash, eq) && Dense(es, 0)
  {
    AllEmpty(ix);
  }

  lemma LiveNext<K, V>(es: seq<Entry<K, V>>, e: nat)
    requires e < |es|
    ensures Live(es[..e + 1]) == Live(es[..e]) + if es[e].Pair? then [(es[e].key, es[e].value)] else []
  {
    assert es[..e + 1][..e] == es[..e];
  }

  lemma LiveRest<K, V>(es: seq<Entry<K, V>>, e: nat)
    requires e <= |es| && |Live(es[..e])| == |Live(es)|
    ensures Live(es[..e]) == Live(es)
  {
    LiveConcat(es[..e], es[e..]);
    assert es[..e] + es[e..] == es;
  }

  lemma LiveRestIf<K, V>(es: seq<Entry<K, V>>, e: nat)
    requires e <= |es| && |Live(es[..e])| < |Live(es)|
    ensures e < |es|
  {
    assert es[..|es|] == es;
  }

  lemma OkLive<K(!new), V>(es: seq<Entry<K, V>>, ix: seq<int>, used: nat, hash: Hash<K>, eq: Equal<K>, e: nat)
    requires Ok(es, ix, used, hash, eq) && e < |es| && es[e].Pair? && forall j | used <= j < |es| :: es[j].Gap?
    ensures e < used && hash(es[e].key).Some? && used <= |es| && Unique(es, used, eq)
  {
    var u := WalkFinds(es, ix, used, hash, e);
  }

  /** What has been moved so far is not equal to what comes next. */
  lemma MovedAbsent<K(!new), V>(was: seq<Entry<K, V>>, used: nat, hash: Hash<K>, eq: Equal<K>, es: seq<Entry<K, V>>, i: nat, e: nat)
    requires used <= |was| && Unique(was, used, eq) && e < used && was[e].Pair? && Dense(es, i) && Live(es) == Live(was[..e])
    ensures Absent(es, i, eq, false, was[e].key)
  {
    DenseLive(es, i);
    forall j | 0 <= j < i
      ensures !eq(es[j].key, was[e].key)
    {
      var k := LiveFrom(was[..e], j);
    }
  }

  /** An entry written but not indexed yet is not seen. */
  lemma OkBeyond<K(!new), V>(es: seq<Entry<K, V>>, ix: seq<int>, used: nat, hash: Hash<K>, eq: Equal<K>, e: Entry<K, V>)
    requires Ok(es, ix, used, hash, eq) && used < |es|
    ensures Linked(es[used := e], ix, used) && Probed(es[used := e], ix, used, hash)
  {
    var es' := es[used := e];
    assert forall j | 0 <= j < used :: es'[j] == es[j];
    assert Linked(es', ix, used) by { hide Walk, NonEmpty; }
    hide HasSlot, Walk;
    forall i | 0 <= i < |ix| && ix[i] >= 0
      ensures hash(es'[ix[i]].key).Some? && Walk(ix, Home(hash(es'[ix[i]].key).value, |ix|), i)
    {
      assert es'[ix[i]] == es[ix[i]];
    }
  }

  lemma OkRoom<K(!new), V>(ix: seq<int>, used: nat, es: seq<Entry<K, V>>, hash: Hash<K>, eq: Equal<K>)
    requires Ok(es, ix, used, hash, eq)
    ensures NonEmpty(ix) <= used && Linked(es, ix, used)
  {
  }

  lemma LandsFree<K(!new), V>(es: seq<Entry<K, V>>, ix: seq<int>, used: nat, hash: Hash<K>, eq: Equal<K>, e: Entry<K, V>, index: int)
    requires Consistent(hash, eq) && Ok(es, ix, used, hash, eq) && used < |es| && e.Pair? && hash(e.key).Some?
    requires Linked(es[used := e], ix, used) && Lands(es[used := e], ix, used, hash, eq, true, e.key, index)
    requires Absent(es, used, eq, false, e.key)
    ensures 0 <= index < |ix| && ix[index] < 0 && Walk(ix, Home(hash(e.key).value, |ix|), index)
  {
    hide Walk, Probed;
    assert eq(e.key, e.key);
    assert forall j | 0 <= j < used :: es[used := e][j] == es[j];
    assert forall j | 0 <= j < used && es[j].Pair? :: es[j].key != e.key;
  }

  lemma NotNone<K, V>(es: seq<Entry<K, V>>)
    ensures |Live(es)| > 0 ==> |es| > 0
  {
  }

  lemma Replaced<T>(list: seq<T>, a: seq<T>, x: T, b: seq<T>, y: T)
    requires list == a + [x] + b
    ensures list[|a| := y] == a + [y] + b
  {
  }

  lemma TakenOut<T>(list: seq<T>, a: seq<T>, x: T, b: seq<T>)
    requires list == a + [x] + b
    ensures list[..|a|] + list[|a| + 1..] == a + [] + b
  {
  }

  /** A key the table holds only identically or not at all is absent either way. */
  lemma AbsentWholly<K(!new), V>(es: seq<Entry<K, V>>, used: nat, hash: Hash<K>, eq: Equal<K>, exact: bool, key: K)
    requires used <= |es| && Absent(es, used, eq, exact, key) && forall j | used <= j < |es| :: es[j].Gap?
    requires exact ==> forall p | p in Live(es) && eq(p.0, key) :: p.0 == key
    ensures Absent(es, used, eq, false, key)
  {
    forall j | 0 <= j < used && es[j].Pair?
      ensures !eq(es[j].key, key)
    {
      LiveSplit(es, j);
      assert (es[j].key, es[j].value) in Live(es);
    }
  }

  lemma WalkTo<K(!new), V>(es: seq<Entry<K, V>>, ix: seq<int>, used: nat, hash: Hash<K>, eq: Equal<K>, exact: bool, key: K, index: nat)
    requires Linked(es, ix, used) && |ix| > 0 && Lands(es, ix, used, hash, eq, exact, key, index) && index < |ix| && ix[index] < 0
    ensures hash(key).Some? && Walk(ix, Home(hash(key).value, |ix|), index)
  {
  }

  /** Writing another value to a live entry. */
  lemma ReplaceOk<K(!new), V>(es: seq<Entry<K, V>>, ix: seq<int>, used: nat, hash: Hash<K>, eq: Equal<K>, j: nat, value: V)
    requires Ok(es, ix, used, hash, eq) && j < |es| && es[j].Pair?
    ensures Ok(es[j := Pair(es[j].key, value)], ix, used, hash, eq)
  {
    hide NonEmpty, Walk;
    var es' := es[j := Pair(es[j].key, value)];
    assert forall k | 0 <= k < |es| :: es'[k].Pair? == es[k].Pair? && (es[k].Pair? ==> es'[k].key == es[k].key);
  }
}
