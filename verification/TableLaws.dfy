/** What the association list behind a table does, position by position and by what a lookup gives afterwards. */
module TableLaws {
  import opened Options
  import opened HashTable

  /** An entry's key is the one looked for: the same object, or an equal one. */
  ghost predicate Same<K>(eq: Equal<K>, exact: bool, a: K, key: K) {
    (exact ==> a == key) && (!exact ==> eq(a, key))
  }

  ghost predicate NoneBefore<K, V>(list: Assoc<K, V>, eq: Equal<K>, exact: bool, key: K, n: nat)
    requires n <= |list|
  {
    forall i | 0 <= i < n :: !Same(eq, exact, list[i].0, key)
  }

  /** The first entry with the key counts: a set changes its value and nothing else, and a delete takes it out. */
  lemma FirstCounts<K, V>(list: Assoc<K, V>, eq: Equal<K>, exact: bool, key: K, value: V, i: nat)
    requires i < |list| && NoneBefore(list, eq, exact, key, i) && Same(eq, exact, list[i].0, key)
    ensures Lookup(list, eq, exact, key) == Some(list[i].1)
    ensures Put(list, eq, exact, key, value) == list[..i] + [(list[i].0, value)] + list[i + 1..]
    ensures Removed(list, eq, exact, key) == list[..i] + list[i + 1..]
  {
    var p := Position(list, eq, exact, key);
    assert !(p < i);
    assert Match(eq, exact, list[i].0, key);
  }

  /** With no entry of the key a lookup finds nothing, a set adds one at the end, and a delete does nothing. */
  lemma NoneCounts<K, V>(list: Assoc<K, V>, eq: Equal<K>, exact: bool, key: K, value: V)
    requires NoneBefore(list, eq, exact, key, |list|)
    ensures Lookup(list, eq, exact, key) == None
    ensures Put(list, eq, exact, key, value) == list + [(key, value)]
    ensures Removed(list, eq, exact, key) == list
  {
    assert Position(list, eq, exact, key) == |list|;
  }

  /** The place of the first entry with the key, or the length. */
  lemma First<K, V>(list: Assoc<K, V>, eq: Equal<K>, exact: bool, key: K) returns (i: nat)
    ensures i <= |list| && NoneBefore(list, eq, exact, key, i) && (i < |list| ==> Same(eq, exact, list[i].0, key))
  {
    i := 0;
    while i < |list| && !Same(eq, exact, list[i].0, key)
      invariant i <= |list| && NoneBefore(list, eq, exact, key, i)
    {
      i := i + 1;
    }
  }

  lemma Alike<K(!new)>(hash: Hash<K>, eq: Equal<K>, exact: bool, a: K, k: K, k2: K)
    requires Consistent(hash, eq) && Same(eq, exact, a, k)
    ensures Same(eq, exact, a, k2) <==> Same(eq, exact, k, k2)
  {
  }

  /** After a set the key has its value, and every other key what it had. */
  lemma SetThenGet<K(!new), V>(list: Assoc<K, V>, hash: Hash<K>, eq: Equal<K>, exact: bool, key: K, value: V, other: K)
    requires Consistent(hash, eq)
    ensures Lookup(Put(list, eq, exact, key, value), eq, exact, other)
         == if Same(eq, exact, key, other) then Some(value) else Lookup(list, eq, exact, other)
  {
    hide Consistent, Lookup, Put, Removed;
    var i := First(list, eq, exact, key);
    var j := First(list, eq, exact, other);
    if i < |list| {
      FirstCounts(list, eq, exact, key, value, i);
      Alike(hash, eq, exact, list[i].0, key, other);
    } else {
      NoneCounts(list, eq, exact, key, value);
    }
    var t := Put(list, eq, exact, key, value);
    if Same(eq, exact, key, other) {
      forall q | 0 <= q < i ensures !Same(eq, exact, t[q].0, other) {
        if Same(eq, exact, list[q].0, other) {
          Turned(hash, eq, exact, key, other);
          Alike(hash, eq, exact, list[q].0, other, key);
        }
      }
      FirstCounts(t, eq, exact, other, value, i);
    } else if j < |list| {
      FirstCounts(list, eq, exact, other, value, j);
      FirstCounts(t, eq, exact, other, value, j);
    } else {
      NoneCounts(list, eq, exact, other, value);
      NoneCounts(t, eq, exact, other, value);
    }
  }

  lemma Turned<K(!new)>(hash: Hash<K>, eq: Equal<K>, exact: bool, a: K, b: K)
    requires Consistent(hash, eq) && Same(eq, exact, a, b)
    ensures Same(eq, exact, b, a)
  {
  }

  /** After a delete the key is gone, and every other key has what it had. */
  lemma DeleteThenGet<K(!new), V>(list: Assoc<K, V>, hash: Hash<K>, eq: Equal<K>, exact: bool, key: K, value: V, other: K)
    requires Consistent(hash, eq) && forall i, j | 0 <= i < j < |list| :: !eq(list[i].0, list[j].0)
    ensures Lookup(Removed(list, eq, exact, key), eq, exact, other)
         == if Same(eq, exact, key, other) then None else Lookup(list, eq, exact, other)
  {
    hide Lookup, Put, Removed;
    var i := First(list, eq, exact, key);
    var j := First(list, eq, exact, other);
    if i == |list| {
      NoneCounts(list, eq, exact, key, value);
      if j < |list| {
        if Same(eq, exact, key, other) {
          Turned(hash, eq, exact, key, other);
          Alike(hash, eq, exact, list[j].0, other, key);
          assert false;
        }
      } else {
        NoneCounts(list, eq, exact, other, value);
      }
    } else {
      FirstCounts(list, eq, exact, key, value, i);
      Alike(hash, eq, exact, list[i].0, key, other);
      var t := list[..i] + list[i + 1..];
      if Same(eq, exact, key, other) {
        forall q | 0 <= q < |t| ensures !Same(eq, exact, t[q].0, other) {
          var p := if q < i then q else q + 1;
          assert t[q] == list[p];
          assert !eq(list[p].0, list[i].0) && !eq(list[i].0, list[p].0);
        }
        NoneCounts(t, eq, exact, other, value);
      } else if j < |list| {
        FirstCounts(list, eq, exact, other, value, j);
        FirstCounts(t, eq, exact, other, value, if j < i then j else j - 1);
      } else {
        NoneCounts(list, eq, exact, other, value);
        NoneCounts(t, eq, exact, other, value);
      }
    }
  }
}
