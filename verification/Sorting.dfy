/** What a stable sort is, independently of any algorithm, and the stable merge of two sorted sequences. */
module Sorting {
  /** An element to sort: what is compared, and what moves along with it. */
  datatype Item<+V> = Item(key: V, value: V)

  type Less<!V> = (V, V) -> bool

  /** `less` is a strict weak order. */
  ghost predicate StrictWeak<V(!new)>(less: Less<V>) {
    && (forall a :: !less(a, a))
    && (forall a, b, c :: less(a, b) && less(b, c) ==> less(a, c))
    && (forall a, b, c :: less(a, c) ==> less(a, b) || less(b, c))
  }

  /** At most, at most: at most. */
  lemma Chain<V(!new)>(less: Less<V>, a: V, b: V, c: V)
    requires StrictWeak(less) && !less(b, a) && !less(c, b)
    ensures !less(c, a)
  {
  }

  /** Less, at most: less. */
  lemma LessChain<V(!new)>(less: Less<V>, a: V, b: V, c: V)
    requires StrictWeak(less) && less(a, b) && !less(c, b)
    ensures less(a, c)
  {
  }

  predicate Same<V>(less: Less<V>, a: V, b: V) {
    !less(a, b) && !less(b, a)
  }

  ghost predicate Sorted<V>(less: Less<V>, s: seq<Item<V>>) {
    forall i, j | 0 <= i < j < |s| :: !less(s[j].key, s[i].key)
  }

  /** Strictly decreasing: each element is less than the one before. */
  ghost predicate Falling<V>(less: Less<V>, s: seq<Item<V>>) {
    forall i, j | 0 <= i < j < |s| :: less(s[j].key, s[i].key)
  }

  /** The elements equivalent to `x`, in order. */
  function Class<V>(less: Less<V>, s: seq<Item<V>>, x: V): seq<Item<V>> {
    if s == [] then []
    else (if Same(less, s[0].key, x) then [s[0]] else []) + Class(less, s[1..], x)
  }

  /** Equivalent elements come in the same order in both; in particular one is a permutation of the other. */
  ghost predicate SameOrder<V(!new)>(less: Less<V>, s: seq<Item<V>>, t: seq<Item<V>>) {
    forall x :: Class(less, s, x) == Class(less, t, x)
  }

  lemma {:induction false} ClassConcat<V>(less: Less<V>, a: seq<Item<V>>, b: seq<Item<V>>, x: V)
    ensures Class(less, a + b, x) == Class(less, a, x) + Class(less, b, x)
    decreases |a|
  {
    if a == [] {
      assert a + b == b;
    } else {
      assert (a + b)[1..] == a[1..] + b;
      ClassConcat(less, a[1..], b, x);
    }
  }

  lemma ClassOne<V>(less: Less<V>, e: Item<V>, x: V)
    ensures Class(less, [e], x) == if Same(less, e.key, x) then [e] else []
  {
    assert [e][1..] == [];
  }

  /** Only the middle changed. */
  lemma SameOrderInside<V(!new)>(less: Less<V>, a: seq<Item<V>>, s: seq<Item<V>>, t: seq<Item<V>>, b: seq<Item<V>>)
    requires SameOrder(less, s, t)
    ensures SameOrder(less, a + s + b, a + t + b)
  {
    forall x ensures Class(less, a + s + b, x) == Class(less, a + t + b, x) {
      ClassConcat(less, a + s, b, x);
      ClassConcat(less, a + t, b, x);
      ClassConcat(less, a, s, x);
      ClassConcat(less, a, t, x);
    }
  }

  // ----- stable sorting is a permutation, and determines its result -----

  lemma {:induction false} ClassCounts<V>(less: Less<V>, s: seq<Item<V>>, e: Item<V>)
    requires Same(less, e.key, e.key)
    ensures multiset(Class(less, s, e.key))[e] == multiset(s)[e]
    decreases |s|
  {
    if s != [] {
      assert s == [s[0]] + s[1..];
      ClassCounts(less, s[1..], e);
    }
  }

  lemma SameOrderPermutes<V(!new)>(less: Less<V>, s: seq<Item<V>>, t: seq<Item<V>>)
    requires StrictWeak(less) && SameOrder(less, s, t)
    ensures multiset(s) == multiset(t) && |s| == |t|
  {
    forall e: Item<V> ensures multiset(s)[e] == multiset(t)[e] {
      ClassCounts(less, s, e);
      ClassCounts(less, t, e);
      assert Class(less, s, e.key) == Class(less, t, e.key);
    }
    assert multiset(s) == multiset(t);
    assert |s| == |multiset(s)| == |multiset(t)| == |t|;
  }

  lemma {:induction false} ClassHead<V(!new)>(less: Less<V>, s: seq<Item<V>>, x: V)
    requires StrictWeak(less) && Class(less, s, x) != []
    ensures Class(less, s, x)[0] in s && Same(less, Class(less, s, x)[0].key, x)
    decreases |s|
  {
    if !Same(less, s[0].key, x) {
      ClassHead(less, s[1..], x);
    }
  }

  lemma Cancel<T>(u: seq<T>, a: seq<T>, b: seq<T>)
    requires u + a == u + b
    ensures a == b
  {
    assert (u + a)[|u|..] == a && (u + b)[|u|..] == b;
  }

  lemma HeadsAgree<V(!new)>(less: Less<V>, s: seq<Item<V>>, t: seq<Item<V>>)
    requires StrictWeak(less) && Sorted(less, s) && Sorted(less, t) && SameOrder(less, s, t) && s != [] && t != []
    ensures s[0] == t[0]
  {
    var a, b := s[0], t[0];
    assert Class(less, s, a.key)[0] == a && Class(less, t, b.key)[0] == b;
    ClassHead(less, t, a.key);
    ClassHead(less, s, b.key);
    AtLeastFirst(less, t, Class(less, t, a.key)[0]);
    AtLeastFirst(less, s, Class(less, s, b.key)[0]);
    assert Same(less, a.key, b.key);
    SameClass(less, s, a.key, b.key);
  }

  /** There is only one stable sort of a sequence. */
  lemma {:induction false} SortUnique<V(!new)>(less: Less<V>, s: seq<Item<V>>, t: seq<Item<V>>)
    requires StrictWeak(less) && Sorted(less, s) && Sorted(less, t) && SameOrder(less, s, t)
    ensures s == t
    decreases |s|
  {
    hide StrictWeak, Class, Same;
    SameOrderPermutes(less, s, t);
    if s != [] {
      HeadsAgree(less, s, t);
      forall x ensures Class(less, s[1..], x) == Class(less, t[1..], x) {
        assert Class(less, s, x) == Class(less, t, x);
        ClassCons(less, s, x);
        ClassCons(less, t, x);
        Cancel(if Same(less, s[0].key, x) then [s[0]] else [], Class(less, s[1..], x), Class(less, t[1..], x));
      }
      SortUnique(less, s[1..], t[1..]);
      assert s == [s[0]] + s[1..] && t == [t[0]] + t[1..];
    }
  }

  lemma {:induction false} SameClass<V(!new)>(less: Less<V>, s: seq<Item<V>>, x: V, y: V)
    requires StrictWeak(less) && Same(less, x, y)
    ensures Class(less, s, x) == Class(less, s, y)
    decreases |s|
  {
    if s != [] {
      SameClass(less, s[1..], x, y);
      assert Same(less, s[0].key, x) == Same(less, s[0].key, y);
    }
  }

  // ----- reversal -----

  function Reversed<T>(s: seq<T>): (r: seq<T>)
    ensures |r| == |s|
    ensures forall i | 0 <= i < |s| :: r[i] == s[|s| - 1 - i]
  {
    seq(|s|, i requires 0 <= i < |s| => s[|s| - 1 - i])
  }

  lemma ReversedTwice<T>(s: seq<T>)
    ensures Reversed(Reversed(s)) == s
  {
  }

  lemma ReversedCons<T>(s: seq<T>)
    requires s != []
    ensures Reversed(s) == Reversed(s[1..]) + [s[0]]
  {
  }

  lemma {:induction false} ClassReversed<V>(less: Less<V>, s: seq<Item<V>>, x: V)
    ensures Class(less, Reversed(s), x) == Reversed(Class(less, s, x))
    decreases |s|
  {
    if s != [] {
      ReversedCons(s);
      ClassReversed(less, s[1..], x);
      ClassConcat(less, Reversed(s[1..]), [s[0]], x);
      ClassOne(less, s[0], x);
      if Same(less, s[0].key, x) {
        ReversedCons(Class(less, s, x));
      }
    }
  }

  /** A class of a falling run has at most one element, so reversing the run keeps every class as it is. */
  lemma FallingReversed<V(!new)>(less: Less<V>, s: seq<Item<V>>)
    requires StrictWeak(less) && Falling(less, s)
    ensures Sorted(less, Reversed(s)) && SameOrder(less, Reversed(s), s)
  {
    forall x ensures Class(less, Reversed(s), x) == Class(less, s, x) {
      ClassReversed(less, s, x);
      FallingClass(less, s, x);
    }
  }

  lemma {:induction false} FallingClass<V(!new)>(less: Less<V>, s: seq<Item<V>>, x: V)
    requires StrictWeak(less) && Falling(less, s)
    ensures |Class(less, s, x)| <= 1
    decreases |s|
  {
    if s != [] {
      FallingClass(less, s[1..], x);
      if Same(less, s[0].key, x) {
        NoneBelow(less, s[1..], s[0].key, x);
      }
    }
  }

  lemma {:induction false} NoneBelow<V(!new)>(less: Less<V>, s: seq<Item<V>>, y: V, x: V)
    requires StrictWeak(less) && Same(less, y, x) && forall i | 0 <= i < |s| :: less(s[i].key, y)
    ensures Class(less, s, x) == []
    decreases |s|
  {
    hide StrictWeak;
    if s != [] {
      NoneBelow(less, s[1..], y, x);
      LessChain(less, s[0].key, y, x);
    }
  }

  // ----- merging -----

  /** The left element goes first unless the right one is strictly less. */
  function Merge<V>(less: Less<V>, a: seq<Item<V>>, b: seq<Item<V>>): (m: seq<Item<V>>)
    ensures |m| == |a| + |b|
    decreases |a| + |b|
  {
    if a == [] then b
    else if b == [] then a
    else if !less(b[0].key, a[0].key) then [a[0]] + Merge(less, a[1..], b)
    else [b[0]] + Merge(less, a, b[1..])
  }

  lemma {:induction false} MergeMembers<V>(less: Less<V>, a: seq<Item<V>>, b: seq<Item<V>>, e: Item<V>)
    requires e in Merge(less, a, b)
    ensures e in a || e in b
    decreases |a| + |b|
  {
    if a != [] && b != [] {
      if !less(b[0].key, a[0].key) {
        if e != a[0] { MergeMembers(less, a[1..], b, e); }
      } else {
        if e != b[0] { MergeMembers(less, a, b[1..], e); }
      }
    }
  }

  lemma {:induction false} MergeSorted<V(!new)>(less: Less<V>, a: seq<Item<V>>, b: seq<Item<V>>)
    requires StrictWeak(less) && Sorted(less, a) && Sorted(less, b)
    ensures Sorted(less, Merge(less, a, b))
    decreases |a| + |b|
  {
    hide StrictWeak;
    if a != [] && b != [] {
      var head, rest;
      if !less(b[0].key, a[0].key) {
        head, rest := a[0], Merge(less, a[1..], b);
        MergeSorted(less, a[1..], b);
      } else {
        head, rest := b[0], Merge(less, a, b[1..]);
        MergeSorted(less, a, b[1..]);
      }
      forall i | 0 <= i < |rest| ensures !less(rest[i].key, head.key) {
        HeadLeast(less, a, b, rest[i]) by {
          if !less(b[0].key, a[0].key) { MergeMembers(less, a[1..], b, rest[i]); }
          else { MergeMembers(less, a, b[1..], rest[i]); }
        }
      }
    }
  }

  lemma HeadLeast<V(!new)>(less: Less<V>, a: seq<Item<V>>, b: seq<Item<V>>, e: Item<V>)
    requires StrictWeak(less) && Sorted(less, a) && Sorted(less, b) && a != [] && b != [] && (e in a || e in b)
    ensures !less(e.key, if !less(b[0].key, a[0].key) then a[0].key else b[0].key)
  {
    hide StrictWeak;
    AtLeastFirst(less, a, a[0]);
    AtLeastFirst(less, b, b[0]);
    if e in a {
      AtLeastFirst(less, a, e);
      if less(b[0].key, a[0].key) { Asymmetric(less, b[0].key, a[0].key); Chain(less, b[0].key, a[0].key, e.key); }
    } else {
      AtLeastFirst(less, b, e);
      if !less(b[0].key, a[0].key) { Chain(less, a[0].key, b[0].key, e.key); }
    }
  }

  lemma Asymmetric<V(!new)>(less: Less<V>, a: V, b: V)
    requires StrictWeak(less) && less(a, b)
    ensures !less(b, a)
  {
  }

  lemma AtLeastFirst<V(!new)>(less: Less<V>, s: seq<Item<V>>, e: Item<V>)
    requires StrictWeak(less) && Sorted(less, s) && e in s
    ensures !less(e.key, s[0].key)
  {
  }

  /** Merging keeps every class in order: the left part's elements before the right part's. */
  lemma {:induction false} MergeStable<V(!new)>(less: Less<V>, a: seq<Item<V>>, b: seq<Item<V>>, x: V)
    requires StrictWeak(less) && Sorted(less, a) && Sorted(less, b)
    ensures Class(less, Merge(less, a, b), x) == Class(less, a, x) + Class(less, b, x)
    decreases |a| + |b|
  {
    hide StrictWeak, Class, Same;
    if a == [] || b == [] {
      ClassNone(less, x);
    } else if !less(b[0].key, a[0].key) {
      SortedTail(less, a);
      MergeStable(less, a[1..], b, x);
      ClassCons(less, a, x);
      ClassCons(less, Merge(less, a, b), x);
    } else {
      SortedTail(less, b);
      MergeStable(less, a, b[1..], x);
      ClassCons(less, b, x);
      ClassCons(less, Merge(less, a, b), x);
      RightFirst(less, a, b[0], x);
    }
  }

  lemma ClassNone<V>(less: Less<V>, x: V)
    ensures Class(less, [], x) == []
  {
  }

  lemma ClassCons<V>(less: Less<V>, s: seq<Item<V>>, x: V)
    requires s != []
    ensures Class(less, s, x) == (if Same(less, s[0].key, x) then [s[0]] else []) + Class(less, s[1..], x)
  {
  }

  lemma SortedTail<V>(less: Less<V>, s: seq<Item<V>>)
    requires Sorted(less, s) && s != []
    ensures Sorted(less, s[1..]) && Sorted(less, s[..|s| - 1])
  {
  }

  /** An element below the whole of `a` may go before it. */
  lemma RightFirst<V(!new)>(less: Less<V>, a: seq<Item<V>>, e: Item<V>, x: V)
    requires StrictWeak(less) && Sorted(less, a) && a != [] && less(e.key, a[0].key)
    ensures Same(less, e.key, x) ==> Class(less, a, x) == []
  {
    if Same(less, e.key, x) {
      NoneAbove(less, a, e.key, x);
    }
  }

  /** Everything in `a` is above `y`, so nothing in it is equivalent to it. */
  lemma {:induction false} NoneAbove<V(!new)>(less: Less<V>, a: seq<Item<V>>, y: V, x: V)
    requires StrictWeak(less) && Sorted(less, a) && a != [] && less(y, a[0].key) && Same(less, y, x)
    ensures Class(less, a, x) == []
    decreases |a|
  {
    hide StrictWeak;
    if Same(less, a[0].key, x) {
      LessChain(less, y, a[0].key, x);
    }
    if |a| > 1 {
      LessChain(less, y, a[0].key, a[1].key);
      NoneAbove(less, a[1..], y, x);
    }
  }

  lemma MergeSameOrder<V(!new)>(less: Less<V>, a: seq<Item<V>>, b: seq<Item<V>>)
    requires StrictWeak(less) && Sorted(less, a) && Sorted(less, b)
    ensures SameOrder(less, Merge(less, a, b), a + b)
  {
    forall x ensures Class(less, Merge(less, a, b), x) == Class(less, a + b, x) {
      MergeStable(less, a, b, x);
      ClassConcat(less, a, b, x);
    }
  }

  /** Merging from the right: the greater of the two last elements comes last, the right one if equivalent. */
  lemma {:induction false} MergeLast<V(!new)>(less: Less<V>, a: seq<Item<V>>, b: seq<Item<V>>)
    requires StrictWeak(less) && Sorted(less, a) && Sorted(less, b) && a != [] && b != []
    ensures !less(b[|b| - 1].key, a[|a| - 1].key) ==>
      Merge(less, a, b) == Merge(less, a, b[..|b| - 1]) + [b[|b| - 1]]
    ensures less(b[|b| - 1].key, a[|a| - 1].key) ==>
      Merge(less, a, b) == Merge(less, a[..|a| - 1], b) + [a[|a| - 1]]
    decreases |a| + |b|, 1
  {
    if !less(b[0].key, a[0].key) {
      LastWhenLeftLeads(less, a, b);
    } else {
      LastWhenRightLeads(less, a, b);
    }
  }

  lemma {:induction false} LastWhenLeftLeads<V(!new)>(less: Less<V>, a: seq<Item<V>>, b: seq<Item<V>>)
    requires StrictWeak(less) && Sorted(less, a) && Sorted(less, b) && a != [] && b != []
    requires !less(b[0].key, a[0].key)
    ensures !less(b[|b| - 1].key, a[|a| - 1].key) ==>
      Merge(less, a, b) == Merge(less, a, b[..|b| - 1]) + [b[|b| - 1]]
    ensures less(b[|b| - 1].key, a[|a| - 1].key) ==>
      Merge(less, a, b) == Merge(less, a[..|a| - 1], b) + [a[|a| - 1]]
    decreases |a| + |b|, 0
  {
    hide StrictWeak, Sorted, Merge;
    var m, n := |a| - 1, |b| - 1;
    MergeStep(less, a, b);
    MergeStep(less, a, b[..n]);
    MergeStep(less, a[1..], b[..n]);
    if m > 0 {
      SortedTail(less, a);
      MergeLast(less, a[1..], b);
      MergeStep(less, a[..m], b);
      assert a[1..][..m - 1] == a[..m][1..] && a[..m][0] == a[0] && (n > 0 ==> b[..n][0] == b[0]);
      Assoc([a[0]], Merge(less, a[1..], b[..n]), [b[n]]);
      Assoc([a[0]], Merge(less, a[1..][..m - 1], b), [a[m]]);
    } else {
      LastAbove(less, b);
      Chain(less, a[0].key, b[0].key, b[n].key);
      MergeStep(less, a[1..], b);
      assert b == b[..n] + [b[n]];
    }
  }

  lemma {:induction false} LastWhenRightLeads<V(!new)>(less: Less<V>, a: seq<Item<V>>, b: seq<Item<V>>)
    requires StrictWeak(less) && Sorted(less, a) && Sorted(less, b) && a != [] && b != []
    requires less(b[0].key, a[0].key)
    ensures !less(b[|b| - 1].key, a[|a| - 1].key) ==>
      Merge(less, a, b) == Merge(less, a, b[..|b| - 1]) + [b[|b| - 1]]
    ensures less(b[|b| - 1].key, a[|a| - 1].key) ==>
      Merge(less, a, b) == Merge(less, a[..|a| - 1], b) + [a[|a| - 1]]
    decreases |a| + |b|, 0
  {
    hide StrictWeak, Sorted, Merge;
    var m, n := |a| - 1, |b| - 1;
    MergeStep(less, a, b);
    MergeStep(less, a[..m], b);
    MergeStep(less, a[..m], b[1..]);
    if n > 0 {
      SortedTail(less, b);
      MergeLast(less, a, b[1..]);
      MergeStep(less, a, b[..n]);
      assert b[1..][..n - 1] == b[..n][1..] && b[..n][0] == b[0] && (m > 0 ==> a[..m][0] == a[0]);
      Assoc([b[0]], Merge(less, a, b[1..][..n - 1]), [b[n]]);
      Assoc([b[0]], Merge(less, a[..m], b[1..]), [a[m]]);
    } else {
      LastAbove(less, a);
      LessChain(less, b[0].key, a[0].key, a[m].key);
      MergeStep(less, a, b[1..]);
      assert a == a[..m] + [a[m]];
    }
  }

  lemma Assoc<T>(a: seq<T>, b: seq<T>, c: seq<T>)
    ensures a + (b + c) == (a + b) + c
  {
  }

  lemma MergeStep<V>(less: Less<V>, a: seq<Item<V>>, b: seq<Item<V>>)
    ensures a == [] ==> Merge(less, a, b) == b
    ensures b == [] ==> Merge(less, a, b) == a
    ensures a != [] && b != [] && !less(b[0].key, a[0].key) ==> Merge(less, a, b) == [a[0]] + Merge(less, a[1..], b)
    ensures a != [] && b != [] && less(b[0].key, a[0].key) ==> Merge(less, a, b) == [b[0]] + Merge(less, a, b[1..])
  {
  }

  lemma LastAbove<V(!new)>(less: Less<V>, s: seq<Item<V>>)
    requires StrictWeak(less) && Sorted(less, s) && s != []
    ensures !less(s[|s| - 1].key, s[0].key)
  {
  }
}
