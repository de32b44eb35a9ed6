/** The power of a boundary between two runs, and why powers on the run stack strictly increase. Positions are
    doubled so that the middle of a run stays whole. */
module RunPower {
  import opened Arith

  /** Which of the 2^p equal cells of [0, 2n) holds the doubled position `x`. */
  function Cell(x: nat, p: nat, n: nat): (c: nat)
    requires n > 0
  {
    Div(x * Pow2(p), 2 * n)
  }

  lemma CellIs(x: nat, p: nat, n: nat, q: nat, rest: nat)
    requires n > 0 && x * Pow2(p) == 2 * n * q + rest && rest < 2 * n
    ensures Cell(x, p, n) == q
  {
    hide Pow2;
    DivIs(x * Pow2(p), 2 * n, q, rest);
  }

  lemma WholeCell(x: nat, n: nat)
    requires x < 2 * n
    ensures At(x, 0, n, 0, x) && Cell(x, 0, n) == 0
  {
    CellIs(x, 0, n, 0, x);
  }

  /** `p` is the least depth at which the two positions part; the left one is in an even cell. */
  ghost predicate Parts(l: nat, r: nat, p: nat, n: nat) {
    && n > 0 && p >= 1 && (forall j | 0 <= j < p :: Cell(l, j, n) == Cell(r, j, n))
    && Cell(l, p, n) % 2 == 0 && Cell(r, p, n) == Cell(l, p, n) + 1
  }

  /** At depth `k` the position is `rest` past the start of cell `q`. */
  ghost predicate At(x: nat, k: nat, n: nat, q: nat, rest: nat) {
    x * Pow2(k) == 2 * n * q + rest
  }

  /** powersort_power, for runs [beginA, beginB) and [beginB, endB) of a list of `n`. */
  method Power(n: nat, beginA: nat, beginB: nat, endB: nat) returns (power: nat)
    requires beginA < beginB < endB <= n
    ensures Parts(beginA + beginB, beginB + endB, power, n)
  {
    hide Pow2, Cell, At;
    var l: nat, r: nat := beginA + beginB, beginB + endB;
    var common := 0;
    var digitA, digitB := l >= n, r >= n;
    ghost var l0: nat, r0: nat := l, r;
    ghost var q: nat := 0;
    WholeCell(l, n);
    WholeCell(r, n);
    while digitA == digitB
      invariant l < r < 2 * n && digitA == (l >= n) && digitB == (r >= n)
      invariant At(l0, common, n, q, l) && At(r0, common, n, q, r)
      invariant forall j | 0 <= j <= common :: Cell(l0, j, n) == Cell(r0, j, n)
      decreases 2 * n - (r - l)
    {
      ghost var digit := if digitA then 1 else 0;
      Doubled(l0, common, n, q, l, digit);
      Doubled(r0, common, n, q, r, digit);
      common := common + 1;
      if digitA {
        l := l - n;
        r := r - n;
      }
      l := 2 * l;
      r := 2 * r;
      q := 2 * q + digit;
      digitA := l >= n;
      digitB := r >= n;
    }
    Doubled(l0, common, n, q, l, 0);
    Doubled(r0, common, n, q, r, 1);
    power := common + 1;
  }

  lemma Doubled(x: nat, k: nat, n: nat, q: nat, rest: nat, digit: nat)
    requires n > 0 && At(x, k, n, q, rest) && digit <= 1
    requires if digit == 1 then n <= rest < 2 * n else rest < n
    ensures At(x, k + 1, n, 2 * q + digit, 2 * (rest - (if digit == 1 then n else 0)))
    ensures Cell(x, k + 1, n) == 2 * q + digit
  {
    assert x * Pow2(k + 1) == 2 * (x * Pow2(k)) by { Swap(x, Pow2(k)); }
    Spread(n, q, digit);
    hide Pow2;
    CellIs(x, k + 1, n, 2 * q + digit, 2 * (rest - (if digit == 1 then n else 0)));
  }

  lemma Swap(x: nat, y: nat)
    ensures x * (2 * y) == 2 * (x * y)
  {
  }

  lemma Spread(n: nat, q: nat, digit: nat)
    requires digit <= 1
    ensures 2 * n * (2 * q + digit) == 2 * (2 * n * q) + if digit == 1 then 2 * n else 0
  {
  }

  /** A power is at most the bit length of the list's length. */
  lemma PowerBound(l: nat, r: nat, p: nat, n: nat)
    requires Parts(l, r, p, n) && l + 2 <= r
    ensures Pow2(p - 1) < n
  {
    hide Pow2;
    var k, d := Pow2(p - 1), 2 * n;
    DivBounds(l * k, d);
    DivBounds(r * k, d);
    assert Cell(r, p - 1, n) == Cell(l, p - 1, n);
    MulLe(l + 2, r, k);
    assert (l + 2) * k == l * k + 2 * k;
  }

  lemma BoundedPower(p: nat, n: nat, bits: nat)
    requires p >= 1 && Pow2(p - 1) < n <= Pow2(bits)
    ensures p <= bits
  {
    if p > bits {
      Pow2Monotone(bits, p - 1);
    }
  }

  /** The middles of consecutive runs, and the power of each boundary between two of them. */
  ghost predicate Boundaries(mids: seq<nat>, powers: seq<nat>, n: nat) {
    |mids| == |powers| + 1 && forall i | 0 <= i < |powers| :: Parts(mids[i], mids[i + 1], powers[i], n)
  }

  /** Two boundaries of equal power have one of smaller power between them; next to each other they are never equal. */
  lemma SmallerBetween(mids: seq<nat>, powers: seq<nat>, n: nat)
    requires Boundaries(mids, powers, n) && |powers| >= 2 && powers[0] == powers[|powers| - 1]
    ensures exists i | 0 < i < |powers| - 1 :: powers[i] < powers[0]
  {
    hide Cell;
    var k, p := 1, powers[0];
    assert Parts(mids[0], mids[1], powers[0], n);
    while k < |powers| - 1 && powers[k] >= p
      invariant 1 <= k < |powers| && n > 0 && Cell(mids[k], p, n) % 2 == 1
      invariant forall i | 0 < i < k :: powers[i] >= p
    {
      assert Parts(mids[k], mids[k + 1], powers[k], n);
      k := k + 1;
    }
    assert Parts(mids[|powers| - 1], mids[|powers|], powers[|powers| - 1], n);
  }
}

/** list.sort of src/obj_list.c: runs found in place, a stack of 64 runs ordered by power, and merges through a
    buffer that holds the smaller run. */
module Powersort {
  import opened Arith
  import opened Sorting
  import opened RunPower
  import opened Options

  /** reverse_values on the `n` elements from `lo`. */
  method ReverseValues<V>(a: array<V>, lo: nat, n: nat)
    requires lo + n <= a.Length
    modifies a
    ensures forall i | 0 <= i < a.Length :: a[i] == old(a[if lo <= i < lo + n then lo + lo + n - 1 - i else i])
  {
    var values, end: int := lo, lo + n - 1;
    ghost var k := 0;
    while values < end
      invariant values == lo + k && end == lo + n - 1 - k && 2 * k <= n + 1 && k <= n
      invariant forall i | 0 <= i < a.Length && !(lo <= i < values) && !(end < i < lo + n) :: a[i] == old(a[i])
      invariant forall i | lo <= i < values || end < i < lo + n :: a[i] == old(a[lo + lo + n - 1 - i])
    {
      var scratch := a[values];
      a[values] := a[end];
      a[end] := scratch;
      values := values + 1;
      end := end - 1;
      k := k + 1;
    }
  }

  /** `s` with positions lo to hi replaced. */
  function Splice<T>(s: seq<T>, lo: nat, hi: nat, piece: seq<T>): (r: seq<T>)
    requires lo <= hi <= |s| && |piece| == hi - lo
    ensures |r| == |s|
  {
    s[..lo] + piece + s[hi..]
  }

  /** A SortSlice and what it points into: the keys, and the values that move in lockstep with them unless the
      keys are themselves what is sorted. `items` pairs them up. */
  class Slices<V(!new)> {
    const keys: array<V>
    const values: array?<V>
    ghost var items: seq<Item<V>>

    constructor (keys: array<V>, values: array?<V>, ghost items: seq<Item<V>>)
      requires |items| == keys.Length && (values != null ==> values.Length == keys.Length && values != keys)
      requires forall i | 0 <= i < |items| :: keys[i] == items[i].key && (values != null ==> values[i] == items[i].value)
      ensures Valid() && this.keys == keys && this.values == values && this.items == items
    {
      this.keys, this.values, this.items := keys, values, items;
    }

    ghost function Repr(): set<object> {
      {this, keys} + if values == null then {} else {values}
    }

    ghost predicate Valid()
      reads Repr()
    {
      && |items| == keys.Length && (values != null ==> values.Length == keys.Length && values != keys)
      && forall i | 0 <= i < |items| :: keys[i] == items[i].key && (values != null ==> values[i] == items[i].value)
    }

    /** `*o.keys = *c.keys; if (o.values) *o.values = *c.values`. */
    method Put(o: nat, from: Slices<V>, c: nat)
      requires Valid() && from.Valid() && o < |items| && c < |from.items| && (values == null <==> from.values == null)
      requires from == this || from.Repr() !! Repr()
      modifies Repr()
      ensures Valid() && items == old(items)[o := old(from.items[c])]
    {
      keys[o] := from.keys[c];
      if values != null {
        values[o] := from.values[c];
      }
      items := items[o := from.items[c]];
    }

    method Reverse(lo: nat, n: nat)
      requires Valid() && lo + n <= |items|
      modifies Repr()
      ensures Valid() && items == Splice(old(items), lo, lo + n, Reversed(old(items)[lo..lo + n]))
    {
      ReverseValues(keys, lo, n);
      if values != null {
        ReverseValues(values, lo, n);
      }
      items := Splice(items, lo, lo + n, Reversed(items[lo..lo + n]));
      SpliceReversed(old(items), lo, n);
    }
  }

  lemma SpliceReversed<T>(s: seq<T>, lo: nat, n: nat)
    requires lo + n <= |s|
    ensures var r := Splice(s, lo, lo + n, Reversed(s[lo..lo + n]));
      forall i | 0 <= i < |s| :: r[i] == s[if lo <= i < lo + n then lo + lo + n - 1 - i else i]
  {
  }

  // ----- finding runs -----

  lemma FallingSnoc<V(!new)>(less: Less<V>, s: seq<Item<V>>, e: Item<V>)
    requires StrictWeak(less) && Falling(less, s) && s != [] && less(e.key, s[|s| - 1].key)
    ensures Falling(less, s + [e])
  {
    forall i | 0 <= i < |s| ensures less(e.key, s[i].key) {
    }
  }

  lemma SortedSnoc<V(!new)>(less: Less<V>, s: seq<Item<V>>, e: Item<V>)
    requires StrictWeak(less) && Sorted(less, s) && s != [] && !less(e.key, s[|s| - 1].key)
    ensures Sorted(less, s + [e])
  {
    forall i | 0 <= i < |s| ensures !less(e.key, s[i].key) {
      Chain(less, s[i].key, s[|s| - 1].key, e.key);
    }
  }

  /** From `begin`, while the next key is strictly less, go on; the items from `first` on have been falling. */
  method StrictlyDecreasingPrefix<V(!new)>(less: Less<V>, a: Slices<V>, ghost first: nat, begin: nat, end: nat) returns (r: nat)
    requires StrictWeak(less) && a.Valid() && first <= begin < end <= |a.items| && Falling(less, a.items[first..begin + 1])
    ensures begin < r <= end && Falling(less, a.items[first..r])
  {
    r := begin;
    while r + 1 < end && less(a.keys[r + 1], a.keys[r])
      invariant begin <= r < end && Falling(less, a.items[first..r + 1])
    {
      FallingSnoc(less, a.items[first..r + 1], a.items[r + 1]);
      assert a.items[first..r + 1] + [a.items[r + 1]] == a.items[first..r + 2];
      r := r + 1;
    }
    r := r + 1;
  }

  method WeaklyIncreasingPrefix<V(!new)>(less: Less<V>, a: Slices<V>, ghost first: nat, begin: nat, end: nat) returns (r: nat)
    requires StrictWeak(less) && a.Valid() && first <= begin < end <= |a.items| && Sorted(less, a.items[first..begin + 1])
    ensures begin < r <= end && Sorted(less, a.items[first..r])
  {
    r := begin;
    while r + 1 < end && !less(a.keys[r + 1], a.keys[r])
      invariant begin <= r < end && Sorted(less, a.items[first..r + 1])
    {
      SortedSnoc(less, a.items[first..r + 1], a.items[r + 1]);
      assert a.items[first..r + 1] + [a.items[r + 1]] == a.items[first..r + 2];
      r := r + 1;
    }
    r := r + 1;
  }

  /** The end of the run from `begin`, which is left sorted and stably so. */
  method ExtendAndReverseRight<V(!new)>(less: Less<V>, a: Slices<V>, begin: nat, end: nat) returns (j: nat)
    requires StrictWeak(less) && a.Valid() && begin <= end <= |a.items|
    modifies a.Repr()
    ensures a.Valid() && begin <= j <= end && (begin < end ==> begin < j)
    ensures |a.items| == |old(a.items)| && a.items == Splice(old(a.items), begin, j, a.items[begin..j])
    ensures Sorted(less, a.items[begin..j]) && SameOrder(less, a.items[begin..j], old(a.items)[begin..j])
  {
    hide StrictWeak, Sorted, Falling, SameOrder, Class, Splice;
    ghost var s := a.items;
    j := begin;
    if j == end {
      Single(less, s[begin..j]);
      SpliceIs(s, begin, j, s[begin..j]);
    } else if j + 1 == end {
      j := j + 1;
      Single(less, s[begin..j]);
      SpliceIs(s, begin, j, s[begin..j]);
    } else if less(a.keys[j + 1], a.keys[j]) {
      Pair(less, s, begin);
      j := StrictlyDecreasingPrefix(less, a, begin, begin + 1, end);
      FallingReversed(less, s[begin..j]);
      a.Reverse(begin, j - begin);
      SpliceIs(s, begin, j, Reversed(s[begin..j]));
    } else {
      Pair(less, s, begin);
      j := WeaklyIncreasingPrefix(less, a, begin, begin + 1, end);
      SpliceIs(s, begin, j, s[begin..j]);
      ItsOrder(less, s[begin..j]);
    }
  }

  lemma Single<V(!new)>(less: Less<V>, s: seq<Item<V>>)
    requires |s| <= 1
    ensures Sorted(less, s) && SameOrder(less, s, s)
  {
  }

  lemma ItsOrder<V(!new)>(less: Less<V>, s: seq<Item<V>>)
    ensures SameOrder(less, s, s)
  {
  }

  lemma Pair<V>(less: Less<V>, s: seq<Item<V>>, i: nat)
    requires i + 2 <= |s|
    ensures if less(s[i + 1].key, s[i].key) then Falling(less, s[i..i + 2]) else Sorted(less, s[i..i + 2])
  {
  }

  lemma SpliceIs<T>(s: seq<T>, lo: nat, hi: nat, piece: seq<T>)
    requires lo <= hi <= |s| && |piece| == hi - lo
    ensures Splice(s, lo, hi, piece)[lo..hi] == piece && (piece == s[lo..hi] ==> Splice(s, lo, hi, piece) == s)
  {
  }

  // ----- merging neighbours -----

  /** `s` with the runs [left, mid) and [mid, right) merged. */
  function Merged<V>(less: Less<V>, s: seq<Item<V>>, left: nat, mid: nat, right: nat): (r: seq<Item<V>>)
    requires left <= mid <= right <= |s|
    ensures |r| == |s|
  {
    Splice(s, left, right, Merge(less, s[left..mid], s[mid..right]))
  }

  ghost predicate Apart<V(!new)>(a: Slices<V>, buffer: Slices<V>)
    reads a.Repr(), buffer.Repr()
  {
    a.Valid() && buffer.Valid() && a.Repr() !! buffer.Repr() && (a.values == null <==> buffer.values == null)
    && |buffer.items| == |a.items|
  }

  method CopySlice<V(!new)>(a: Slices<V>, start: nat, end: nat, buffer: Slices<V>)
    requires Apart(a, buffer) && start <= end <= |a.items|
    modifies buffer.Repr()
    ensures Apart(a, buffer) && a.items == old(a.items) && buffer.items[..end - start] == a.items[start..end]
  {
    var i := 0;
    while start + i < end
      invariant i <= end - start && Apart(a, buffer) && a.items == old(a.items)
      invariant buffer.items[..i] == a.items[start..start + i]
    {
      buffer.Put(i, a, start + i);
      i := i + 1;
    }
  }

  /** Merge the sorted neighbours [left, mid) and [mid, right). */
  method MergeRuns<V(!new)>(less: Less<V>, a: Slices<V>, left: nat, mid: nat, right: nat, buffer: Slices<V>)
    requires StrictWeak(less) && Apart(a, buffer) && left <= mid <= right <= |a.items|
    requires Sorted(less, a.items[left..mid]) && Sorted(less, a.items[mid..right])
    modifies a.Repr(), buffer.Repr()
    ensures Apart(a, buffer)
    ensures a.items == Merged(less, old(a.items), left, mid, right)
  {
    if mid - left <= right - mid {
      MergeForward(less, a, left, mid, right, buffer);
    } else {
      MergeBackward(less, a, left, mid, right, buffer);
    }
  }

  /** Merging from the left, seen on the items: `c1` of the left run `A` and those of `B` before `c2` are placed. */
  ghost predicate Forward<V(!new)>(less: Less<V>, s: seq<Item<V>>, t: seq<Item<V>>, left: nat, mid: nat, right: nat, c1: nat, c2: nat)
    requires left <= mid <= right <= |s|
  {
    var A, B, o := s[left..mid], s[mid..right], left + c1 + c2 - mid;
    && |t| == |s| && c1 <= mid - left && mid <= c2 <= right
    && t[..left] == s[..left] && t[c2..] == s[c2..]
    && t[left..o] + Merge(less, A[c1..], B[c2 - mid..]) == Merge(less, A, B)
  }

  lemma ForwardLeft<V(!new)>(less: Less<V>, s: seq<Item<V>>, t: seq<Item<V>>, left: nat, mid: nat, right: nat, c1: nat, c2: nat)
    requires left <= mid <= right <= |s| && Forward(less, s, t, left, mid, right, c1, c2)
    requires c1 < mid - left && (c2 < right ==> !less(s[c2].key, s[left + c1].key))
    ensures Forward(less, s, t[left + c1 + c2 - mid := s[left + c1]], left, mid, right, c1 + 1, c2)
  {
    hide Merge;
    var A, B, o := s[left..mid], s[mid..right], left + c1 + c2 - mid;
    var t' := t[o := s[left + c1]];
    MergeStep(less, A[c1..], B[c2 - mid..]);
    MergeStep(less, A[c1 + 1..], B[c2 - mid..]);
    assert A[c1..][1..] == A[c1 + 1..] && A[c1..] == [A[c1]] + A[c1 + 1..];
    assert t'[left..o + 1] == t[left..o] + [A[c1]];
    TakeLast(t[left..o], A[c1], Merge(less, A[c1 + 1..], B[c2 - mid..]));
  }

  lemma ForwardRight<V(!new)>(less: Less<V>, s: seq<Item<V>>, t: seq<Item<V>>, left: nat, mid: nat, right: nat, c1: nat, c2: nat)
    requires left <= mid <= right <= |s| && Forward(less, s, t, left, mid, right, c1, c2)
    requires c1 < mid - left && c2 < right && less(s[c2].key, s[left + c1].key)
    ensures Forward(less, s, t[left + c1 + c2 - mid := s[c2]], left, mid, right, c1, c2 + 1)
  {
    hide Merge;
    var A, B, o := s[left..mid], s[mid..right], left + c1 + c2 - mid;
    var t' := t[o := s[c2]];
    MergeStep(less, A[c1..], B[c2 - mid..]);
    assert B[c2 - mid..][1..] == B[c2 + 1 - mid..];
    assert t'[left..o + 1] == t[left..o] + [B[c2 - mid]];
    TakeLast(t[left..o], B[c2 - mid], Merge(less, A[c1..], B[c2 + 1 - mid..]));
  }

  lemma ForwardDone<V(!new)>(less: Less<V>, s: seq<Item<V>>, t: seq<Item<V>>, left: nat, mid: nat, right: nat, c2: nat)
    requires left <= mid <= right <= |s| && Forward(less, s, t, left, mid, right, mid - left, c2)
    ensures t == Merged(less, s, left, mid, right)
  {
    hide Merge;
    MergeStep(less, s[left..mid][mid - left..], s[mid..right][c2 - mid..]);
    assert t == t[..left] + t[left..c2] + t[c2..];
    assert s[c2..] == s[mid..right][c2 - mid..] + s[right..];
  }

  method MergeForward<V(!new)>(less: Less<V>, a: Slices<V>, left: nat, mid: nat, right: nat, buffer: Slices<V>)
    requires Apart(a, buffer) && left <= mid <= right <= |a.items|
    modifies a.Repr(), buffer.Repr()
    ensures Apart(a, buffer)
    ensures a.items == Merged(less, old(a.items), left, mid, right)
  {
    hide Merge, Forward;
    ghost var s := a.items;
    var n1 := mid - left;
    CopySlice(a, left, mid, buffer);
    assert Forward(less, s, a.items, left, mid, right, 0, mid) by { ForwardStart(less, s, left, mid, right); }
    var c1, c2, o := 0, mid, left;
    while c1 < n1 && c2 < right
      invariant Apart(a, buffer) && buffer.items[..n1] == s[left..mid]
      invariant 0 <= c1 <= n1 && mid <= c2 <= right && o == left + c1 + (c2 - mid)
      invariant Forward(less, s, a.items, left, mid, right, c1, c2) && |a.items| == |s|
      decreases n1 - c1 + right - c2
    {
      assert buffer.items[c1] == buffer.items[..n1][c1] == s[left + c1];
      ForwardRest(less, s, a.items, left, mid, right, c1, c2);
      if !less(a.keys[c2], buffer.keys[c1]) {
        ForwardLeft(less, s, a.items, left, mid, right, c1, c2);
        a.Put(o, buffer, c1);
        c1 := c1 + 1;
      } else {
        ForwardRight(less, s, a.items, left, mid, right, c1, c2);
        a.Put(o, a, c2);
        c2 := c2 + 1;
      }
      o := o + 1;
    }
    while c1 < n1
      invariant Apart(a, buffer) && buffer.items[..n1] == s[left..mid]
      invariant 0 <= c1 <= n1 && mid <= c2 <= right && o == left + c1 + (c2 - mid) && (c1 < n1 ==> c2 == right)
      invariant Forward(less, s, a.items, left, mid, right, c1, c2) && |a.items| == |s|
    {
      assert buffer.items[c1] == buffer.items[..n1][c1] == s[left + c1];
      ForwardLeft(less, s, a.items, left, mid, right, c1, c2);
      a.Put(o, buffer, c1);
      c1 := c1 + 1;
      o := o + 1;
    }
    ForwardDone(less, s, a.items, left, mid, right, c2);
  }

  lemma ForwardStart<V(!new)>(less: Less<V>, s: seq<Item<V>>, left: nat, mid: nat, right: nat)
    requires left <= mid <= right <= |s|
    ensures Forward(less, s, s, left, mid, right, 0, mid)
  {
    hide Merge;
    assert s[left..mid][0..] == s[left..mid] && s[mid..right][0..] == s[mid..right] && s[left..left] == [];
  }

  /** What the right run still has to give is where it was. */
  lemma ForwardRest<V(!new)>(less: Less<V>, s: seq<Item<V>>, t: seq<Item<V>>, left: nat, mid: nat, right: nat, c1: nat, c2: nat)
    requires left <= mid <= right <= |s| && Forward(less, s, t, left, mid, right, c1, c2) && c2 < right
    ensures t[c2] == s[c2]
  {
    assert t[c2..][0] == s[c2..][0];
  }

  /** Merging from the right: `c1` of the left run and `c2` of the right one are still to be placed. */
  ghost predicate Backward<V(!new)>(less: Less<V>, s: seq<Item<V>>, t: seq<Item<V>>, left: nat, mid: nat, right: nat, c1: nat, c2: nat)
    requires left <= mid <= right <= |s|
  {
    var A, B := s[left..mid], s[mid..right];
    && |t| == |s| && c1 <= |A| && c2 <= |B|
    && t[..left + c1] == s[..left + c1] && t[right..] == s[right..]
    && Merge(less, A[..c1], B[..c2]) + t[left + c1 + c2..right] == Merge(less, A, B)
  }

  lemma BackwardStart<V(!new)>(less: Less<V>, s: seq<Item<V>>, left: nat, mid: nat, right: nat)
    requires left <= mid <= right <= |s|
    ensures Backward(less, s, s, left, mid, right, mid - left, right - mid)
  {
    hide Merge;
    var A, B := s[left..mid], s[mid..right];
    assert A[..|A|] == A && B[..|B|] == B && s[right..right] == [];
  }

  lemma BackwardRight<V(!new)>(less: Less<V>, s: seq<Item<V>>, t: seq<Item<V>>, left: nat, mid: nat, right: nat, c1: nat, c2: nat)
    requires left <= mid <= right <= |s| && Backward(less, s, t, left, mid, right, c1, c2)
    requires StrictWeak(less) && Sorted(less, s[left..mid]) && Sorted(less, s[mid..right])
    requires c2 > 0 && (c1 > 0 ==> !less(s[mid + c2 - 1].key, s[left + c1 - 1].key))
    ensures Backward(less, s, t[left + c1 + c2 - 1 := s[mid + c2 - 1]], left, mid, right, c1, c2 - 1)
  {
    hide Merge, StrictWeak, Sorted;
    var A, B, o := s[left..mid], s[mid..right], left + c1 + c2 - 1;
    var t' := t[o := s[mid + c2 - 1]];
    SortedPrefix(less, A, c1);
    SortedPrefix(less, B, c2);
    var e := B[c2 - 1];
    assert B[..c2][..c2 - 1] == B[..c2 - 1] && B[..c2] == B[..c2 - 1] + [e];
    assert Merge(less, A[..c1], B[..c2]) == Merge(less, A[..c1], B[..c2 - 1]) + [e] by {
      if c1 > 0 {
        MergeLast(less, A[..c1], B[..c2]);
      } else {
        MergeStep(less, A[..c1], B[..c2]);
        MergeStep(less, A[..c1], B[..c2 - 1]);
      }
    }
    assert t'[o..right] == [e] + t[o + 1..right];
    TakeLast(Merge(less, A[..c1], B[..c2 - 1]), e, t[o + 1..right]);
  }

  lemma BackwardLeft<V(!new)>(less: Less<V>, s: seq<Item<V>>, t: seq<Item<V>>, left: nat, mid: nat, right: nat, c1: nat, c2: nat)
    requires left <= mid <= right <= |s| && Backward(less, s, t, left, mid, right, c1, c2)
    requires StrictWeak(less) && Sorted(less, s[left..mid]) && Sorted(less, s[mid..right])
    requires c1 > 0 && c2 > 0 && less(s[mid + c2 - 1].key, s[left + c1 - 1].key)
    ensures Backward(less, s, t[left + c1 + c2 - 1 := s[left + c1 - 1]], left, mid, right, c1 - 1, c2)
  {
    hide Merge, StrictWeak, Sorted;
    var A, B, o := s[left..mid], s[mid..right], left + c1 + c2 - 1;
    var t' := t[o := s[left + c1 - 1]];
    SortedPrefix(less, A, c1);
    SortedPrefix(less, B, c2);
    var e := A[c1 - 1];
    MergeLast(less, A[..c1], B[..c2]);
    assert A[..c1][..c1 - 1] == A[..c1 - 1];
    assert t'[o..right] == [e] + t[o + 1..right];
    assert t'[..left + c1 - 1] == t[..left + c1][..left + c1 - 1];
    TakeLast(Merge(less, A[..c1 - 1], B[..c2]), e, t[o + 1..right]);
  }

  lemma BackwardDone<V(!new)>(less: Less<V>, s: seq<Item<V>>, t: seq<Item<V>>, left: nat, mid: nat, right: nat, c1: nat)
    requires left <= mid <= right <= |s| && Backward(less, s, t, left, mid, right, c1, 0)
    ensures t == Merged(less, s, left, mid, right)
  {
    hide Merge;
    MergeStep(less, s[left..mid][..c1], s[mid..right][..0]);
    assert t == t[..left + c1] + t[left + c1..right] + t[right..];
    assert s[..left + c1] == s[..left] + s[left..mid][..c1];
  }

  lemma SortedPrefix<V>(less: Less<V>, s: seq<Item<V>>, k: nat)
    requires Sorted(less, s) && k <= |s|
    ensures Sorted(less, s[..k])
  {
  }

  lemma BackwardRest<V(!new)>(less: Less<V>, s: seq<Item<V>>, t: seq<Item<V>>, left: nat, mid: nat, right: nat, c1: nat, c2: nat)
    requires left <= mid <= right <= |s| && Backward(less, s, t, left, mid, right, c1, c2) && c1 > 0
    ensures t[left + c1 - 1] == s[left + c1 - 1]
  {
    assert t[..left + c1][left + c1 - 1] == s[..left + c1][left + c1 - 1];
  }

  method MergeBackward<V(!new)>(less: Less<V>, a: Slices<V>, left: nat, mid: nat, right: nat, buffer: Slices<V>)
    requires StrictWeak(less) && Apart(a, buffer) && left <= mid <= right <= |a.items|
    requires Sorted(less, a.items[left..mid]) && Sorted(less, a.items[mid..right])
    modifies a.Repr(), buffer.Repr()
    ensures Apart(a, buffer)
    ensures a.items == Merged(less, old(a.items), left, mid, right)
  {
    hide StrictWeak, Sorted, Merge, Backward;
    ghost var s := a.items;
    var n2 := right - mid;
    CopySlice(a, mid, right, buffer);
    BackwardStart(less, s, left, mid, right);
    var c1, o, c2: int := mid - 1, right - 1, n2 - 1;
    while c1 >= left && c2 >= 0
      invariant Apart(a, buffer) && buffer.items[..n2] == s[mid..right]
      invariant left - 1 <= c1 < mid && -1 <= c2 < n2 && o == c1 + c2 + 1
      invariant Backward(less, s, a.items, left, mid, right, c1 + 1 - left, c2 + 1) && |a.items| == |s|
      decreases c1 + c2
    {
      assert buffer.items[c2] == buffer.items[..n2][c2] == s[mid + c2];
      BackwardRest(less, s, a.items, left, mid, right, c1 + 1 - left, c2 + 1);
      if !less(buffer.keys[c2], a.keys[c1]) {
        BackwardRight(less, s, a.items, left, mid, right, c1 + 1 - left, c2 + 1);
        a.Put(o, buffer, c2);
        c2 := c2 - 1;
      } else {
        BackwardLeft(less, s, a.items, left, mid, right, c1 + 1 - left, c2 + 1);
        a.Put(o, a, c1);
        c1 := c1 - 1;
      }
      o := o - 1;
    }
    while c2 >= 0
      invariant Apart(a, buffer) && buffer.items[..n2] == s[mid..right]
      invariant left - 1 <= c1 < mid && -1 <= c2 < n2 && o == c1 + c2 + 1 && (c2 >= 0 ==> c1 == left - 1)
      invariant Backward(less, s, a.items, left, mid, right, c1 + 1 - left, c2 + 1) && |a.items| == |s|
      decreases c2
    {
      assert buffer.items[c2] == buffer.items[..n2][c2] == s[mid + c2];
      BackwardRight(less, s, a.items, left, mid, right, c1 + 1 - left, c2 + 1);
      a.Put(o, buffer, c2);
      c2 := c2 - 1;
      o := o - 1;
    }
    BackwardDone(less, s, a.items, left, mid, right, c1 + 1 - left);
  }

  lemma TakeLast<T>(rest: seq<T>, e: T, done: seq<T>)
    ensures rest + [e] + done == rest + ([e] + done)
  {
  }

  // ----- the run stack -----

  datatype SliceAndPower = SliceAndPower(begin: nat, power: nat)

  const STACK_SIZE := 64
  // No list is longer than this: its elements would not fit the address space.
  const MAX_BITS := 62

  /** Where the `i`th run on the stack ends: where the next one begins, or at the current run. */
  function EndOf(runs: seq<SliceAndPower>, i: nat, at: nat): nat
    requires i < |runs|
  {
    if i + 1 < |runs| then runs[i + 1].begin else at
  }

  /** The runs on the stack are sorted and fill the list up to `at`, where the current run begins. */
  ghost predicate Stacked<V>(less: Less<V>, runs: seq<SliceAndPower>, at: nat, s: seq<Item<V>>) {
    && at <= |s| && (if runs == [] then at == 0 else runs[0].begin == 0)
    && (forall i, j | 0 <= i < j < |runs| :: runs[i].begin < runs[j].begin)
    && forall i | 0 <= i < |runs| :: runs[i].begin < EndOf(runs, i, at) <= at && Sorted(less, s[runs[i].begin..EndOf(runs, i, at)])
  }

  /** Powers strictly increase up the stack, are bounded by the bit length of `n`, and at each of them the current
      run's middle (doubled: `mid`) lies in an odd cell. */
  ghost predicate Rising(runs: seq<SliceAndPower>, mid: nat, n: nat) {
    && n > 0
    && (forall i, j | 0 <= i < j < |runs| :: runs[i].power < runs[j].power)
    && forall i | 0 <= i < |runs| ::
         runs[i].power >= 1 && Pow2(runs[i].power - 1) < n && Cell(mid, runs[i].power, n) % 2 == 1
  }

  /** Strictly increasing powers bound the height of the stack. */
  lemma {:induction false} Height(runs: seq<SliceAndPower>, mid: nat, n: nat, bits: nat)
    requires Rising(runs, mid, n) && n <= Pow2(bits)
    ensures |runs| <= bits
    ensures runs != [] ==> |runs| <= runs[|runs| - 1].power <= bits
    decreases |runs|
  {
    if runs != [] {
      Height(runs[..|runs| - 1], mid, n, bits);
      BoundedPower(runs[|runs| - 1].power, n, bits);
    }
  }

  /** Pushing a boundary whose power is at least every power on the stack keeps the stack rising. */
  lemma Pushed(runs: seq<SliceAndPower>, l: nat, r: nat, p: nat, begin: nat, n: nat)
    requires Rising(runs, l, n) && Parts(l, r, p, n) && l + 2 <= r
    requires forall i | 0 <= i < |runs| :: runs[i].power <= p
    ensures Rising(runs + [SliceAndPower(begin, p)], r, n)
  {
    hide Cell, Pow2;
    PowerBound(l, r, p, n);
    forall i | 0 <= i < |runs| ensures runs[i].power < p && Cell(r, runs[i].power, n) % 2 == 1 {
    }
  }

  /** Merging two sorted neighbours leaves one sorted run and every class in its order. */
  lemma MergedRun<V(!new)>(less: Less<V>, s: seq<Item<V>>, left: nat, mid: nat, right: nat, s0: seq<Item<V>>)
    requires StrictWeak(less) && left <= mid <= right <= |s| && SameOrder(less, s, s0)
    requires Sorted(less, s[left..mid]) && Sorted(less, s[mid..right])
    ensures var t := Merged(less, s, left, mid, right);
      Sorted(less, t[left..right]) && t[..left] == s[..left] && t[right..] == s[right..] && SameOrder(less, t, s0)
  {
    hide StrictWeak, Sorted, Class, Merge;
    var a, b := s[left..mid], s[mid..right];
    var t := Merged(less, s, left, mid, right);
    MergeSorted(less, a, b);
    MergeSameOrder(less, a, b);
    assert t[left..right] == Merge(less, a, b);
    SameOrderInside(less, s[..left], Merge(less, a, b), a + b, s[right..]);
    assert s == s[..left] + (a + b) + s[right..];
  }

  lemma Popped<V(!new)>(less: Less<V>, runs: seq<SliceAndPower>, at: nat, s: seq<Item<V>>, t: seq<Item<V>>)
    requires Stacked(less, runs, at, s) && runs != [] && |t| == |s|
    requires t[..runs[|runs| - 1].begin] == s[..runs[|runs| - 1].begin]
    ensures Stacked(less, runs[..|runs| - 1], runs[|runs| - 1].begin, t)
  {
    hide Sorted;
    var m := |runs| - 1;
    var left := runs[m].begin;
    forall i | 0 <= i < m
      ensures runs[i].begin < EndOf(runs[..m], i, left) <= left && Sorted(less, t[runs[i].begin..EndOf(runs[..m], i, left)])
    {
      RunKept(less, runs, at, s, t, i);
    }
  }

  lemma RunKept<V(!new)>(less: Less<V>, runs: seq<SliceAndPower>, at: nat, s: seq<Item<V>>, t: seq<Item<V>>, i: nat)
    requires Stacked(less, runs, at, s) && i + 1 < |runs| && |t| == |s|
    requires t[..runs[|runs| - 1].begin] == s[..runs[|runs| - 1].begin]
    ensures var m := |runs| - 1;
      var e := EndOf(runs[..m], i, runs[m].begin);
      runs[i].begin < e <= runs[m].begin <= |t| && Sorted(less, t[runs[i].begin..e])
  {
    hide Sorted;
    var left := runs[|runs| - 1].begin;
    var e := EndOf(runs, i, at);
    assert e == runs[i + 1].begin;
    SamePrefix(s, t, left, runs[i].begin, e);
  }

  lemma SamePrefix<T>(s: seq<T>, t: seq<T>, left: nat, x: nat, e: nat)
    requires x <= e <= left <= |s| && |t| == |s| && t[..left] == s[..left]
    ensures t[x..e] == s[x..e]
  {
    assert t[..left][x..e] == t[x..e] && s[..left][x..e] == s[x..e];
  }

  // ----- powersort -----

  /** What the stack array holds above its empty slot 0. */
  ghost function Runs(stack: array<SliceAndPower>, top: nat): seq<SliceAndPower>
    requires top < stack.Length
    reads stack
  {
    stack[1..top + 1]
  }

  /** Merge every run on the stack whose power exceeds `power` into [start, end); return the new start. */
  method MergeAbove<V(!new)>(less: Less<V>, a: Slices<V>, buffer: Slices<V>, stack: array<SliceAndPower>, top: nat,
                             start: nat, end: nat, power: nat, ghost s0: seq<Item<V>>)
    returns (top': nat, start': nat)
    requires StrictWeak(less) && Apart(a, buffer) && top < stack.Length && stack[0].power == 0
    requires stack !in a.Repr() && stack !in buffer.Repr()
    requires Stacked(less, Runs(stack, top), start, a.items) && start <= end <= |a.items| && Sorted(less, a.items[start..end])
    requires SameOrder(less, a.items, s0)
    modifies a.Repr(), buffer.Repr()
    ensures Apart(a, buffer) && top' <= top && |a.items| == |old(a.items)| && start' <= start
    ensures Stacked(less, Runs(stack, top'), start', a.items) && Sorted(less, a.items[start'..end])
    ensures Runs(stack, top') == Runs(stack, top)[..top'] && (top' == 0 || stack[top'].power <= power)
    ensures a.items[end..] == old(a.items[end..]) && SameOrder(less, a.items, s0)
  {
    hide StrictWeak, Sorted, SameOrder, Stacked, Merged;
    top', start' := top, start;
    while stack[top'].power > power
      invariant Apart(a, buffer) && top' <= top && |a.items| == |old(a.items)| && start' <= start
      invariant Stacked(less, Runs(stack, top'), start', a.items) && Sorted(less, a.items[start'..end])
      invariant a.items[end..] == old(a.items[end..]) && SameOrder(less, a.items, s0)
      decreases top'
    {
      var topRun := stack[top'];
      ghost var runs := Runs(stack, top');
      assert runs[|runs| - 1] == topRun && runs[..|runs| - 1] == Runs(stack, top' - 1);
      TopSorted(less, runs, start', a.items);
      MergedRun(less, a.items, topRun.begin, start', end, s0);
      Popped(less, runs, start', a.items, Merged(less, a.items, topRun.begin, start', end));
      top' := top' - 1;
      MergeRuns(less, a, topRun.begin, start', end, buffer);
      start' := topRun.begin;
    }
    assert Runs(stack, top') == Runs(stack, top)[..top'];
  }

  lemma TopSorted<V>(less: Less<V>, runs: seq<SliceAndPower>, at: nat, s: seq<Item<V>>)
    requires Stacked(less, runs, at, s) && runs != []
    ensures runs[|runs| - 1].begin < at <= |s| && Sorted(less, s[runs[|runs| - 1].begin..at])
  {
    assert EndOf(runs, |runs| - 1, at) == at;
  }

  lemma StackedKept<V(!new)>(less: Less<V>, runs: seq<SliceAndPower>, at: nat, end: nat, s: seq<Item<V>>, t: seq<Item<V>>)
    requires Stacked(less, runs, at, s) && at <= end <= |s| && |t| == |s| && t[..end] == s[..end] && Sorted(less, s[at..end])
    ensures Stacked(less, runs, at, t) && Sorted(less, t[at..end])
  {
    hide Sorted;
    SamePrefix(s, t, end, at, end);
    forall i | 0 <= i < |runs| ensures t[runs[i].begin..EndOf(runs, i, at)] == s[runs[i].begin..EndOf(runs, i, at)] {
      SamePrefix(s, t, end, runs[i].begin, EndOf(runs, i, at));
    }
  }

  lemma StackedPush<V(!new)>(less: Less<V>, runs: seq<SliceAndPower>, at: nat, end: nat, power: nat, s: seq<Item<V>>)
    requires Stacked(less, runs, at, s) && at < end <= |s| && Sorted(less, s[at..end])
    ensures Stacked(less, runs + [SliceAndPower(at, power)], end, s)
  {
    hide Sorted;
    var more := runs + [SliceAndPower(at, power)];
    forall i | 0 <= i < |more| ensures EndOf(more, i, end) == if i < |runs| then EndOf(runs, i, at) else end {
    }
  }

  /** Sorting one stretch in place, stably, keeps the order of the whole. */
  lemma ExtendedOrder<V(!new)>(less: Less<V>, s: seq<Item<V>>, t: seq<Item<V>>, lo: nat, hi: nat, s0: seq<Item<V>>)
    requires lo <= hi <= |s| && |t| == |s| && t == Splice(s, lo, hi, t[lo..hi])
    requires SameOrder(less, t[lo..hi], s[lo..hi]) && SameOrder(less, s, s0)
    ensures SameOrder(less, t, s0) && t[..lo] == s[..lo]
  {
    hide Class;
    SameOrderInside(less, s[..lo], t[lo..hi], s[lo..hi], s[hi..]);
    assert s == s[..lo] + s[lo..hi] + s[hi..];
  }

  lemma RisingBelow(runs: seq<SliceAndPower>, k: nat, mid: nat, n: nat, power: nat)
    requires Rising(runs, mid, n) && k <= |runs| && (k > 0 ==> runs[k - 1].power <= power)
    ensures Rising(runs[..k], mid, n) && forall i | 0 <= i < k :: runs[..k][i].power <= power
  {
    hide Cell, Pow2;
  }

  /** One round: find the run after [start, end), merge what its boundary's power allows, and push. */
  method NextRun<V(!new)>(less: Less<V>, a: Slices<V>, buffer: Slices<V>, stack: array<SliceAndPower>, top: nat,
                          start: nat, end: nat, ghost s0: seq<Item<V>>)
    returns (top': nat, end': nat)
    requires StrictWeak(less) && Apart(a, buffer) && stack.Length == STACK_SIZE && top < STACK_SIZE && stack[0].power == 0
    requires stack !in a.Repr() && stack !in buffer.Repr()
    requires start < end < |a.items| <= Pow2(MAX_BITS)
    requires Stacked(less, Runs(stack, top), start, a.items) && Sorted(less, a.items[start..end])
    requires Rising(Runs(stack, top), start + end, |a.items|) && SameOrder(less, a.items, s0)
    modifies a.Repr(), buffer.Repr(), stack
    ensures Apart(a, buffer) && |a.items| == |old(a.items)| && top' < STACK_SIZE && stack[0] == old(stack[0])
    ensures end < end' <= |a.items| && Stacked(less, Runs(stack, top'), end, a.items) && Sorted(less, a.items[end..end'])
    ensures Rising(Runs(stack, top'), end + end', |a.items|) && SameOrder(less, a.items, s0)
  {
    hide StrictWeak, Sorted, SameOrder, Stacked, Merged, Rising, Parts, Splice, Cell, Pow2;
    ghost var n, before, runs := |a.items|, a.items, Runs(stack, top);
    end' := ExtendAndReverseRight(less, a, end, a.keys.Length);
    ExtendedOrder(less, before, a.items, end, end', s0);
    StackedKept(less, runs, start, end, before, a.items);
    var power := Power(a.keys.Length, start, end, end');
    ghost var middle := a.items;
    var start';
    top', start' := MergeAbove(less, a, buffer, stack, top, start, end, power, s0);
    assert a.items[end..end'] == a.items[end..][..end' - end] == middle[end..][..end' - end] == middle[end..end'];
    RisingBelow(runs, top', start + end, n, power);
    Pushed(runs[..top'], start + end, end + end', power, start', n);
    StackedPush(less, runs[..top'], start', end, power, a.items);
    Height(runs[..top'] + [SliceAndPower(start', power)], end + end', n, MAX_BITS);
    top' := top' + 1;
    stack[top'] := SliceAndPower(start', power);
    assert Runs(stack, top') == runs[..top' - 1] + [SliceAndPower(start', power)];
  }

  /** Sort the items in place, stably. */
  method SortSlices<V(!new)>(less: Less<V>, a: Slices<V>, buffer: Slices<V>)
    requires StrictWeak(less) && Apart(a, buffer) && 0 < |a.items| <= Pow2(MAX_BITS)
    modifies a.Repr(), buffer.Repr()
    ensures a.Valid() && |a.items| == |old(a.items)|
    ensures Sorted(less, a.items) && SameOrder(less, a.items, old(a.items))
  {
    hide StrictWeak, Sorted, Stacked, Merged, Rising, Splice, Cell, Pow2, Class;
    var n := a.keys.Length;
    ghost var s0 := a.items;
    var stack := new SliceAndPower[STACK_SIZE](_ => SliceAndPower(0, 0));
    var top: nat, start: nat := 0, 0;
    var end := ExtendAndReverseRight(less, a, 0, n);
    ExtendedOrder(less, s0, a.items, 0, end, s0);
    EmptyStack(less, a.items, end);
    assert Runs(stack, top) == [];
    while end < n
      invariant Apart(a, buffer) && |a.items| == n && top < STACK_SIZE && stack[0].power == 0 && fresh(stack)
      invariant start < end <= n && Stacked(less, Runs(stack, top), start, a.items) && Sorted(less, a.items[start..end])
      invariant Rising(Runs(stack, top), start + end, n) && SameOrder(less, a.items, s0)
      decreases n - end
    {
      var next;
      top, next := NextRun(less, a, buffer, stack, top, start, end, s0);
      start, end := end, next;
    }
    while top > 0
      invariant Apart(a, buffer) && |a.items| == n && top < STACK_SIZE && start <= n
      invariant Stacked(less, Runs(stack, top), start, a.items) && Sorted(less, a.items[start..n])
      invariant SameOrder(less, a.items, s0)
      decreases top
    {
      var topRun := stack[top];
      ghost var runs := Runs(stack, top);
      assert runs[|runs| - 1] == topRun && runs[..|runs| - 1] == Runs(stack, top - 1);
      TopSorted(less, runs, start, a.items);
      MergedRun(less, a.items, topRun.begin, start, n, s0);
      Popped(less, runs, start, a.items, Merged(less, a.items, topRun.begin, start, n));
      top := top - 1;
      MergeRuns(less, a, topRun.begin, start, n, buffer);
      start := topRun.begin;
    }
    Whole(less, Runs(stack, 0), start, a.items);
    assert a.items[0..n] == a.items;
  }

  lemma EmptyStack<V(!new)>(less: Less<V>, s: seq<Item<V>>, end: nat)
    requires 0 < end <= |s|
    ensures Stacked(less, [], 0, s) && Rising([], end, |s|)
  {
  }

  lemma Whole<V(!new)>(less: Less<V>, runs: seq<SliceAndPower>, at: nat, s: seq<Item<V>>)
    requires Stacked(less, runs, at, s) && runs == []
    ensures at == 0
  {
  }

  // ----- list.sort -----

  function KeyOf<V>(key: Option<V -> V>, v: V): V {
    if key.Some? then key.value(v) else v
  }

  /** A list's elements with the keys they sort by. */
  function Keyed<V>(key: Option<V -> V>, s: seq<V>): (r: seq<Item<V>>) {
    seq(|s|, i requires 0 <= i < |s| => Item(KeyOf(key, s[i]), s[i]))
  }

  /** Every item carries its value's own key. */
  ghost predicate OwnKeys<V(!new)>(key: Option<V -> V>, items: seq<Item<V>>) {
    forall i | 0 <= i < |items| :: items[i].key == KeyOf(key, items[i].value)
  }

  lemma OwnKeysKept<V(!new)>(less: Less<V>, key: Option<V -> V>, s: seq<Item<V>>, t: seq<Item<V>>)
    requires StrictWeak(less) && SameOrder(less, s, t) && OwnKeys(key, t)
    ensures OwnKeys(key, s) && |s| == |t|
  {
    SameOrderPermutes(less, s, t);
    forall i | 0 <= i < |s| ensures s[i].key == KeyOf(key, s[i].value) {
      assert s[i] in multiset(t);
      assert s[i] in t;
    }
  }

  lemma ReversedOrder<V(!new)>(less: Less<V>, s: seq<Item<V>>, t: seq<Item<V>>)
    requires SameOrder(less, s, Reversed(t))
    ensures SameOrder(less, Reversed(s), t)
  {
    forall x ensures Class(less, Reversed(s), x) == Class(less, t, x) {
      ClassReversed(less, s, x);
      ClassReversed(less, t, x);
      ReversedTwice(Class(less, t, x));
      assert Class(less, s, x) == Class(less, Reversed(t), x);
    }
  }

  /** The list itself, or its keys in a new array with the list moving along. */
  method KeySlices<V(!new)>(list: array<V>, key: Option<V -> V>, none: V) returns (a: Slices<V>)
    ensures a.Valid() && a.items == Keyed(key, list[..]) && fresh(a)
    ensures if key.Some? then a.values == list && fresh(a.keys) else a.keys == list && a.values == null
  {
    var n := list.Length;
    ghost var items := Keyed(key, list[..]);
    if key.Some? {
      var keys := new V[n](_ => none);
      var i := 0;
      while i < n
        invariant i <= n && list[..] == old(list[..])
        invariant forall j | 0 <= j < i :: keys[j] == key.value(list[j])
      {
        keys[i] := key.value(list[i]);
        i := i + 1;
      }
      a := new Slices(keys, list, items);
    } else {
      a := new Slices(list, null, items);
    }
  }

  method Buffer<V(!new)>(n: nat, paired: bool, none: V) returns (buffer: Slices<V>)
    ensures buffer.Valid() && |buffer.items| == n && (buffer.values != null <==> paired) && fresh(buffer.Repr())
  {
    var keys := new V[n](_ => none);
    ghost var blank := seq(n, _ => Item(none, none));
    if paired {
      var values := new V[n](_ => none);
      buffer := new Slices(keys, values, blank);
    } else {
      buffer := new Slices(keys, null, blank);
    }
  }

  /** After sorting, the list is its items' values. */
  lemma ListIs<V(!new)>(less: Less<V>, key: Option<V -> V>, a: Slices<V>, list: array<V>, start: seq<Item<V>>)
    requires StrictWeak(less) && a.Valid() && SameOrder(less, a.items, start) && OwnKeys(key, start)
    requires if key.Some? then a.values == list else a.keys == list
    ensures Keyed(key, list[..]) == a.items
  {
    hide StrictWeak, SameOrder;
    OwnKeysKept(less, key, a.items, start);
  }

  lemma ReversedKeyed<V>(key: Option<V -> V>, s: seq<V>, t: seq<V>)
    requires t == Reversed(s)
    ensures Keyed(key, t) == Reversed(Keyed(key, s)) && Reversed(Keyed(key, t)) == Keyed(key, s)
  {
  }

  lemma KeyedOwn<V(!new)>(key: Option<V -> V>, s: seq<V>)
    ensures OwnKeys(key, Keyed(key, s)) && OwnKeys(key, Reversed(Keyed(key, s)))
  {
  }

  lemma Short<V(!new)>(less: Less<V>, s: seq<Item<V>>)
    requires |s| < 2
    ensures Sorted(less, s) && Sorted(less, Reversed(s)) && SameOrder(less, s, s)
  {
  }

  /** list.sort(key, reverse): a stable sort by the keys, for every strict weak order; reversed, the greatest
      come first and equivalent elements still keep their order. */
  method Sort<V(!new)>(list: array<V>, less: Less<V>, key: Option<V -> V>, reverse: bool, none: V)
    requires StrictWeak(less) && list.Length <= Pow2(MAX_BITS)
    modifies list
    ensures var before, after := Keyed(key, old(list[..])), Keyed(key, list[..]);
      SameOrder(less, after, before) && Sorted(less, if reverse then Reversed(after) else after)
  {
    hide StrictWeak, SameOrder, Sorted, OwnKeys, Pow2, Keyed, Splice, KeyOf;
    var n := list.Length;
    ghost var before := Keyed(key, list[..]);
    KeyedOwn(key, list[..]);
    KeyedLength(key, list[..]);
    if n < 2 {
      Short(less, before);
      return;
    }
    var a := KeySlices(list, key, none);
    if reverse {
      a.Reverse(0, n);
      SpliceWhole(before);
    }
    ghost var start := a.items;
    var buffer := Buffer(n, a.values != null, none);
    SortSlices(less, a, buffer);
    ListIs(less, key, a, list, start);
    if reverse {
      ReversedOrder(less, a.items, before);
      ReverseList(list, key);
    }
  }

  method ReverseList<V(!new)>(list: array<V>, key: Option<V -> V>)
    modifies list
    ensures Keyed(key, list[..]) == Reversed(Keyed(key, old(list[..]))) && Reversed(Keyed(key, list[..])) == Keyed(key, old(list[..]))
  {
    hide Keyed;
    ghost var before := list[..];
    ReverseValues(list, 0, list.Length);
    assert list[..] == Reversed(before);
    ReversedKeyed(key, before, list[..]);
  }

  lemma SpliceWhole<T>(s: seq<T>)
    ensures Splice(s, 0, |s|, Reversed(s[0..|s|])) == Reversed(s)
  {
    assert s[0..|s|] == s;
  }

  lemma KeyedLength<V>(key: Option<V -> V>, s: seq<V>)
    ensures |Keyed(key, s)| == |s|
  {
  }
}
