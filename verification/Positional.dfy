/** Numbers written in any base, least significant digit first. */
module Positional {
  import opened Arith

  /** Digit `i`; past the end it is 0. */
  function At(ds: seq<int>, i: nat): int {
    if i < |ds| then ds[i] else 0
  }

  ghost predicate InBase(base: nat, ds: seq<int>) {
    forall i | 0 <= i < |ds| :: 0 <= ds[i] < base
  }

  function Weight(base: nat, i: nat): (w: nat)
    ensures base > 0 ==> w >= 1
  {
    if i == 0 then 1 else base * Weight(base, i - 1)
  }

  /** The value of the digits below position `i`. */
  function Below(base: nat, ds: seq<int>, i: nat): int {
    if i == 0 then 0 else Below(base, ds, i - 1) + Weight(base, i - 1) * At(ds, i - 1)
  }

  /** The value of the digits from position `i` on, counted from there. */
  function From(base: nat, ds: seq<int>, i: nat): int
    decreases |ds| - i
  {
    if i >= |ds| then 0 else ds[i] + base * From(base, ds, i + 1)
  }

  function Magnitude(base: nat, ds: seq<int>): int {
    Below(base, ds, |ds|)
  }

  predicate Trimmed(ds: seq<int>) {
    ds == [] || ds[|ds| - 1] != 0
  }

  lemma BelowNone(base: nat, ds: seq<int>)
    ensures Below(base, ds, 0) == 0 && Weight(base, 0) == 1
  {
  }

  lemma BelowNext(base: nat, ds: seq<int>, i: nat)
    ensures Below(base, ds, i + 1) == Below(base, ds, i) + Weight(base, i) * At(ds, i)
    ensures Weight(base, i + 1) == base * Weight(base, i)
  {
  }

  lemma {:induction false} BelowSame(base: nat, ds: seq<int>, es: seq<int>, i: nat)
    requires forall j | 0 <= j < i :: At(ds, j) == At(es, j)
    ensures Below(base, ds, i) == Below(base, es, i)
    decreases i
  {
    if i > 0 {
      BelowSame(base, ds, es, i - 1);
    }
  }

  /** Storing a digit at `i` leaves what is below it. */
  lemma BelowPut(base: nat, ds: seq<int>, i: nat, d: int)
    requires i < |ds|
    ensures Below(base, ds[i := d], i) == Below(base, ds, i)
    ensures Below(base, ds[i := d], i + 1) == Below(base, ds, i) + Weight(base, i) * d
  {
    BelowSame(base, ds, ds[i := d], i);
  }

  /** Positions past the end add nothing. */
  lemma {:induction false} BelowAll(base: nat, ds: seq<int>, i: nat)
    requires i >= |ds|
    ensures Below(base, ds, i) == Magnitude(base, ds)
    decreases i
  {
    if i > |ds| {
      BelowAll(base, ds, i - 1);
      assert Weight(base, i - 1) * 0 == 0;
    }
  }

  lemma {:induction false} BelowBound(base: nat, ds: seq<int>, i: nat)
    requires base > 0 && InBase(base, ds)
    ensures 0 <= Below(base, ds, i) < Weight(base, i)
    decreases i
  {
    if i > 0 {
      hide Weight, Below;
      var w := Weight(base, i - 1);
      BelowBound(base, ds, i - 1);
      BelowNext(base, ds, i - 1);
      MulLe(At(ds, i - 1), base - 1, w);
      MulLe(0, At(ds, i - 1), w);
      assert w * (base - 1) == w * base - w;
    } else {
      BelowNone(base, ds);
    }
  }

  lemma MagnitudeBound(base: nat, ds: seq<int>)
    requires base > 0 && InBase(base, ds)
    ensures 0 <= Magnitude(base, ds) < Weight(base, |ds|)
  {
    BelowBound(base, ds, |ds|);
  }

  lemma {:induction false} FromNonNegative(base: nat, ds: seq<int>, i: nat)
    requires InBase(base, ds)
    ensures From(base, ds, i) >= 0
    decreases |ds| - i
  {
    if i < |ds| {
      FromNonNegative(base, ds, i + 1);
      assert base * From(base, ds, i + 1) >= 0;
    }
  }

  lemma Spread(base: nat, w: int, d: int, f: int)
    ensures w * (d + base * f) == w * d + (base * w) * f
  {
    assert w * (d + base * f) == w * d + w * (base * f);
    assert w * (base * f) == (base * w) * f;
  }

  lemma {:induction false} BelowFrom(base: nat, ds: seq<int>, i: nat)
    requires i <= |ds|
    ensures Magnitude(base, ds) == Below(base, ds, i) + Weight(base, i) * From(base, ds, i)
    decreases |ds| - i
  {
    hide Weight, Below;
    if i < |ds| {
      BelowFrom(base, ds, i + 1);
      BelowNext(base, ds, i);
      Spread(base, Weight(base, i), ds[i], From(base, ds, i + 1));
    } else {
      assert Weight(base, i) * 0 == 0;
    }
  }

  lemma FromNext(base: nat, ds: seq<int>, i: nat)
    requires i < |ds|
    ensures From(base, ds, i) == ds[i] + base * From(base, ds, i + 1)
  {
  }

  lemma FromEnd(base: nat, ds: seq<int>)
    ensures From(base, ds, |ds|) == 0
  {
  }

  lemma FromAll(base: nat, ds: seq<int>)
    ensures From(base, ds, 0) == Magnitude(base, ds)
  {
    BelowFrom(base, ds, 0);
    BelowNone(base, ds);
  }

  lemma {:induction false} FromSame(base: nat, ds: seq<int>, es: seq<int>, i: nat)
    requires |ds| == |es| && forall j | i <= j < |ds| :: ds[j] == es[j]
    ensures From(base, ds, i) == From(base, es, i)
    decreases |ds| - i
  {
    if i < |ds| {
      FromSame(base, ds, es, i + 1);
    }
  }

  /** A trimmed magnitude has a nonzero top digit, so its width says how large it is. */
  lemma TrimmedBound(base: nat, ds: seq<int>)
    requires base > 0 && InBase(base, ds) && Trimmed(ds)
    ensures 0 <= Magnitude(base, ds) < Weight(base, |ds|)
    ensures ds != [] ==> Weight(base, |ds| - 1) <= Magnitude(base, ds)
  {
    hide Weight, Below;
    BelowBound(base, ds, |ds|);
    if ds != [] {
      BelowNext(base, ds, |ds| - 1);
      BelowBound(base, ds, |ds| - 1);
      MulLe(1, ds[|ds| - 1], Weight(base, |ds| - 1));
    }
  }

  lemma {:induction false} WeightMonotone(base: nat, i: nat, j: nat)
    requires i <= j && base > 0
    ensures Weight(base, i) <= Weight(base, j)
    decreases j
  {
    if i < j {
      WeightMonotone(base, i, j - 1);
      MulLe(1, base, Weight(base, j - 1));
    }
  }

  /** A wider trimmed magnitude is larger. */
  lemma WiderIsLarger(base: nat, ds: seq<int>, es: seq<int>)
    requires base > 0 && InBase(base, ds) && InBase(base, es) && Trimmed(ds) && Trimmed(es) && |ds| > |es|
    ensures Magnitude(base, ds) > Magnitude(base, es)
  {
    hide Weight, Magnitude;
    TrimmedBound(base, ds);
    TrimmedBound(base, es);
    WeightMonotone(base, |es|, |ds| - 1);
  }

  /** The highest differing digit decides. */
  lemma LargerAt(base: nat, ds: seq<int>, es: seq<int>, i: nat)
    requires base > 0 && InBase(base, ds) && InBase(base, es)
    requires |ds| == |es| && i < |ds| && ds[i] > es[i] && forall j | i < j < |ds| :: ds[j] == es[j]
    ensures Magnitude(base, ds) > Magnitude(base, es)
  {
    hide Weight, From, Magnitude, Below;
    BelowFrom(base, ds, i + 1);
    BelowFrom(base, es, i + 1);
    FromSame(base, ds, es, i + 1);
    BelowBound(base, es, i);
    BelowBound(base, ds, i);
    BelowNext(base, ds, i);
    BelowNext(base, es, i);
    assert Below(base, ds, i + 1) > Below(base, es, i + 1) by {
      var w := Weight(base, i);
      MulLe(es[i] + 1, ds[i], w);
      assert w * (es[i] + 1) == w * es[i] + w;
    }
  }

  lemma {:induction false} WeightAdd(base: nat, i: nat, j: nat)
    ensures Weight(base, i + j) == Weight(base, i) * Weight(base, j)
    decreases i
  {
    if i > 0 {
      WeightAdd(base, i - 1, j);
      assert base * (Weight(base, i - 1) * Weight(base, j)) == (base * Weight(base, i - 1)) * Weight(base, j);
    }
  }

  lemma AddAt(base: nat, ds: seq<int>, o: nat, p: int)
    requires o < |ds|
    ensures Magnitude(base, ds[o := ds[o] + p]) == Magnitude(base, ds) + Weight(base, o) * p
  {
    hide Weight, Below, Magnitude, From;
    var es := ds[o := ds[o] + p];
    BelowPut(base, ds, o, ds[o] + p);
    BelowNext(base, ds, o);
    BelowFrom(base, ds, o + 1);
    BelowFrom(base, es, o + 1);
    FromSame(base, ds, es, o + 1);
    assert Weight(base, o) * (ds[o] + p) == Weight(base, o) * ds[o] + Weight(base, o) * p;
  }

  lemma {:induction false} Zeros(base: nat, n: nat, i: nat)
    requires i <= n
    ensures Below(base, seq(n, _ => 0), i) == 0
    decreases i
  {
    if i > 0 {
      Zeros(base, n, i - 1);
      assert Weight(base, i - 1) * 0 == 0;
    }
  }

  lemma NoDigits(base: nat, ds: seq<int>)
    ensures ds == [] ==> Magnitude(base, ds) == 0
  {
  }

  lemma OneDigit(base: nat, ds: seq<int>)
    ensures |ds| == 1 ==> Magnitude(base, ds) == ds[0]
    ensures ds == [] ==> Magnitude(base, ds) == 0
  {
    if |ds| == 1 {
      assert Below(base, ds, 1) == Below(base, ds, 0) + Weight(base, 0) * ds[0];
    }
  }

  lemma Positive(base: nat, ds: seq<int>)
    requires base > 0 && InBase(base, ds) && Trimmed(ds) && ds != []
    ensures Magnitude(base, ds) > 0
  {
    TrimmedBound(base, ds);
  }

  // ----- one step of the schoolbook algorithms -----

  lemma AddStep(base: nat, w: int, x: int, y: int, carry: int, low: int, high: int)
    requires x + y + carry == low + base * high
    ensures w * low + (base * w) * high == w * x + w * y + w * carry
  {
    Spread(base, w, low, high);
    assert w * (x + y + carry) == w * x + w * y + w * carry;
  }

  lemma SubStep(base: nat, w: int, x: int, y: int, borrow: int, low: int, carry: int)
    requires low + y + borrow == x + base * carry
    ensures w * low + w * y + w * borrow == w * x + (base * w) * carry
  {
    assert w * (low + y + borrow) == w * low + w * y + w * borrow;
    Spread(base, w, x, carry);
  }

  lemma RowStep(base: nat, wi: int, wj: int, x: int, y: int, carry: int, was: int, low: int, high: int, sum: int)
    requires carry + x * y + was == low + base * high
    ensures (wi * wj) * low + (base * (wi * wj)) * high + wi * y * sum
         == (wi * wj) * was + (wi * wj) * carry + wi * y * (sum + wj * x)
  {
    var w := wi * wj;
    Spread(base, w, low, high);
    assert w * (carry + x * y + was) == w * carry + w * (x * y) + w * was;
    Regroup(wi, wj, x, y);
    assert wi * y * (sum + wj * x) == wi * y * sum + wi * y * (wj * x);
  }

  lemma Regroup(wi: int, wj: int, x: int, y: int)
    ensures (wi * wj) * (x * y) == wi * y * (wj * x)
  {
    assert wi * y * (wj * x) == wi * (y * (wj * x)) == wi * ((y * x) * wj);
  }

  lemma RowDone(w: int, d: int, m: int, sum: int)
    ensures w * d * m == m * (w * d)
    ensures m * (sum + w * d) == m * sum + m * (w * d)
  {
  }

  lemma ProductBound(x: nat, y: nat, base: nat)
    requires x < base && y < base
    ensures 0 <= x * y <= (base - 1) * (base - 1)
  {
    MulLe(x, base - 1, y);
    MulLe(y, base - 1, base - 1);
  }
}
