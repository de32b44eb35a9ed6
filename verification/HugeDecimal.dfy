/** The base-10^9 numbers of src/obj_long.c that make decimal conversion fast. An array that C fills and returns
    is a sequence here; its width is the sequence's length, and top limbs may be zero. */
module HugeDecimal {
  import opened Arith
  import opened Positional
  import opened LongDigits
  import opened Longs
  import opened LongShifts

  const LIMB := 1_000_000_000

  // Below this width dec_mul multiplies limb by limb.
  const CUTOFF := 50

  type Limb = d: int | 0 <= d < LIMB

  type Limbs = seq<Limb>

  function Dec(ds: Limbs): (m: nat)
    ensures m < Weight(LIMB, |ds|)
  {
    MagnitudeBound(LIMB, ds);
    Magnitude(LIMB, ds)
  }

  function Max(x: int, y: int): int {
    if x < y then y else x
  }

  /** dec_add. */
  method Add(a: Limbs, b: Limbs) returns (out: Limbs)
    ensures Dec(out) == Dec(a) + Dec(b)
    ensures 0 < |out| <= Max(|a|, |b|) + 1
  {
    hide Below, Weight;
    var outwidth := Max(|a|, |b|) + 1;
    out := seq(outwidth, _ => 0);
    var carry: int := 0;
    var i: nat := 0;
    BelowNone(LIMB, out);
    BelowNone(LIMB, a);
    BelowNone(LIMB, b);
    while i < outwidth - 1
      invariant 0 <= i <= outwidth - 1 && |out| == outwidth && 0 <= carry <= 1
      invariant Below(LIMB, out, i) + Weight(LIMB, i) * carry == Below(LIMB, a, i) + Below(LIMB, b, i)
    {
      var n: int := At(a, i) + At(b, i) + carry;
      assert n < 0x1_0000_0000;
      BelowPut(LIMB, out, i, n % LIMB);
      out := out[i := n % LIMB];
      BelowNext(LIMB, a, i);
      BelowNext(LIMB, b, i);
      BelowNext(LIMB, out, i);
      AddStep(LIMB, Weight(LIMB, i), At(a, i), At(b, i), carry, n % LIMB, if n >= LIMB then 1 else 0);
      carry := if n >= LIMB then 1 else 0;
      i := i + 1;
    }
    BelowAll(LIMB, a, outwidth - 1);
    BelowAll(LIMB, b, outwidth - 1);
    if carry == 1 {
      BelowPut(LIMB, out, outwidth - 1, 1);
      out := out[outwidth - 1 := 1];
    } else {
      BelowSame(LIMB, out[..outwidth - 1], out, outwidth - 1);
      out := out[..outwidth - 1];
      outwidth := outwidth - 1;
    }
    if outwidth == 0 {
      NoDigits(LIMB, out);
      out := [0];
      OneDigit(LIMB, out);
    }
  }

  /** dec_isub: subtract in place; the subtrahend may have (zero) limbs above the minuend's. */
  method Isub(a: Limbs, b: Limbs) returns (out: Limbs)
    requires Dec(a) >= Dec(b)
    ensures |out| == |a| && Dec(out) == Dec(a) - Dec(b)
  {
    hide Below, Weight;
    out := a;
    var carry: int := 0;
    var i: nat := 0;
    BelowNone(LIMB, out);
    BelowNone(LIMB, b);
    while i < |a|
      invariant 0 <= i <= |a| == |out| && 0 <= carry <= 1
      invariant forall j | i <= j < |a| :: out[j] == a[j]
      invariant Below(LIMB, out, i) + Below(LIMB, b, i) == Below(LIMB, a, i) + Weight(LIMB, i) * carry
    {
      var aDigit: int := out[i] - carry;
      var bDigit: int := At(b, i);
      ghost var borrow := carry;
      if aDigit < bDigit {
        aDigit := aDigit + LIMB;
        carry := 1;
      } else {
        carry := 0;
      }
      BelowPut(LIMB, out, i, aDigit - bDigit);
      out := out[i := aDigit - bDigit];
      BelowNext(LIMB, a, i);
      BelowNext(LIMB, b, i);
      SubStep(LIMB, Weight(LIMB, i), a[i], At(b, i), borrow, aDigit - bDigit, carry);
      i := i + 1;
    }
    BelowBound(LIMB, out, |a|);
    LowPartOf(b, |a|, Dec(a));
  }

  /** A number below a weight has nothing above that position. */
  lemma LowPartOf(b: Limbs, n: nat, bound: nat)
    requires Dec(b) <= bound < Weight(LIMB, n)
    ensures Below(LIMB, b, n) == Dec(b)
  {
    hide Below, Weight, From;
    if n >= |b| {
      BelowAll(LIMB, b, n);
    } else {
      BelowFrom(LIMB, b, n);
      BelowBound(LIMB, b, n);
      FromNonNegative(LIMB, b, n);
      NothingAbove(Below(LIMB, b, n), Weight(LIMB, n), From(LIMB, b, n));
    }
  }

  /** dec_shift: multiply by a power of the base. */
  method Shift(a: Limbs, amount: nat) returns (out: Limbs)
    ensures Dec(out) == Dec(a) * Weight(LIMB, amount)
  {
    hide Below, Weight;
    if |a| == 1 && a[0] == 0 {
      OneDigit(LIMB, a);
      out := [0];
      assert 0 * Weight(LIMB, amount) == 0;
      OneDigit(LIMB, out);
      return;
    }
    out := seq(|a| + amount, _ => 0);
    Zeros(LIMB, |a| + amount, amount);
    BelowNone(LIMB, a);
    var i: nat := 0;
    while i < |a|
      invariant 0 <= i <= |a| && |out| == |a| + amount
      invariant Below(LIMB, out, i + amount) == Below(LIMB, a, i) * Weight(LIMB, amount)
    {
      BelowPut(LIMB, out, i + amount, a[i]);
      out := out[i + amount := a[i]];
      BelowNext(LIMB, a, i);
      WeightAdd(LIMB, i, amount);
      ShiftOne(Below(LIMB, a, i), Weight(LIMB, i), Weight(LIMB, amount), a[i]);
      i := i + 1;
    }
  }

  lemma ShiftOne(sum: int, wi: int, w: int, d: int)
    ensures (sum + wi * d) * w == sum * w + (wi * w) * d
  {
    assert (sum + wi * d) * w == sum * w + (wi * d) * w;
    assert (wi * d) * w == (wi * w) * d;
  }

  /** The schoolbook half of dec_mul. */
  method MulRows(a: Limbs, b: Limbs) returns (out: Limbs)
    ensures Dec(out) == Dec(a) * Dec(b) && |out| <= |a| + |b|
  {
    hide Below, Weight;
    out := seq(|a| + |b|, _ => 0);
    Zeros(LIMB, |a| + |b|, |a|);
    BelowNone(LIMB, b);
    assert Dec(a) * 0 == 0;
    var i: nat := 0;
    while i < |b|
      invariant 0 <= i <= |b| && |out| == |a| + |b|
      invariant forall k | |a| + i <= k < |out| :: out[k] == 0
      invariant Below(LIMB, out, |a| + i) == Dec(a) * Below(LIMB, b, i)
    {
      out := MulRow(out, a, b, i);
      i := i + 1;
    }
    while |out| > 1 && out[|out| - 1] == 0
      invariant |out| <= |a| + |b| && Dec(out) == Dec(a) * Dec(b)
      decreases |out|
    {
      DropTop(out);
      out := out[..|out| - 1];
    }
  }

  lemma DropTop(ds: Limbs)
    requires ds != [] && ds[|ds| - 1] == 0
    ensures Dec(ds[..|ds| - 1]) == Dec(ds)
  {
    hide Below, Weight;
    BelowSame(LIMB, ds[..|ds| - 1], ds, |ds| - 1);
    BelowNext(LIMB, ds, |ds| - 1);
    assert Weight(LIMB, |ds| - 1) * 0 == 0;
  }

  method MulRow(start: Limbs, a: Limbs, b: Limbs, i: nat) returns (out: Limbs)
    requires |start| == |a| + |b| && i < |b|
    requires forall k | |a| + i <= k < |start| :: start[k] == 0
    requires Below(LIMB, start, |a| + i) == Dec(a) * Below(LIMB, b, i)
    ensures |out| == |start|
    ensures forall k | |a| + i + 1 <= k < |out| :: out[k] == 0
    ensures Below(LIMB, out, |a| + i + 1) == Dec(a) * Below(LIMB, b, i + 1)
  {
    hide Below, Weight;
    out := start;
    var bDigit: nat := b[i];
    var carry: int := 0;
    var j: nat := 0;
    BelowNone(LIMB, a);
    while j < |a|
      invariant 0 <= j <= |a| && |out| == |start| && 0 <= carry < LIMB
      invariant forall k | i + j <= k < |out| :: out[k] == start[k]
      invariant Below(LIMB, out, i + j) + Weight(LIMB, i + j) * carry
             == Below(LIMB, start, i + j) + Weight(LIMB, i) * bDigit * Below(LIMB, a, j)
    {
      var aDigit: nat := a[j];
      ProductBound(aDigit, bDigit, LIMB);
      var t: int := carry + aDigit * bDigit + out[i + j];
      assert t < 0x1_0000_0000_0000_0000;
      ghost var was := carry;
      carry := t / LIMB;
      BelowPut(LIMB, out, i + j, t % LIMB);
      out := out[i + j := t % LIMB];
      BelowNext(LIMB, start, i + j);
      BelowNext(LIMB, a, j);
      WeightAdd(LIMB, i, j);
      RowStep(LIMB, Weight(LIMB, i), Weight(LIMB, j), aDigit, bDigit, was, start[i + j], t % LIMB, carry, Below(LIMB, a, j));
      j := j + 1;
    }
    BelowPut(LIMB, out, i + |a|, carry);
    out := out[i + |a| := carry];
    BelowNext(LIMB, b, i);
    RowDone(Weight(LIMB, i), bDigit, Dec(a), Below(LIMB, b, i));
  }

  // ----- Karatsuba -----

  /** The low half of an operand, without its top zeros but for one. */
  method LowHalf(a: Limbs, m2: nat) returns (low: Limbs)
    ensures |low| <= m2 && Dec(low) == Below(LIMB, a, m2)
  {
    hide Below, Weight;
    low := a[..if m2 <= |a| then m2 else |a|];
    BelowSame(LIMB, low, a, |low|);
    BelowSame(LIMB, low, a, m2) by { assert m2 > |a| ==> low == a; }
    BelowAll(LIMB, low, m2);
    ghost var value := Dec(low);
    while |low| > 1 && low[|low| - 1] == 0
      invariant |low| <= m2 && Dec(low) == value
      decreases |low|
    {
      DropTop(low);
      low := low[..|low| - 1];
    }
  }

  method HighHalf(a: Limbs, m2: nat) returns (high: Limbs)
    ensures |high| <= Max(|a| - m2, 1)
    ensures Dec(a) == Below(LIMB, a, m2) + Weight(LIMB, m2) * Dec(high)
  {
    hide Below, Weight, From;
    if m2 <= |a| {
      high := a[m2..];
      BelowFrom(LIMB, a, m2);
      FromTail(a, m2);
    } else {
      high := [0];
      OneDigit(LIMB, high);
      BelowAll(LIMB, a, m2);
      assert Weight(LIMB, m2) * 0 == 0;
    }
  }

  lemma FromTail(a: Limbs, m: nat)
    requires m <= |a|
    ensures From(LIMB, a, m) == Dec(a[m..])
  {
    FromAll(LIMB, a[m..]);
    FromDrop(a, m, 0);
  }

  lemma {:induction false} FromDrop(a: Limbs, m: nat, i: nat)
    requires m + i <= |a|
    ensures From(LIMB, a, m + i) == From(LIMB, a[m..], i)
    decreases |a| - i
  {
    if m + i < |a| {
      FromDrop(a, m, i + 1);
      FromNext(LIMB, a, m + i);
      FromNext(LIMB, a[m..], i);
    }
  }

  /** dec_mul: the product, by rows or by Karatsuba's three half-size products. */
  method Mul(a0: Limbs, b0: Limbs) returns (out: Limbs)
    ensures Dec(out) == Dec(a0) * Dec(b0)
    decreases Max(|a0|, |b0|), 1
  {
    hide Below, Weight;
    var a, b := a0, b0;
    if |a| < |b| {
      a, b := b, a;
    }
    OneDigit(LIMB, a);
    OneDigit(LIMB, b);
    if (|a| == 1 && a[0] == 0) || (|b| == 1 && b[0] == 0) {
      out := [0];
      OneDigit(LIMB, out);
    } else if |a| == 1 && a[0] == 1 {
      out := b;
    } else if |b| == 1 && b[0] == 1 {
      out := a;
    } else if |b| < CUTOFF {
      out := MulRows(a, b);
    } else {
      out := Karatsuba(a, b);
    }
  }

  method Karatsuba(a: Limbs, b: Limbs) returns (out: Limbs)
    requires CUTOFF <= |b| <= |a|
    ensures Dec(out) == Dec(a) * Dec(b)
    decreases |a|, 0
  {
    hide Below, Weight, Dec;
    var m2 := |a| / 2;
    var low1 := LowHalf(a, m2);
    var high1 := HighHalf(a, m2);
    var low2 := LowHalf(b, m2);
    var high2 := HighHalf(b, m2);
    var z0 := Mul(low1, low2);
    var z2 := Mul(high1, high2);
    var sleft := Add(low1, high1);
    var sright := Add(low2, high2);
    var z1 := Mul(sleft, sright);
    Middle(Dec(low1), Dec(high1), Dec(low2), Dec(high2));
    z1 := Isub(z1, z2);
    z1 := Isub(z1, z0);
    var m2Shift := Shift(z1, m2);
    var add := Add(m2Shift, z0);
    var m22 := Shift(z2, m2 * 2);
    out := Add(m22, add);
    WeightAdd(LIMB, m2, m2);
    Assembled(Dec(low1), Dec(high1), Dec(low2), Dec(high2), Weight(LIMB, m2));
  }

  /** The middle product is at least the other two together: neither subtraction goes below zero. */
  lemma Middle(l1: nat, h1: nat, l2: nat, h2: nat)
    ensures (l1 + h1) * (l2 + h2) - h1 * h2 - l1 * l2 == l1 * h2 + h1 * l2 >= 0
    ensures h1 * h2 >= 0 && l1 * l2 >= 0
  {
    assert (l1 + h1) * (l2 + h2) == l1 * (l2 + h2) + h1 * (l2 + h2);
  }

  lemma Assembled(l1: nat, h1: nat, l2: nat, h2: nat, w: nat)
    ensures (h1 * h2) * (w * w) + ((l1 * h2 + h1 * l2) * w + l1 * l2) == (l1 + w * h1) * (l2 + w * h2)
  {
    var x, y := w * h1, w * h2;
    assert (l1 + x) * (l2 + y) == l1 * l2 + l1 * y + x * l2 + x * y;
    assert l1 * y == (l1 * h2) * w && x * l2 == (h1 * l2) * w;
    assert x * y == (h1 * h2) * (w * w) by { assert x * y == w * (h1 * (w * h2)); assert h1 * (w * h2) == w * (h1 * h2); }
  }

  // ----- conversion -----

  /** dec_two_raised: 2^w by halving the exponent. */
  method TwoRaised(w: nat) returns (out: Limbs)
    ensures Dec(out) == Pow2(w)
    decreases w
  {
    hide Weight, Dec;
    if w <= 29 {
      SmallPower(w);
      out := [Pow2(w)];
      assert Dec(out) == Pow2(w) by { DecOne(out); }
    } else {
      var w2 := w / 2;
      var t := TwoRaised(w2);
      if w % 2 == 0 {
        out := Mul(t, t);
        Pow2Add(w2, w2);
      } else {
        var right := TwoRaised(w - w2);
        out := Mul(t, right);
        Pow2Add(w2, w - w2);
      }
    }
  }

  lemma DecOne(ds: Limbs)
    requires |ds| == 1
    ensures Dec(ds) == ds[0]
  {
    OneDigit(LIMB, ds);
  }

  lemma SmallPower(w: nat)
    requires w <= 29
    ensures Pow2(w) < LIMB
  {
    Pow2Monotone(w, 29);
    Pow2Digit();
    Pow2Add(29, 2);
    assert Pow2(2) == 4;
  }

  lemma TwoDigits(n: nat)
    ensures n > 1 ==> Weight(BASE, n - 1) >= BASE
  {
    if n > 1 {
      WeightMonotone(BASE, 1, n - 1);
      assert Weight(BASE, 1) == BASE * Weight(BASE, 0);
    }
  }

  lemma SmallLong(ds: Digits, w: nat)
    requires Trimmed(ds) && ds != [] && w <= 29 && Mag(ds) < Pow2(w)
    ensures |ds| == 1 && Mag(ds) == ds[0] < LIMB
  {
    SmallPower(w);
    TrimmedBound(BASE, ds);
    TwoDigits(|ds|);
    OneDigit(BASE, ds);
  }

  lemma Halves(m: nat, w: nat, w2: nat)
    requires m < Pow2(w) && w2 <= w
    ensures var hi := Div(m, Pow2(w2)); hi < Pow2(w - w2) && 0 <= m - hi * Pow2(w2) < Pow2(w2)
  {
    Pow2Add(w - w2, w2);
    QuotientBetween(m, Pow2(w2), 0, Pow2(w - w2));
    DivBounds(m, Pow2(w2));
  }

  /** long_to_dec_inner: the limbs of a number below 2^w, from the limbs of its halves. */
  method LongToDec(n: Long, w: nat) returns (out: Limbs)
    requires n.Valid() && n.width >= 0 && Mag(n.digits) < Pow2(w)
    ensures Dec(out) == Mag(n.digits) && (n.width == 0 ==> out == [0])
    decreases w
  {
    hide Weight, Dec, Pow2, Mag;
    MagNone(n.digits);
    if n.width == 0 {
      out := [0];
      DecOne(out);
      return;
    }
    if w <= 29 {
      SmallPower(w);
      SmallLong(n.digits, w);
      out := [n.digits[0]];
      DecOne(out);
      return;
    }
    var hi := new Long(0, []);
    var lo := new Long(0, []);
    var tmp := new Long(0, []);
    var w2 := w / 2;
    var inside := RshiftZ(hi, n, w2);
    LshiftZ(tmp, hi, w2);
    lo.Sub(n, tmp);
    Halves(Mag(n.digits), w, w2);
    NonNegative(hi);
    NonNegative(lo);
    var a := LongToDec(hi, w - w2);
    var b := TwoRaised(w2);
    var c := Mul(a, b);
    a := LongToDec(lo, w2);
    out := Add(a, c);
  }
}
