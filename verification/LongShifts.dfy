/** _krk_long_lshift_z and _krk_long_rshift_z of src/obj_long.c. */
module LongShifts {
  import opened Arith
  import opened BitOps
  import opened Positional
  import opened LongDigits
  import opened Longs
  import opened Options

  lemma EnoughDigits(ds: Digits)
    requires ds != [] && Mag(ds) >= Weight(BASE, |ds| - 1)
    ensures Trimmed(ds)
  {
    hide Weight, Below;
    BelowBound(BASE, ds, |ds| - 1);
    BelowNext(BASE, ds, |ds| - 1);
    assert Weight(BASE, |ds| - 1) * 0 == 0;
  }

  /** 2^amount for an amount of whole digits and an offset within one. */
  lemma AmountSplit(amount: nat)
    ensures Pow2(amount) == Weight(BASE, amount / DIGIT_SHIFT) * Pow2(amount % DIGIT_SHIFT)
  {
    BitWeight(amount / DIGIT_SHIFT, amount % DIGIT_SHIFT);
  }

  /** Comparing powers compares exponents. */
  lemma Exponents(i: nat, j: nat, m: nat)
    requires Pow2(i) <= m < Pow2(j)
    ensures i < j
  {
    if j <= i {
      Pow2Monotone(j, i);
    }
  }

  lemma ShiftDigit(d: nat, o: nat)
    requires d < BASE && o < DIGIT_SHIFT
    ensures var p, e := Pow2(o), Pow2(DIGIT_SHIFT - o);
      && p * e == BASE && (d * p) % BASE == (d % e) * p && d * p == (d % e) * p + BASE * (d / e)
      && (d % e) * p <= BASE - p && d / e < p
  {
    Pow2Add(o, DIGIT_SHIFT - o);
    Pow2Digit();
    SplitProduct(d, Pow2(o), Pow2(DIGIT_SHIFT - o));
  }

  lemma SplitProduct(d: nat, p: nat, e: nat)
    requires p > 0 && e > 0 && d < p * e
    ensures (d * p) % (p * e) == (d % e) * p && d * p == (d % e) * p + (p * e) * (d / e)
    ensures (d % e) * p <= p * e - p && d / e < p
  {
    var q, r := d / e, d % e;
    assert d == e * q + r;
    assert d * p == r * p + (p * e) * q by { assert (e * q + r) * p == (e * q) * p + r * p; assert (e * q) * p == (p * e) * q; }
    MulLe(r + 1, e, p);
    assert (r + 1) * p == r * p + p;
    assert e * p == p * e && p * e > 0;
    DivIs(d * p, p * e, q, r * p);
    if q >= p {
      MulLe(p, q, e);
    }
  }

  /** The number of bits of `m`. */
  function Bits(m: nat): nat {
    if m == 0 then 0 else Bits(m / 2) + 1
  }

  lemma {:induction false} BitsOf(m: nat, count: nat)
    requires m < Pow2(count) && (m == 0 ==> count == 0) && (m != 0 ==> count > 0 && Pow2(count - 1) <= m)
    ensures Bits(m) == count
    decreases m
  {
    if m != 0 {
      assert Pow2(count) == 2 * Pow2(count - 1);
      if m == 1 {
        Exponents(count - 1, 1, m);
      } else {
        Exponents(0, count - 1, m / 2);
        assert Pow2(count - 1) == 2 * Pow2(count - 2);
        BitsOf(m / 2, count - 1);
      }
    }
  }

  // ----- left -----

  /** What a left shift leaves in an output that is the shifted number itself, whose digits are gone before they are
      read: only the highest bit, moved. */
  function LeftOwn(v: int, amount: nat): nat {
    if v == 0 || amount == 0 then 0 else Pow2(Bits(Abs(v)) - 1 + amount)
  }

  /** `val << amount`; the output may be `val`, and is cleared before `val` is read. */
  method LshiftZ(out: Long, val: Long, amount: nat)
    requires out.Sized() && val.Valid()
    modifies out
    ensures out.Valid()
    ensures out.Value() == if out == val then LeftOwn(old(val.Value()), amount) else old(val.Value()) * Pow2(amount)
  {
    hide Pow2, Mag, Magnitude, Below, Weight, Bit, Bits;
    MagNone(val.digits);
    if amount == 0 {
      out.Clear();
      out.InitCopy(val);
      PowNone();
      return;
    }
    var count := val.BitsIn();
    ghost var m := Mag(val.digits);
    MagPositive(val.digits);
    BitsOf(m, count);
    out.Clear();
    if count == 0 {
      return;
    }
    var w := |val.digits|;
    NoBits(out.digits, count - 1 + amount);
    out.BitSet(count - 1 + amount);
    LshiftDigits(out, val, amount, count, w);
    if val.width < 0 {
      out.SetSign(-1);
    }
    NegateProduct(m, Pow2(amount));
  }

  lemma NoBits(ds: Digits, bit: nat)
    requires ds == []
    ensures Mag(ds) == 0 && Bit(0, bit) == 0
  {
    DivIs(0, Pow2(bit), 0, 0);
  }

  lemma NegateProduct(m: int, p: int)
    ensures (-m) * p == -(m * p)
  {
  }

  /** The digits' loop: over `w` digits of `val`, of which there are none left if `val` was the output. */
  method LshiftDigits(out: Long, val: Long, amount: nat, count: nat, w: nat)
    requires out.Sized() && out.width > 0 && count > 0 && w == if out == val then 0 else |val.digits|
    requires |out.digits| == (count - 1 + amount) / DIGIT_SHIFT + 1
    requires out != val ==> val.Valid() && val.width != 0 && Pow2(count - 1) <= Mag(val.digits) < Pow2(count)
    requires out == val ==> Mag(out.digits) == Pow2(count - 1 + amount)
    requires forall k | 0 <= k < amount / DIGIT_SHIFT :: k < |out.digits| ==> out.digits[k] == 0
    modifies out
    ensures out.Valid() && out.width > 0
    ensures Mag(out.digits) == if out == val then old(Mag(out.digits)) else Mag(val.digits) * Pow2(amount)
  {
    hide Pow2, Below, Weight;
    var offset, cycles := amount % DIGIT_SHIFT, amount / DIGIT_SHIFT;
    var shiftIn: nat := 0;
    var i: nat := 0;
    ghost var factor := Weight(BASE, cycles) * Pow2(offset);
    if out == val {
      ShiftedTop(out.digits, Mag(out.digits), count - 1 + amount);
    } else {
      RoomToShift(val.digits, amount, count);
    }
    AmountSplit(amount);
    BelowZeros(out.digits, cycles);
    BelowNone(BASE, val.digits);
    while i < w
      invariant i <= w && out.Sized() && out.width > 0 && |out.digits| == |old(out.digits)| && shiftIn < Pow2(offset)
      invariant out == val ==> out.digits == old(out.digits) && shiftIn == 0
      invariant out != val
        ==> Below(BASE, out.digits, i + cycles) + Weight(BASE, i + cycles) * shiftIn == Below(BASE, val.digits, i) * factor
    {
      var d: nat := val.digits[i];
      ShiftDigit(d, offset);
      var low := (d * Pow2(offset)) % BASE + shiftIn;
      BelowPut(BASE, out.digits, i + cycles, low);
      out.digits := out.digits[i + cycles := low];
      BelowNext(BASE, out.digits, i + cycles);
      BelowNext(BASE, val.digits, i);
      WeightAdd(BASE, i, cycles);
      ShiftStep(Weight(BASE, i), Weight(BASE, cycles), Pow2(offset), d, shiftIn, low, d / Pow2(DIGIT_SHIFT - offset), Below(BASE, val.digits, i));
      shiftIn := d / Pow2(DIGIT_SHIFT - offset);
      i := i + 1;
    }
    ghost var v := Mag(val.digits) * factor;
    if out != val {
      ShiftedRange(Mag(val.digits), amount, count, factor);
      OffsetBelow(offset);
      ShiftedWidth(out.digits, w + cycles, v, count - 1 + amount, shiftIn);
    }
    if shiftIn != 0 {
      BelowPut(BASE, out.digits, w + cycles, shiftIn);
      out.digits := out.digits[w + cycles := shiftIn];
    }
    if out != val {
      ShiftedTop(out.digits, v, count - 1 + amount);
    }
  }

  lemma OffsetBelow(offset: nat)
    requires offset < DIGIT_SHIFT
    ensures Pow2(offset) <= BASE
  {
    Pow2Monotone(offset, DIGIT_SHIFT);
    Pow2Digit();
  }

  lemma BelowZeros(ds: Digits, k: nat)
    requires forall j | 0 <= j < k :: j < |ds| ==> ds[j] == 0
    ensures Below(BASE, ds, k) == 0
  {
    BelowSame(BASE, ds, seq(k, _ => 0), k);
    Zeros(BASE, k, k);
  }

  lemma RoomToShift(ds: Digits, amount: nat, count: nat)
    requires ds != [] && Trimmed(ds) && count > 0 && Mag(ds) < Pow2(count)
    ensures |ds| - 1 + amount / DIGIT_SHIFT < (count - 1 + amount) / DIGIT_SHIFT + 1
  {
    hide Pow2;
    TrimmedBound(BASE, ds);
    WeightIsPow2(|ds| - 1);
    Exponents(DIGIT_SHIFT * (|ds| - 1), count, Mag(ds));
  }

  lemma ShiftStep(wi: int, wc: int, p: int, d: int, carry: int, low: int, high: int, sum: int)
    requires low + BASE * high == d * p + carry
    ensures (wi * wc) * low + (BASE * (wi * wc)) * high + sum * (wc * p)
         == (sum + wi * d) * (wc * p) + (wi * wc) * carry
  {
    var w := wi * wc;
    Spread(BASE, w, low, high);
    assert w * (d * p + carry) == w * (d * p) + w * carry;
    assert w * (d * p) == (wi * d) * (wc * p) by { Regroup(wi, wc, d, p); assert wi * p * (wc * d) == (wi * d) * (wc * p); }
    assert (sum + wi * d) * (wc * p) == sum * (wc * p) + (wi * d) * (wc * p);
  }

  lemma ShiftedRange(m: nat, amount: nat, count: nat, factor: nat)
    requires count > 0 && Pow2(count - 1) <= m < Pow2(count) && factor == Pow2(amount)
    ensures Pow2(count - 1 + amount) <= m * factor < Pow2(count - 1 + amount + 1)
  {
    assert count - 1 + amount + 1 == count + amount;
    Pow2Add(count - 1, amount);
    Pow2Add(count, amount);
    MulLe(Pow2(count - 1), m, Pow2(amount));
    MulLe(m + 1, Pow2(count), Pow2(amount));
    assert (m + 1) * Pow2(amount) == m * Pow2(amount) + Pow2(amount);
  }

  /** A value whose highest bit is `top` has exactly this many digits. */
  lemma ShiftedWidth(ds: Digits, n: nat, v: nat, top: nat, high: nat)
    requires Pow2(top) <= v < Pow2(top + 1) && |ds| == top / DIGIT_SHIFT + 1 && n <= |ds| && high < BASE
    requires v == Below(BASE, ds, n) + Weight(BASE, n) * high
    ensures |ds| == if high != 0 then n + 1 else n
  {
    hide Pow2, Weight, Below;
    BelowBound(BASE, ds, n);
    WeightIsPow2(n);
    WeightIsPow2(n + 1);
    BelowNext(BASE, ds, n);
    var w := Weight(BASE, n);
    if high != 0 {
      MulLe(1, high, w);
      Exponents(DIGIT_SHIFT * n, top + 1, v);
      MulLe(high + 1, BASE, w);
      assert w * (high + 1) == w * high + w;
      Exponents(top, DIGIT_SHIFT * (n + 1), v);
    } else {
      assert w * 0 == 0;
      Exponents(top, DIGIT_SHIFT * n, v);
    }
  }

  lemma ShiftedTop(ds: Digits, v: nat, top: nat)
    requires Mag(ds) == v >= Pow2(top) && |ds| == top / DIGIT_SHIFT + 1
    ensures Trimmed(ds)
  {
    WeightIsPow2(|ds| - 1);
    Pow2Monotone(DIGIT_SHIFT * (|ds| - 1), top);
    EnoughDigits(ds);
  }

  // ----- right -----

  lemma DigitFits(x: Digit, y: Digit, offset: nat)
    requires offset < DIGIT_SHIFT
    ensures var p, e := Pow2(offset), Pow2(DIGIT_SHIFT - offset);
      Div(x, p) < e && Div(x, p) + y % p * e < BASE && (y * e) % BASE == y % p * e
  {
    hide Pow2;
    Pow2Add(offset, DIGIT_SHIFT - offset);
    Pow2Digit();
    FitsDigit(x, y, Pow2(offset), Pow2(DIGIT_SHIFT - offset));
  }

  /** Digit `j` of `ds` shifted right by `cycles` digits and `offset` bits. */
  function ShiftedDigit(ds: Digits, cycles: nat, offset: nat, j: nat): (d: Digit)
    requires offset < DIGIT_SHIFT && cycles + j < |ds|
  {
    DigitFits(ds[cycles + j], At(ds, cycles + j + 1), offset);
    Div(ds[cycles + j], Pow2(offset)) + At(ds, cycles + j + 1) % Pow2(offset) * Pow2(DIGIT_SHIFT - offset)
  }

  lemma FitsDigit(x: nat, y: nat, p: nat, e: nat)
    requires p > 0 && e > 0 && x < p * e && y < p * e
    ensures Div(x, p) < e && Div(x, p) + y % p * e < p * e && (y * e) % (p * e) == y % p * e
  {
    assert p * e == e * p;
    SplitProduct(y, e, p);
    SplitProduct(x, e, p);
  }

  function Shifted(ds: Digits, cycles: nat, offset: nat): (r: Digits)
    requires offset < DIGIT_SHIFT && cycles <= |ds|
  {
    seq(|ds| - cycles, j requires 0 <= j < |ds| - cycles => ShiftedDigit(ds, cycles, offset, j))
  }

  /** The shifted digits are the quotient of what is above by the power of the offset. */
  lemma {:induction false} ShiftedFrom(ds: Digits, cycles: nat, offset: nat, j: nat)
    requires offset < DIGIT_SHIFT && cycles <= |ds| && j <= |ds| - cycles
    ensures From(BASE, ds, cycles + j) >= 0
    ensures From(BASE, Shifted(ds, cycles, offset), j) == Div(From(BASE, ds, cycles + j), Pow2(offset))
    ensures From(BASE, ds, cycles + j) % Pow2(offset) == At(ds, cycles + j) % Pow2(offset)
    decreases |ds| - cycles - j
  {
    hide Pow2;
    var p, e := Pow2(offset), Pow2(DIGIT_SHIFT - offset);
    FromNonNegative(BASE, ds, cycles + j);
    if j < |ds| - cycles {
      ShiftedFrom(ds, cycles, offset, j + 1);
      FromNext(BASE, ds, cycles + j);
      FromNext(BASE, Shifted(ds, cycles, offset), j);
      Pow2Add(offset, DIGIT_SHIFT - offset);
      Pow2Digit();
      ShiftRightStep(ds[cycles + j], From(BASE, ds, cycles + j + 1), p, e);
    } else {
      DivIs(0, p, 0, 0);
    }
  }

  lemma ShiftRightStep(d: nat, f: nat, p: nat, e: nat)
    requires p > 0 && p * e == BASE
    ensures Div(d + BASE * f, p) == Div(d, p) + f % p * e + BASE * Div(f, p)
    ensures (d + BASE * f) % p == d % p
  {
    var q, r, k, m := f / p, f % p, d / p, d % p;
    assert f == p * q + r && d == p * k + m;
    assert BASE * f == p * (BASE * q + r * e) by {
      assert BASE * (p * q + r) == p * (BASE * q) + BASE * r;
      assert (p * e) * r == p * (r * e);
      assert p * (BASE * q + r * e) == p * (BASE * q) + p * (r * e);
    }
    assert p * (k + (BASE * q + r * e)) == p * k + p * (BASE * q + r * e);
    DivIs(d + BASE * f, p, k + (BASE * q + r * e), m);
  }

  lemma QuotientRange(m: nat, amount: nat, count: nat)
    requires amount < count && Pow2(count - 1) <= m < Pow2(count)
    ensures Pow2(count - 1 - amount) <= Div(m, Pow2(amount)) < Pow2(count - amount)
  {
    hide Pow2;
    var p, lo, hi := Pow2(amount), Pow2(count - 1 - amount), Pow2(count - amount);
    Pow2Add(count - 1 - amount, amount);
    Pow2Add(count - amount, amount);
    QuotientBetween(m, p, lo, hi);
  }

  lemma QuotientBetween(m: nat, p: nat, lo: nat, hi: nat)
    requires p > 0 && lo * p <= m < hi * p
    ensures lo <= Div(m, p) < hi
  {
    DivBounds(m, p);
    var q := Div(m, p);
    assert (q + 1) * p == p * q + p;
    if q < lo {
      MulLe(q + 1, lo, p);
    }
    if q >= hi {
      MulLe(hi, q, p);
    }
  }

  /** The first digits of the shifted sequence are the whole quotient when it has no more bits than they hold. */
  lemma ShiftedPrefix(ds: Digits, amount: nat, n: nat)
    requires amount / DIGIT_SHIFT + n <= |ds| && Div(Mag(ds), Pow2(amount)) < Weight(BASE, n)
    ensures Below(BASE, Shifted(ds, amount / DIGIT_SHIFT, amount % DIGIT_SHIFT), n) == Div(Mag(ds), Pow2(amount))
  {
    hide Pow2, Weight, Below, From, Shifted;
    var cycles, offset := amount / DIGIT_SHIFT, amount % DIGIT_SHIFT;
    ShiftedLength(ds, cycles, offset);
    var es := Shifted(ds, cycles, offset);
    ShiftedFrom(ds, cycles, offset, 0);
    FromAll(BASE, es);
    BelowFrom(BASE, ds, cycles);
    BelowBound(BASE, ds, cycles);
    AmountSplit(amount);
    DivNested(Below(BASE, ds, cycles), Weight(BASE, cycles), From(BASE, ds, cycles), Pow2(offset));
    BelowFrom(BASE, es, n);
    BelowBound(BASE, es, n);
    FromNonNegative(BASE, es, n);
    NothingAbove(Below(BASE, es, n), Weight(BASE, n), From(BASE, es, n));
  }

  lemma ShiftedLength(ds: Digits, cycles: nat, offset: nat)
    requires offset < DIGIT_SHIFT && cycles <= |ds|
    ensures |Shifted(ds, cycles, offset)| == |ds| - cycles
  {
  }

  lemma NothingAbove(low: int, w: int, f: int)
    requires low >= 0 && w > 0 && f >= 0 && low + w * f < w
    ensures f == 0 && w * f == 0
  {
    if f > 0 {
      MulLe(1, f, w);
    }
  }

  /** `val >> amount`; the output may be `val`, and is cleared before `val` is read. A negative value is shifted as if
      it were never a multiple of the power. The result is false if a digit was read beyond those of `val`. */
  method RshiftZ(out: Long, val: Long, amount: nat) returns (inside: bool)
    requires out.Sized() && val.Valid()
    modifies out
    ensures out != val ==> inside && out.Valid() && out.Value() == RightShift(old(val.Value()), amount)
    ensures out == val ==> inside == RightOwn(old(val.Value()), amount).Some?
    ensures out == val && inside ==> out.Sized() && out.Value() == RightOwn(old(val.Value()), amount).value
  {
    hide Pow2, Mag, Magnitude, Below, Weight, Bit, Bits;
    MagNone(val.digits);
    inside := true;
    if amount == 0 {
      out.Clear();
      out.InitCopy(val);
      PowNone();
      DivIs(Mag(val.digits), 1, Mag(val.digits), 0);
      return;
    }
    var count := val.BitsIn();
    ghost var m := Mag(val.digits);
    MagPositive(val.digits);
    BitsOf(m, count);
    out.Clear();
    if count == 0 {
      DivSmall(0, Pow2(amount));
      return;
    }
    if amount < count {
      var w := |val.digits|;
      NoBits(out.digits, count - 1 - amount);
      out.BitSet(count - 1 - amount);
      inside := RshiftDigits(out, val, amount, count, w);
    } else {
      Pow2Monotone(count, amount);
      DivSmall(m, Pow2(amount));
    }
    if val.width < 0 {
      var one := new Long(1, [1]);
      MagOne(one.digits);
      MagNone(out.digits);
      out.Add(out, one);
      out.SetSign(-1);
    }
  }

  /** What a right shift leaves in an output that is the shifted number itself: the highest bit, moved right, and moved
      right again if the amount is not a whole number of digits. None: it reads beyond the digits. */
  function RightOwn(v: int, amount: nat): Option<nat> {
    var count := Bits(Abs(v));
    if amount == 0 || amount >= count then Some(0)
    else if amount % DIGIT_SHIFT == 0 then Some(Pow2(count - 1 - amount))
    else if amount < DIGIT_SHIFT then Some(Div(Pow2(count - 1 - amount), Pow2(amount)))
    else None
  }

  /** What the code computes into another number. */
  function RightShift(v: int, amount: nat): int {
    var q := Div(Abs(v), Pow2(amount));
    if v >= 0 then q else if amount == 0 then v else -(q + 1)
  }

  /** Python's: the floor of the quotient by the power of two. */
  function FloorShift(v: int, amount: nat): int {
    v / Pow2(amount)
  }

  /** They agree exactly when the value is not negative, or not a multiple of the power, or not shifted at all. */
  lemma RightShiftFloors(v: int, amount: nat)
    ensures RightShift(v, amount) == FloorShift(v, amount) <==> v >= 0 || amount == 0 || v % Pow2(amount) != 0
  {
    var p := Pow2(amount);
    var q, r := v / p, v % p;
    assert v == p * q + r;
    if v < 0 {
      var m := -v;
      if r == 0 {
        assert m == p * (-q) by { assert p * (-q) == -(p * q); }
        DivIs(m, p, -q, 0);
      } else {
        assert m == p * (-q - 1) + (p - r) by { assert p * (-q - 1) == -(p * q) - p; }
        DivIs(m, p, -q - 1, p - r);
      }
      if amount == 0 {
        assert p == 1;
      }
    }
  }

  /** A negative multiple: -4 >> 1 comes out as -3. */
  lemma RightShiftOff()
    ensures RightShift(-4, 1) == -3 && FloorShift(-4, 1) == -2
  {
    assert Pow2(1) == 2;
  }

  method RshiftDigits(out: Long, val: Long, amount: nat, count: nat, w: nat) returns (inside: bool)
    requires out.Sized() && out.width > 0 && 0 < amount < count && w == if out == val then 0 else |val.digits|
    requires |out.digits| == (count - 1 - amount) / DIGIT_SHIFT + 1
    requires out != val ==> val.Valid() && val.width != 0 && Pow2(count - 1) <= Mag(val.digits) < Pow2(count)
    requires out != val ==> count <= DIGIT_SHIFT * w
    modifies out
    ensures out.Sized() && out.width > 0
    ensures out != val ==> inside && out.Valid() && Mag(out.digits) == Div(Mag(val.digits), Pow2(amount))
    ensures out == val ==> inside == (amount % DIGIT_SHIFT == 0 || amount < DIGIT_SHIFT)
    ensures out == val && amount % DIGIT_SHIFT == 0 ==> out.digits == old(out.digits)
    ensures out == val && 0 < amount < DIGIT_SHIFT ==> Mag(out.digits) == Div(old(Mag(out.digits)), Pow2(amount))
  {
    hide Pow2, Mag, ShiftedDigit;
    if out != val {
      RoomForQuotient(val.digits, amount, count, |out.digits|);
    }
    ghost var ds := val.digits;
    inside := true;
    if amount % DIGIT_SHIFT == 0 {
      CopyDigits(out, val, amount / DIGIT_SHIFT, w);
    } else {
      inside := SplitDigits(out, val, amount / DIGIT_SHIFT, amount % DIGIT_SHIFT, w);
    }
    if out != val {
      RshiftDone(out.digits, ds, amount, count);
    } else if 0 < amount < DIGIT_SHIFT {
      ShiftedOwn(out.digits, ds, amount);
    }
  }

  method CopyDigits(out: Long, val: Long, cycles: nat, w: nat)
    requires out.Sized() && out.width > 0 && w == (if out == val then 0 else |val.digits|)
    requires out != val ==> cycles + |out.digits| == w
    modifies out
    ensures out.Sized() && out.width == old(out.width)
    ensures out != val ==> forall j | 0 <= j < |out.digits| :: out.digits[j] == ShiftedDigit(val.digits, cycles, 0, j)
    ensures out == val ==> out.digits == old(out.digits)
  {
    hide ShiftedDigit;
    var i := cycles;
    while i < w
      invariant cycles <= i && out.Sized() && out.width == old(out.width)
      invariant out == val ==> out.digits == old(out.digits)
      invariant out != val ==> i <= w && forall j | 0 <= j < i - cycles :: out.digits[j] == ShiftedDigit(val.digits, cycles, 0, j)
    {
      WholeDigit(val.digits, cycles, i - cycles);
      out.digits := out.digits[i - cycles := val.digits[i]];
      i := i + 1;
    }
  }

  /** Whether shifting by so many digits reads only digits that are there, the output having `n`. */
  ghost predicate Within(out: Long, val: Long, cycles: nat, n: nat, ds: Digits) {
    if out == val then cycles == 0 && n == |ds| else cycles + n <= |ds|
  }

  /** The digits below `i` are shifted, but for what the last of them gets from the next. */
  ghost predicate SplitTo(out: Digits, ds: Digits, cycles: nat, offset: nat, i: nat)
    requires offset < DIGIT_SHIFT
  {
    && 1 <= i <= |out| && cycles + i <= |ds|
    && (forall j | 0 <= j < i - 1 :: out[j] == ShiftedDigit(ds, cycles, offset, j))
    && out[i - 1] == Div(ds[cycles + i - 1], Pow2(offset))
  }

  lemma SplitStep(out: Digits, ds: Digits, cycles: nat, offset: nat, i: nat, high: Digit)
    requires offset < DIGIT_SHIFT && SplitTo(out, ds, cycles, offset, i) && i < |out| && cycles + i < |ds|
    requires high == (ds[cycles + i] * Pow2(DIGIT_SHIFT - offset)) % BASE
    ensures 0 <= ds[cycles + i] / Pow2(offset) < BASE
    ensures SplitTo(out[i - 1 := OrDigit(out[i - 1], high)][i := ds[cycles + i] / Pow2(offset)], ds, cycles, offset, i + 1)
  {
    hide Pow2, ShiftedDigit, WordOp;
    LowPart(ds, cycles, offset, i - 1);
    LowPart(ds, cycles, offset, i);
  }

  lemma DigitQuotient(d: Digit, offset: nat)
    ensures 0 <= d / Pow2(offset) < BASE && d / Pow2(offset) == Div(d, Pow2(offset))
  {
    DivBounds(d, Pow2(offset));
    MulLe(1, Pow2(offset), Div(d, Pow2(offset)));
  }

  /** Each digit is finished with the low bits of the one above it, once that one is reached. */
  method SplitDigits(out: Long, val: Long, cycles: nat, offset: nat, w: nat) returns (inside: bool)
    requires out.Sized() && out.width > 0 && 0 < offset < DIGIT_SHIFT && w == if out == val then 0 else |val.digits|
    requires out != val ==> cycles + |out.digits| <= w
    modifies out
    ensures out.Sized() && out.width == old(out.width)
    ensures inside <==> Within(out, val, cycles, |out.digits|, old(val.digits))
    ensures inside ==> forall j | 0 <= j < |out.digits| :: out.digits[j] == ShiftedDigit(old(val.digits), cycles, offset, j)
  {
    hide Pow2, ShiftedDigit, WordOp, SplitTo, OrDigit;
    ghost var ds := val.digits;
    var n := |out.digits|;
    ghost var within := Within(out, val, cycles, n, ds);
    if cycles >= |val.digits| {
      return false;
    }
    DigitQuotient(val.digits[cycles], offset);
    out.digits := out.digits[0 := val.digits[cycles] / Pow2(offset)];
    SplitStart(out.digits, ds, cycles, offset);
    var i := 1;
    while i < n
      invariant 1 <= i <= n && out.Sized() && out.width == n && |val.digits| == |ds| && i - 1 + cycles < |ds|
      invariant within ==> SplitTo(out.digits, ds, cycles, offset, i) && forall j | i + cycles <= j < |ds| :: val.digits[j] == ds[j]
    {
      if i + cycles >= |val.digits| {
        return false;
      }
      var high: int := (val.digits[i + cycles] * Pow2(DIGIT_SHIFT - offset)) % BASE;
      if within {
        SplitStep(out.digits, ds, cycles, offset, i, high);
      }
      out.digits := out.digits[i - 1 := OrDigit(out.digits[i - 1], high)];
      DigitQuotient(val.digits[i + cycles], offset);
      out.digits := out.digits[i := val.digits[i + cycles] / Pow2(offset)];
      i := i + 1;
    }
    inside := true;
    ghost var last := out.digits;
    if n + cycles < w {
      var high: int := (val.digits[n + cycles] * Pow2(DIGIT_SHIFT - offset)) % BASE;
      out.digits := out.digits[n - 1 := OrDigit(out.digits[n - 1], high)];
    }
    SplitEnd(last, out.digits, ds, cycles, offset);
  }

  lemma SplitStart(out: Digits, ds: Digits, cycles: nat, offset: nat)
    requires offset < DIGIT_SHIFT && out != [] && cycles < |ds| && out[0] == Div(ds[cycles], Pow2(offset))
    ensures SplitTo(out, ds, cycles, offset, 1)
  {
  }

  lemma SplitEnd(last: Digits, out: Digits, ds: Digits, cycles: nat, offset: nat)
    requires offset < DIGIT_SHIFT && SplitTo(last, ds, cycles, offset, |last|)
    requires var n, e := |last|, Pow2(DIGIT_SHIFT - offset);
      out == if n + cycles < |ds| then last[n - 1 := OrDigit(last[n - 1], (ds[n + cycles] * e) % BASE)] else last
    ensures forall j | 0 <= j < |out| :: out[j] == ShiftedDigit(ds, cycles, offset, j)
  {
    hide Pow2, ShiftedDigit, WordOp;
    LowPart(ds, cycles, offset, |last| - 1);
    assert 0 * Pow2(DIGIT_SHIFT - offset) == 0;
  }

  lemma RoomForQuotient(ds: Digits, amount: nat, count: nat, n: nat)
    requires ds != [] && Trimmed(ds) && amount < count <= DIGIT_SHIFT * |ds| && Mag(ds) < Pow2(count)
    requires n == (count - 1 - amount) / DIGIT_SHIFT + 1
    ensures amount / DIGIT_SHIFT + n <= |ds|
    ensures amount % DIGIT_SHIFT == 0 ==> amount / DIGIT_SHIFT + n == |ds|
  {
    RoomToShift(ds, 0, count);
  }

  lemma WholeDigit(ds: Digits, cycles: nat, j: nat)
    requires cycles + j < |ds|
    ensures ShiftedDigit(ds, cycles, 0, j) == ds[cycles + j]
  {
    PowNone();
    DivIs(ds[cycles + j], 1, ds[cycles + j], 0);
    DivIs(At(ds, cycles + j + 1), 1, At(ds, cycles + j + 1), 0);
  }

  /** Or of numbers without a common bit is their sum. */
  lemma {:induction false} OrApart(x: nat, t: nat, j: nat, n: nat)
    requires x < Pow2(j) && x + Pow2(j) * t < Pow2(n)
    ensures WordOp(Or, x, Pow2(j) * t, n) == x + Pow2(j) * t
    decreases n
  {
    if n > 0 {
      if j > 0 {
        assert Pow2(j) * t == 2 * (Pow2(j - 1) * t) by { assert (2 * Pow2(j - 1)) * t == 2 * (Pow2(j - 1) * t); }
        OrApart(x / 2, t, j - 1, n - 1);
      } else {
        OrApart(0, t / 2, 0, n - 1);
      }
    }
  }

  lemma LowPart(ds: Digits, cycles: nat, offset: nat, j: nat)
    requires offset < DIGIT_SHIFT && cycles + j < |ds|
    ensures 0 <= ds[cycles + j] / Pow2(offset) == Div(ds[cycles + j], Pow2(offset)) < BASE
    ensures var high := (At(ds, cycles + j + 1) * Pow2(DIGIT_SHIFT - offset)) % BASE;
      && ShiftedDigit(ds, cycles, offset, j) == Div(ds[cycles + j], Pow2(offset)) + high
      && ShiftedDigit(ds, cycles, offset, j) == WordOp(Or, Div(ds[cycles + j], Pow2(offset)), high, DIGIT_SHIFT)
  {
    hide Pow2, WordOp;
    DigitFits(ds[cycles + j], At(ds, cycles + j + 1), offset);
    var p, e := Pow2(offset), Pow2(DIGIT_SHIFT - offset);
    var t := At(ds, cycles + j + 1) % p;
    assert t * e == e * t >= 0;
    Pow2Digit();
    OrApart(Div(ds[cycles + j], p), t, DIGIT_SHIFT - offset, DIGIT_SHIFT);
  }

  /** Or of two digits. */
  function OrDigit(x: Digit, y: Digit): Digit {
    WordOpBound(Or, x, y, DIGIT_SHIFT);
    Pow2Digit();
    WordOp(Or, x, y, DIGIT_SHIFT)
  }

  lemma ShiftedOwn(out: Digits, ds: Digits, amount: nat)
    requires 0 < amount < DIGIT_SHIFT && |out| == |ds|
    requires forall j | 0 <= j < |out| :: out[j] == ShiftedDigit(ds, 0, amount, j)
    ensures Mag(out) == Div(Mag(ds), Pow2(amount))
  {
    hide Pow2, ShiftedDigit;
    assert out == Shifted(ds, 0, amount);
    ShiftedFrom(ds, 0, amount, 0);
    MagFrom(out);
    MagFrom(ds);
  }

  lemma RshiftDone(out: Digits, ds: Digits, amount: nat, count: nat)
    requires amount < count && Pow2(count - 1) <= Mag(ds) < Pow2(count)
    requires |out| == (count - 1 - amount) / DIGIT_SHIFT + 1 && amount / DIGIT_SHIFT + |out| <= |ds|
    requires forall j | 0 <= j < |out| :: out[j] == ShiftedDigit(ds, amount / DIGIT_SHIFT, amount % DIGIT_SHIFT, j)
    ensures Mag(out) == Div(Mag(ds), Pow2(amount)) && Trimmed(out)
  {
    hide Pow2, ShiftedDigit;
    var n := |out|;
    QuotientRange(Mag(ds), amount, count);
    WeightIsPow2(n);
    WeightIsPow2(n - 1);
    Pow2Monotone(count - amount, DIGIT_SHIFT * n);
    Pow2Monotone(DIGIT_SHIFT * (n - 1), count - 1 - amount);
    ShiftedPrefix(ds, amount, n);
    BelowSame(BASE, out, Shifted(ds, amount / DIGIT_SHIFT, amount % DIGIT_SHIFT), n);
    EnoughDigits(out);
  }
}
