/** The KrkLong of src/obj_long.c: a signed width and its digits, changed in place through output pointers that may
    be the inputs themselves. Every method's contract is about the integers that are held. */
module Longs {
  import opened Arith
  import opened LongDigits
  import opened Positional
  import opened Options

  function Abs(x: int): nat {
    if x < 0 then -x else x
  }

  function Signed(width: int, m: int): int {
    if width < 0 then -m else m
  }

  class Long {
    var width: int
    var digits: Digits

    constructor (w: int, ds: Digits)
      requires |ds| == Abs(w)
      ensures width == w && digits == ds
    {
      width, digits := w, ds;
    }

    ghost predicate Sized()
      reads this
    {
      |digits| == Abs(width)
    }

    /** What every public operation is given and leaves: no superfluous top digits. */
    ghost predicate Valid()
      reads this
    {
      Sized() && Trimmed(digits)
    }

    ghost function Value(): int
      reads this
    {
      Signed(width, Mag(digits))
    }

    method Clear()
      modifies this
      ensures width == 0 && digits == [] && Value() == 0 && Valid()
    {
      width, digits := 0, [];
    }

    /** krk_long_init_si for a value of one digit. */
    method InitDigit(value: nat)
      requires value < BASE
      modifies this
      ensures Valid() && width >= 0 && Mag(digits) == value
    {
      width := if value == 0 then 0 else 1;
      digits := if value == 0 then [] else [value];
      OneDigit(BASE, digits);
    }

    /** krk_long_init_ui. */
    method InitUi(value: nat)
      modifies this
      ensures Valid() && width >= 0 && Mag(digits) == value
    {
      hide Below, Weight;
      digits := [];
      var rest: nat := value;
      BelowNone(BASE, digits);
      assert Weight(BASE, 0) * value == value;
      while rest > 0
        invariant Below(BASE, digits, |digits|) + Weight(BASE, |digits|) * rest == value
        invariant rest == 0 ==> Trimmed(digits)
        decreases rest
      {
        ghost var before, n := digits, |digits|;
        digits := digits + [rest % BASE];
        BelowSame(BASE, digits, before, n);
        BelowNext(BASE, digits, n);
        Spread(BASE, Weight(BASE, n), rest % BASE, rest / BASE);
        rest := rest / BASE;
      }
      assert Weight(BASE, |digits|) * 0 == 0;
      width := |digits|;
    }

    method InitCopy(from: Long)
      requires from.Sized()
      modifies this
      ensures width == old(from.width) && digits == old(from.digits)
    {
      width := from.width;
      digits := from.digits;
    }

    /** krk_long_resize: more digits are zero, fewer are cut off; the width becomes positive. */
    method Resize(newDigits: nat)
      requires Sized()
      modifies this
      ensures Sized() && width == newDigits
      ensures forall i | 0 <= i < newDigits :: digits[i] == if i < |old(digits)| then old(digits)[i] else 0
    {
      if newDigits == 0 {
        Clear();
        return;
      }
      if |digits| < newDigits {
        digits := digits + seq(newDigits - |digits|, _ => 0);
      } else {
        digits := digits[..newDigits];
      }
      width := newDigits;
    }

    method SetSign(sign: int)
      requires Sized() && (sign == 1 || sign == -1)
      modifies `width
      ensures Sized() && width == Abs(old(width)) * sign
      ensures Value() == Mag(digits) * sign
    {
      width := if width < 0 then (-width) * sign else width * sign;
      NoDigits(BASE, digits);
    }

    /** krk_long_trim: drop top zeros, keep the value. */
    method Trim()
      requires Sized()
      modifies this
      ensures Valid() && Mag(digits) == Mag(old(digits)) && Value() == old(Value())
      ensures width < 0 ==> old(width) < 0
      ensures width > 0 ==> old(width) > 0
    {
      var invert := width < 0;
      var owidth := Abs(width);
      var redundant := 0;
      while redundant < owidth && digits[owidth - redundant - 1] == 0
        invariant 0 <= redundant <= owidth
        invariant Below(BASE, digits, owidth - redundant) == Mag(digits)
      {
        redundant := redundant + 1;
      }
      ghost var before := digits;
      if redundant > 0 {
        Resize(owidth - redundant);
        if invert {
          SetSign(-1);
        }
      }
      BelowSame(BASE, digits, before, owidth - redundant);
      NoDigits(BASE, digits);
      NoDigits(BASE, before);
    }

    /** krk_long_compare on magnitudes. */
    method CompareAbs(b: Long) returns (r: int)
      requires Valid() && b.Valid()
      ensures r == if Mag(digits) > Mag(b.digits) then 1 else if Mag(digits) < Mag(b.digits) then -1 else 0
      ensures r == 0 ==> digits == b.digits
    {
      if |digits| > |b.digits| {
        WiderIsLarger(BASE, digits, b.digits);
        return 1;
      }
      if |b.digits| > |digits| {
        WiderIsLarger(BASE, b.digits, digits);
        return -1;
      }
      var n := |digits|;
      var i := 0;
      while i < n
        invariant 0 <= i <= n
        invariant forall j | n - i <= j < n :: digits[j] == b.digits[j]
      {
        var at := n - i - 1;
        if digits[at] > b.digits[at] {
          LargerAt(BASE, digits, b.digits, at);
          return 1;
        }
        if digits[at] < b.digits[at] {
          LargerAt(BASE, b.digits, digits, at);
          return -1;
        }
        i := i + 1;
      }
      assert digits == b.digits;
      return 0;
    }

    /** krk_long_add_ignore_sign into an output that is neither operand. */
    method AddIgnoreSign(a: Long, b: Long)
      requires Sized() && a.Valid() && b.Valid() && this != a && this != b
      modifies this
      ensures Valid() && width >= 0 && Mag(digits) == Mag(a.digits) + Mag(b.digits)
    {
      hide Below, Weight;
      var owidth := (if |a.digits| < |b.digits| then |b.digits| else |a.digits|) + 1;
      Resize(owidth);
      var carry := 0;
      var i: nat := 0;
      BelowNone(BASE, digits);
      BelowNone(BASE, a.digits);
      BelowNone(BASE, b.digits);
      while i < owidth - 1
        invariant 0 <= i <= owidth - 1 && Sized() && width == owidth && 0 <= carry <= 1
        invariant Below(BASE, digits, i) + Weight(BASE, i) * carry == Below(BASE, a.digits, i) + Below(BASE, b.digits, i)
      {
        var out: int := At(a.digits, i) + At(b.digits, i) + carry;
        assert out < 0x1_0000_0000;
        BelowPut(BASE, digits, i, out % BASE);
        digits := digits[i := out % BASE];
        BelowNext(BASE, a.digits, i);
        BelowNext(BASE, b.digits, i);
        AddStep(BASE, Weight(BASE, i), At(a.digits, i), At(b.digits, i), carry, out % BASE, if out >= BASE then 1 else 0);
        carry := if out >= BASE then 1 else 0;
        i := i + 1;
      }
      BelowAll(BASE, a.digits, owidth - 1);
      BelowAll(BASE, b.digits, owidth - 1);
      ghost var before := digits;
      if carry == 1 {
        BelowPut(BASE, digits, owidth - 1, 1);
        digits := digits[owidth - 1 := 1];
      } else {
        Resize(owidth - 1);
        BelowSame(BASE, digits, before, owidth - 1);
        SumTrimmed(digits, a.digits, b.digits);
      }
    }
    /** _sub_big_small; this output may be either operand. */
    method SubBigSmall(a: Long, b: Long)
      requires Sized() && a.Valid() && b.Valid() && Mag(a.digits) >= Mag(b.digits)
      modifies this
      ensures Valid() && width >= 0 && Mag(digits) == old(Mag(a.digits)) - old(Mag(b.digits))
    {
      hide Below, Weight;
      ghost var A, B := a.digits, b.digits;
      if |B| > |A| {
        WiderIsLarger(BASE, B, A);
      }
      var owidth, bwidth := |a.digits|, |b.digits|;
      Resize(owidth);
      var carry: int := 0;
      var i: nat := 0;
      BelowNone(BASE, digits);
      BelowNone(BASE, A);
      BelowNone(BASE, B);
      while i < owidth
        invariant 0 <= i <= owidth && Sized() && width == owidth && 0 <= carry <= 1
        invariant |a.digits| == owidth && bwidth <= |b.digits|
        invariant forall j | i <= j < owidth :: a.digits[j] == A[j] && (j < bwidth ==> b.digits[j] == B[j])
        invariant Below(BASE, digits, i) + Below(BASE, B, i) == Below(BASE, A, i) + Weight(BASE, i) * carry
      {
        var aDigit: int := a.digits[i] - carry;
        var bDigit: int := if i < bwidth then b.digits[i] else 0;
        ghost var borrow := carry;
        if aDigit < bDigit {
          aDigit := aDigit + BASE;
          carry := 1;
        } else {
          carry := 0;
        }
        BelowPut(BASE, digits, i, aDigit - bDigit);
        digits := digits[i := aDigit - bDigit];
        BelowNext(BASE, A, i);
        BelowNext(BASE, B, i);
        SubStep(BASE, Weight(BASE, i), At(A, i), At(B, i), borrow, aDigit - bDigit, carry);
        i := i + 1;
      }
      BelowAll(BASE, B, owidth);
      BelowBound(BASE, digits, owidth);
      Trim();
    }

    /** krk_long_add; PREP_OUTPUT and FINISH_OUTPUT let this output be an operand. */
    method Add(a: Long, b: Long)
      requires Sized() && a.Valid() && b.Valid()
      modifies this
      ensures Valid() && Value() == old(a.Value()) + old(b.Value())
    {
      if this == a || this == b {
        var out := new Long(0, []);
        out.AddApart(a, b);
        Swap(out);
      } else {
        AddApart(a, b);
      }
    }

    /** FINISH_OUTPUT: take the temporary's contents. */
    method Swap(out: Long)
      modifies this, out
      ensures width == old(out.width) && digits == old(out.digits)
      ensures out != this ==> out.width == old(width) && out.digits == old(digits)
    {
      var w, ds := width, digits;
      width, digits := out.width, out.digits;
      out.width, out.digits := w, ds;
    }

    method AddApart(a: Long, b: Long)
      requires Sized() && a.Valid() && b.Valid() && this != a && this != b
      modifies this
      ensures Valid() && Value() == a.Value() + b.Value()
    {
      NoDigits(BASE, a.digits);
      NoDigits(BASE, b.digits);
      if a.width == 0 {
        Clear();
        InitCopy(b);
      } else if b.width == 0 {
        Clear();
        InitCopy(a);
      } else if (a.width < 0) != (b.width < 0) {
        var c := a.CompareAbs(b);
        if c == -1 {
          SubBigSmall(b, a);
          SetSign(if b.width < 0 then -1 else 1);
        } else if c == 1 {
          SubBigSmall(a, b);
          SetSign(if a.width < 0 then -1 else 1);
        } else {
          Clear();
        }
      } else {
        var sign := if a.width < 0 then -1 else 1;
        AddIgnoreSign(a, b);
        SetSign(sign);
      }
    }

    /** krk_long_sub. */
    method Sub(a: Long, b: Long)
      requires Sized() && a.Valid() && b.Valid()
      modifies this
      ensures Valid() && Value() == old(a.Value()) - old(b.Value())
    {
      if this == a || this == b {
        var out := new Long(0, []);
        out.SubApart(a, b);
        Swap(out);
      } else {
        SubApart(a, b);
      }
    }

    method SubApart(a: Long, b: Long)
      requires Sized() && a.Valid() && b.Valid() && this != a && this != b
      modifies this
      ensures Valid() && Value() == a.Value() - b.Value()
    {
      NoDigits(BASE, a.digits);
      NoDigits(BASE, b.digits);
      if a.width == 0 {
        Clear();
        InitCopy(b);
        SetSign(if b.width < 0 then 1 else -1);
      } else if b.width == 0 {
        Clear();
        InitCopy(a);
      } else if (a.width < 0) != (b.width < 0) {
        AddIgnoreSign(a, b);
        SetSign(if a.width < 0 then -1 else 1);
      } else {
        var c := a.CompareAbs(b);
        if c == 0 {
          Clear();
        } else if c == 1 {
          SubBigSmall(a, b);
          if a.width < 0 {
            SetSign(-1);
          }
        } else {
          SubBigSmall(b, a);
          if b.width > 0 {
            SetSign(-1);
          }
        }
      }
    }

    /** _mul_abs: schoolbook multiplication, accumulating in the output. */
    method MulAbs(a: Long, b: Long)
      requires Sized() && a.Valid() && b.Valid() && this != a && this != b
      modifies this
      ensures Valid() && width >= 0 && Mag(digits) == Mag(a.digits) * Mag(b.digits)
    {
      var awidth, bwidth := |a.digits|, |b.digits|;
      Resize(awidth + bwidth);
      digits := seq(awidth + bwidth, _ => 0);
      Zeros(BASE, awidth + bwidth, awidth);
      var i := 0;
      while i < bwidth
        invariant 0 <= i <= bwidth && Sized() && width == awidth + bwidth
        invariant forall k | awidth + i <= k < awidth + bwidth :: digits[k] == 0
        invariant Below(BASE, digits, awidth + i) == Mag(a.digits) * Below(BASE, b.digits, i)
      {
        MulRow(a, b, i);
        i := i + 1;
      }
      Trim();
    }

    /** Add the product of `a` and digit `i` of `b`, from position `i`. */
    method MulRow(a: Long, b: Long, i: nat)
      requires Sized() && a.Valid() && b.Valid() && this != a && this != b && width == |a.digits| + |b.digits|
      requires i < |b.digits| && digits[i + |a.digits|] == 0
      requires forall k | |a.digits| + i <= k < |digits| :: digits[k] == 0
      requires Below(BASE, digits, |a.digits| + i) == Mag(a.digits) * Below(BASE, b.digits, i)
      modifies this
      ensures Sized() && width == old(width)
      ensures forall k | |a.digits| + i + 1 <= k < |digits| :: digits[k] == 0
      ensures Below(BASE, digits, |a.digits| + i + 1) == Mag(a.digits) * Below(BASE, b.digits, i + 1)
    {
      hide Below, Weight;
      var awidth := |a.digits|;
      var bDigit: nat := b.digits[i];
      var carry := 0;
      ghost var start := digits;
      var j: nat := 0;
      BelowNone(BASE, a.digits);
      while j < awidth
        invariant 0 <= j <= awidth && Sized() && width == old(width) && 0 <= carry < BASE
        invariant forall k | i + j <= k < |digits| :: digits[k] == start[k]
        invariant Below(BASE, digits, i + j) + Weight(BASE, i + j) * carry == Below(BASE, start, i + j) + Weight(BASE, i) * bDigit * Below(BASE, a.digits, j)
      {
        var aDigit: nat := a.digits[j];
        ProductBound(aDigit, bDigit, BASE);
        var tmp: int := carry + aDigit * bDigit + digits[i + j];
        assert tmp < 0x1_0000_0000_0000_0000;
        ghost var was := carry;
        carry := tmp / BASE;
        BelowPut(BASE, digits, i + j, tmp % BASE);
        digits := digits[i + j := tmp % BASE];
        BelowNext(BASE, start, i + j);
        BelowNext(BASE, a.digits, j);
        WeightAdd(BASE, i, j);
        RowStep(BASE, Weight(BASE, i), Weight(BASE, j), aDigit, bDigit, was, start[i + j], tmp % BASE, carry, Below(BASE, a.digits, j));
        j := j + 1;
      }
      BelowPut(BASE, digits, i + awidth, carry);
      digits := digits[i + awidth := carry];
      BelowNext(BASE, b.digits, i);
      RowDone(Weight(BASE, i), bDigit, Mag(a.digits), Below(BASE, b.digits, i));
    }

    /** krk_long_mul. */
    method Mul(a: Long, b: Long)
      requires Sized() && a.Valid() && b.Valid()
      modifies this
      ensures Valid() && Value() == old(a.Value()) * old(b.Value())
    {
      if this == a || this == b {
        var out := new Long(0, []);
        out.MulApart(a, b);
        Swap(out);
      } else {
        MulApart(a, b);
      }
    }

    method MulApart(a: Long, b: Long)
      requires Sized() && a.Valid() && b.Valid() && this != a && this != b
      modifies this
      ensures Valid() && Value() == a.Value() * b.Value()
    {
      NoDigits(BASE, a.digits);
      NoDigits(BASE, b.digits);
      if a.width == 0 {
        Clear();
        InitCopy(a);
      } else if b.width == 0 {
        Clear();
        InitCopy(b);
      } else {
        MulAbs(a, b);
        SetSign(if (a.width < 0) == (b.width < 0) then 1 else -1);
        SignProduct(Mag(a.digits), Mag(b.digits));
      }
    }

    // ----- division -----

    /** krk_long_compare. */
    method Compare(b: Long) returns (r: int)
      requires Valid() && b.Valid()
      ensures r == if Value() > b.Value() then 1 else if Value() < b.Value() then -1 else 0
    {
      TrimmedBound(BASE, digits);
      TrimmedBound(BASE, b.digits);
      NoDigits(BASE, digits);
      NoDigits(BASE, b.digits);
      if width > b.width {
        if (width > 0 && b.width > 0) || width < 0 { Wider(this, b); }
        return 1;
      }
      if b.width > width {
        if (width > 0 && b.width > 0) || b.width < 0 { Wider(b, this); }
        return -1;
      }
      var sign := if width < 0 then -1 else 1;
      var c := CompareAbs(b);
      return c * sign;
    }

    /** _lshift_one: double in place. */
    method LshiftOne()
      requires Valid() && width >= 0
      modifies this
      ensures Valid() && width >= 0 && Mag(digits) == 2 * old(Mag(digits))
    {
      hide Below, Weight;
      if width == 0 {
        NoDigits(BASE, digits);
        return;
      }
      ghost var D := digits;
      var absWidth := |digits|;
      var outWidth := absWidth;
      if digits[absWidth - 1] >= BASE / 2 {
        outWidth := outWidth + 1;
      }
      Resize(outWidth);
      var carry: int := 0;
      var i: nat := 0;
      BelowNone(BASE, digits);
      BelowNone(BASE, D);
      while i < absWidth
        invariant 0 <= i <= absWidth && Sized() && width == outWidth && 0 <= carry <= 1
        invariant carry == if i == 0 then 0 else D[i - 1] / (BASE / 2)
        invariant forall j | i <= j < outWidth :: digits[j] == At(D, j)
        invariant i > 0 && carry == 0 ==> digits[i - 1] >= D[i - 1]
        invariant Below(BASE, digits, i) + Weight(BASE, i) * carry == 2 * Below(BASE, D, i)
      {
        var digit: int := digits[i];
        var doubled: int := 2 * digit + carry;
        Doubles(digit, carry);
        BelowPut(BASE, digits, i, doubled % BASE);
        digits := digits[i := doubled % BASE];
        BelowNext(BASE, D, i);
        DoubleStep(Weight(BASE, i), digit, carry, doubled % BASE, digit / (BASE / 2));
        carry := digit / (BASE / 2);
        i := i + 1;
      }
      if carry != 0 {
        BelowPut(BASE, digits, outWidth - 1, 1);
        digits := digits[outWidth - 1 := 1];
      }
      assert outWidth == absWidth + carry;
    }

    /** _bits_in: the position of the highest set bit, from 1. */
    method BitsIn() returns (bits: nat)
      requires Valid()
      ensures Mag(digits) < Pow2(bits) && bits <= DIGIT_SHIFT * |digits|
      ensures width != 0 ==> bits > 0 && Pow2(bits - 1) <= Mag(digits)
      ensures width == 0 ==> bits == 0
    {
      hide Pow2;
      if width == 0 {
        NoDigits(BASE, digits);
        PowNone();
        return 0;
      }
      var absWidth := |digits|;
      var c: nat := 0;
      var digit: nat := digits[absWidth - 1];
      ghost var top := digit;
      PowNone();
      while digit > 0
        invariant digit <= top && c <= DIGIT_SHIFT && (digit == 0 ==> c > 0)
        invariant digit * Pow2(c) <= top < (digit + 1) * Pow2(c)
        invariant digit == 0 ==> Pow2(c - 1) <= top
        decreases digit
      {
        BitsStep(digit, c, top);
        c := c + 1;
        digit := digit / 2;
      }
      bits := c + (absWidth - 1) * DIGIT_SHIFT;
      TopBits(digits, c);
    }

    method BitIsSet(bit: nat) returns (r: bool)
      requires bit / DIGIT_SHIFT < |digits|
      ensures r <==> Bit(Mag(digits), bit) == 1
    {
      var digitOffset, digitBit := bit / DIGIT_SHIFT, bit % DIGIT_SHIFT;
      DigitBit(digits, digitOffset, digitBit);
      assert DIGIT_SHIFT * digitOffset + digitBit == bit;
      return Bit(digits[digitOffset], digitBit) == 1;
    }

    /** _bit_set_zero on an even number. */
    method BitSetZero(value: bool)
      requires Valid() && width >= 0 && Mag(digits) % 2 == 0
      modifies this
      ensures Valid() && width >= 0 && Mag(digits) == old(Mag(digits)) + if value then 1 else 0
    {
      hide Below, Weight;
      var bit := if value then 1 else 0;
      if width == 0 {
        NoDigits(BASE, digits);
        width := bit;
        digits := if value then [1] else [];
        OneDigit(BASE, digits);
      } else {
        EvenDigit(digits);
        var d: int := digits[0];
        AddAt(BASE, digits, 0, bit);
        BelowNone(BASE, digits);
        digits := digits[0 := d - d % 2 + bit];
      }
    }

    /** krk_long_bit_set on a clear bit. */
    method BitSet(bit: nat)
      requires Sized() && width >= 0 && Bit(Mag(digits), bit) == 0
      modifies this
      ensures Sized() && width >= 0 && Mag(digits) == old(Mag(digits)) + Pow2(bit)
      ensures |digits| == if bit / DIGIT_SHIFT >= |old(digits)| then bit / DIGIT_SHIFT + 1 else |old(digits)|
      ensures forall k | 0 <= k < |digits| && k != bit / DIGIT_SHIFT :: digits[k] == At(old(digits), k)
    {
      hide Below, Weight, Pow2, Bit;
      var digitOffset, digitBit := bit / DIGIT_SHIFT, bit % DIGIT_SHIFT;
      assert DIGIT_SHIFT * digitOffset + digitBit == bit;
      if digitOffset >= |digits| {
        ghost var before := digits;
        Resize(digitOffset + 1);
        BelowSame(BASE, digits, before, digitOffset + 1);
        BelowAll(BASE, before, digitOffset + 1);
      }
      DigitBit(digits, digitOffset, digitBit);
      SetClearBit(digits, digitOffset, digitBit);
      var d: int := digits[digitOffset];
      digits := digits[digitOffset := d + Pow2(digitBit)];
    }
  }

  lemma Wider(x: Long, y: Long)
    requires x.Valid() && y.Valid() && x.width > y.width && (y.width > 0 || x.width < 0)
    ensures x.Value() > y.Value()
  {
    if y.width > 0 {
      WiderIsLarger(BASE, x.digits, y.digits);
    } else {
      WiderIsLarger(BASE, y.digits, x.digits);
    }
  }

  lemma Doubles(digit: Digit, carry: int)
    requires 0 <= carry <= 1
    ensures 2 * digit + carry == (2 * digit + carry) % BASE + BASE * (digit / (BASE / 2)) && digit / (BASE / 2) <= 1
    ensures digit / (BASE / 2) == 0 ==> (2 * digit + carry) % BASE >= digit
  {
  }

  lemma DoubleStep(w: nat, x: nat, carry: nat, low: nat, high: nat)
    requires 2 * x + carry == low + BASE * high
    ensures w * low + (BASE * w) * high == 2 * (w * x) + w * carry
  {
    Spread(BASE, w, low, high);
    assert w * (2 * x + carry) == 2 * (w * x) + w * carry;
  }

  lemma PowNone()
    ensures Pow2(0) == 1
  {
  }

  lemma BitsStep(digit: nat, c: nat, top: nat)
    requires 0 < digit && digit * Pow2(c) <= top < (digit + 1) * Pow2(c) && top < BASE
    ensures c < DIGIT_SHIFT
    ensures (digit / 2) * Pow2(c + 1) <= top < (digit / 2 + 1) * Pow2(c + 1)
    ensures digit / 2 == 0 ==> Pow2(c) <= top
  {
    if c >= DIGIT_SHIFT {
      Pow2Digit();
      Pow2Monotone(DIGIT_SHIFT, c);
    }
    HalveStep(digit, Pow2(c), top);
  }

  lemma HalveStep(digit: nat, p: nat, top: nat)
    requires 0 < digit && digit * p <= top < (digit + 1) * p
    ensures (digit / 2) * (2 * p) <= top < (digit / 2 + 1) * (2 * p) && p <= top
  {
    var h := digit / 2;
    MulLe(1, digit, p);
    MulLe(2 * h, digit, p);
    MulLe(digit + 1, 2 * h + 2, p);
    assert h * (2 * p) == (2 * h) * p && (h + 1) * (2 * p) == (2 * h + 2) * p;
  }

  /** The magnitude has as many bits as its top digit and the digits below. */
  lemma TopBits(ds: Digits, c: nat)
    requires ds != [] && c > 0 && Pow2(c - 1) <= ds[|ds| - 1] < Pow2(c)
    ensures var bits := c + (|ds| - 1) * DIGIT_SHIFT; Pow2(bits - 1) <= Mag(ds) < Pow2(bits)
  {
    hide Pow2, Weight;
    var n := |ds| - 1;
    var w, d: nat := Weight(BASE, n), ds[n];
    BitWeight(n, c);
    BitWeight(n, c - 1);
    BelowBound(BASE, ds, n);
    BelowNext(BASE, ds, n);
    MulLe(Pow2(c - 1), d, w);
    MulLe(d + 1, Pow2(c), w);
    assert w * (d + 1) == w * d + w;
  }

  lemma EvenDigit(ds: Digits)
    requires ds != [] && Mag(ds) % 2 == 0
    ensures ds[0] % 2 == 0
  {
    BelowFrom(BASE, ds, 1);
    assert Below(BASE, ds, 1) == ds[0] && Weight(BASE, 1) == BASE;
  }

  lemma SignProduct(x: int, y: int)
    ensures (-x) * y == -(x * y) && x * (-y) == -(x * y) && (-x) * (-y) == x * y
  {
  }

  /** A sum without a carry out has a nonzero top digit where the wider operand has one. */
  lemma SumTrimmed(sum: Digits, a: Digits, b: Digits)
    requires Trimmed(a) && Trimmed(b) && |sum| == (if |a| < |b| then |b| else |a|)
    requires Mag(sum) == Mag(a) + Mag(b)
    ensures Trimmed(sum)
  {
    if sum != [] && sum[|sum| - 1] == 0 {
      TrimmedBound(BASE, a);
      TrimmedBound(BASE, b);
      BelowBound(BASE, sum, |sum| - 1);
      assert false;
    }
  }

  // ----- division of magnitudes -----

  /** `q` and `r` are quotient and remainder of `m` by `d`. */
  ghost predicate Divides(m: nat, d: nat, q: nat, r: nat) {
    m == q * d + r && r < d
  }

  /** The single-digit case of _div_abs, from the top digit down; `a` becomes the quotient's digits. */
  method DivideByDigit(a: Digits, d: Digit) returns (q: Digits, remainder: nat)
    requires d > 0
    ensures |q| == |a| && Divides(Mag(a), d, Mag(q), remainder)
  {
    hide From, Magnitude;
    q := a;
    remainder := 0;
    var i: nat := |a|;
    FromEnd(BASE, a);
    FromEnd(BASE, q);
    while i > 0
      invariant i <= |a| == |q| && remainder < d
      invariant forall j | 0 <= j < i :: q[j] == a[j]
      invariant From(BASE, a, i) == From(BASE, q, i) * d + remainder
    {
      ghost var before, r0 := q, remainder;
      i := i - 1;
      var part: nat := remainder * BASE + q[i];
      assert part < 0x1_0000_0000_0000_0000;
      DigitQuotient(part, d, remainder, q[i]);
      var digit := part / d;
      remainder := part - digit * d;
      q := q[i := digit];
      FromSame(BASE, q, before, i + 1);
      FromNext(BASE, a, i);
      FromNext(BASE, q, i);
      ShortStep(a[i], From(BASE, a, i + 1), From(BASE, q, i + 1), d, r0, digit, remainder);
    }
    FromAll(BASE, a);
    FromAll(BASE, q);
  }

  lemma DigitQuotient(part: nat, d: Digit, r: nat, low: Digit)
    requires d > 0 && r < d && part == r * BASE + low
    ensures 0 <= part / d < BASE && 0 <= part - part / d * d < d
  {
    PartBound(part, d, r, low);
    QuotientBelow(part, d, BASE);
  }

  lemma PartBound(part: nat, d: nat, r: nat, low: nat)
    requires r < d && low < BASE && part == r * BASE + low
    ensures part < d * BASE
  {
  }

  lemma ShortStep(x: int, fa: int, fq: int, d: int, r0: int, digit: int, r: int)
    requires fa == fq * d + r0 && r0 * BASE + x == digit * d + r
    ensures x + BASE * fa == (digit + BASE * fq) * d + r
  {
    assert (digit + BASE * fq) * d == digit * d + BASE * (fq * d);
  }

  /** The binary long division of _div_abs, from the top bit down. */
  method DivideByBits(quot: Long, rem: Long, a: Long, b: Long)
    requires quot != rem && quot != b && rem != b && quot != a && rem != a && a.Valid() && b.Valid() && b.width > 0
    requires quot.width == 0 && rem.width == 0 && quot.Valid() && rem.Valid()
    modifies quot, rem
    ensures quot.Valid() && rem.Valid() && quot.width >= 0 && rem.width >= 0
    ensures Divides(Mag(a.digits), Mag(b.digits), Mag(quot.digits), Mag(rem.digits))
  {
    hide Pow2, Bit, Magnitude;
    var bits := a.BitsIn();
    ghost var m, d := Mag(a.digits), Mag(b.digits);
    ghost var q: nat := 0;
    NoDigits(BASE, quot.digits);
    NoDigits(BASE, rem.digits);
    Positive(BASE, b.digits);
    DivSmall(m, Pow2(bits));
    var i: nat := 0;
    while i < bits
      invariant i <= bits && quot.Sized() && rem.Valid() && quot.width >= 0 && rem.width >= 0
      invariant a.Valid() && b.Valid() && b.width > 0
      invariant Divides(Div(m, Pow2(bits - i)), d, q, Mag(rem.digits))
      invariant Mag(quot.digits) == q * Pow2(bits - i)
    {
      var at := bits - i - 1;
      NextBit(m, at);
      ghost var r0 := Mag(rem.digits);
      rem.LshiftOne();
      var isSet := a.BitIsSet(at);
      rem.BitSetZero(isSet);
      var c := rem.Compare(b);
      QuotientBit(Div(m, Pow2(at + 1)), d, q, r0, Bit(m, at));
      ClearBit(Mag(quot.digits), q, at);
      if c >= 0 {
        rem.SubBigSmall(rem, b);
        quot.BitSet(at);
        q := 2 * q + 1;
      } else {
        q := 2 * q;
      }
      i := i + 1;
    }
    AllBits(m, q);
    quot.Trim();
  }

  lemma DivSmall(m: nat, p: nat)
    requires m < p
    ensures Div(m, p) == 0
  {
    DivIs(m, p, 0, m);
  }

  /** One step of the schoolbook: bring down a bit, subtract if it fits. */
  lemma QuotientBit(top: nat, d: nat, q: nat, r: nat, bit: nat)
    requires Divides(top, d, q, r) && bit <= 1
    ensures if 2 * r + bit >= d then Divides(2 * top + bit, d, 2 * q + 1, 2 * r + bit - d)
            else Divides(2 * top + bit, d, 2 * q, 2 * r + bit)
  {
    assert (2 * q) * d == 2 * (q * d) && (2 * q + 1) * d == 2 * (q * d) + d;
  }

  /** A multiple of 2^(k+1) has bit `k` clear; with it set the quotient so far is 2q + 1. */
  lemma ClearBit(m: nat, q: nat, k: nat)
    requires m == q * Pow2(k + 1)
    ensures Bit(m, k) == 0 && m == (2 * q) * Pow2(k) && m + Pow2(k) == (2 * q + 1) * Pow2(k)
  {
    var p := Pow2(k);
    assert q * (2 * p) == (2 * q) * p && (2 * q + 1) * p == (2 * q) * p + p;
    assert p * (2 * q) == (2 * q) * p;
    DivIs(m, p, 2 * q, 0);
  }

  lemma AllBits(m: nat, q: nat)
    ensures Div(m, Pow2(0)) == m && q * Pow2(0) == q
  {
  }

  /** _div_abs: true when the divisor is zero; then both outputs are zero. */
  method DivAbs(quot: Long, rem: Long, a: Long, b: Long) returns (zero: bool)
    requires quot != rem && quot != a && quot != b && rem != a && rem != b
    requires quot.Sized() && rem.Sized() && a.Valid() && b.Valid()
    modifies quot, rem
    ensures quot.Valid() && rem.Valid() && quot.width >= 0 && rem.width >= 0
    ensures zero <==> b.width == 0
    ensures zero ==> quot.width == 0 && rem.width == 0
    ensures !zero ==>
      Divides(Mag(a.digits), Mag(b.digits), Mag(quot.digits), Mag(rem.digits))
  {
    hide Magnitude, Pow2;
    quot.Clear();
    rem.Clear();
    NoDigits(BASE, a.digits);
    NoDigits(BASE, quot.digits);
    OneDigit(BASE, b.digits);
    if b.width == 0 {
      return true;
    }
    Positive(BASE, b.digits);
    if a.width == 0 {
      return false;
    }
    if |b.digits| == 1 && b.digits[0] == 1 {
      quot.InitCopy(a);
      quot.SetSign(1);
      return false;
    }
    if |a.digits| < |b.digits| {
      rem.InitCopy(a);
      rem.SetSign(1);
      WiderIsLarger(BASE, b.digits, a.digits);
      return false;
    }
    if |b.digits| == 1 {
      var q, remainder := DivideByDigit(a.digits, b.digits[0]);
      rem.InitDigit(remainder);
      quot.width, quot.digits := |q|, q;
      quot.Trim();
      return false;
    }
    var absb := new Long(0, []);
    absb.InitCopy(b);
    absb.SetSign(1);
    DivideByBits(quot, rem, a, absb);
    return false;
  }

  // ----- floor division -----

  /** Python's division: the remainder is zero or has the divisor's sign, and is smaller than it. */
  ghost predicate Floors(a: int, b: int, q: int, r: int) {
    a == q * b + r && (r == 0 || (r < 0 <==> b < 0)) && Abs(r) < Abs(b)
  }

  /** It has one answer. */
  lemma FloorsUnique(a: int, b: int, q: int, r: int, q': int, r': int)
    requires Floors(a, b, q, r) && Floors(a, b, q', r')
    ensures q == q' && r == r'
  {
    assert (q - q') * b == r' - r;
    var k, d := Abs(q - q'), Abs(b);
    assert k * d == Abs((q - q') * b);
    if k >= 1 {
      MulLe(1, k, d);
    }
  }

  /** krk_long_div_rem; either output may be either input. True when the divisor is zero. */
  method DivRem(quot: Long, rem: Long, a: Long, b: Long) returns (zero: bool)
    requires quot != rem && quot.Sized() && rem.Sized() && a.Valid() && b.Valid()
    modifies quot, rem
    ensures quot.Valid() && rem.Valid() && (zero <==> old(b.Value()) == 0)
    ensures zero ==> quot.Value() == 0 && rem.Value() == 0
    ensures !zero ==> Floors(old(a.Value()), old(b.Value()), quot.Value(), rem.Value())
  {
    var q, r := quot, rem;
    if quot == a || quot == b {
      q := new Long(0, []);
    }
    if rem == a || rem == b {
      r := new Long(0, []);
    }
    zero := DivRemApart(q, r, a, b);
    if r != rem {
      rem.Swap(r);
    }
    if q != quot {
      quot.Swap(q);
    }
  }

  method DivRemApart(quot: Long, rem: Long, a: Long, b: Long) returns (zero: bool)
    requires quot != rem && quot != a && quot != b && rem != a && rem != b
    requires quot.Sized() && rem.Sized() && a.Valid() && b.Valid()
    modifies quot, rem
    ensures quot.Valid() && rem.Valid() && (zero <==> b.Value() == 0)
    ensures zero ==> quot.Value() == 0 && rem.Value() == 0
    ensures !zero ==> Floors(a.Value(), b.Value(), quot.Value(), rem.Value())
  {
    hide Magnitude;
    NoDigits(BASE, a.digits);
    NoDigits(BASE, b.digits);
    if b.digits != [] {
      Positive(BASE, b.digits);
    }
    zero := DivAbs(quot, rem, a, b);
    NoDigits(BASE, quot.digits);
    NoDigits(BASE, rem.digits);
    if zero {
      return;
    }
    ghost var q, r := Mag(quot.digits), Mag(rem.digits);
    Rounds(Mag(a.digits), Mag(b.digits), q, r);
    if rem.digits != [] {
      Positive(BASE, rem.digits);
    }
    if (a.width < 0) != (b.width < 0) {
      if rem.width != 0 {
        var one := new Long(1, [1]);
        OneDigit(BASE, one.digits);
        quot.Add(quot, one);
        rem.SubBigSmall(b, rem);
      }
      quot.SetSign(-1);
    }
    NoDigits(BASE, quot.digits);
    NoDigits(BASE, rem.digits);
    if b.width < 0 {
      rem.SetSign(-1);
    }
  }

  /** From the division of magnitudes to the signed one. */
  lemma Rounds(m: int, d: int, q: int, r: int)
    requires m >= 0 && d >= 0 && q >= 0 && r >= 0 && Divides(m, d, q, r)
    ensures Floors(m, d, q, r) && Floors(-m, -d, q, -r)
    ensures r == 0 ==> Floors(-m, d, -q, 0) && Floors(m, -d, -q, 0)
    ensures r > 0 ==> Floors(-m, d, -(q + 1), d - r) && Floors(m, -d, -(q + 1), -(d - r))
  {
    assert q * (-d) == -(q * d) && (-q) * d == -(q * d) && (-q) * (-d) == q * d;
    SignProduct(q + 1, d);
    assert (q + 1) * d == q * d + d;
  }

  // ----- the fast path for small integers (src/obj_numeric.c) -----

  /** _krk_int_div; None is the ZeroDivisionError. */
  function IntDiv(a: int, b: int): Option<int> {
    if b == 0 then None
    else if a == 0 then Some(0)
    else if (a < 0) != (b < 0) then Some(-1 - (Abs(a) - 1) / Abs(b))
    else Some(Abs(a) / Abs(b))
  }

  function IntMod(a: int, b: int): Option<int> {
    if b == 0 then None
    else if a == 0 then Some(0)
    else
      var res := if (a < 0) != (b < 0) then Abs(b) - 1 - (Abs(a) - 1) % Abs(b) else Abs(a) % Abs(b);
      Some(if b < 0 then -res else res)
  }

  lemma TowardsZero(m: nat, d: nat)
    requires d > 0
    ensures Divides(m, d, m / d, m % d)
  {
    assert m == m / d * d + m % d;
  }

  /** Rounding away from zero, from the division of one less. */
  lemma AwayFromZero(m: int, d: int, k: int, r: int)
    requires m > 0 && d > 0 && k >= 0 && r >= 0 && Divides(m - 1, d, k, r)
    ensures if r == d - 1 then Divides(m, d, k + 1, 0) else Divides(m, d, k, r + 1)
  {
    assert (k + 1) * d == k * d + d;
  }

  lemma UnlikeSigns(m: int, d: int, k: int, r: int)
    requires m > 0 && d > 0 && k >= 0 && r >= 0 && Divides(m - 1, d, k, r)
    ensures Floors(-m, d, -1 - k, d - 1 - r) && Floors(m, -d, -1 - k, -(d - 1 - r))
  {
    AwayFromZero(m, d, k, r);
    hide Floors, Divides;
    if r == d - 1 {
      Rounds(m, d, k + 1, 0);
    } else {
      Rounds(m, d, k, r + 1);
    }
  }

  lemma LikeSigns(m: int, d: int)
    requires d > 0 && m >= 0
    ensures Floors(m, d, m / d, m % d) && Floors(-m, -d, m / d, -(m % d))
  {
    hide Floors, Divides;
    TowardsZero(m, d);
    Rounds(m, d, m / d, m % d);
  }

  /** The fast path answers as the long division does. */
  lemma IntFloors(a: int, b: int)
    requires b != 0
    ensures Floors(a, b, IntDiv(a, b).value, IntMod(a, b).value)
  {
    if a == 0 {
      assert 0 * b == 0;
    } else if (a < 0) != (b < 0) {
      hide Floors, Divides;
      var m, d := Abs(a) - 1, Abs(b);
      TowardsZero(m, d);
      UnlikeSigns(m + 1, d, m / d, m % d);
    } else {
      hide Floors;
      LikeSigns(Abs(a), Abs(b));
    }
  }

  /** So whichever path computes a quotient and a remainder, they are the same. */
  lemma PathsAgree(a: int, b: int, q: int, r: int)
    requires Floors(a, b, q, r) && b != 0
    ensures IntDiv(a, b) == Some(q) && IntMod(a, b) == Some(r)
  {
    IntFloors(a, b);
    FloorsUnique(a, b, q, r, IntDiv(a, b).value, IntMod(a, b).value);
  }

  lemma NonNegative(x: Long)
    requires x.Valid() && x.Value() >= 0
    ensures x.width >= 0 && Mag(x.digits) == x.Value()
  {
    if x.width < 0 {
      Positive(BASE, x.digits);
    }
  }
}
