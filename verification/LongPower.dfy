/** Powers: the left-to-right binary exponentiation of src/obj_long.c. */
module LongPower {
  import opened Arith
  import opened LongDigits
  import opened Longs
  import opened Positional

  function Power(x: int, n: nat): int {
    if n == 0 then 1 else x * Power(x, n - 1)
  }

  lemma {:induction false} PowerAdd(x: int, m: nat, n: nat)
    ensures Power(x, m + n) == Power(x, m) * Power(x, n)
    decreases m
  {
    if m > 0 {
      PowerAdd(x, m - 1, n);
      assert x * (Power(x, m - 1) * Power(x, n)) == (x * Power(x, m - 1)) * Power(x, n);
    }
  }

  /** Squaring, and a multiplication more for a bit that is set, carries a power from e to 2e + bit. */
  lemma PowerBit(x: int, e: nat, bit: nat)
    requires bit <= 1
    ensures Power(x, 2 * e + bit) == Power(x, e) * Power(x, e) * (if bit == 1 then x else 1)
  {
    PowerAdd(x, e, e);
    if bit == 1 {
      assert Power(x, 2 * e + 1) == x * Power(x, 2 * e);
    }
  }

  lemma AboveAll(ds: Digits)
    ensures Div(Mag(ds), Pow2(DIGIT_SHIFT * |ds|)) == 0
  {
    WeightIsPow2(|ds|);
    DivSmall(Mag(ds), Pow2(DIGIT_SHIFT * |ds|));
  }

  /** _krk_long_pow: it raises for a negative exponent, leaving the output alone. */
  method Pow(out: Long, a: Long, b: Long) returns (raised: bool)
    requires out.Sized() && a.Valid() && b.Valid()
    modifies out
    ensures raised <==> old(b.Value()) < 0
    ensures raised ==> out.width == old(out.width) && out.digits == old(out.digits)
    ensures !raised ==> out.Valid() && out.Value() == Power(old(a.Value()), old(b.Value()))
  {
    hide Magnitude, Power;
    NoDigits(BASE, b.digits);
    MagPositive(b.digits);
    if b.width == 0 {
      PowerZero(a.Value());
      out.Clear();
      out.InitDigit(1);
      return false;
    }
    if b.width < 0 {
      return true;
    }
    if out == a || out == b {
      var tmp := new Long(0, []);
      PowApart(tmp, a, b);
      out.Swap(tmp);
    } else {
      PowApart(out, a, b);
    }
    raised := false;
  }

  lemma PowerZero(x: int)
    ensures Power(x, 0) == 1
  {
  }

  method PowApart(out: Long, a: Long, b: Long)
    requires out.Sized() && a.Valid() && b.Valid() && b.width > 0 && out != a && out != b
    modifies out
    ensures out.Valid() && out.Value() == Power(a.Value(), b.Value())
  {
    hide Pow2, Bit, Magnitude, Power;
    out.Clear();
    out.InitDigit(1);
    var scratch := new Long(0, []);
    ghost var x, m, n := a.Value(), Mag(b.digits), |b.digits|;
    PowerZero(x);
    AboveAll(b.digits);
    var i: nat := |b.digits|;
    while i > 0
      invariant i <= n == |b.digits| && m == Mag(b.digits) && a.Valid() && b.Valid() && b.width > 0 && a.Value() == x
      invariant fresh(scratch) && scratch != out && scratch.Sized() && out.Valid()
      invariant out.Value() == Power(x, Div(m, Pow2(DIGIT_SHIFT * i)))
    {
      i := i - 1;
      var digit := b.digits[i];
      var j: nat := DIGIT_SHIFT;
      while j > 0
        invariant j <= DIGIT_SHIFT && i < n == |b.digits| && b.digits[i] == digit
        invariant m == Mag(b.digits) && a.Valid() && b.Valid() && b.width > 0 && a.Value() == x
        invariant fresh(scratch) && scratch != out && scratch.Sized() && out.Valid()
        invariant out.Value() == Power(x, Div(m, Pow2(DIGIT_SHIFT * i + j)))
      {
        j := j - 1;
        ghost var at := DIGIT_SHIFT * i + j;
        ghost var e := Div(m, Pow2(at + 1));
        NextBit(m, at);
        DigitBit(b.digits, i, j);
        PowerBit(x, e, Bit(m, at));
        scratch.Mul(out, out);
        out.Swap(scratch);
        if Bit(digit, j) == 1 {
          out.Mul(out, a);
        }
      }
    }
    AllBits(m, 0);
  }
}
