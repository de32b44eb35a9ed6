/** The 31-bit digits of src/obj_long.c and the bits in them. */
module LongDigits {
  import opened Arith
  import opened Positional

  const DIGIT_SHIFT := 31
  const BASE := 0x8000_0000

  type Digit = d: int | 0 <= d < BASE

  type Digits = seq<Digit>

  /** The absolute value digits stand for. */
  function Mag(ds: Digits): (m: nat)
    ensures m < Weight(BASE, |ds|)
  {
    MagnitudeBound(BASE, ds);
    Magnitude(BASE, ds)
  }

  lemma MagFrom(ds: Digits)
    ensures Mag(ds) == From(BASE, ds, 0)
  {
    FromAll(BASE, ds);
  }

  lemma MagNone(ds: Digits)
    ensures ds == [] ==> Mag(ds) == 0
  {
  }

  lemma MagOne(ds: Digits)
    requires |ds| == 1
    ensures Mag(ds) == ds[0]
  {
    OneDigit(BASE, ds);
  }

  lemma MagPositive(ds: Digits)
    requires Trimmed(ds)
    ensures ds != [] ==> Mag(ds) > 0
  {
    if ds != [] {
      Positive(BASE, ds);
    }
  }

  // ----- bits -----

  lemma {:induction false} WeightIsPow2(i: nat)
    ensures Weight(BASE, i) == Pow2(DIGIT_SHIFT * i)
    decreases i
  {
    if i > 0 {
      WeightIsPow2(i - 1);
      Pow2Add(DIGIT_SHIFT, DIGIT_SHIFT * (i - 1));
      Pow2Digit();
    }
  }

  lemma Pow2Digit()
    ensures Pow2(DIGIT_SHIFT) == BASE
  {
    assert Pow2(8) == 256;
    Pow2Add(8, 8);
    Pow2Add(16, 8);
    assert Pow2(7) == 128;
    Pow2Add(24, 7);
  }

  lemma BitWeight(o: nat, j: nat)
    ensures Pow2(DIGIT_SHIFT * o + j) == Weight(BASE, o) * Pow2(j)
  {
    Pow2Add(DIGIT_SHIFT * o, j);
    WeightIsPow2(o);
  }

  /** A bit of the magnitude is a bit of one digit. */
  lemma DigitBit(ds: Digits, o: nat, j: nat)
    requires o < |ds| && j < DIGIT_SHIFT
    ensures Bit(Mag(ds), DIGIT_SHIFT * o + j) == Bit(ds[o], j)
  {
    hide Pow2, Weight, Below, From;
    var w, p, d, f := Weight(BASE, o), Pow2(j), ds[o], From(BASE, ds, o + 1);
    FromNonNegative(BASE, ds, o);
    FromNonNegative(BASE, ds, o + 1);
    FromNext(BASE, ds, o);
    BitWeight(o, j);
    BelowFrom(BASE, ds, o);
    BelowBound(BASE, ds, o);
    DivNested(Below(BASE, ds, o), w, From(BASE, ds, o), p);
    LowBits(d, f, j);
  }

  lemma BaseSplit(j: nat) returns (e: nat)
    requires j < DIGIT_SHIFT
    ensures e >= 1 && Pow2(j) * (2 * e) == BASE
  {
    e := Pow2(DIGIT_SHIFT - j - 1);
    Pow2Add(j, DIGIT_SHIFT - j);
    Pow2Digit();
  }

  lemma HighPart(d: nat, p: nat, e: nat, f: nat)
    requires p > 0
    ensures ((d + (p * (2 * e)) * f) / p) % 2 == (d / p) % 2
  {
    var q, r, g := d / p, d % p, e * f;
    assert d == p * q + r;
    assert (p * (2 * e)) * f == p * (2 * g) by { assert (2 * e) * f == 2 * g; assert (p * (2 * e)) * f == p * ((2 * e) * f); }
    assert p * (q + 2 * g) == p * q + p * (2 * g);
    DivIs(d + (p * (2 * e)) * f, p, q + 2 * g, r);
  }

  /** Higher digits do not reach bit `j` of a lower one. */
  lemma LowBits(d: nat, f: nat, j: nat)
    requires j < DIGIT_SHIFT
    ensures Bit(d + BASE * f, j) == Bit(d, j)
  {
    hide Pow2;
    var e := BaseSplit(j);
    HighPart(d, Pow2(j), e, f);
  }

  lemma RoomForBit(d: nat, p: nat, e: nat)
    requires p > 0 && d < p * (2 * e) && (d / p) % 2 == 0
    ensures d + p < p * (2 * e)
  {
    var q, r := d / p, d % p;
    assert d == p * q + r;
    if q >= 2 * e {
      MulLe(2 * e, q, p);
    }
    assert q + 2 <= 2 * e;
    MulLe(q + 2, 2 * e, p);
    assert p * (q + 2) == p * q + 2 * p;
  }

  /** Setting a clear bit adds its weight and stays within the digit. */
  lemma SetClearBit(ds: Digits, o: nat, j: nat)
    requires o < |ds| && j < DIGIT_SHIFT && Bit(ds[o], j) == 0
    ensures ds[o] + Pow2(j) < BASE
    ensures Mag(ds[o := ds[o] + Pow2(j)]) == Mag(ds) + Pow2(DIGIT_SHIFT * o + j)
  {
    hide Pow2, Magnitude, Weight;
    var e := BaseSplit(j);
    RoomForBit(ds[o], Pow2(j), e);
    BitWeight(o, j);
    AddAt(BASE, ds, o, Pow2(j));
  }
}
