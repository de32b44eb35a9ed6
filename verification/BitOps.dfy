/** Bitwise operators on longs (do_bin_op of src/obj_long.c) as operators on infinite two's-complement integers. */
module BitOps {
  import opened Arith
  import opened Positional
  import opened LongDigits
  import opened Longs

  datatype BinOp = Or | Xor | And

  function OpBit(op: BinOp, x: nat, y: nat): (r: nat)
    requires x <= 1 && y <= 1
    ensures r <= 1
  {
    match op
    case Or => if x == 1 || y == 1 then 1 else 0
    case Xor => if x != y then 1 else 0
    case And => if x == 1 && y == 1 then 1 else 0
  }

  /** Bit `k` of an integer in two's complement, which has infinitely many. */
  function TwosBit(x: int, k: nat): (b: nat)
    ensures b <= 1
  {
    x / Pow2(k) % 2
  }

  ghost predicate IsBitOp(op: BinOp, a: int, b: int, r: int) {
    forall k: nat :: TwosBit(r, k) == OpBit(op, TwosBit(a, k), TwosBit(b, k))
  }

  /** Bit by bit, with numbers for bits: or is the sum less the product. */
  ghost predicate IsOr(a: int, b: int, r: int) {
    forall k: nat :: TwosBit(r, k) == TwosBit(a, k) + TwosBit(b, k) - TwosBit(a, k) * TwosBit(b, k)
  }

  /** Xor is the sum without its carry. */
  ghost predicate IsXor(a: int, b: int, r: int) {
    forall k: nat :: TwosBit(r, k) == (TwosBit(a, k) + TwosBit(b, k)) % 2
  }

  /** And is the product. */
  ghost predicate IsAnd(a: int, b: int, r: int) {
    forall k: nat :: TwosBit(r, k) == TwosBit(a, k) * TwosBit(b, k)
  }

  ghost predicate IsOp(op: BinOp, a: int, b: int, r: int) {
    match op
    case Or => IsOr(a, b, r)
    case Xor => IsXor(a, b, r)
    case And => IsAnd(a, b, r)
  }

  lemma OpMeans(op: BinOp, a: int, b: int, r: int)
    requires IsBitOp(op, a, b, r)
    ensures IsOp(op, a, b, r)
  {
    hide TwosBit;
    forall k: nat
      ensures op == Or ==> TwosBit(r, k) == TwosBit(a, k) + TwosBit(b, k) - TwosBit(a, k) * TwosBit(b, k)
      ensures op == Xor ==> TwosBit(r, k) == (TwosBit(a, k) + TwosBit(b, k)) % 2
      ensures op == And ==> TwosBit(r, k) == TwosBit(a, k) * TwosBit(b, k)
    {
      var x, y := TwosBit(a, k), TwosBit(b, k);
      assert TwosBit(r, k) == OpBit(op, x, y);
      assert x == 0 || x == 1;
      assert y == 0 || y == 1;
    }
  }

  /** The machine's operator on the low `n` bits of two words. */
  function WordOp(op: BinOp, x: nat, y: nat, n: nat): nat {
    if n == 0 then 0 else OpBit(op, x % 2, y % 2) + 2 * WordOp(op, x / 2, y / 2, n - 1)
  }

  lemma {:induction false} WordOpBits(op: BinOp, x: nat, y: nat, n: nat, k: nat)
    requires k < n
    ensures WordOp(op, x, y, n) < Pow2(n)
    ensures Bit(WordOp(op, x, y, n), k) == OpBit(op, Bit(x, k), Bit(y, k))
    decreases n
  {
    var w := WordOp(op, x / 2, y / 2, n - 1);
    WordOpBound(op, x / 2, y / 2, n - 1);
    if k == 0 {
      Lowest(x);
      Lowest(y);
      Lowest(WordOp(op, x, y, n));
    } else {
      WordOpBits(op, x / 2, y / 2, n - 1, k - 1);
      BitAbove(x, k);
      BitAbove(y, k);
      BitAbove(WordOp(op, x, y, n), k);
      assert WordOp(op, x, y, n) / 2 == w;
    }
  }

  lemma {:induction false} WordOpBound(op: BinOp, x: nat, y: nat, n: nat)
    ensures WordOp(op, x, y, n) < Pow2(n)
    decreases n
  {
    if n > 0 {
      WordOpBound(op, x / 2, y / 2, n - 1);
    }
  }

  lemma Lowest(x: nat)
    ensures Bit(x, 0) == x % 2
  {
    PowNone();
    DivIs(x, 1, x, 0);
  }

  lemma BitAbove(x: nat, k: nat)
    requires k > 0
    ensures Bit(x, k) == Bit(x / 2, k - 1)
  {
    DivNested(x % 2, 2, x / 2, Pow2(k - 1));
    assert x % 2 + 2 * (x / 2) == x;
  }

  // ----- two's complement in a fixed number of bits -----

  /** `x` in `n` bits. */
  function Wrapped(x: int, n: nat): int {
    if x < 0 then x + Pow2(n) else x
  }

  ghost predicate FitsIn(x: int, n: nat) {
    n > 0 && 0 <= x + Pow2(n - 1) && x < Pow2(n - 1)
  }

  lemma WrappedBit(x: int, n: nat, k: nat)
    requires FitsIn(x, n) && k < n
    ensures Wrapped(x, n) >= 0 && Bit(Wrapped(x, n), k) == TwosBit(x, k)
  {
    hide Pow2;
    HalfPow(n);
    if x < 0 {
      Pow2Add(k, n - k);
      HalfPow(n - k);
      EvenShift(x, Pow2(k), Pow2(n - k - 1));
    }
  }

  lemma HalfPow(n: nat)
    requires n > 0
    ensures Pow2(n) == 2 * Pow2(n - 1)
  {
  }

  lemma EvenShift(x: int, p: nat, e: nat)
    requires p > 0
    ensures (x + p * (2 * e)) / p % 2 == x / p % 2
  {
    var q, r := x / p, x % p;
    assert x == p * q + r;
    assert p * (q + 2 * e) == p * q + p * (2 * e);
    DivIs(x + p * (2 * e), p, q + 2 * e, r);
  }

  /** Beyond what it fits in, and at the last bit, a number only has its sign. */
  lemma SignBit(x: int, n: nat, k: nat)
    requires FitsIn(x, n) && k >= n - 1
    ensures TwosBit(x, k) == if x < 0 then 1 else 0
  {
    hide Pow2;
    var p := Pow2(k);
    Pow2Monotone(n - 1, k);
    if x < 0 {
      DivIs(x, p, -1, x + p);
    } else {
      DivIs(x, p, 0, x);
    }
  }

  /** The operator on `n` bits of two numbers that fit, and its sign, give the operator on the numbers. */
  lemma FromWords(op: BinOp, a: int, b: int, r: int, n: nat, word: nat)
    requires FitsIn(a, n) && FitsIn(b, n) && word < Pow2(n)
    requires Wrapped(a, n) >= 0 && Wrapped(b, n) >= 0
    requires forall k | 0 <= k < n :: Bit(word, k) == OpBit(op, Bit(Wrapped(a, n), k), Bit(Wrapped(b, n), k))
    requires r == if OpBit(op, if a < 0 then 1 else 0, if b < 0 then 1 else 0) == 1 then word - Pow2(n) else word
    ensures IsBitOp(op, a, b, r)
  {
    hide Pow2, Bit, TwosBit;
    HalfPow(n);
    var sign := OpBit(op, if a < 0 then 1 else 0, if b < 0 then 1 else 0);
    WrappedBit(a, n, n - 1);
    WrappedBit(b, n, n - 1);
    SignBit(a, n, n - 1);
    SignBit(b, n, n - 1);
    TopBit(word, n);
    assert FitsIn(r, n) && Wrapped(r, n) == word;
    forall k: nat ensures TwosBit(r, k) == OpBit(op, TwosBit(a, k), TwosBit(b, k)) {
      if k < n {
        WrappedBit(a, n, k);
        WrappedBit(b, n, k);
        WrappedBit(r, n, k);
      } else {
        SignBit(a, n, k);
        SignBit(b, n, k);
        SignBit(r, n, k);
      }
    }
  }

  lemma TopBit(word: nat, n: nat)
    requires n > 0 && word < Pow2(n)
    ensures Bit(word, n - 1) == 1 <==> word >= Pow2(n - 1)
  {
    HalfPow(n);
    var p := Pow2(n - 1);
    if word >= p {
      DivIs(word, p, 1, word - p);
    } else {
      DivIs(word, p, 0, word);
    }
  }

  /** An integer is determined by its bits. */
  lemma {:induction false} BitsDetermine(x: int, y: int)
    requires forall k: nat :: TwosBit(x, k) == TwosBit(y, k)
    ensures x == y
    decreases Abs(x) + Abs(y)
  {
    LowTwosBit(x);
    LowTwosBit(y);
    if (x == 0 || x == -1) && (y == 0 || y == -1) {
    } else {
      forall k: nat ensures TwosBit(x / 2, k) == TwosBit(y / 2, k) {
        HalfTwosBit(x, k);
        HalfTwosBit(y, k);
      }
      BitsDetermine(x / 2, y / 2);
    }
  }

  lemma LowTwosBit(x: int)
    ensures TwosBit(x, 0) == x % 2
  {
    PowNone();
    DivIs(x, 1, x, 0);
  }

  lemma HalfTwosBit(x: int, k: nat)
    ensures TwosBit(x / 2, k) == TwosBit(x, k + 1)
  {
    hide Pow2;
    HalfPow(k + 1);
    var p := Pow2(k);
    var h := x / 2;
    var q, r := h / p, h % p;
    assert h == p * q + r && x == 2 * h + x % 2;
    assert 2 * p * q == 2 * (p * q);
    DivIs(x, 2 * p, q, 2 * r + x % 2);
  }

  lemma BitOpUnique(op: BinOp, a: int, b: int, r: int, s: int)
    requires IsBitOp(op, a, b, r) && IsBitOp(op, a, b, s)
    ensures r == s
  {
    BitsDetermine(r, s);
  }

  // ----- digit by digit -----

  const DIGIT_MAX := BASE - 1

  /** The first `i` two's-complement digits of a number with magnitude `m`, and the carry into the next. */
  ghost predicate Complemented(neg: bool, m: Digits, ds: Digits, i: nat, carry: nat) {
    && |ds| >= i && carry <= 1
    && Below(BASE, ds, i) + Weight(BASE, i) * carry
       == (if neg then Weight(BASE, i) - Below(BASE, m, i) else Below(BASE, m, i))
    && (!neg ==> carry == 0)
  }

  lemma ComplementStart(neg: bool, m: Digits, ds: Digits)
    ensures Complemented(neg, m, ds, 0, if neg then 1 else 0)
  {
    BelowNone(BASE, m);
    BelowNone(BASE, ds);
  }

  /** One digit: inverted with the carry added, if the number is negative. */
  lemma ComplementStep(neg: bool, m: Digits, ds: Digits, i: nat, carry: nat, out: nat)
    requires Complemented(neg, m, ds, i, carry) && |ds| > i
    requires out == (if neg then DIGIT_MAX - At(m, i) + carry else At(m, i)) && ds[i] == out % BASE
    ensures Complemented(neg, m, ds, i + 1, out / BASE)
  {
    hide Below, Weight;
    var w := Weight(BASE, i);
    BelowNext(BASE, m, i);
    BelowNext(BASE, ds, i);
    Spread(BASE, w, out % BASE, out / BASE);
    if neg {
      assert w * (DIGIT_MAX - At(m, i) + carry) == BASE * w - w - w * At(m, i) + w * carry;
    }
  }

  /** With room for one more digit than the number has, nothing is carried out. */
  lemma ComplementEnd(neg: bool, m: Digits, ds: Digits, carry: nat)
    requires Complemented(neg, m, ds, |ds|, carry) && |m| <= |ds| && (neg ==> Mag(m) > 0)
    ensures Mag(ds) == if neg then Weight(BASE, |ds|) - Mag(m) else Mag(m)
  {
    hide Below, Weight;
    BelowAll(BASE, m, |ds|);
    BelowBound(BASE, ds, |ds|);
    var w := Weight(BASE, |ds|);
    assert w * 1 == w && w * 0 == 0;
  }

  /** The operator applied digit by digit is the operator on the whole words. */
  lemma DigitsOp(op: BinOp, a: Digits, b: Digits, r: Digits, k: nat)
    requires |a| == |b| == |r| && k < DIGIT_SHIFT * |r|
    requires forall i | 0 <= i < |r| :: r[i] == WordOp(op, a[i], b[i], DIGIT_SHIFT)
    ensures Bit(Mag(r), k) == OpBit(op, Bit(Mag(a), k), Bit(Mag(b), k))
  {
    hide Mag, Bit, WordOp;
    var o, j := k / DIGIT_SHIFT, k % DIGIT_SHIFT;
    assert DIGIT_SHIFT * o + j == k;
    DigitBit(a, o, j);
    DigitBit(b, o, j);
    DigitBit(r, o, j);
    WordOpBits(op, a[o], b[o], DIGIT_SHIFT, j);
  }

  function Negative(op: BinOp, aneg: bool, bneg: bool): bool {
    OpBit(op, if aneg then 1 else 0, if bneg then 1 else 0) == 1
  }

  /** do_bin_op, into an output that is neither operand. */
  method DoBinOp(res: Long, a: Long, b: Long, op: BinOp)
    requires res != a && res != b && res.Sized() && a.Valid() && b.Valid()
    modifies res
    ensures res.Valid() && IsBitOp(op, a.Value(), b.Value(), res.Value()) && IsOp(op, a.Value(), b.Value(), res.Value())
  {
    hide Mag, WordOp, Complemented, IsBitOp, FitsIn, Wrapped, Negative, OpBit, Pow2, Weight, Below, IsOp;
    var owidth := (if |a.digits| > |b.digits| then |a.digits| else |b.digits|) + 1;
    var aneg, bneg := a.width < 0, b.width < 0;
    var rneg := Negative(op, aneg, bneg);
    res.Resize(owidth);
    var acarry: nat, bcarry: nat, rcarry: nat := if aneg then 1 else 0, if bneg then 1 else 0, if rneg then 1 else 0;
    ghost var x: Digits, y: Digits, z: Digits := seq(owidth, _ => 0), seq(owidth, _ => 0), seq(owidth, _ => 0);
    ComplementStart(aneg, a.digits, x);
    ComplementStart(bneg, b.digits, y);
    ComplementStart(rneg, z, res.digits);
    var i: nat := 0;
    while i < owidth
      invariant i <= owidth == |x| == |y| == |z| && res.Sized() && res.width == owidth
      invariant Complemented(aneg, a.digits, x, i, acarry) && Complemented(bneg, b.digits, y, i, bcarry)
      invariant Complemented(rneg, z, res.digits, i, rcarry)
      invariant forall j | 0 <= j < i :: z[j] == WordOp(op, x[j], y[j], DIGIT_SHIFT)
    {
      CarryIn(aneg, a.digits, x, i, acarry);
      CarryIn(bneg, b.digits, y, i, bcarry);
      CarryIn(rneg, z, res.digits, i, rcarry);
      var aDigit: int := At(a.digits, i);
      if aneg {
        aDigit := DIGIT_MAX - aDigit + acarry;
      }
      var bDigit: int := At(b.digits, i);
      if bneg {
        bDigit := DIGIT_MAX - bDigit + bcarry;
      }
      WordOpBound(op, aDigit % BASE, bDigit % BASE, DIGIT_SHIFT);
      Pow2Digit();
      var r: int := WordOp(op, aDigit % BASE, bDigit % BASE, DIGIT_SHIFT);
      ComplementPut(aneg, a.digits, x, i, acarry, aDigit);
      ComplementPut(bneg, b.digits, y, i, bcarry, bDigit);
      ghost var z0 := z;
      x, y, z := x[i := aDigit % BASE], y[i := bDigit % BASE], z[i := r];
      Extended(rneg, z0, z, res.digits, i, rcarry);
      if rneg {
        r := DIGIT_MAX - r + rcarry;
      }
      ComplementPut(rneg, z, res.digits, i, rcarry, r);
      res.digits := res.digits[i := r % BASE];
      acarry, bcarry, rcarry := aDigit / BASE, bDigit / BASE, r / BASE;
      i := i + 1;
    }
    NumberOf(a, x, owidth, acarry);
    NumberOf(b, y, owidth, bcarry);
    SignOf(a);
    SignOf(b);
    WordOf(op, a.Value(), b.Value(), x, y, z, owidth);
    ComplementEnd(rneg, z, res.digits, rcarry);
    res.Trim();
    if rneg {
      res.SetSign(-1);
    }
    Result(op, a.Value(), b.Value(), x, y, z, owidth, res.Value());
    OpMeans(op, a.Value(), b.Value(), res.Value());
  }

  lemma SignOf(a: Long)
    requires a.Valid()
    ensures a.width < 0 <==> a.Value() < 0
  {
    MagPositive(a.digits);
  }

  lemma CarryIn(neg: bool, m: Digits, ds: Digits, i: nat, carry: nat)
    requires Complemented(neg, m, ds, i, carry)
    ensures carry <= 1 && (!neg ==> carry == 0)
  {
  }

  lemma ComplementPut(neg: bool, m: Digits, ds: Digits, i: nat, carry: nat, out: int)
    requires Complemented(neg, m, ds, i, carry) && i < |ds|
    requires out == (if neg then DIGIT_MAX - At(m, i) + carry else At(m, i))
    ensures 0 <= out / BASE && Complemented(neg, m, ds[i := out % BASE], i + 1, out / BASE)
  {
    BelowPut(BASE, ds, i, out % BASE);
    ComplementStep(neg, m, ds[i := out % BASE], i, carry, out);
  }

  lemma Extended(neg: bool, m: Digits, m': Digits, ds: Digits, i: nat, carry: nat)
    requires Complemented(neg, m, ds, i, carry) && forall j | 0 <= j < i :: At(m', j) == At(m, j)
    ensures Complemented(neg, m', ds, i, carry)
  {
    BelowSame(BASE, m, m', i);
  }

  /** The complemented digits of an operand are the operand in that many bits, which it fits. */
  lemma NumberOf(a: Long, x: Digits, owidth: nat, carry: nat)
    requires a.Valid() && |a.digits| < owidth == |x| && Complemented(a.width < 0, a.digits, x, owidth, carry)
    ensures FitsIn(a.Value(), DIGIT_SHIFT * owidth) && Mag(x) == Wrapped(a.Value(), DIGIT_SHIFT * owidth)
  {
    hide Mag, Pow2, Weight;
    var n := DIGIT_SHIFT * owidth;
    MagPositive(a.digits);
    ComplementEnd(a.width < 0, a.digits, x, carry);
    WeightIsPow2(owidth);
    WeightIsPow2(owidth - 1);
    WeightMonotone(BASE, |a.digits|, owidth - 1);
    Pow2Monotone(DIGIT_SHIFT * (owidth - 1), n - 1);
    HalfPow(n);
  }

  lemma WordOf(op: BinOp, a: int, b: int, x: Digits, y: Digits, z: Digits, owidth: nat)
    requires owidth > 0 && |x| == |y| == |z| == owidth
    requires forall i | 0 <= i < |z| :: z[i] == WordOp(op, x[i], y[i], DIGIT_SHIFT)
    requires FitsIn(a, DIGIT_SHIFT * owidth) && Mag(x) == Wrapped(a, DIGIT_SHIFT * owidth)
    requires FitsIn(b, DIGIT_SHIFT * owidth) && Mag(y) == Wrapped(b, DIGIT_SHIFT * owidth)
    ensures Negative(op, a < 0, b < 0) ==> Mag(z) > 0
  {
    hide Mag, Pow2, WordOp, Bit, TwosBit;
    var n := DIGIT_SHIFT * owidth;
    DigitsOp(op, x, y, z, n - 1);
    WrappedBit(a, n, n - 1);
    WrappedBit(b, n, n - 1);
    SignBit(a, n, n - 1);
    SignBit(b, n, n - 1);
    WeightIsPow2(owidth);
    TopBit(Mag(z), n);
  }

  lemma Result(op: BinOp, a: int, b: int, x: Digits, y: Digits, z: Digits, owidth: nat, r: int)
    requires owidth > 0 && |x| == |y| == |z| == owidth
    requires forall i | 0 <= i < |z| :: z[i] == WordOp(op, x[i], y[i], DIGIT_SHIFT)
    requires FitsIn(a, DIGIT_SHIFT * owidth) && Mag(x) == Wrapped(a, DIGIT_SHIFT * owidth)
    requires FitsIn(b, DIGIT_SHIFT * owidth) && Mag(y) == Wrapped(b, DIGIT_SHIFT * owidth)
    requires r == if Negative(op, a < 0, b < 0) then Mag(z) - Weight(BASE, owidth) else Mag(z)
    ensures IsBitOp(op, a, b, r)
  {
    hide Mag, Pow2, WordOp, Bit, TwosBit, Weight, IsBitOp;
    var n := DIGIT_SHIFT * owidth;
    WeightIsPow2(owidth);
    forall k | 0 <= k < n ensures Bit(Mag(z), k) == OpBit(op, Bit(Mag(x), k), Bit(Mag(y), k)) {
      DigitsOp(op, x, y, z, k);
    }
    FromWords(op, a, b, r, n, Mag(z));
  }

  /** krk_long_or. */
  method BitOr(res: Long, a: Long, b: Long)
    requires res.Sized() && a.Valid() && b.Valid()
    modifies res
    ensures res.Valid() && IsOr(old(a.Value()), old(b.Value()), res.Value())
  {
    hide IsBitOp, IsOr, IsXor, IsAnd;
    var out := res;
    if res == a || res == b {
      out := new Long(0, []);
    }
    ZeroOperand(a, b);
    if a.width == 0 {
      out.Clear();
      out.InitCopy(b);
    } else if b.width == 0 {
      out.Clear();
      out.InitCopy(a);
    } else {
      DoBinOp(out, a, b, Or);
    }
    if out != res {
      res.Swap(out);
    }
  }

  /** krk_long_xor. */
  method BitXor(res: Long, a: Long, b: Long)
    requires res.Sized() && a.Valid() && b.Valid()
    modifies res
    ensures res.Valid() && IsXor(old(a.Value()), old(b.Value()), res.Value())
  {
    hide IsBitOp, IsOr, IsXor, IsAnd;
    var out := res;
    if res == a || res == b {
      out := new Long(0, []);
    }
    DoBinOp(out, a, b, Xor);
    if out != res {
      res.Swap(out);
    }
  }

  /** krk_long_and. */
  method BitAnd(res: Long, a: Long, b: Long)
    requires res.Sized() && a.Valid() && b.Valid()
    modifies res
    ensures res.Valid() && IsAnd(old(a.Value()), old(b.Value()), res.Value())
  {
    hide IsBitOp, IsOr, IsXor, IsAnd;
    var out := res;
    if res == a || res == b {
      out := new Long(0, []);
    }
    ZeroOperand(a, b);
    if a.width == 0 {
      out.Clear();
      out.InitCopy(a);
    } else if b.width == 0 {
      out.Clear();
      out.InitCopy(b);
    } else {
      DoBinOp(out, a, b, And);
    }
    if out != res {
      res.Swap(out);
    }
  }

  /** A zero operand decides `or` and `and` at once. */
  lemma ZeroOperand(a: Long, b: Long)
    requires a.Valid() && b.Valid()
    ensures a.width == 0 ==> IsOr(a.Value(), b.Value(), b.Value()) && IsAnd(a.Value(), b.Value(), a.Value())
    ensures b.width == 0 ==> IsOr(a.Value(), b.Value(), a.Value()) && IsAnd(a.Value(), b.Value(), b.Value())
  {
    hide TwosBit;
    MagNone(a.digits);
    MagNone(b.digits);
    forall k: nat ensures TwosBit(0, k) == 0 {
      ZeroBit(k);
    }
  }

  lemma ZeroBit(k: nat)
    ensures TwosBit(0, k) == 0
  {
    DivIs(0, Pow2(k), 0, 0);
  }

  // ----- the operators and addition -----

  lemma OnesBit(k: nat)
    ensures TwosBit(-1, k) == 1
  {
    DivIs(-1, Pow2(k), -1, Pow2(k) - 1);
  }

  /** A number with the same bit everywhere. */
  lemma Constant(r: int, c: int)
    requires 0 <= c <= 1 && forall k: nat :: TwosBit(r, k) == c
    ensures r == -c
  {
    forall k: nat ensures TwosBit(r, k) == TwosBit(-c, k) {
      ZeroBit(k);
      OnesBit(k);
    }
    BitsDetermine(r, -c);
  }

  predicate Uniform(a: int) {
    a == 0 || a == -1
  }

  lemma UniformBit(a: int, k: nat)
    requires Uniform(a)
    ensures TwosBit(a, k) == -a
  {
    ZeroBit(k);
    OnesBit(k);
  }

  lemma UniformOp(op: BinOp, a: int, b: int, r: int)
    requires Uniform(a) && Uniform(b) && IsOp(op, a, b, r)
    ensures r == match op case Or => (if a + b < 0 then -1 else 0) case Xor => (if a != b then -1 else 0) case And => -(a * b)
  {
    hide TwosBit;
    var c := match op case Or => (if a + b < 0 then 1 else 0) case Xor => (if a != b then 1 else 0) case And => a * b;
    forall k: nat ensures TwosBit(r, k) == c {
      UniformBit(a, k);
      UniformBit(b, k);
      assert op == Or ==> TwosBit(r, k) == TwosBit(a, k) + TwosBit(b, k) - TwosBit(a, k) * TwosBit(b, k);
      assert op == Xor ==> TwosBit(r, k) == (TwosBit(a, k) + TwosBit(b, k)) % 2;
      assert op == And ==> TwosBit(r, k) == TwosBit(a, k) * TwosBit(b, k);
    }
    Constant(r, c);
  }

  /** The lowest bit, and the rest. */
  lemma HalvedOp(op: BinOp, a: int, b: int, r: int)
    requires IsOp(op, a, b, r)
    ensures IsOp(op, a / 2, b / 2, r / 2)
    ensures var x, y := a % 2, b % 2;
      r % 2 == match op case Or => (if x + y > 0 then 1 else 0) case Xor => (if x + y == 1 then 1 else 0) case And => (if x + y == 2 then 1 else 0)
  {
    hide TwosBit;
    LowTwosBit(a);
    LowTwosBit(b);
    LowTwosBit(r);
    assert TwosBit(a, 0) == 0 || TwosBit(a, 0) == 1;
    assert TwosBit(b, 0) == 0 || TwosBit(b, 0) == 1;
    forall k: nat
      ensures op == Or ==> TwosBit(r / 2, k) == TwosBit(a / 2, k) + TwosBit(b / 2, k) - TwosBit(a / 2, k) * TwosBit(b / 2, k)
      ensures op == Xor ==> TwosBit(r / 2, k) == (TwosBit(a / 2, k) + TwosBit(b / 2, k)) % 2
      ensures op == And ==> TwosBit(r / 2, k) == TwosBit(a / 2, k) * TwosBit(b / 2, k)
    {
      HalfTwosBit(a, k);
      HalfTwosBit(b, k);
      HalfTwosBit(r, k);
    }
  }

  /** Xor and and make the sum: the bits without carries, and the carries. */
  lemma {:induction false} XorAndSum(a: int, b: int, x: int, n: int)
    requires IsXor(a, b, x) && IsAnd(a, b, n)
    ensures a + b == x + 2 * n
    decreases Abs(a) + Abs(b)
  {
    hide IsXor, IsAnd;
    if Uniform(a) && Uniform(b) {
      UniformOp(Xor, a, b, x);
      UniformOp(And, a, b, n);
    } else {
      HalvedOp(Xor, a, b, x);
      HalvedOp(And, a, b, n);
      XorAndSum(a / 2, b / 2, x / 2, n / 2);
    }
  }

  /** So do or and and: what is in either, and what is in both. */
  lemma {:induction false} OrAndSum(a: int, b: int, o: int, n: int)
    requires IsOr(a, b, o) && IsAnd(a, b, n)
    ensures a + b == o + n
    decreases Abs(a) + Abs(b)
  {
    hide IsOr, IsAnd;
    if Uniform(a) && Uniform(b) {
      UniformOp(Or, a, b, o);
      UniformOp(And, a, b, n);
    } else {
      HalvedOp(Or, a, b, o);
      HalvedOp(And, a, b, n);
      OrAndSum(a / 2, b / 2, o / 2, n / 2);
    }
  }
}
