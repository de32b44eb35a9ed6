/** The shift operators of src/obj_long.c and src/obj_numeric.c: which of an int's and a long's methods answers, into
    which output, and with which amount. */
module ShiftOperators {
  import opened Options
  import opened Arith
  import opened Positional
  import opened LongDigits
  import opened Longs
  import opened BitOps
  import opened LongShifts

  /** An operand: a small integer, or a long object. */
  datatype Operand = Small(n: int) | Big(long: Long)

  /** The output holds the number, or a ValueError was raised, or a digit beyond the last was read, after which nothing
      can be said. */
  datatype Ending = Done | NegativeCount | PastDigits

  datatype Outcome = Number(n: int) | Raises | Undefined

  ghost predicate Gives(e: Ending, out: Long, o: Outcome)
    reads out
  {
    match o
    case Number(n) => e == Done && out.Sized() && out.Value() == n
    case Raises => e == NegativeCount
    case Undefined => e == PastDigits
  }

  /** krk_long_medium shifts a second digit as a 32-bit word, and reads no third. */
  const AMOUNTS := 0x1_0000_0000

  ghost function ValueOf(a: Operand): int
    reads if a.Big? then {a.long} else {}
  {
    if a.Big? then a.long.Value() else a.n
  }

  function Left(a: int, b: int, own: bool): Outcome {
    if b < 0 then Raises
    else if own then Number(LeftOwn(a, b % AMOUNTS))
    else Number(a * Pow2(b % AMOUNTS))
  }

  function Right(a: int, b: int, own: bool): Outcome {
    if b < 0 then Raises
    else if !own then Number(RightShift(a, b % AMOUNTS))
    else match RightOwn(a, b % AMOUNTS)
      case Some(n) => Number(n)
      case None => Undefined
  }

  // ----- the amount -----

  lemma LowWord(ds: Digits)
    requires |ds| > 1
    ensures Mag(ds) % AMOUNTS == ds[0] + BASE * (ds[1] % 2)
  {
    MagFrom(ds);
    FromNext(BASE, ds, 0);
    FromNext(BASE, ds, 1);
    FromNonNegative(BASE, ds, 2);
    var f := From(BASE, ds, 2);
    DivIs(Mag(ds), AMOUNTS, ds[1] / 2 + (BASE / 2) * f, ds[0] + BASE * (ds[1] % 2));
  }

  lemma WordJoined(x: Digit, bit: nat)
    requires bit <= 1
    ensures WordOp(Or, x, BASE * bit, 64) == x + BASE * bit
  {
    hide WordOp;
    Pow2Digit();
    Pow2Monotone(32, 64);
    OrApart(x, bit, DIGIT_SHIFT, 64);
  }

  /** krk_long_medium on a number that is not negative. */
  method Medium(num: Long) returns (amount: nat)
    requires num.Valid() && num.width >= 0
    ensures amount == num.Value() % AMOUNTS
  {
    hide WordOp, Mag;
    MagNone(num.digits);
    if num.width == 0 {
      return 0;
    }
    amount := num.digits[0];
    if num.width > 1 {
      var high: int := (num.digits[1] * BASE) % AMOUNTS;
      assert high == BASE * (num.digits[1] % 2);
      LowWord(num.digits);
      WordJoined(num.digits[0], num.digits[1] % 2);
      amount := WordOp(Or, amount, high, 64);
    } else {
      MagOne(num.digits);
    }
  }

  // ----- _krk_long_lshift and _krk_long_rshift -----

  method Lshift(out: Long, val: Long, shift: Long) returns (e: Ending)
    requires out.Sized() && val.Valid() && shift.Valid()
    modifies out
    ensures Gives(e, out, Left(old(val.Value()), old(shift.Value()), out == val))
    ensures e == NegativeCount ==> out.width == old(out.width) && out.digits == old(out.digits)
  {
    hide Pow2, Mag, LeftOwn;
    MagNone(shift.digits);
    MagPositive(shift.digits);
    if shift.width < 0 {
      return NegativeCount;
    }
    var amount := Medium(shift);
    LshiftZ(out, val, amount);
    e := Done;
  }

  method Rshift(out: Long, val: Long, shift: Long) returns (e: Ending)
    requires out.Sized() && val.Valid() && shift.Valid()
    modifies out
    ensures Gives(e, out, Right(old(val.Value()), old(shift.Value()), out == val))
    ensures e == NegativeCount ==> out.width == old(out.width) && out.digits == old(out.digits)
  {
    hide Pow2, Mag, RightOwn, RightShift;
    MagNone(shift.digits);
    MagPositive(shift.digits);
    if shift.width < 0 {
      return NegativeCount;
    }
    var amount := Medium(shift);
    var inside := RshiftZ(out, val, amount);
    e := if inside then Done else PastDigits;
  }

  // ----- the methods of int and long -----

  /** krk_long_init_si. */
  method InitSi(n: int) returns (num: Long)
    ensures fresh(num) && num.Valid() && num.Value() == n
  {
    num := new Long(0, []);
    num.InitUi(Abs(n));
    if n < 0 {
      num.SetSign(-1);
    }
  }

  /** The temporary of a long's method: a copy of the other operand, whichever kind it is. */
  method Temporary(other: Operand) returns (tmp: Long)
    requires other.Big? ==> other.long.Valid()
    ensures fresh(tmp) && tmp.Valid() && tmp.Value() == ValueOf(other)
  {
    if other.Small? {
      tmp := InitSi(other.n);
    } else {
      tmp := new Long(0, []);
      tmp.InitCopy(other.long);
    }
  }

  /** Whether the operator is answered by the reflected method of a long, which shifts its temporary into itself. */
  predicate Reflected(a: Operand, b: Operand) {
    a.Small? && b.Big?
  }

  ghost predicate Good(a: Operand)
    reads if a.Big? then {a.long} else {}
  {
    a.Big? ==> a.long.Valid()
  }

  /** `a << b`. */
  method ShiftLeft(a: Operand, b: Operand) returns (e: Ending, out: Long)
    requires Good(a) && Good(b)
    ensures fresh(out) && Gives(e, out, Left(ValueOf(a), ValueOf(b), Reflected(a, b)))
  {
    hide Left;
    if a.Big? {
      out := Temporary(b);
      e := Lshift(out, a.long, out);
    } else if b.Big? {
      out := Temporary(a);
      e := Lshift(out, out, b.long);
    } else {
      out := new Long(0, []);
      var val := InitSi(a.n);
      var shift := InitSi(b.n);
      e := Lshift(out, val, shift);
    }
  }

  /** `a >> b`. */
  method ShiftRight(a: Operand, b: Operand) returns (e: Ending, out: Long)
    requires Good(a) && Good(b)
    ensures fresh(out) && Gives(e, out, Right(ValueOf(a), ValueOf(b), Reflected(a, b)))
  {
    hide Right;
    if a.Big? {
      out := Temporary(b);
      e := Rshift(out, a.long, out);
    } else if b.Big? {
      out := Temporary(a);
      e := Rshift(out, out, b.long);
    } else {
      out := new Long(0, []);
      var val := InitSi(a.n);
      var shift := InitSi(b.n);
      e := Rshift(out, val, shift);
    }
  }

  // ----- when they are what Python's are -----

  ghost predicate PowerOfTwo(m: int) {
    exists k: nat :: m == Pow2(k)
  }

  lemma BitsRange(m: nat)
    requires m > 0
    ensures Bits(m) > 0 && Pow2(Bits(m) - 1) <= m < Pow2(Bits(m))
    decreases m
  {
    if m > 1 {
      BitsRange(m / 2);
      assert Pow2(Bits(m)) == 2 * Pow2(Bits(m) - 1) && Pow2(Bits(m) - 1) == 2 * Pow2(Bits(m) - 2);
    }
  }

  lemma PowerBits(m: nat)
    requires m > 0
    ensures PowerOfTwo(m) <==> m == Pow2(Bits(m) - 1)
  {
    if k: nat :| m == Pow2(k) {
      BitsOf(m, k + 1);
    }
  }

  lemma Pow2Strict(i: nat, j: nat)
    requires i < j
    ensures 2 * Pow2(i) <= Pow2(j)
  {
    Pow2Monotone(i + 1, j);
  }

  /** A left shift multiplies exactly when the number is zero, or the count fits in 32 bits and, where a long reflects
      the operator, is not zero and the number is a power of two. */
  lemma LeftMultiplies(a: int, b: nat, own: bool)
    ensures Left(a, b, own) == Number(a * Pow2(b)) <==> a == 0 || (b < AMOUNTS && (own ==> b > 0 && PowerOfTwo(a)))
  {
    hide Pow2, Bits;
    var amount := b % AMOUNTS;
    if a != 0 {
      NotZero(a, Pow2(b));
      if own {
        if amount > 0 {
          PowerOwn(a, amount, b);
        }
      } else if b >= AMOUNTS {
        Pow2Strict(amount, b);
        NotZero(a, Pow2(b) - Pow2(amount));
        assert a * (Pow2(b) - Pow2(amount)) == a * Pow2(b) - a * Pow2(amount);
      }
    }
  }

  lemma NotZero(x: int, y: int)
    requires x != 0 && y != 0
    ensures x * y != 0
  {
  }

  lemma PowerOwn(a: int, amount: nat, b: nat)
    requires a != 0 && 0 < amount <= b && (amount < b ==> b >= AMOUNTS)
    ensures Pow2(Bits(Abs(a)) - 1 + amount) == a * Pow2(b) <==> amount == b && PowerOfTwo(a)
  {
    hide Pow2, Bits;
    var c := Bits(Abs(a)) - 1;
    BitsRange(Abs(a));
    Pow2Add(c, amount);
    if a < 0 {
      assert a * Pow2(b) < 0;
    } else {
      PowerBits(a);
      if amount == b {
        MulCancel(Pow2(c), a, Pow2(b));
      } else {
        Pow2Strict(amount, b);
        MulLe(Pow2(c), a, Pow2(b));
        MulLe(Pow2(amount) + 1, Pow2(b), Pow2(c));
        assert (Pow2(amount) + 1) * Pow2(c) == Pow2(c) * Pow2(amount) + Pow2(c);
      }
    }
  }

  lemma MulCancel(x: int, y: int, z: int)
    requires z > 0
    ensures x * z == y * z <==> x == y
  {
    if x < y {
      MulLe(x + 1, y, z);
    } else if y < x {
      MulLe(y + 1, x, z);
    }
  }

  lemma AtLeast(x: nat, p: nat, lo: nat)
    requires p > 0 && lo * p <= x
    ensures Div(x, p) >= lo
  {
    MulLe(1, p, x + 1);
    QuotientBetween(x, p, lo, x + 1);
  }

  lemma SmallerBy(x: nat, p: nat, q: nat)
    requires 0 < 2 * p <= q && p <= x
    ensures Div(x, q) < Div(x, p)
  {
    var r := Div(x, q);
    DivBounds(x, q);
    MulLe(2 * p, q, r);
    assert (2 * r) * p == r * (2 * p);
    AtLeast(x, p, 2 * r);
    AtLeast(x, p, 1);
  }

  lemma Smaller(x: nat, i: nat, j: nat)
    requires i < j && x >= Pow2(i)
    ensures Div(x, Pow2(j)) < Div(x, Pow2(i))
  {
    hide Pow2;
    Pow2Strict(i, j);
    SmallerBy(x, Pow2(i), Pow2(j));
  }

  /** A negative number's floor, by the one less. */
  lemma NegativeFloor(x: int, d: nat)
    requires x > 0 && d > 0
    ensures (-x) / d == -(Div(x - 1, d) + 1)
  {
    var q, r := (x - 1) / d, (x - 1) % d;
    assert x - 1 == d * q + r;
    assert d * (-(q + 1)) == -(d * q) - d;
    DivIs(-x, d, -(q + 1), d - 1 - r);
  }

  lemma DivUp(x: nat, y: nat, d: nat)
    requires x <= y && d > 0
    ensures Div(x, d) <= Div(y, d)
  {
    DivBounds(x, d);
    AtLeast(y, d, Div(x, d));
  }

  /** With a count that does not fit, a right shift by its low 32 bits floors by luck only. */
  lemma Overlong(a: int, b: nat)
    requires b >= AMOUNTS
    ensures var m := b % AMOUNTS; RightShift(a, m) == FloorShift(a, b) <==> Abs(a) < Pow2(m) || a == -1
  {
    hide Pow2;
    var m, x := b % AMOUNTS, Abs(a);
    Pow2Monotone(m, b);
    PowNone();
    if x < Pow2(m) {
      DivSmall(x, Pow2(m));
      DivSmall(x, Pow2(b));
    } else {
      Smaller(x, m, b);
    }
    if a < 0 {
      NegativeFloor(x, Pow2(b));
      DivUp(x - 1, x, Pow2(b));
      if m == 0 {
        if x > 1 {
          Smaller(x - 1, 0, b);
        } else {
          DivSmall(0, Pow2(b));
        }
        DivIs(x - 1, 1, x - 1, 0);
      } else if x < Pow2(m) {
        DivSmall(x - 1, Pow2(b));
      } else {
        Pow2Strict(0, m);
      }
    }
  }

  lemma QuotientTop(a: nat, c: nat, b: nat, k: nat)
    requires k < c && Pow2(c - 1) <= a < Pow2(c) && k < b
    ensures Div(a, Pow2(b)) < Pow2(c - 1 - k)
  {
    hide Pow2;
    if b >= c {
      Pow2Monotone(c, b);
      DivSmall(a, Pow2(b));
    } else {
      QuotientRange(a, b, c);
      Pow2Monotone(c - b, c - 1 - k);
    }
  }

  lemma DivPow(i: nat, j: nat)
    ensures Div(Pow2(i), Pow2(j)) == if i < j then 0 else Pow2(i - j)
  {
    if i < j {
      Pow2Strict(i, j);
      DivSmall(Pow2(i), Pow2(j));
    } else {
      Pow2Add(j, i - j);
      DivIs(Pow2(i), Pow2(j), Pow2(i - j), 0);
    }
  }

  lemma QuotientPower(a: nat, c: nat, b: nat)
    requires b < c && Pow2(c - 1) <= a < Pow2(c)
    ensures Div(a, Pow2(b)) >= 1
    ensures PowerOfTwo(Div(a, Pow2(b))) <==> Div(a, Pow2(b)) == Pow2(c - 1 - b)
  {
    hide Pow2, Bits;
    QuotientRange(a, b, c);
    PowerBits(Div(a, Pow2(b)));
    BitsOf(Div(a, Pow2(b)), c - b);
  }

  /** For which numbers and counts a right shift into its own number floors: those it brings to zero, and those of which
      it drops whole digits and leaves a power of two. */
  ghost predicate OwnFloors(a: int, b: nat) {
    var m := b % AMOUNTS;
    || a == 0
    || (b < AMOUNTS && 0 < a && (a < Pow2(b) || (b > 0 && b % DIGIT_SHIFT == 0 && PowerOfTwo(a / Pow2(b)))))
    || (b >= AMOUNTS && 0 < a && (a < Pow2(m) || (m < DIGIT_SHIFT && a < Pow2(2 * m)) || (m == 0 && a < Pow2(b))))
  }

  lemma OwnNotPositive(a: int, b: nat)
    requires a <= 0
    ensures Right(a, b, true) == Number(FloorShift(a, b)) <==> OwnFloors(a, b)
  {
    hide Pow2, Bits;
    if a < 0 {
      NegativeFloor(-a, Pow2(b));
    } else {
      DivSmall(0, Pow2(b));
      BitsOf(0, 0);
    }
  }

  /** Nothing of the number is left, or nothing was to be shifted. */
  lemma OwnGone(a: nat, b: nat)
    requires a > 0 && (b % AMOUNTS == 0 || a < Pow2(b % AMOUNTS))
    ensures Right(a, b, true) == Number(FloorShift(a, b)) <==> OwnFloors(a, b)
  {
    hide Pow2, Bits;
    var m := b % AMOUNTS;
    PowNone();
    BitsRange(a);
    Pow2Monotone(m, b);
    DivIs(a, 1, a, 0);
    if m > 0 {
      Exponents(Bits(a) - 1, m, a);
    }
    if a < Pow2(b) {
      DivSmall(a, Pow2(b));
    } else {
      AtLeast(a, Pow2(b), 1);
    }
  }

  lemma OwnDigits(a: nat, b: nat)
    requires var m := b % AMOUNTS; a >= Pow2(m) && m > 0 && m % DIGIT_SHIFT == 0
    ensures Right(a, b, true) == Number(FloorShift(a, b)) <==> OwnFloors(a, b)
  {
    hide Pow2, Bits, PowerOfTwo;
    var m, c := b % AMOUNTS, Bits(a);
    BitsRange(a);
    Exponents(m, c, a);
    if b == m {
      QuotientPower(a, c, b);
    } else {
      QuotientTop(a, c, b, m);
    }
  }

  /** The highest bit, moved by the count and moved by it again: always less than the quotient, unless both are gone. */
  lemma BitTwice(a: nat, c: nat, m: nat, b: nat)
    requires 0 < m < c && Pow2(c - 1) <= a < Pow2(c) && (b == m || b > 2 * m)
    ensures Div(Pow2(c - 1 - m), Pow2(m)) == Div(a, Pow2(b)) <==> b != m && a < Pow2(2 * m)
  {
    hide Pow2;
    DivPow(c - 1 - m, m);
    if b == m {
      QuotientRange(a, b, c);
      PowNone();
      Pow2Monotone(0, c - 1 - m);
      if c - 1 - m >= m {
        Pow2Strict(c - 1 - 2 * m, c - 1 - m);
      }
    } else if c <= 2 * m {
      Pow2Monotone(c, 2 * m);
      Pow2Monotone(2 * m, b);
      DivSmall(a, Pow2(b));
    } else {
      QuotientTop(a, c, b, 2 * m);
      Pow2Monotone(2 * m, c - 1);
    }
  }

  lemma OwnBits(a: nat, b: nat)
    requires var m := b % AMOUNTS; a >= Pow2(m) && 0 < m < DIGIT_SHIFT
    ensures Right(a, b, true) == Number(FloorShift(a, b)) <==> OwnFloors(a, b)
  {
    hide Pow2, Bits, PowerOfTwo;
    BitsRange(a);
    Exponents(b % AMOUNTS, Bits(a), a);
    BitTwice(a, Bits(a), b % AMOUNTS, b);
  }

  lemma OwnBeyond(a: nat, b: nat)
    requires var m := b % AMOUNTS; a >= Pow2(m) && m > DIGIT_SHIFT && m % DIGIT_SHIFT != 0
    ensures Right(a, b, true) == Undefined && !OwnFloors(a, b)
  {
    hide Pow2, Bits;
    BitsRange(a);
    Exponents(b % AMOUNTS, Bits(a), a);
  }

  /** When `a >> b` is the floor of the quotient by the power of two. A number that is shifted out of another: when the
      count fits in 32 bits and nothing is negative and exact; with a longer count by luck. */
  ghost predicate RightFloors(a: int, b: nat, own: bool) {
    if own then OwnFloors(a, b)
    else if b < AMOUNTS then a >= 0 || b == 0 || a % Pow2(b) != 0
    else Abs(a) < Pow2(b % AMOUNTS) || a == -1
  }

  lemma RightIsFloor(a: int, b: nat, own: bool)
    ensures Right(a, b, own) == Number(FloorShift(a, b)) <==> RightFloors(a, b, own)
  {
    hide Pow2, OwnFloors, RightOwn, RightShift, FloorShift;
    var m := b % AMOUNTS;
    if !own {
      if b < AMOUNTS {
        RightShiftFloors(a, b);
      } else {
        Overlong(a, b);
      }
    } else if a <= 0 {
      OwnNotPositive(a, b);
    } else if m == 0 || a < Pow2(m) {
      OwnGone(a, b);
    } else if m % DIGIT_SHIFT == 0 {
      OwnDigits(a, b);
    } else if m < DIGIT_SHIFT {
      OwnBits(a, b);
    } else {
      OwnBeyond(a, b);
    }
  }

  /** Shifts that a long answers for an int: 5 >> 1 gives 1, -5 >> 9 gives 0, 5 << 3 gives 32 and 5 << 0 gives 0. */
  lemma ReflectedOff()
    ensures Right(5, 1, true) == Number(1) && FloorShift(5, 1) == 2
    ensures Right(-5, 9, true) == Number(0) && FloorShift(-5, 9) == -1
    ensures Left(5, 3, true) == Number(32) && 5 * Pow2(3) == 40
    ensures Left(5, 0, true) == Number(0)
  {
    BitsOf(5, 3);
    assert Pow2(5) == 32 && Pow2(9) == 512;
  }

  /** 2^40 >> 32, so answered, reads the second digit of a number that has one. */
  lemma ReflectedBeyond()
    ensures Right(Pow2(40), 32, true) == Undefined
  {
    hide Pow2, Bits;
    Pow2Strict(40, 41);
    BitsOf(Pow2(40), 41);
  }

  /** A count of 2^32 is one of zero: 1 >> 2^32 and 1 << 2^32 are both 1. */
  lemma LongCountOff()
    ensures Right(1, AMOUNTS, false) == Number(1) && FloorShift(1, AMOUNTS) == 0
    ensures Left(1, AMOUNTS, false) == Number(1) && Pow2(AMOUNTS) > 1
  {
    assert Pow2(0) == 1;
    hide Pow2;
    Pow2Strict(0, AMOUNTS);
    DivSmall(1, Pow2(AMOUNTS));
  }
}
