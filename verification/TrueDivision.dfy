/** _krk_long_truediv of src/obj_long.c: the 53-bit significand of a quotient of longs. */
module TrueDivision {
  import opened Arith
  import opened LongDigits
  import opened Longs
  import opened Positional

  // Significand bits of a double, and one more to round by.
  const NEEDED_BITS := 53

  function Pos(x: int): nat {
    if x < 0 then 0 else x
  }

  /** The bits of `t` from position `p` up; below position 0 they are zeros. */
  function Prefix(t: nat, p: int): nat {
    if p >= 0 then Div(t, Pow2(p)) else t * Pow2(-p)
  }

  /** The next bit after Prefix(t, p). */
  function BitAt(t: nat, p: int): (b: nat)
    ensures b <= 1
  {
    if p >= 0 then Bit(t, p) else 0
  }

  lemma PrefixStep(t: nat, p: int)
    ensures Prefix(t, p - 1) == 2 * Prefix(t, p) + BitAt(t, p - 1)
  {
    if p > 0 {
      NextBit(t, p - 1);
    } else if p == 0 {
      DivIs(t, 1, t, 0);
      assert Pow2(1) == 2;
    } else {
      assert Pow2(-p + 1) == 2 * Pow2(-p);
      assert t * (2 * Pow2(-p)) == 2 * (t * Pow2(-p));
    }
  }

  // ----- rounding -----

  /** `s` is a nearest integer to num/den, and the even one when two are equally near (section 4.3.1 of
      IEEE 754-2019). */
  ghost predicate Nearest(num: int, den: int, s: int) {
    var off := Abs(num - s * den);
    2 * off <= den && (2 * off == den ==> s % 2 == 0)
  }

  lemma NearestUnique(num: int, den: int, s: int, t: int)
    requires den > 0 && Nearest(num, den, s) && Nearest(num, den, t)
    ensures s == t
  {
    if s > t {
      Farther(s, t, den);
      TooFar(num, den, s * den, t * den, s, t);
    } else if t > s {
      Farther(t, s, den);
      TooFar(num, den, t * den, s * den, t, s);
    }
  }

  lemma Farther(s: int, t: int, den: nat)
    requires s > t
    ensures s * den - t * den >= if s - t == 1 then den else 2 * den
  {
    MulLe(if s - t == 1 then 1 else 2, s - t, den);
    assert (s - t) * den == s * den - t * den;
  }

  /** Neighbours cannot both be nearest, one of them being odd; what is further apart cannot either. */
  lemma TooFar(num: int, den: nat, x: int, y: int, s: int, t: int)
    requires den > 0 && s > t
    requires 2 * Abs(num - x) <= den && (2 * Abs(num - x) == den ==> s % 2 == 0)
    requires 2 * Abs(num - y) <= den && (2 * Abs(num - y) == den ==> t % 2 == 0)
    ensures x - y < if s - t == 1 then den else 2 * den
  {
  }

  /** The code's rounding of a 54-bit quotient, whose last bit is the half. */
  function Rounded(quot: nat, inexact: bool): nat {
    var up := if quot % 2 == 1 && (quot / 2) % 2 == 0 then inexact else quot % 2 == 1;
    quot / 2 + if up then 1 else 0
  }

  /** Rounding q + f/g, halved: right exactly when a tie that leaves the even neighbour alone really is one. */
  lemma RoundedNearest(q: nat, g: nat, f: nat, inexact: bool)
    requires f < g && (inexact ==> f > 0)
    ensures Nearest(q * g + f, 2 * g, Rounded(q, inexact)) <==> !(q % 4 == 1 && !inexact && f > 0)
  {
    OffBy(q, g, f);
    var num, s, x := q * g + f, Rounded(q, inexact), Rounded(q, inexact) * (2 * g);
    assert num - x == if q % 2 == 0 then f else if s == q / 2 then g + f else f - g;
  }

  /** How far q + f/g is from twice the integers next to its half. */
  lemma OffBy(q: nat, g: nat, f: nat)
    ensures q * g + f - (q / 2) * (2 * g) == f + if q % 2 == 0 then 0 else g
    ensures q * g + f - (q / 2 + 1) * (2 * g) == f - if q % 2 == 0 then 2 * g else g
  {
    var h := q / 2;
    assert q == 2 * h || q == 2 * h + 1;
    assert (2 * h) * g == h * (2 * g) && (2 * h + 1) * g == h * (2 * g) + g && (h + 1) * (2 * g) == h * (2 * g) + 2 * g;
  }

  // ----- the quotient's bits -----

  /** After the bits of `t` above position `p`: `q` is the quotient so far and `wanted` says how many of its 54 bits
      are still to come, none being there yet when all are. */
  ghost predicate Produced(t: nat, b: nat, p: int, q: nat, rem: nat, wanted: int) {
    && -1 <= wanted <= NEEDED_BITS && Prefix(t, p) == q * b + rem && rem < b
    && (if wanted == NEEDED_BITS then q == 0 else Pow2(NEEDED_BITS - 1 - wanted) <= q < Pow2(NEEDED_BITS - wanted))
  }

  lemma ProducedStep(t: nat, b: nat, p: int, q: nat, rem: nat, wanted: int)
    requires Produced(t, b, p, q, rem, wanted) && wanted >= 0
    ensures var r := 2 * rem + BitAt(t, p - 1);
      if r >= b then Produced(t, b, p - 1, 2 * q + 1, r - b, wanted - 1)
      else Produced(t, b, p - 1, 2 * q, r, if wanted == NEEDED_BITS then wanted else wanted - 1)
  {
    hide Prefix, BitAt, Pow2;
    PrefixStep(t, p);
    assert (2 * q + 1) * b == 2 * (q * b) + b && (2 * q) * b == 2 * (q * b);
    var k := NEEDED_BITS - wanted;
    assert NEEDED_BITS - 1 - (wanted - 1) == k && NEEDED_BITS - (wanted - 1) == k + 1 && NEEDED_BITS - 1 - wanted == k - 1;
    DoublePow(k);
    if k > 0 {
      DoublePow(k - 1);
    } else {
      PowNone();
    }
  }

  lemma DoublePow(k: nat)
    ensures Pow2(k + 1) == 2 * Pow2(k)
  {
  }

  /** Once every bit is consumed the remainder is `t` shifted, and keeps growing until the first quotient bit. */
  lemma Grows(t: nat, b: nat, p: int, rem: nat)
    requires t > 0 && p <= 0 && Produced(t, b, p, 0, rem, NEEDED_BITS)
    ensures rem >= 1
  {
    if p < 0 {
      MulLe(1, t, Pow2(-p));
    } else {
      DivIs(t, 1, t, 0);
    }
    assert 0 * b == 0;
  }

  /** The remainder goes up a bit, and the dividend's next bit comes in at the bottom; below the dividend there are zeros. */
  method ShiftIn(r: Long, top: Long, p: int)
    requires r != top && r.Valid() && r.width >= 0 && top.Valid() && top.width > 0 && p < DIGIT_SHIFT * |top.digits|
    modifies r
    ensures r.Valid() && r.width >= 0 && Mag(r.digits) == 2 * old(Mag(r.digits)) + BitAt(Mag(top.digits), p)
  {
    hide Mag, Pow2;
    r.LshiftOne();
    var isSet := false;
    if p >= 0 {
      isSet := top.BitIsSet(p);
    }
    r.BitSetZero(isSet);
  }

  /** The loop: 54 bits of top/bottom from its highest one, the exponent of that one, and what remains. */
  method QuotientBits(top: Long, bottom: Long) returns (quot: nat, exp: int, inexact: bool, ghost rem: nat)
    requires top.Valid() && bottom.Valid() && top.width > 0 && bottom.width > 0
    ensures Produced(Mag(top.digits), Mag(bottom.digits), exp - 1023 - NEEDED_BITS, quot, rem, -1)
    ensures inexact <==> rem != 0
  {
    hide Mag, Pow2, Prefix, Produced, BitAt;
    ghost var t, b := Mag(top.digits), Mag(bottom.digits);
    var r := new Long(0, []);
    MagNone(r.digits);
    MagPositive(top.digits);
    MagPositive(bottom.digits);
    quot, exp := 0, 0;
    var wanted: int := NEEDED_BITS;
    var bits := top.BitsIn();
    var p: int := bits;
    ghost var q: nat := 0;
    Start(t, b, bits);
    while wanted >= 0
      invariant r.Valid() && r.width >= 0 && top.Valid() && bottom.Valid() && bottom.width > 0 && top.width > 0
      invariant Mag(top.digits) == t && Mag(bottom.digits) == b && p <= bits <= DIGIT_SHIFT * |top.digits|
      invariant -1 <= wanted <= NEEDED_BITS && Produced(t, b, p, q, Mag(r.digits), wanted)
      invariant quot == q * Pow2(wanted + 1)
      invariant wanted < NEEDED_BITS ==> p == exp - 1023 - (NEEDED_BITS - 1 - wanted)
      decreases wanted, Pos(p), b - Mag(r.digits)
    {
      ghost var r0 := Mag(r.digits);
      ProducedStep(t, b, p, q, r0, wanted);
      if p <= 0 && wanted == NEEDED_BITS {
        NoneYet(t, b, p, q, r0);
        Grows(t, b, p, r0);
      }
      p := p - 1;
      ShiftIn(r, top, p);
      var c := r.Compare(bottom);
      NextQuot(q, wanted);
      if c >= 0 {
        if wanted == NEEDED_BITS {
          exp := 1023 + p;
        }
        r.SubBigSmall(r, bottom);
        quot := quot + Pow2(wanted);
        wanted := wanted - 1;
        q := 2 * q + 1;
      } else {
        if wanted != NEEDED_BITS {
          wanted := wanted - 1;
        } else {
          NoneYet(t, b, p + 1, q, r0);
        }
        q := 2 * q;
      }
    }
    rem := Mag(r.digits);
    MagNone(r.digits);
    MagPositive(r.digits);
    inexact := r.width != 0;
    PowNone();
  }

  lemma Start(t: nat, b: nat, bits: nat)
    requires t < Pow2(bits) && b > 0
    ensures Produced(t, b, bits, 0, 0, NEEDED_BITS)
    ensures 0 * Pow2(NEEDED_BITS + 1) == 0
  {
    DivSmall(t, Pow2(bits));
    assert 0 * b == 0;
  }

  lemma NoneYet(t: nat, b: nat, p: int, q: nat, rem: nat)
    requires Produced(t, b, p, q, rem, NEEDED_BITS)
    ensures q == 0
  {
  }

  lemma NextQuot(q: nat, wanted: nat)
    ensures q * Pow2(wanted + 1) == (2 * q) * Pow2(wanted)
    ensures q * Pow2(wanted + 1) + Pow2(wanted) == (2 * q + 1) * Pow2(wanted)
    ensures q == 0 ==> 0 * Pow2(wanted + 1) == 0
  {
    assert q * (2 * Pow2(wanted)) == (2 * q) * Pow2(wanted);
    assert (2 * q + 1) * Pow2(wanted) == (2 * q) * Pow2(wanted) + Pow2(wanted);
  }

  // ----- the result -----

  /** The quotient as num/den with the exponent `e` taken out: top/bottom * 2^(52 - e). */
  function Num(t: nat, e: int): nat {
    t * Pow2(Pos(53 - e))
  }

  function Den(b: nat, e: int): nat {
    2 * b * Pow2(Pos(e - 53))
  }

  /** The one family of quotients that is rounded wrongly: the bits kept end in 01, nothing remains of them, but
      lower bits of the dividend were never looked at. */
  ghost predicate DroppedTail(t: nat, b: nat, e: int)
    requires b > 0
  {
    var p := e - NEEDED_BITS;
    p > 0 && t % Pow2(p) != 0 && Prefix(t, p) % b == 0 && Div(Prefix(t, p), b) % 4 == 1
  }

  datatype Quotient =
    | DivisionByZero
    | Zero
    | Double(negative: bool, exp: int, significand: nat)     // exp biased by 1023; 2^52 <= significand < 2^53
    | OutOfRange

  /** What the 54 bits say about the scaled quotient. */
  lemma Scaled(t: nat, b: nat, e: int, q: nat, rem: nat) returns (g: nat, f: nat)
    requires b > 0 && Produced(t, b, e - NEEDED_BITS, q, rem, -1)
    ensures f < g && (rem > 0 ==> f > 0) && q >= 1
    ensures Num(t, e) == q * g + f && Den(b, e) == 2 * g
    ensures InBinade(t, b, e)
    ensures DroppedTail(t, b, e) <==> q % 4 == 1 && rem == 0 && f > 0
  {
    hide Pow2;
    var p := e - NEEDED_BITS;
    PowNone();
    if p <= 0 {
      g, f := b, rem;
      assert 2 * b * 1 == 2 * b;
    } else {
      var m := Pow2(p);
      var low := t % m;
      DivBounds(t, m);
      assert t == m * Prefix(t, p) + low by { assert t == m * (t / m) + t % m; }
      assert t * 1 == t;
      g, f := m * b, m * rem + low;
      assert m * (q * b + rem) == q * (m * b) + m * rem by { assert m * (q * b) == q * (m * b); }
      MulLe(rem + 1, b, m);
      assert m * (rem + 1) == m * rem + m;
      assert 2 * b * m == 2 * (m * b);
      if rem > 0 {
        MulLe(1, rem, m);
      } else {
        assert m * 0 == 0;
      }
      DivIs(Prefix(t, p), b, q, rem);
    }
    Binade(q, g, f);
  }

  /** The quotient lies between 2^e and 2^(e+1). */
  ghost predicate InBinade(t: nat, b: nat, e: int) {
    Pow2(52) * Den(b, e) <= Num(t, e) < Pow2(53) * Den(b, e)
  }

  /** There is one such e. */
  lemma BinadeUnique(t: nat, b: nat, d: int, e: int)
    requires InBinade(t, b, d) && InBinade(t, b, e)
    ensures d == e
  {
    if d < e {
      BinadeBelow(t, b, d, e);
    } else if e < d {
      BinadeBelow(t, b, e, d);
    }
  }

  /** A quotient below 2^(d+1) is below 2^e for every larger e. */
  lemma BinadeBelow(t: nat, b: nat, d: int, e: int)
    requires InBinade(t, b, d) && d < e
    ensures !InBinade(t, b, e)
  {
    hide Pow2;
    var x, y, u, v := Pow2(Pos(53 - d)), Pow2(Pos(53 - e)), Pow2(Pos(d - 53)), Pow2(Pos(e - 53));
    PowersApart(d, e);
    DoublePow(52);
    var h := Pow2(52);
    Apart(t, b, h, x, y, u, v);
  }

  lemma PowersApart(d: int, e: int)
    requires d < e
    ensures 2 * (Pow2(Pos(53 - e)) * Pow2(Pos(d - 53))) <= Pow2(Pos(53 - d)) * Pow2(Pos(e - 53))
  {
    hide Pow2;
    var i, j, k, l := Pos(53 - e), Pos(d - 53), Pos(53 - d), Pos(e - 53);
    Pow2Add(i, j);
    Pow2Add(k, l);
    DoublePow(i + j);
    Pow2Monotone(i + j + 1, k + l);
  }

  lemma Apart(t: nat, b: nat, h: nat, x: nat, y: nat, u: nat, v: nat)
    requires h * (2 * b * u) <= t * x < (2 * h) * (2 * b * u) && 2 * (y * u) <= x * v && v > 0 && u > 0 && x > 0
    ensures !(h * (2 * b * v) <= t * y)
  {
    MulLe(2 * (y * u), x * v, t);
    assert t * (2 * (y * u)) == 2 * (t * y) * u by { assert t * (y * u) == t * y * u; }
    assert t * (x * v) == (t * x) * v;
    StrictlyLess(t * x, (2 * h) * (2 * b * u), v);
    assert (2 * h) * (2 * b * u) * v == 2 * (h * (2 * b * v)) * u by {
      assert (2 * h) * (2 * b * u) == 2 * (h * (2 * b * u));
      assert h * (2 * b * u) * v == h * (2 * b * v) * u by {
        assert 2 * b * u * v == 2 * b * v * u;
        assert h * (2 * b * u) * v == h * (2 * b * u * v);
        assert h * (2 * b * v) * u == h * (2 * b * v * u);
      }
    }
    var p, q := t * y, h * (2 * b * v);
    assert 2 * p * u < 2 * q * u;
    if q <= p {
      MulLe(2 * q, 2 * p, u);
    }
  }

  lemma StrictlyLess(x: int, y: int, c: nat)
    requires x < y && c > 0
    ensures x * c < y * c
  {
    MulLe(x + 1, y, c);
    assert (x + 1) * c == x * c + c;
  }

  /** The quotient is within half a unit of 2^(e+1), so its significand is rounded up to a power of two. */
  ghost predicate Carries(t: nat, b: nat, e: int) {
    2 * Num(t, e) >= (Pow2(54) - 1) * Den(b, e)
  }

  lemma CarryIs(q: nat, g: nat, f: nat, inexact: bool)
    requires q < Pow2(54) && f < g
    ensures Rounded(q, inexact) >= Pow2(53) <==> 2 * (q * g + f) >= (Pow2(54) - 1) * (2 * g)
  {
    hide Pow2;
    DoublePow(52);
    DoublePow(53);
    var top := Pow2(54) - 1;
    assert top * (2 * g) == 2 * (top * g);
    if q < top {
      MulLe(q + 1, top, g);
      assert (q + 1) * g == q * g + g;
      assert q <= 2 * (Pow2(53) - 1);
    }
  }

  /** A dropped tail leaves the result one unit below the nearest value. */
  lemma DroppedIsBelow(q: nat, g: nat, f: nat)
    requires q % 4 == 1 && 0 < f < g
    ensures Nearest(q * g + f, 2 * g, q / 2 + 1)
  {
    var h: nat := q / 2;
    assert q == 2 * h + 1;
    assert (2 * h + 1) * g == h * (2 * g) + g by { assert (2 * h) * g == h * (2 * g); }
    assert (h + 1) * (2 * g) == h * (2 * g) + 2 * g;
  }

  lemma Binade(q: nat, g: nat, f: nat)
    requires Pow2(NEEDED_BITS) <= q < Pow2(NEEDED_BITS + 1) && f < g
    ensures Pow2(52) * (2 * g) <= q * g + f < Pow2(53) * (2 * g)
  {
    hide Pow2;
    DoublePow(52);
    DoublePow(53);
    MulLe(Pow2(53), q, g);
    MulLe(q + 1, Pow2(54), g);
    assert (q + 1) * g == q * g + g;
    assert Pow2(52) * (2 * g) == (2 * Pow2(52)) * g && Pow2(53) * (2 * g) == (2 * Pow2(53)) * g;
  }

  /** 2^54 + 3 is nearer to 2^54 + 4 than to 2^54, and divided by 1 comes out as 2^54. */
  lemma DroppedTailOccurs()
    ensures var t := Pow2(54) + 3;
      && InBinade(t, 1, 54) && DroppedTail(t, 1, 54)
      && Prefix(t, 54 - NEEDED_BITS) == Pow2(53) + 1 && Rounded(Pow2(53) + 1, false) == Pow2(52)
  {
    hide Pow2;
    DoublePow(51);
    DoublePow(52);
    DoublePow(53);
    DoublePow(0);
    PowNone();
    var t, x := Pow2(54) + 3, Pow2(51);
    DivIs(t, 2, Pow2(53) + 1, 1);
    DivIs(Pow2(53) + 1, 1, Pow2(53) + 1, 0);
    assert x >= 1 && Pow2(53) + 1 == 4 * x + 1;
  }

  /** _krk_long_truediv. Whether it gives a double, and with what exponent, is told by the binade the quotient lies in and
      by whether rounding carries out of it; the significand is the nearest one exactly when no tail was dropped, and one
      unit below it when one was. Results outside the normal range are only reported as such. */
  method TrueDiv(top0: Long, bottom0: Long) returns (r: Quotient, ghost e: int)
    requires top0.Valid() && bottom0.Valid()
    ensures r.DivisionByZero? <==> bottom0.width == 0
    ensures r.Zero? <==> bottom0.width != 0 && top0.width == 0
    ensures bottom0.width != 0 && top0.width != 0 ==> InBinade(Mag(top0.digits), Mag(bottom0.digits), e)
    ensures r.Double? <==>
      && bottom0.width != 0 && top0.width != 0
      && 1 <= e + 1023 && e + 1023 + (if Carries(Mag(top0.digits), Mag(bottom0.digits), e) then 1 else 0) <= 2046
    ensures r.Double? ==>
      && r.negative == ((top0.width < 0) != (bottom0.width < 0)) && Pow2(52) <= r.significand < Pow2(53)
      && r.exp == e + 1023 + (if Carries(Mag(top0.digits), Mag(bottom0.digits), e) then 1 else 0)
      && Den(Mag(bottom0.digits), e) > 0
      && (Nearest(Num(Mag(top0.digits), e), Den(Mag(bottom0.digits), e), r.significand * Pow2(r.exp - 1023 - e))
          <==> !DroppedTail(Mag(top0.digits), Mag(bottom0.digits), e))
      && (DroppedTail(Mag(top0.digits), Mag(bottom0.digits), e) ==>
          && r.exp == e + 1023
          && Nearest(Num(Mag(top0.digits), e), Den(Mag(bottom0.digits), e), r.significand + 1))
  {
    hide Mag, Pow2, Produced, Nearest, DroppedTail, Num, Den, Rounded, InBinade;
    e := 0;
    if bottom0.width == 0 {
      return DivisionByZero, 0;
    }
    if top0.width == 0 {
      return Zero, 0;
    }
    var top := new Long(0, []);
    var bottom := new Long(0, []);
    top.InitCopy(top0);
    bottom.InitCopy(bottom0);
    var negative := (top.width < 0) != (bottom.width < 0);
    top.SetSign(1);
    bottom.SetSign(1);
    MagPositive(bottom.digits);
    ghost var t, b := Mag(top.digits), Mag(bottom.digits);
    var quot, exp, inexact, rem := QuotientBits(top, bottom);
    e := exp - 1023;
    ghost var g, f := Scaled(t, b, e, quot, rem);
    RoundedRange(t, b, e - NEEDED_BITS, quot, rem, inexact);
    CarryIs(quot, g, f, inexact);
    if exp < 1 {
      return OutOfRange, e;
    }
    RoundedNearest(quot, g, f, inexact);
    DroppedSmall(quot, g, f, inexact);
    var half := RoundHalf(quot, inexact);
    Carried(Rounded(quot, inexact));
    var finalExp := exp;
    if half >= Pow2(54) {
      finalExp := exp + 1;
      half := Pow2(53);
    }
    if finalExp > 2046 {
      return OutOfRange, e;
    }
    r := Double(negative, finalExp, half / 2);
  }

  /** The last of the quotient's bits decides, ties by the bit before it unless something is left over. */
  method RoundHalf(quot: nat, inexact: bool) returns (half: nat)
    ensures half == 2 * Rounded(quot, inexact)
  {
    half := quot;
    if half % 2 == 1 && (half / 2) % 2 == 0 {
      if inexact {
        half := half + 2;
      }
    } else if half % 2 == 1 {
      half := half + 2;
    }
    half := half - half % 2;
    RoundedIs(quot, inexact);
  }

  lemma RoundedIs(quot: nat, inexact: bool)
    ensures var half := if quot % 2 == 1 && (quot / 2) % 2 == 0 then (if inexact then quot + 2 else quot)
                        else if quot % 2 == 1 then quot + 2 else quot;
      half - half % 2 == 2 * Rounded(quot, inexact)
  {
    var h: int := quot / 2;
    if quot % 2 == 1 {
      assert quot == 2 * h + 1 && (quot + 2) % 2 == 1;
    } else {
      assert quot == 2 * h;
    }
  }

  lemma RoundedRange(t: nat, b: nat, p: int, q: nat, rem: nat, inexact: bool)
    requires Produced(t, b, p, q, rem, -1)
    ensures Pow2(52) <= Rounded(q, inexact) <= Pow2(53) && q < Pow2(54)
  {
    hide Prefix, Pow2;
    DoublePow(52);
    DoublePow(53);
  }

  lemma DroppedSmall(q: nat, g: nat, f: nat, inexact: bool)
    requires f < g && q < Pow2(54)
    ensures q % 4 == 1 && !inexact && f > 0 ==>
      Rounded(q, inexact) == q / 2 < Pow2(53) && Nearest(q * g + f, 2 * g, Rounded(q, inexact) + 1)
  {
    hide Pow2, Nearest;
    DoublePow(53);
    if q % 4 == 1 && f > 0 {
      DroppedIsBelow(q, g, f);
    }
  }

  lemma Carried(s: nat)
    ensures Pow2(53) == 2 * Pow2(52) && Pow2(54) == 2 * Pow2(53) && Pow2(52) >= 1
    ensures s * Pow2(0) == s && Pow2(52) * Pow2(1) == Pow2(53)
  {
    hide Pow2;
    DoublePow(52);
    DoublePow(53);
    PowNone();
    DoublePow(0);
    assert s * 1 == s;
  }
}
