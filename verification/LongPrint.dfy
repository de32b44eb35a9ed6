/** The printer and the parser of longs in src/obj_long.c, against LongText. */
module LongPrint {
  import opened Arith
  import opened Positional
  import opened LongDigits
  import opened Longs
  import opened LongText
  import opened LongShifts
  import opened Sorting

  // ----- printing -----

  /** _div_inplace: divide by a small base in place and return the remainder. */
  method DivInplace(a: Long, base: nat) returns (rem: nat)
    requires a.Valid() && a.width >= 0 && 2 <= base <= 16
    modifies a
    ensures a.Valid() && a.width >= 0
    ensures Mag(a.digits) == Div(old(Mag(a.digits)), base) && rem == old(Mag(a.digits)) % base
  {
    hide Mag;
    MagNone(a.digits);
    ghost var m := Mag(a.digits);
    if a.width == 0 {
      DivIs(0, base, 0, 0);
      return 0;
    }
    var q, r := DivideByDigit(a.digits, base);
    DivIs(m, base, Mag(q), r);
    a.digits := q;
    a.Trim();
    rem := r;
  }

  /** What is still to be written: the buffered bits and the digits from `ind` on. */
  ghost predicate Remaining(ds: Digits, ind: nat, buf: nat, cnt: int, rest: nat) {
    && ind <= |ds| && (ind < |ds| ==> 0 <= cnt && buf < Pow2(cnt))
    && rest == buf + if ind < |ds| then Pow2(cnt) * From(BASE, ds, ind) else 0
  }

  /** _fast_conversion: repack 31-bit digits into `bits`-bit ones, least significant first. */
  method FastConversion(abs: Long, bits: nat, ghost base: nat) returns (writer: string)
    requires abs.Valid() && abs.width > 0 && base == Pow2(bits) && 2 <= base <= 16
    ensures writer == Chars(DigitsOf(Mag(abs.digits), base))
  {
    hide Pow2, From, Mag, DigitsOf, Chars, Remaining;
    var ds := abs.digits;
    SmallBits(bits, base);
    var buf: nat := ds[0];
    var cnt: int := DIGIT_SHIFT;
    var ind: nat := 1;
    ghost var rest := Mag(ds);
    writer := "";
    FirstDigit(ds);
    while ind < abs.width || buf > 0
      invariant writer + Chars(DigitsOf(rest, base)) == Chars(DigitsOf(Mag(ds), base))
      invariant Remaining(ds, ind, buf, cnt, rest) && ind <= |ds|
      decreases rest
    {
      Left(ds, ind, buf, cnt, rest);
      if ind < abs.width && cnt < bits {
        Refill(ds, ind, buf, cnt, rest);
        buf := buf + ds[ind] * Pow2(cnt);
        ind := ind + 1;
        cnt := cnt + DIGIT_SHIFT;
      }
      Taken(ds, ind, buf, cnt, rest, bits);
      NextChar(writer, rest, base);
      var out := buf % Pow2(bits);
      cnt := cnt - bits;
      buf := buf / Pow2(bits);
      writer := writer + [VALS[out]];
      rest := Div(rest, base);
    }
    NothingLeft(ds, ind, buf, cnt, rest, base);
  }

  lemma FirstDigit(ds: Digits)
    requires ds != []
    ensures Remaining(ds, 1, ds[0], DIGIT_SHIFT, Mag(ds))
  {
    hide Pow2, From, Mag;
    Pow2Digit();
    MagFrom(ds);
    FromNext(BASE, ds, 0);
    FromEnd(BASE, ds);
  }

  /** While the loop goes on, something is left to write. */
  lemma Left(ds: Digits, ind: nat, buf: nat, cnt: int, rest: nat)
    requires Trimmed(ds) && Remaining(ds, ind, buf, cnt, rest) && (ind < |ds| || buf > 0)
    ensures rest > 0
  {
    hide Pow2;
    TopRemains(ds, ind);
    if ind < |ds| {
      MulLe(1, From(BASE, ds, ind), Pow2(cnt));
    }
  }

  lemma Refill(ds: Digits, ind: nat, buf: nat, cnt: int, rest: nat)
    requires Remaining(ds, ind, buf, cnt, rest) && ind < |ds|
    ensures cnt >= 0 && ds[ind] * Pow2(cnt) >= 0
    ensures Remaining(ds, ind + 1, buf + ds[ind] * Pow2(cnt), cnt + DIGIT_SHIFT, rest)
  {
    hide Pow2;
    RefillSum(ds, ind, buf, cnt);
    assert ds[ind] * Pow2(cnt) >= 0;
  }

  lemma Taken(ds: Digits, ind: nat, buf: nat, cnt: int, rest: nat, bits: nat)
    requires Remaining(ds, ind, buf, cnt, rest) && (ind < |ds| ==> cnt >= bits)
    ensures rest % Pow2(bits) == buf % Pow2(bits)
    ensures 0 <= buf / Pow2(bits) && Remaining(ds, ind, buf / Pow2(bits), cnt - bits, Div(rest, Pow2(bits)))
  {
    hide Pow2;
    if ind < |ds| {
      FromNonNegative(BASE, ds, ind);
      TakeBits(buf, From(BASE, ds, ind), cnt, bits);
    }
  }

  lemma NothingLeft(ds: Digits, ind: nat, buf: nat, cnt: int, rest: nat, base: nat)
    requires Remaining(ds, ind, buf, cnt, rest) && ind == |ds| && buf == 0 && 2 <= base <= 16
    ensures Chars(DigitsOf(rest, base)) == ""
  {
  }

  lemma SmallBits(bits: nat, base: nat)
    requires base == Pow2(bits) && 2 <= base <= 16
    ensures 1 <= bits <= 4
  {
    assert Pow2(0) == 1 && Pow2(5) == 32;
    if bits > 4 {
      Pow2Monotone(5, bits);
    }
  }

  lemma SmallBase(bits: nat)
    requires 1 <= bits <= 4
    ensures 2 <= Pow2(bits) <= 16
    ensures bits == 1 ==> Pow2(bits) == 2
    ensures bits == 2 ==> Pow2(bits) == 4
    ensures bits == 3 ==> Pow2(bits) == 8
    ensures bits == 4 ==> Pow2(bits) == 16
  {
    assert Pow2(1) == 2 && Pow2(2) == 4 && Pow2(3) == 8 && Pow2(4) == 16;
  }

  lemma {:induction false} TopRemains(ds: Digits, i: nat)
    requires Trimmed(ds)
    ensures i < |ds| ==> From(BASE, ds, i) >= 1
    decreases |ds| - i
  {
    if i < |ds| {
      TopRemains(ds, i + 1);
      FromNonNegative(BASE, ds, i + 1);
    }
  }

  lemma RefillSum(ds: Digits, i: nat, buf: nat, cnt: nat)
    requires i < |ds| && buf < Pow2(cnt)
    ensures buf + Pow2(cnt) * From(BASE, ds, i)
         == buf + ds[i] * Pow2(cnt) + if i + 1 < |ds| then Pow2(cnt + DIGIT_SHIFT) * From(BASE, ds, i + 1) else 0
    ensures buf + ds[i] * Pow2(cnt) < Pow2(cnt + DIGIT_SHIFT)
  {
    hide Pow2;
    var p, f, d: int := Pow2(cnt), From(BASE, ds, i + 1), ds[i];
    Pow2Add(cnt, DIGIT_SHIFT);
    Pow2Digit();
    FromNext(BASE, ds, i);
    Spread(BASE, p, ds[i], f);
    assert (BASE * p) * f == (p * BASE) * f;
    MulLe(d + 1, BASE, p);
    assert (d + 1) * p == d * p + p;
    assert p * 0 == 0;
  }

  lemma TakeBits(buf: nat, high: nat, cnt: nat, bits: nat)
    requires bits <= cnt && buf < Pow2(cnt)
    ensures var rest := buf + Pow2(cnt) * high;
      && rest % Pow2(bits) == buf % Pow2(bits)
      && Div(rest, Pow2(bits)) == Div(buf, Pow2(bits)) + Pow2(cnt - bits) * high
      && Div(buf, Pow2(bits)) < Pow2(cnt - bits)
  {
    hide Pow2;
    var b, c := Pow2(bits), Pow2(cnt - bits);
    Pow2Add(bits, cnt - bits);
    TakeLow(buf, b, c, high);
  }

  lemma TakeLow(buf: nat, b: nat, c: nat, high: nat)
    requires b > 0 && buf < b * c
    ensures (buf + (b * c) * high) % b == buf % b
    ensures Div(buf + (b * c) * high, b) == Div(buf, b) + c * high
    ensures Div(buf, b) < c
  {
    var q, r := buf / b, buf % b;
    assert buf == b * q + r;
    assert (b * c) * high == b * (c * high);
    assert b * (q + c * high) == b * q + b * (c * high);
    DivIs(buf + (b * c) * high, b, q + c * high, r);
    QuotientBelow(buf, b, c);
  }

  /** One more character of the text. */
  lemma NextChar(writer: string, rest: nat, base: nat)
    requires 2 <= base <= 16 && rest > 0
    ensures Div(rest, base) < rest && 0 <= rest % base < base
    ensures writer + [VALS[rest % base]] + Chars(DigitsOf(Div(rest, base), base)) == writer + Chars(DigitsOf(rest, base))
  {
    Shrinks(rest, base);
  }

  /** krk_long_digits_in_base. */
  method DigitsInBase(num: Long, base: nat) returns (count: nat)
    requires num.Valid() && 2 <= base <= 16
    ensures num.width == 0 ==> count == 1
    ensures |DigitsOf(Mag(num.digits), base)| <= count
  {
    hide Mag, DigitsOf, Pow2;
    MagNone(num.digits);
    NoneOf(base);
    if num.width == 0 {
      return 1;
    }
    var bits := num.BitsIn();
    MagPositive(num.digits);
    SmallBase(1);
    SmallBase(2);
    SmallBase(3);
    SmallBase(4);
    if base < 4 {
      EnoughChars(Mag(num.digits), base, bits, 1);
      return bits;
    }
    if base < 8 {
      EnoughChars(Mag(num.digits), base, bits, 2);
      return (bits + 1) / 2;
    }
    if base < 16 {
      EnoughChars(Mag(num.digits), base, bits, 3);
      return (bits + 2) / 3;
    }
    EnoughChars(Mag(num.digits), base, bits, 4);
    return (bits + 3) / 4;
  }

  lemma NoneOf(base: nat)
    requires base >= 2
    ensures DigitsOf(0, base) == []
  {
  }

  /** A base of at least 2^k needs at most ceil(bits / k) digits. */
  lemma EnoughChars(n: nat, base: nat, bits: nat, k: nat)
    requires 0 < n < Pow2(bits) && 1 <= k <= 4 && 2 <= Pow2(k) <= base
    ensures |DigitsOf(n, base)| <= (bits + k - 1) / k
  {
    hide Pow2, DigitsOf;
    var len := |DigitsOf(n, base)|;
    DigitsCount(n, base);
    PowerBelow(base, k, len - 1);
    Exponents(k * (len - 1), bits, n);
    CeilDiv(len - 1, bits, k);
  }

  lemma CeilDiv(x: nat, bits: nat, k: nat)
    requires k * x < bits && 1 <= k <= 4
    ensures x + 1 <= (bits + k - 1) / k
  {
    assert k == 1 || k == 2 || k == 3 || k == 4;
  }

  lemma {:induction false} PowerBelow(base: nat, k: nat, i: nat)
    requires Pow2(k) <= base
    ensures Pow2(k * i) <= Weight(base, i)
    decreases i
  {
    hide Pow2;
    if i > 0 {
      PowerBelow(base, k, i - 1);
      Pow2Add(k, k * (i - 1));
      assert k * i == k + k * (i - 1);
      MulLe(Pow2(k), base, Pow2(k * (i - 1)));
      MulLe(Pow2(k * (i - 1)), Weight(base, i - 1), base);
    } else {
      assert k * 0 == 0;
      PowNone();
    }
  }

  /** The digits of a nonzero magnitude, by repacking bits where the base allows it; `abs` is used up. */
  method WriteDigits(abs: Long, base: nat) returns (writer: string)
    requires abs.Valid() && abs.width > 0 && 2 <= base <= 16
    modifies abs
    ensures writer == Chars(DigitsOf(old(Mag(abs.digits)), base))
  {
    hide Mag, DigitsOf, Chars, Pow2;
    SmallBase(1);
    SmallBase(2);
    SmallBase(3);
    SmallBase(4);
    if base == 2 {
      writer := FastConversion(abs, 1, base);
    } else if base == 4 {
      writer := FastConversion(abs, 2, base);
    } else if base == 8 {
      writer := FastConversion(abs, 3, base);
    } else if base == 16 {
      writer := FastConversion(abs, 4, base);
    } else {
      writer := "";
      ghost var m := Mag(abs.digits);
      while abs.width > 0
        invariant abs.Valid() && abs.width >= 0
        invariant writer + Chars(DigitsOf(Mag(abs.digits), base)) == Chars(DigitsOf(m, base))
        decreases Mag(abs.digits)
      {
        MagPositive(abs.digits);
        NextChar(writer, Mag(abs.digits), base);
        var rem := DivInplace(abs, base);
        writer := writer + [VALS[rem]];
      }
      MagNone(abs.digits);
      NoChars(base);
    }
  }

  method Reverse(writer: string) returns (rev: string)
    ensures rev == Reversed(writer)
  {
    rev := "";
    var i := |writer|;
    while i > 0
      invariant 0 <= i <= |writer| && rev == Reversed(writer[i..])
    {
      i := i - 1;
      ReversedSnoc(writer[i + 1..], writer[i]);
      assert writer[i..] == [writer[i]] + writer[i + 1..];
      rev := rev + [writer[i]];
    }
    assert writer[0..] == writer;
  }

  /** krk_long_to_str; what is written fits the buffer, terminator included. */
  method ToStr(n: Long, base: nat, prefix: string) returns (rev: string)
    requires n.Valid() && 2 <= base <= 16
    ensures rev == Text(n.Value(), base, prefix)
  {
    hide Mag, DigitsOf, Chars, Pow2;
    MagNone(n.digits);
    MagPositive(n.digits);
    var abs := new Long(0, []);
    abs.InitCopy(n);
    abs.SetSign(1);
    var estimate := DigitsInBase(abs, base);
    var len := (if n.width < 0 then 1 else 0) + estimate + |prefix| + 1;
    CharsLength(Mag(n.digits), base);
    var writer := "0";
    if n.width != 0 {
      writer := WriteDigits(abs, base);
    }
    writer := writer + prefix;
    if n.width < 0 {
      writer := writer + "-";
    }
    assert |writer| + 1 <= len;
    ReversedText(n.Value(), base, prefix, writer);
    rev := Reverse(writer);
  }

  lemma CharsLength(n: nat, base: nat)
    requires 2 <= base <= 16
    ensures |Chars(DigitsOf(n, base))| == |DigitsOf(n, base)|
  {
  }

  lemma NoChars(base: nat)
    requires 2 <= base <= 16
    ensures Chars(DigitsOf(0, base)) == ""
  {
  }

  lemma ReversedSnoc<T>(s: seq<T>, e: T)
    ensures Reversed([e] + s) == Reversed(s) + [e]
  {
  }

  lemma ReversedText(v: int, base: nat, prefix: string, all: string)
    requires 2 <= base <= 16
    requires all == (if v == 0 then "0" else Chars(DigitsOf(if v < 0 then -v else v, base))) + prefix + (if v < 0 then "-" else "")
    ensures Reversed(all) == Text(v, base, prefix)
  {
    hide Chars, DigitsOf;
    var digits := if v == 0 then "0" else Chars(DigitsOf(if v < 0 then -v else v, base));
    assert Reversed("0") == "0" && Reversed("-") == "-";
    assert Reversed(all) == (if v < 0 then "-" else "") + Reversed(prefix) + Reversed(digits);
  }

  // ----- parsing -----

  /** The rest of the text, from `x` on, has been packed: `i` digits are written and `cnt` bits (none if negative)
      wait in `buf`. */
  ghost predicate Packed(t: string, base: nat, num: Digits, x: nat, i: nat, buf: nat, cnt: int) {
    && x <= |t| && i <= |num| && (cnt >= 0 ==> buf < Pow2(cnt)) && (cnt < 0 ==> buf == 0 && x == 0)
    && Val(base, t) == (if x == 0 then 0 else Val(base, t[..x]) * Pow2(DIGIT_SHIFT * i + cnt))
                       + Below(BASE, num, i) + Weight(BASE, i) * buf
  }

  /** Drop underscores before `x0`. */
  method SkipBack(t: string, x0: nat) returns (x: nat)
    requires x0 <= |t|
    ensures x <= x0 && (x > 0 ==> t[x - 1] != '_')
    ensures forall base :: Val(base, t[..x]) == Val(base, t[..x0])
    ensures CountDigits(t[..x]) == CountDigits(t[..x0])
  {
    hide Val, CountDigits;
    x := x0;
    while x > 0 && t[x - 1] == '_'
      invariant x <= x0
      invariant forall base :: Val(base, t[..x]) == Val(base, t[..x0])
      invariant CountDigits(t[..x]) == CountDigits(t[..x0])
    {
      LastUnderscore(t, x);
      x := x - 1;
    }
  }

  lemma LastUnderscore(t: string, x: nat)
    requires 0 < x <= |t| && t[x - 1] == '_'
    ensures forall base :: Val(base, t[..x - 1]) == Val(base, t[..x])
    ensures CountDigits(t[..x - 1]) == CountDigits(t[..x])
  {
    assert t[..x][..x - 1] == t[..x - 1];
  }

  lemma LastDigit(base: nat, t: string, x: nat)
    requires 0 < x <= |t| && t[x - 1] != '_'
    ensures Val(base, t[..x]) == Val(base, t[..x - 1]) * base + DigitValue(t[x - 1])
    ensures CountDigits(t[..x]) == CountDigits(t[..x - 1]) + 1
  {
    assert t[..x][..x - 1] == t[..x - 1];
  }

  /** One more character goes into the buffer. */
  lemma PackStep(t: string, base: nat, bits: nat, num: Digits, x: nat, x': nat, i: nat, buf: nat, cnt: nat)
    requires Packed(t, base, num, x, i, buf, cnt) && 0 < x && t[x - 1] != '_' && base == Pow2(bits)
    requires DigitValue(t[x - 1]) < base && x' < x && Val(base, t[..x']) == Val(base, t[..x - 1])
    ensures DigitValue(t[x - 1]) * Pow2(cnt) >= 0
    ensures Packed(t, base, num, x', i, buf + DigitValue(t[x - 1]) * Pow2(cnt), cnt + bits)
  {
    hide Pow2, Below, Weight, Val, DigitValue;
    var d, w, p, v := DigitValue(t[x - 1]), Weight(BASE, i), Pow2(cnt), Val(base, t[..x']);
    LastDigit(base, t, x);
    BitWeight(i, cnt);
    Pow2Add(DIGIT_SHIFT * i + cnt, bits);
    Pow2Add(cnt, bits);
    assert DIGIT_SHIFT * i + cnt + bits == DIGIT_SHIFT * i + (cnt + bits);
    PackSum(v, base, d, w, p, buf);
    NoText(base, t[..x']);
  }

  lemma PackSum(v: nat, base: nat, d: nat, w: nat, p: nat, buf: nat)
    requires d < base && buf < p
    ensures (v * base + d) * (w * p) + w * buf == v * ((w * p) * base) + w * (buf + d * p)
    ensures buf + d * p < p * base && d * p >= 0
  {
    assert (v * base + d) * (w * p) == (v * base) * (w * p) + d * (w * p);
    assert (v * base) * (w * p) == v * ((w * p) * base);
    assert d * (w * p) == w * (d * p);
    MulLe(d + 1, base, p);
    assert (d + 1) * p == d * p + p;
  }

  lemma NoText(base: nat, s: string)
    ensures s == "" ==> Val(base, s) == 0
  {
  }

  /** A full digit leaves the buffer. */
  lemma EmitStep(t: string, base: nat, num: Digits, x: nat, i: nat, buf: nat, cnt: int)
    requires Packed(t, base, num, x, i, buf, cnt) && cnt >= 0 && (cnt >= DIGIT_SHIFT || x == 0) && i < |num|
    ensures Packed(t, base, num[i := buf % BASE], x, i + 1, buf / BASE, cnt - DIGIT_SHIFT)
  {
    hide Pow2, Below, Weight, Val;
    BelowPut(BASE, num, i, buf % BASE);
    BelowNext(BASE, num, i);
    Spread(BASE, Weight(BASE, i), buf % BASE, buf / BASE);
    assert DIGIT_SHIFT * (i + 1) + (cnt - DIGIT_SHIFT) == DIGIT_SHIFT * i + cnt;
    Pow2Digit();
    if cnt >= DIGIT_SHIFT {
      Pow2Add(DIGIT_SHIFT, cnt - DIGIT_SHIFT);
      QuotientBelow(buf, BASE, Pow2(cnt - DIGIT_SHIFT));
    } else {
      Pow2Monotone(cnt, DIGIT_SHIFT);
    }
  }

  /** The bases whose digits are whole bits: pack them from the right, into digits counted beforehand. */
  method ParsePower(t: string, base: nat, bits: nat, num: Long) returns (err: nat)
    requires base == Pow2(bits) && 1 <= bits <= 5 && num.Valid()
    modifies num
    ensures num.Valid() && num.width >= 0
    ensures if AllDigits(base, t) && CountDigits(t) > 0 then err == 0 && Mag(num.digits) == Val(base, t) else err == 1
  {
    hide Pow2, Mag, Val, CountDigits, Packed, DigitValue;
    var digits := 0;
    var y: nat := 0;
    NoCount(t);
    while y < |t|
      invariant y <= |t| && digits == CountDigits(t[..y]) && AllDigits(base, t[..y])
    {
      CountNext(t, y);
      if t[y] != '_' {
        if DigitValue(t[y]) >= base {
          num.Clear();
          return 1;
        }
        digits := digits + 1;
      }
      y := y + 1;
    }
    assert t[..|t|] == t;
    if digits == 0 {
      num.Clear();
      return 1;
    }
    num.Clear();
    num.Resize((digits * bits - 1) / DIGIT_SHIFT + 1);
    PackDigits(t, base, bits, num, digits);
    num.Trim();
    err := 0;
  }

  lemma NoCount(t: string)
    ensures CountDigits(t[..0]) == 0 && AllDigits(0, t[..0])
  {
  }

  lemma CountNext(t: string, y: nat)
    requires y < |t|
    ensures CountDigits(t[..y + 1]) == CountDigits(t[..y]) + if t[y] == '_' then 0 else 1
  {
    assert t[..y + 1][..y] == t[..y];
  }

  method PackDigits(t: string, base: nat, bits: nat, num: Long, digits: nat)
    requires base == Pow2(bits) && 1 <= bits <= 5 && num.Sized() && num.width > 0
    requires digits == CountDigits(t) > 0 && AllDigits(base, t) && |num.digits| == (digits * bits - 1) / DIGIT_SHIFT + 1
    requires forall k | 0 <= k < |num.digits| :: num.digits[k] == 0
    modifies num
    ensures num.Sized() && num.width > 0 && Mag(num.digits) == Val(base, t)
  {
    hide Pow2, Mag, Val, CountDigits, Packed, DigitValue, Below;
    var cnt: int := 0;
    var buf: nat := 0;
    var i: nat := 0;
    assert t[..|t|] == t;
    var x: nat := SkipBack(t, |t|);
    PackStart(t, base, num.digits, x);
    while x != 0 || buf > 0
      invariant x <= |t| && (x > 0 ==> t[x - 1] != '_' && 0 <= cnt) && cnt < DIGIT_SHIFT
      invariant num.Sized() && num.width > 0 && |num.digits| == |old(num.digits)| && i <= |num.digits|
      invariant forall k | i <= k < |num.digits| :: num.digits[k] == 0
      invariant Packed(t, base, num.digits, x, i, buf, cnt)
      invariant bits * (digits - CountDigits(t[..x])) == DIGIT_SHIFT * i + cnt
      decreases x, buf
    {
      RoomForDigit(t, base, bits, num.digits, x, i, buf, cnt, digits);
      x, buf, cnt := FillBuffer(t, base, bits, num.digits, x, i, buf, cnt, digits);
      EmitStep(t, base, num.digits, x, i, buf, cnt);
      num.digits := num.digits[i := buf % BASE];
      i := i + 1;
      cnt := cnt - DIGIT_SHIFT;
      buf := buf / BASE;
    }
    PackedAll(t, base, num.digits, i, cnt);
  }

  /** Take characters from the right until a whole digit waits in the buffer, or none is left. */
  method FillBuffer(t: string, base: nat, bits: nat, ghost num: Digits, x0: nat, ghost i: nat, buf0: nat, cnt0: nat, ghost digits: nat)
    returns (x: nat, buf: nat, cnt: nat)
    requires base == Pow2(bits) && 1 <= bits <= 5 && AllDigits(base, t) && cnt0 < DIGIT_SHIFT
    requires Packed(t, base, num, x0, i, buf0, cnt0) && x0 <= |t| && (x0 > 0 ==> t[x0 - 1] != '_')
    requires bits * (digits - CountDigits(t[..x0])) == DIGIT_SHIFT * i + cnt0
    ensures x <= x0 && (x > 0 ==> t[x - 1] != '_' && x < x0 && cnt >= DIGIT_SHIFT) && cnt < DIGIT_SHIFT + bits
    ensures x0 == 0 ==> buf == buf0
    ensures Packed(t, base, num, x, i, buf, cnt)
    ensures bits * (digits - CountDigits(t[..x])) == DIGIT_SHIFT * i + cnt
  {
    hide Pow2, Val, CountDigits, Packed, DigitValue;
    x, buf, cnt := x0, buf0, cnt0;
    while cnt < DIGIT_SHIFT && x > 0
      invariant x <= x0 && (x > 0 ==> t[x - 1] != '_') && cnt < DIGIT_SHIFT + bits
      invariant x == x0 ==> buf == buf0 && cnt == cnt0
      invariant Packed(t, base, num, x, i, buf, cnt)
      invariant bits * (digits - CountDigits(t[..x])) == DIGIT_SHIFT * i + cnt
      decreases x
    {
      ghost var y := x;
      LastDigit(base, t, x);
      var d := DigitValue(t[x - 1]);
      x := SkipBack(t, x - 1);
      PackStep(t, base, bits, num, y, x, i, buf, cnt);
      OneMore(bits, digits, CountDigits(t[..y]));
      buf := buf + d * Pow2(cnt);
      cnt := cnt + bits;
    }
  }

  lemma OneMore(bits: nat, digits: int, count: int)
    ensures bits * (digits - (count - 1)) == bits * (digits - count) + bits
  {
  }

  lemma PackStart(t: string, base: nat, num: Digits, x: nat)
    requires x <= |t| && Val(base, t[..x]) == Val(base, t)
    ensures Packed(t, base, num, x, 0, 0, 0)
  {
    BelowNone(BASE, num);
    PowNone();
    NoText(base, t[..x]);
    assert Weight(BASE, 0) * 0 == 0;
  }

  /** The digits counted beforehand always suffice. */
  lemma RoomForDigit(t: string, base: nat, bits: nat, num: Digits, x: nat, i: nat, buf: nat, cnt: int, digits: nat)
    requires Packed(t, base, num, x, i, buf, cnt) && (x > 0 || buf > 0) && (x > 0 ==> t[x - 1] != '_' && cnt >= 0)
    requires bits * (digits - CountDigits(t[..x])) == DIGIT_SHIFT * i + cnt && bits >= 1
    requires |num| == (digits * bits - 1) / DIGIT_SHIFT + 1
    ensures i < |num| && cnt >= 0
  {
    hide Pow2, Val;
    PowNone();
    assert bits * (digits - CountDigits(t[..x])) == bits * digits - bits * CountDigits(t[..x]) && bits * digits == digits * bits;
    if x > 0 {
      LastDigit(base, t, x);
      MulLe(1, CountDigits(t[..x]), bits);
    } else {
      assert t[..x] == "" && bits * 0 == 0;
    }
  }

  lemma PackedAll(t: string, base: nat, num: Digits, i: nat, cnt: int)
    requires Packed(t, base, num, 0, i, 0, cnt) && forall k | i <= k < |num| :: num[k] == 0
    ensures Mag(num) == Val(base, t)
  {
    hide Pow2, Val, Below, Weight;
    assert Weight(BASE, i) * 0 == 0;
    BelowSame(BASE, num, num[..i], |num|);
    BelowAll(BASE, num[..i], |num|);
    BelowSame(BASE, num[..i], num, i);
  }

  // Chunks of digits are gathered while their weight stays below this.
  const CHUNK_LIMIT := 0x10000000000000

  /** The other bases: gather digits into machine-sized chunks, and multiply and add chunk by chunk. */
  method ParseChunks(t: string, base: nat, num: Long) returns (err: nat)
    requires 2 <= base <= 36 && num.Valid() && num.width == 0
    modifies num
    ensures num.Valid() && num.width >= 0
    ensures if AllDigits(base, UpToNul(t)) then err == 0 && Mag(num.digits) == Val(base, UpToNul(t)) else err == 1
  {
    hide Mag, Val, DigitValue;
    var c: nat := 0;
    NoText(base, t[..0]);
    MagNone(num.digits);
    while c < |t| && t[c] != '\0'
      invariant c <= |t| && (forall k | 0 <= k < c :: t[k] != '\0') && AllDigits(base, t[..c])
      invariant num.Valid() && num.width >= 0 && Mag(num.digits) == Val(base, t[..c])
      decreases |t| - c
    {
      var next, accum, basediv := Chunk(t, base, c);
      if next < 0 {
        num.Clear();
        BadText(t, base);
        return 1;
      }
      var weight := new Long(0, []);
      weight.InitUi(basediv);
      NonNegativeProduct(Mag(num.digits), basediv);
      num.Mul(num, weight);
      NonNegative(num);
      var scratch := new Long(0, []);
      scratch.InitUi(accum);
      num.Add(num, scratch);
      NonNegative(num);
      c := next;
    }
    NulAt(t, c);
    return 0;
  }

  lemma NonNegativeProduct(x: nat, y: nat)
    ensures x * y >= 0
  {
  }

  /** Some character before the first NUL is no digit. */
  ghost predicate Spoiled(t: string, base: nat) {
    exists k :: 0 <= k < |t| && t[k] != '_' && DigitValue(t[k]) >= base && forall j | 0 <= j <= k :: t[j] != '\0'
  }

  lemma {:induction false} BadText(t: string, base: nat)
    requires Spoiled(t, base)
    ensures !AllDigits(base, UpToNul(t))
  {
    var k :| 0 <= k < |t| && t[k] != '_' && DigitValue(t[k]) >= base && forall j | 0 <= j <= k :: t[j] != '\0';
    BeforeNul(t, k + 1);
    assert UpToNul(t)[k] == t[k];
  }

  lemma {:induction false} BeforeNul(t: string, k: nat)
    requires k <= |t| && forall j | 0 <= j < k :: t[j] != '\0'
    ensures |UpToNul(t)| >= k
    decreases k
  {
    if k > 0 {
      BeforeNul(t[1..], k - 1);
    }
  }

  lemma {:induction false} NulAt(t: string, c: nat)
    requires c <= |t| && (forall k | 0 <= k < c :: t[k] != '\0') && (c == |t| || t[c] == '\0')
    ensures UpToNul(t) == t[..c]
    decreases c
  {
    if c > 0 {
      NulAt(t[1..], c - 1);
      assert t[..c] == [t[0]] + t[1..][..c - 1];
    }
  }

  /** One chunk from `c`: where it ends (negative if a character is no digit), its value and its weight. */
  method Chunk(t: string, base: nat, c: nat) returns (next: int, accum: nat, basediv: nat)
    requires 2 <= base <= 36 && c < |t| && t[c] != '\0' && forall k | 0 <= k < c :: t[k] != '\0'
    requires AllDigits(base, t[..c])
    ensures next < 0 ==> Spoiled(t, base)
    ensures next >= 0 ==> c < next <= |t| && (forall k | 0 <= k < next :: t[k] != '\0') && AllDigits(base, t[..next])
    ensures next >= 0 ==> Val(base, t[..next]) == Val(base, t[..c]) * basediv + accum
  {
    hide Val, DigitValue;
    accum, basediv := 0, 1;
    var at: nat := c;
    while at < |t| && t[at] != '\0' && basediv * base < CHUNK_LIMIT
      invariant c <= at <= |t| && (forall k | 0 <= k < at :: t[k] != '\0') && AllDigits(base, t[..at])
      invariant Val(base, t[..at]) == Val(base, t[..c]) * basediv + accum
      invariant at == c ==> basediv == 1
      decreases |t| - at
    {
      if t[at] == '_' {
        LastUnderscore(t, at + 1);
      } else {
        if DigitValue(t[at]) >= base {
          return -1, 0, 0;
        }
        LastDigit(base, t, at + 1);
        ChunkStep(Val(base, t[..c]), basediv, accum, base);
        basediv := basediv * base;
        accum := accum * base + DigitValue(t[at]);
      }
      at := at + 1;
    }
    next := at;
  }

  lemma ChunkStep(v: nat, basediv: nat, accum: nat, base: nat)
    ensures (v * basediv + accum) * base == v * (basediv * base) + accum * base
    ensures basediv * base >= 0 && accum * base >= 0
  {
    assert (v * basediv) * base == v * (basediv * base);
  }

  /** A leading minus negates what the rest means. */
  lemma Negated(base: nat, t: string)
    ensures match InterpretUnsigned(1, base, t)
            case Good(v) => v >= 0 && InterpretUnsigned(-1, base, t) == Good(-v)
            case Bad(code) => InterpretUnsigned(-1, base, t) == Bad(code)
  {
    hide Val, AllDigits, CountDigits, UpToNul;
  }

  method ParseUnsigned(t: string, base0: nat, num: Long) returns (err: nat)
    requires num.Valid() && num.width == 0
    modifies num
    ensures num.Valid() && num.width >= 0
    ensures match InterpretUnsigned(1, base0, t)
            case Good(v) => err == 0 && Mag(num.digits) == v
            case Bad(code) => err == code && err != 0
  {
    hide Mag, Val, DigitValue, AllDigits, CountDigits, UpToNul, InterpretDigits;
    MagNone(num.digits);
    if t == "" {
      return 1;
    }
    var base, c: nat := base0, 0;
    if base == 0 {
      base := 10;
      if t[0] == '0' {
        c := 1;
        if c == |t| {
          return 0;
        }
        if t[1] == 'x' || t[1] == 'X' {
          base := 16;
        } else if t[1] == 'o' || t[1] == 'O' {
          base := 8;
        } else if t[1] == 'b' || t[1] == 'B' {
          base := 2;
        } else {
          return 2;
        }
        c := 2;
      }
    }
    assert t[0..] == t;
    err := ParseDigits(t[c..], base, num);
  }

  method ParseDigits(t: string, base: nat, num: Long) returns (err: nat)
    requires num.Valid() && num.width == 0 && base != 0
    modifies num
    ensures num.Valid() && num.width >= 0
    ensures match InterpretDigits(1, base, t)
            case Good(v) => err == 0 && Mag(num.digits) == v
            case Bad(code) => err == code && err != 0
  {
    hide Mag, Val, DigitValue, AllDigits, CountDigits, UpToNul, Pow2;
    if t == "" {
      return 1;
    }
    if base == 1 || base > 36 {
      return 2;
    }
    SmallBase(1);
    SmallBase(2);
    SmallBase(3);
    SmallBase(4);
    if base == 2 {
      err := ParsePower(t, base, 1, num);
    } else if base == 4 {
      err := ParsePower(t, base, 2, num);
    } else if base == 8 {
      err := ParsePower(t, base, 3, num);
    } else if base == 16 {
      err := ParsePower(t, base, 4, num);
    } else if base == 32 {
      assert Pow2(5) == 32 by { Pow2Add(4, 1); }
      err := ParsePower(t, base, 5, num);
    } else {
      err := ParseChunks(t, base, num);
    }
  }

  /** krk_long_parse_string: the error code, or 0 with the number. */
  method ParseString(text: string, base0: nat, num: Long) returns (err: nat)
    requires num.Valid() && num.width == 0
    modifies num
    ensures num.Valid()
    ensures match Interpret(text, base0) case Good(v) => err == 0 && num.Value() == v case Bad(code) => err == code
  {
    hide Mag, Val, DigitValue, AllDigits, CountDigits, UpToNul, Pow2;
    var c, end: nat := 0, |text|;
    assert text[..] == text;
    while c < end && Space(text[c])
      invariant c <= end && StripLeft(text[c..]) == StripLeft(text)
    {
      assert text[c..][1..] == text[c + 1..];
      c := c + 1;
    }
    ghost var s := text[c..];
    assert StripLeft(text) == s && text[c..end] == s;
    while end > c && Space(text[end - 1])
      invariant c <= end <= |text| && StripRight(text[c..end]) == StripRight(s)
      decreases end
    {
      assert text[c..end][..end - c - 1] == text[c..end - 1];
      end := end - 1;
    }
    assert StripRight(s) == text[c..end];
    if c >= end {
      return 1;
    }
    s := text[c..end];
    var sign := 1;
    if text[c] == '-' {
      sign := -1;
      c := c + 1;
    } else if text[c] == '+' {
      c := c + 1;
    }
    err := ParseUnsigned(text[c..end], base0, num);
    Negated(base0, text[c..end]);
    if sign == -1 && err == 0 {
      num.SetSign(-1);
    }
  }
}
