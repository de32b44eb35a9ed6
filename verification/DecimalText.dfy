/** krk_long_to_decimal_str of src/obj_long.c: the decimal text of a long through huge decimals. */
module DecimalText {
  import opened Arith
  import opened Positional
  import opened LongDigits
  import opened Longs
  import opened HugeDecimal
  import opened LongText

  const LIMB_DIGITS := 9

  /** The first `j` decimal digits of a limb. */
  function Leading(d: Limb, j: nat): nat
    requires j <= LIMB_DIGITS
  {
    Div(d, Weight(10, LIMB_DIGITS - j))
  }

  lemma LeadingStep(d: Limb, j: nat)
    requires j < LIMB_DIGITS
    ensures var div := Weight(10, LIMB_DIGITS - 1 - j);
      0 <= (d / div) % 10 < 10 && Leading(d, j + 1) == Leading(d, j) * 10 + (d / div) % 10
  {
    hide Weight;
    var w := Weight(10, LIMB_DIGITS - 1 - j);
    BelowNext(10, [], LIMB_DIGITS - 1 - j);
    TenthQuotient(d, w);
  }

  lemma TenthQuotient(m: nat, w: nat)
    requires w > 0
    ensures Div(m, w) == Div(m, 10 * w) * 10 + (m / w) % 10
  {
    var q, r := m / w, m % w;
    var h, b := q / 10, q % 10;
    assert m == w * q + r && q == 10 * h + b;
    assert w * q == (10 * w) * h + w * b by { assert w * (10 * h + b) == w * (10 * h) + w * b; }
    MulLe(b, 9, w);
    DivIs(m, 10 * w, h, w * b + r);
  }

  lemma LeadingEnds(d: Limb)
    ensures Leading(d, 0) == 0 && Leading(d, LIMB_DIGITS) == d
  {
    LimbWeight();
    DivIs(d, LIMB, 0, d);
    DivIs(d, 1, d, 0);
  }

  lemma LimbWeight()
    ensures Weight(10, LIMB_DIGITS) == LIMB && Weight(10, 0) == 1
  {
    assert Weight(10, 3) == 1000;
    WeightAdd(10, 3, 3);
    WeightAdd(10, 6, 3);
  }

  /** Characters that are decimal digits and read as `v`. */
  ghost predicate Reads(s: string, v: nat) {
    AllDigits(10, s) && Plain(s) && Val(10, s) == v
  }

  lemma AppendDigit(s: string, v: nat, d: nat)
    requires Reads(s, v) && d < 10
    ensures Reads(s + [VALS[d]], v * 10 + d)
  {
    var t := s + [VALS[d]];
    assert t[..|t| - 1] == s;
    ValsValue(d);
  }

  /** How many of a limb's nine digits are leading zeros. */
  method LeadingZeros(d: Limb) returns (leading: nat)
    ensures leading <= LIMB_DIGITS && Leading(d, leading) == 0 && (d > 0 <==> leading < LIMB_DIGITS)
  {
    hide Weight, Leading;
    leading := 0;
    LeadingEnds(d);
    while leading < LIMB_DIGITS && (d / Weight(10, LIMB_DIGITS - 1 - leading)) % 10 == 0
      invariant leading <= LIMB_DIGITS && Leading(d, leading) == 0
    {
      LeadingStep(d, leading);
      leading := leading + 1;
    }
  }

  /** Write one limb's digits, leaving out the first `skip` when nothing is written yet. */
  method WriteLimb(writer: string, d: Limb, skip: nat, ghost v: nat) returns (out: string)
    requires Reads(writer, v) && skip <= LIMB_DIGITS && (skip > 0 ==> writer == "" && v == 0 && Leading(d, skip) == 0)
    ensures Reads(out, v * LIMB + d) && |out| == |writer| + LIMB_DIGITS - skip
  {
    hide Weight, Leading, Reads;
    out := writer;
    LeadingEnds(d);
    LimbWeight();
    var j := skip;
    BelowNone(10, []);
    SkippedZeros(d, skip, v);
    while j < LIMB_DIGITS
      invariant skip <= j <= LIMB_DIGITS && |out| == |writer| + j - skip
      invariant Reads(out, v * Weight(10, j) + Leading(d, j))
    {
      LeadingStep(d, j);
      var digit := (d / Weight(10, LIMB_DIGITS - 1 - j)) % 10;
      AppendDigit(out, v * Weight(10, j) + Leading(d, j), digit);
      BelowNext(10, [], j);
      assert (v * Weight(10, j)) * 10 == v * (10 * Weight(10, j));
      out := out + [VALS[digit]];
      j := j + 1;
    }
  }

  lemma SkippedZeros(d: Limb, skip: nat, v: nat)
    requires skip <= LIMB_DIGITS && (skip > 0 ==> v == 0 && Leading(d, skip) == 0)
    ensures v * Weight(10, skip) + Leading(d, skip) == v
  {
    LeadingEnds(d);
    if skip == 0 {
      assert v * 1 == v;
    } else {
      assert 0 * Weight(10, skip) == 0;
    }
  }

  /** The text of a long reads as that long. Zero's is empty: all nine digits of its limb are leading zeros, and the
      callers keep small longs away from here. */
  method DecimalStr(n: Long) returns (out: string)
    requires n.Valid()
    ensures if n.width == 0 then out == "" else Interpret(out, 10) == Good(n.Value())
  {
    hide Mag, Dec, Weight, From, Reads, Leading, Pow2;
    var abs := new Long(0, []);
    abs.InitCopy(n);
    abs.SetSign(1);
    var w := abs.BitsIn();
    var digits := LongToDec(abs, w);
    ghost var m := Mag(abs.digits);
    if n.width != 0 {
      MagPositive(abs.digits);
    }
    DecNone(digits);
    var size := |digits|;
    var leading := LeadingZeros(digits[size - 1]);
    var writer := "";
    assert Reads("", 0) by { ReadsNothing(); }
    FromEnd(LIMB, digits);
    var i: nat := 0;
    while i < size
      invariant i <= size && From(LIMB, digits, size - i) >= 0 && Reads(writer, From(LIMB, digits, size - i))
      invariant i == 0 || n.width == 0 ==> writer == ""
    {
      FromNonNegative(LIMB, digits, size - i);
      writer := WriteLimb(writer, digits[size - i - 1], if i == 0 then leading else 0, From(LIMB, digits, size - i));
      FromNext(LIMB, digits, size - i - 1);
      FromNonNegative(LIMB, digits, size - i - 1);
      i := i + 1;
    }
    DecFrom(digits);
    if n.width != 0 {
      ReadsAs(n.width < 0, writer, m);
    }
    out := (if n.width < 0 then "-" else "") + writer;
  }

  lemma DecNone(ds: Limbs)
    ensures Dec(ds) > 0 ==> |ds| > 0
  {
  }

  lemma DecFrom(ds: Limbs)
    ensures Dec(ds) == From(LIMB, ds, 0)
  {
    FromAll(LIMB, ds);
  }

  lemma ReadsNothing()
    ensures Reads("", 0)
  {
  }

  /** Plain digits with a sign in front are read as the signed number. */
  lemma ReadsAs(negative: bool, s: string, v: int)
    requires v > 0 && Reads(s, v)
    ensures Interpret((if negative then "-" else "") + s, 10) == Good(if negative then -v else v)
  {
    hide Interpret, Val, AllDigits, CountDigits, UpToNul;
    assert s != "" by { EmptyVal(s); }
    SignedPlain(negative, s, 10);
    PlainStays(s);
  }

  lemma EmptyVal(s: string)
    ensures s == "" ==> Val(10, s) == 0
  {
  }
}
