/** long.to_bytes of src/obj_long.c. */
module LongBytes {
  import opened Arith
  import opened Positional
  import opened LongDigits
  import opened Longs
  import opened LongShifts
  import opened LongPrint
  import opened BitOps
  import opened Sorting

  type Byte = b: int | 0 <= b < 256

  datatype Encoded = Bytes(bytes: seq<Byte>) | NegativeUnsigned | TooBig

  /** The bytes of `n` in two's complement, least significant first. */
  ghost predicate Encodes(bytes: seq<Byte>, n: int) {
    Magnitude(256, bytes) == if n < 0 then n + Weight(256, |bytes|) else n
  }

  /** Whether `n` has a representation of `length` bytes; zero has one even without any. */
  ghost predicate Representable(n: int, length: nat, signed: bool) {
    if signed && n != 0 then FitsIn(n, 8 * length) else 0 <= n < Pow2(8 * length)
  }

  /** The byte reader: collect digits until 8 bits wait, stop once digits and bits have run out. */
  method ReadBytes(tmp: Long, length: nat) returns (bytes: seq<Byte>)
    requires tmp.Valid() && tmp.width >= 0 && Mag(tmp.digits) < Weight(256, length)
    ensures |bytes| == length && Magnitude(256, bytes) == Mag(tmp.digits)
  {
    hide Mag, Pow2, Below, Weight, Remaining;
    var ds := tmp.digits;
    bytes := seq(length, _ => 0);
    var i: nat, j: nat, accum: nat, remaining: nat := 0, 0, 0, 0;
    var breakHere := false;
    ghost var rest := Mag(ds);
    ReaderStart(ds);
    BelowNone(256, bytes);
    while i < length && !breakHere
      invariant i <= length == |bytes| && j <= |ds| && accum < Pow2(remaining)
      invariant (forall k | i <= k < length :: bytes[k] == 0) && Remaining(ds, j, accum, remaining, rest)
      invariant Below(256, bytes, i) + Weight(256, i) * rest == Mag(ds)
      invariant breakHere ==> rest == 0
      decreases length - i
    {
      if remaining < 8 {
        MoreBits(accum, remaining);
        if j < |ds| {
          RefillSum(ds, j, accum, remaining);
          Refill(ds, j, accum, remaining, rest);
          accum := accum + ds[j] * Pow2(remaining);
          j := j + 1;
        } else {
          LastBits(ds, accum, remaining, rest);
          breakHere := true;
        }
        remaining := remaining + 31;
      }
      EightBits();
      Taken(ds, j, accum, remaining, rest, 8);
      TakeBits(accum, 0, remaining, 8);
      var byte := accum % 256;
      BelowPut(256, bytes, i, byte);
      bytes := bytes[i := byte];
      BelowNext(256, bytes, i);
      ByteStep(Weight(256, i), rest);
      accum := accum / 256;
      remaining := remaining - 8;
      rest := Div(rest, 256);
      i := i + 1;
    }
    BytesDone(bytes, i, rest, Mag(ds));
  }

  lemma ReaderStart(ds: Digits)
    ensures Remaining(ds, 0, 0, 0, Mag(ds)) && 0 < Pow2(0) && Weight(256, 0) * Mag(ds) == Mag(ds)
  {
    PowNone();
    MagFrom(ds);
    FromEnd(BASE, ds);
  }

  lemma EightBits()
    ensures Pow2(8) == 256
  {
  }

  lemma MoreBits(accum: nat, remaining: nat)
    requires accum < Pow2(remaining)
    ensures accum < Pow2(remaining + 31)
  {
    Pow2Monotone(remaining, remaining + 31);
  }

  /** Once the digits have run out, the bits that wait are less than a byte. */
  lemma LastBits(ds: Digits, accum: nat, remaining: nat, rest: nat)
    requires Remaining(ds, |ds|, accum, remaining, rest) && accum < Pow2(remaining) && remaining < 8
    ensures Remaining(ds, |ds|, accum, remaining + 31, rest) && Div(rest, 256) == 0
  {
    Pow2Monotone(remaining, 8);
    EightBits();
    DivIs(rest, 256, 0, rest);
  }

  lemma ByteStep(w: nat, rest: nat)
    ensures w * rest == w * (rest % 256) + (256 * w) * Div(rest, 256)
  {
    Spread(256, w, rest % 256, rest / 256);
  }

  lemma BytesDone(bytes: seq<Byte>, i: nat, rest: nat, m: nat)
    requires i <= |bytes| && (i < |bytes| ==> rest == 0) && m < Weight(256, |bytes|)
    requires forall k | i <= k < |bytes| :: bytes[k] == 0
    requires Below(256, bytes, i) + Weight(256, i) * rest == m
    ensures Magnitude(256, bytes) == m
  {
    hide Below, Weight;
    BelowBound(256, bytes, i);
    if i == |bytes| {
      NothingAbove(Below(256, bytes, i), Weight(256, i), rest);
    } else {
      assert Weight(256, i) * 0 == 0;
      BelowSame(256, bytes, bytes[..i], |bytes|);
      BelowAll(256, bytes[..i], |bytes|);
      BelowSame(256, bytes[..i], bytes, i);
    }
  }

  /** Inverting every byte turns |n| - 1 into the two's complement of n. */
  method Invert(bytes0: seq<Byte>) returns (bytes: seq<Byte>)
    ensures |bytes| == |bytes0|
    ensures Magnitude(256, bytes) == Weight(256, |bytes|) - 1 - Magnitude(256, bytes0)
  {
    hide Below, Weight;
    bytes := bytes0;
    var i: nat := 0;
    BelowNone(256, bytes);
    BelowNone(256, bytes0);
    while i < |bytes|
      invariant i <= |bytes| == |bytes0| && forall k | i <= k < |bytes| :: bytes[k] == bytes0[k]
      invariant Below(256, bytes, i) == Weight(256, i) - 1 - Below(256, bytes0, i)
    {
      var inverted := 255 - bytes[i];
      BelowPut(256, bytes, i, inverted);
      bytes := bytes[i := inverted];
      BelowNext(256, bytes0, i);
      InvertStep(Weight(256, i), bytes0[i]);
      i := i + 1;
    }
  }

  lemma InvertStep(w: int, d: int)
    ensures w * (255 - d) == 256 * w - w - w * d
  {
  }

  /** long.to_bytes. */
  method ToBytes(val: Long, length: nat, little: bool, signed: bool) returns (r: Encoded)
    requires val.Valid()
    ensures r.NegativeUnsigned? <==> val.Value() < 0 && !signed
    ensures r.Bytes? <==> !r.NegativeUnsigned? && Representable(val.Value(), length, signed)
    ensures r.Bytes? ==> |r.bytes| == length && Encodes(if little then r.bytes else Reversed(r.bytes), val.Value())
  {
    hide Mag, Pow2, Below, Weight, FitsIn;
    MagNone(val.digits);
    MagPositive(val.digits);
    if val.width < 0 && !signed {
      return NegativeUnsigned;
    }
    var tmp := new Long(0, []);
    tmp.InitCopy(val);
    tmp.SetSign(1);
    if val.width < 0 {
      var one := new Long(1, [1]);
      OneDigit(BASE, one.digits);
      MagOne(one.digits);
      tmp.Sub(tmp, one);
    }
    NonNegative(tmp);
    MagNone(tmp.digits);
    MagPositive(tmp.digits);
    var bitCount := tmp.BitsIn();
    if signed && val.width != 0 {
      bitCount := bitCount + 1;
    }
    Counted(val.Value(), Mag(tmp.digits), bitCount, length, signed);
    if length * 8 < bitCount {
      return TooBig;
    }
    var bytes := ReadBytes(tmp, length);
    if val.width < 0 {
      bytes := Invert(bytes);
    }
    ReversedTwice(bytes);
    r := Bytes(if little then bytes else Reversed(bytes));
  }

  lemma MagOne(ds: Digits)
    ensures |ds| == 1 ==> Mag(ds) == ds[0]
  {
    OneDigit(BASE, ds);
  }

  /** The bit count decides representability, and bounds what is encoded. */
  lemma Counted(n: int, m: nat, bitCount: nat, length: nat, signed: bool)
    requires m == (if n < 0 then -n - 1 else n) && (n < 0 ==> signed)
    requires var bits := if signed && n != 0 then bitCount - 1 else bitCount;
      && bits >= 0 && m < Pow2(bits) && (m != 0 ==> bits > 0 && Pow2(bits - 1) <= m) && (m == 0 ==> bits == 0)
    ensures length * 8 >= bitCount <==> Representable(n, length, signed)
    ensures length * 8 >= bitCount ==> m < Weight(256, length)
  {
    hide Pow2, Weight;
    var bits := if signed && n != 0 then bitCount - 1 else bitCount;
    ByteWeight(length);
    PowNone();
    var limit := if signed && n != 0 then 8 * length - 1 else 8 * length;
    if limit >= bits {
      Pow2Monotone(bits, limit);
      Pow2Monotone(limit, 8 * length);
    } else if limit >= 0 {
      Pow2Monotone(limit, bits - 1);
    }
  }

  lemma {:induction false} ByteWeight(length: nat)
    ensures Weight(256, length) == Pow2(8 * length)
    decreases length
  {
    if length > 0 {
      ByteWeight(length - 1);
      EightBits();
      Pow2Add(8, 8 * (length - 1));
    }
  }
}
