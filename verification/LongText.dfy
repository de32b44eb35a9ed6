/** Text for longs: the digits of a number in a base, how they are written and what a written number means
    (src/obj_long.c). */
module LongText {
  import opened Arith
  import opened Positional
  import opened Sorting

  // ----- digits -----

  /** The digits of `n`, least significant first; none for zero. */
  function DigitsOf(n: nat, base: nat): (ds: seq<nat>)
    requires base >= 2
    ensures forall i | 0 <= i < |ds| :: ds[i] < base
    decreases n
  {
    if n == 0 then [] else
      Shrinks(n, base);
      [n % base] + DigitsOf(Div(n, base), base)
  }

  lemma Shrinks(n: nat, base: nat)
    requires base >= 2 && n > 0
    ensures Div(n, base) < n && 0 <= n % base < base && n == base * Div(n, base) + n % base
  {
    var q, r := n / base, n % base;
    assert n == base * q + r;
    MulLe(2, base, q);
  }

  /** Reading the digits back gives the number. */
  lemma {:induction false} DigitsValue(n: nat, base: nat)
    requires base >= 2
    ensures From(base, DigitsOf(n, base), 0) == n
    decreases n
  {
    if n > 0 {
      Shrinks(n, base);
      var ds := DigitsOf(n, base);
      DigitsValue(Div(n, base), base);
      FromTail(base, ds, 0);
      assert ds[1..] == DigitsOf(Div(n, base), base);
    }
  }

  lemma {:induction false} FromTail(base: nat, ds: seq<int>, i: nat)
    requires ds != []
    ensures From(base, ds, i + 1) == From(base, ds[1..], i)
    decreases |ds| - i
  {
    if i + 1 < |ds| {
      FromTail(base, ds, i + 1);
    }
  }

  /** A number with `k` digits is at least base^(k-1). */
  lemma {:induction false} DigitsCount(n: nat, base: nat)
    requires base >= 2 && n > 0
    ensures |DigitsOf(n, base)| > 0 && Weight(base, |DigitsOf(n, base)| - 1) <= n
    decreases n
  {
    Shrinks(n, base);
    var q := Div(n, base);
    if q > 0 {
      DigitsCount(q, base);
      MulLe(Weight(base, |DigitsOf(q, base)| - 1), q, base);
    }
  }

  // ----- characters -----

  const VALS := "0123456789abcdef"

  function Chars(ds: seq<nat>): (s: string)
    requires forall i | 0 <= i < |ds| :: ds[i] < 16
    ensures |s| == |ds|
  {
    if ds == [] then "" else [VALS[ds[0]]] + Chars(ds[1..])
  }

  /** _convert_table: 255 for what is no digit in any base. */
  function DigitValue(c: char): nat {
    if '0' <= c <= '9' then c as int - '0' as int
    else if 'a' <= c <= 'z' then c as int - 'a' as int + 10
    else if 'A' <= c <= 'Z' then c as int - 'A' as int + 10
    else 255
  }

  /** Underscores are skipped. */
  predicate AllDigits(base: nat, s: string) {
    forall i | 0 <= i < |s| :: s[i] == '_' || DigitValue(s[i]) < base
  }

  function CountDigits(s: string): (n: nat)
    ensures n <= |s|
  {
    if s == "" then 0 else CountDigits(s[..|s| - 1]) + if s[|s| - 1] == '_' then 0 else 1
  }

  /** The number `s` is written for, most significant digit first. */
  function Val(base: nat, s: string): nat {
    if s == "" then 0
    else if s[|s| - 1] == '_' then Val(base, s[..|s| - 1])
    else Val(base, s[..|s| - 1]) * base + DigitValue(s[|s| - 1])
  }

  /** Written digits are read as the number they were taken from. */
  lemma {:induction false} CharsValue(base: nat, ds: seq<nat>)
    requires 2 <= base <= 16 && forall i | 0 <= i < |ds| :: ds[i] < base
    ensures var s := Reversed(Chars(ds));
      Val(base, s) == From(base, ds, 0) && AllDigits(base, s) && CountDigits(s) == |ds| && Plain(s)
    decreases |ds|
  {
    if ds != [] {
      var s, rest := Reversed(Chars(ds)), Reversed(Chars(ds[1..]));
      CharsValue(base, ds[1..]);
      assert s == rest + [VALS[ds[0]]] && s[..|s| - 1] == rest;
      ValsValue(ds[0]);
      FromTail(base, ds, 0);
    }
  }

  lemma ValsValue(d: nat)
    requires d < 16
    ensures DigitValue(VALS[d]) == d && VALS[d] != '_' && VALS[d] != '\0' && !Space(VALS[d]) && VALS[d] != '-' && VALS[d] != '+'
    ensures VALS[d] != 'x' && VALS[d] != 'X' && VALS[d] != 'o' && VALS[d] != 'O' && VALS[d] != 'B'
    ensures VALS[d] == '0' <==> d == 0
  {
  }

  // ----- what is printed -----

  /** The text of krk_long_to_str; the prefix is given reversed. */
  function Text(v: int, base: nat, prefix: string): string
    requires 2 <= base <= 16
  {
    (if v < 0 then "-" else "") + Reversed(prefix)
    + if v == 0 then "0" else Reversed(Chars(DigitsOf(if v < 0 then -v else v, base)))
  }

  // ----- what is read -----

  predicate Space(c: char) {
    c == ' ' || c == '\t' || c == '\n' || c == '\r'
  }

  /** No character of the printed digits is a sign, a space or a terminator. */
  ghost predicate Plain(s: string) {
    forall i | 0 <= i < |s| :: !Space(s[i]) && s[i] != '-' && s[i] != '+' && s[i] != '\0'
  }

  datatype Parsed = Good(v: int) | Bad(code: int)

  function StripLeft(s: string): (r: string)
    ensures |r| <= |s|
  {
    if s != "" && Space(s[0]) then StripLeft(s[1..]) else s
  }

  function StripRight(s: string): string {
    if s != "" && Space(s[|s| - 1]) then StripRight(s[..|s| - 1]) else s
  }

  /** The meaning krk_long_parse_string gives to a text; base 0 asks for a prefix. */
  function Interpret(text: string, base: nat): Parsed {
    var s := StripRight(StripLeft(text));
    if s == "" then Bad(1) else
    var sign := if s[0] == '-' then -1 else 1;
    var t := if s[0] == '-' || s[0] == '+' then s[1..] else s;
    InterpretUnsigned(sign, base, t)
  }

  function InterpretUnsigned(sign: int, base: nat, t: string): Parsed {
    if t == "" then Bad(1)
    else if base != 0 then InterpretDigits(sign, base, t)
    else if t[0] != '0' then InterpretDigits(sign, 10, t)
    else if |t| == 1 then Good(0)
    else if PrefixBase(t[1]) == 0 then Bad(2)
    else InterpretDigits(sign, PrefixBase(t[1]), t[2..])
  }

  function PrefixBase(c: char): nat {
    if c == 'x' || c == 'X' then 16 else if c == 'o' || c == 'O' then 8 else if c == 'b' || c == 'B' then 2 else 0
  }

  predicate PowerBase(base: nat) {
    base == 2 || base == 4 || base == 8 || base == 16 || base == 32
  }

  /** Digits of the other bases end at a NUL. */
  function UpToNul(s: string): (r: string)
    ensures |r| <= |s| && r == s[..|r|]
  {
    if s == "" || s[0] == '\0' then "" else [s[0]] + UpToNul(s[1..])
  }

  function InterpretDigits(sign: int, base: nat, t: string): Parsed {
    if t == "" then Bad(1)
    else if base == 1 || base > 36 then Bad(2)
    else if PowerBase(base) then
      if AllDigits(base, t) && CountDigits(t) > 0 then Good(sign * Val(base, t)) else Bad(1)
    else
      var u := UpToNul(t);
      if AllDigits(base, u) then Good(sign * Val(base, u)) else Bad(1)
  }

  // ----- round trip -----

  lemma {:induction false} PlainStays(s: string)
    requires Plain(s)
    ensures UpToNul(s) == s && StripLeft(s) == s && StripRight(s) == s
    decreases |s|
  {
    if s != "" {
      PlainStays(s[1..]);
    }
  }

  /** The digits of a nonzero number start with a nonzero one. */
  lemma {:induction false} LeadingDigit(n: nat, base: nat)
    requires base >= 2 && n > 0
    ensures DigitsOf(n, base) != [] && DigitsOf(n, base)[|DigitsOf(n, base)| - 1] != 0
    decreases n
  {
    Shrinks(n, base);
    if Div(n, base) > 0 {
      LeadingDigit(Div(n, base), base);
    }
  }

  lemma {:induction false} CharsAt(ds: seq<nat>, i: nat)
    requires i < |ds| && forall j | 0 <= j < |ds| :: ds[j] < 16
    ensures Chars(ds)[i] == VALS[ds[i]]
    decreases i
  {
    if i > 0 {
      CharsAt(ds[1..], i - 1);
    }
  }

  /** The printed digits of any number, and what they mean. */
  lemma Printed(n: nat, base: nat) returns (s: string)
    requires 2 <= base <= 16
    ensures s == if n == 0 then "0" else Reversed(Chars(DigitsOf(n, base)))
    ensures s != "" && Plain(s) && AllDigits(base, s) && CountDigits(s) > 0 && Val(base, s) == n
    ensures s[0] == '0' <==> n == 0
    ensures PrefixBase(s[0]) == 0 || s[0] == 'b'
  {
    if n == 0 {
      s := "0";
      assert s[..0] == "";
      ValsValue(0);
      assert DigitValue('0') == 0 && Val(base, s[..0]) == 0;
    } else {
      var ds := DigitsOf(n, base);
      s := Reversed(Chars(ds));
      CharsValue(base, ds);
      DigitsValue(n, base);
      LeadingDigit(n, base);
      CharsAt(ds, |ds| - 1);
      ValsValue(ds[|ds| - 1]);
    }
  }

  /** A sign and plain digits are neither stripped nor split. */
  lemma SignedPlain(negative: bool, s: string, base: nat)
    requires Plain(s) && s != ""
    ensures Interpret((if negative then "-" else "") + s, base) == InterpretUnsigned(if negative then -1 else 1, base, s)
  {
    hide InterpretUnsigned;
    var t := (if negative then "-" else "") + s;
    assert StripLeft(t) == t;
    assert t[|t| - 1] == s[|s| - 1];
    assert StripRight(t) == t;
    assert if negative then t[0] == '-' && t[1..] == s else t == s;
  }

  /** Printing in any base up to 16 and parsing in it gives the number back. */
  lemma RoundTrip(v: int, base: nat)
    requires 2 <= base <= 16
    ensures Interpret(Text(v, base, ""), base) == Good(v)
  {
    hide Interpret, Val, AllDigits, CountDigits, UpToNul;
    var n := if v < 0 then -v else v;
    var s := Printed(n, base);
    assert Text(v, base, "") == (if v < 0 then "-" else "") + s;
    SignedPlain(v < 0, s, base);
    PlainStays(s);
  }

  /** Decimal, and the prefixed forms of hex(), oct() and bin(), are read back without naming the base. */
  lemma RoundTripPrefixed(v: int, base: nat, prefix: string)
    requires (base == 10 && prefix == "") || (base == 16 && prefix == "x0") || (base == 8 && prefix == "o0")
             || (base == 2 && prefix == "b0")
    ensures Interpret(Text(v, base, prefix), 0) == Good(v)
  {
    if base == 10 {
      RoundTripDecimal(v);
    } else {
      RoundTripMarked(v, base, prefix);
    }
  }

  lemma RoundTripDecimal(v: int)
    ensures Interpret(Text(v, 10, ""), 0) == Good(v)
  {
    hide Interpret, Val, AllDigits, CountDigits, UpToNul, Chars, DigitsOf;
    var n := if v < 0 then -v else v;
    var digits := Printed(n, 10);
    PlainStays(digits);
    assert Text(v, 10, "") == (if v < 0 then "-" else "") + digits by { assert Reversed("") == ""; }
    SignedPlain(v < 0, digits, 0);
    OneZero(digits, n);
  }

  lemma RoundTripMarked(v: int, base: nat, prefix: string)
    requires (base == 16 && prefix == "x0") || (base == 8 && prefix == "o0") || (base == 2 && prefix == "b0")
    ensures Interpret(Text(v, base, prefix), 0) == Good(v)
  {
    hide Interpret, Val, AllDigits, CountDigits, UpToNul, Chars, DigitsOf, Plain;
    var n := if v < 0 then -v else v;
    var digits := Printed(n, base);
    var s := ['0', prefix[0]] + digits;
    MarkedText(v, base, prefix, digits);
    PrefixPlain(prefix[0], digits);
    SignedPlain(v < 0, s, 0);
    assert s[2..] == digits && s[1] == prefix[0] && s[0] == '0' && |s| > 2;
  }

  lemma MarkedText(v: int, base: nat, prefix: string, digits: string)
    requires 2 <= base <= 16 && |prefix| == 2 && prefix[1] == '0'
    requires digits == if v == 0 then "0" else Reversed(Chars(DigitsOf(if v < 0 then -v else v, base)))
    ensures Text(v, base, prefix) == (if v < 0 then "-" else "") + (['0', prefix[0]] + digits)
  {
    assert Reversed(prefix) == ['0', prefix[0]];
  }

  lemma OneZero(s: string, n: nat)
    requires s == if n == 0 then "0" else Reversed(Chars(DigitsOf(n, 10)))
    ensures n == 0 ==> |s| == 1
  {
  }

  lemma PrefixPlain(c: char, digits: string)
    requires Plain(digits) && (c == 'x' || c == 'o' || c == 'b')
    ensures Plain(['0', c] + digits)
  {
  }
}
