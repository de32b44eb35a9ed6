/** Which texts are numerals and what they stand for, said character by character, and what makes no difference to them
    (krk_long_parse_string and its tables in src/obj_long.c). */
module Numerals {
  import opened Positional
  import opened Sorting
  import opened LongText

  const FIGURES := "0123456789"
  const LOWER := "abcdefghijklmnopqrstuvwxyz"
  const UPPER := "ABCDEFGHIJKLMNOPQRSTUVWXYZ"

  /** A character that stands for d: a figure below ten, then the letters, large or small. */
  predicate Denotes(c: char, d: nat) {
    if d < 10 then c == FIGURES[d] else d < 36 && IsLetter(c, d - 10)
  }

  predicate IsLetter(c: char, k: nat)
    requires k < 26
  {
    c == LOWER[k] || c == UPPER[k]
  }

  predicate SameLetter(c: char, d: char) {
    c == d || exists k :: 0 <= k < 26 && ((c == UPPER[k] && d == LOWER[k]) || (c == LOWER[k] && d == UPPER[k]))
  }

  ghost predicate SameButCase(s: string, t: string) {
    |s| == |t| && forall i | 0 <= i < |s| :: SameLetter(s[i], t[i])
  }

  // ----- characters -----

  lemma Alphabet(k: nat)
    requires k < 26
    ensures LOWER[k] as int == 'a' as int + k && UPPER[k] as int == 'A' as int + k
  {
  }

  lemma Figure(d: nat)
    requires d < 10
    ensures FIGURES[d] as int == '0' as int + d
  {
  }

  lemma FigureValue(c: char, d: nat)
    requires d < 10
    ensures c == FIGURES[d] <==> DigitValue(c) == d
  {
    Figure(d);
  }

  lemma LetterMeans(c: char, k: nat)
    requires k < 26
    ensures IsLetter(c, k) <==> DigitValue(c) == k + 10
  {
    hide DigitValue;
    SameCode(c, k);
    CodeOfLetter(c, k);
  }

  lemma CodeOfLetter(c: char, k: nat)
    requires k < 26
    ensures (c as int == 'a' as int + k || c as int == 'A' as int + k) <==> DigitValue(c) == k + 10
  {
  }

  lemma SameCode(c: char, k: nat)
    requires k < 26
    ensures (c == LOWER[k] <==> c as int == 'a' as int + k) && (c == UPPER[k] <==> c as int == 'A' as int + k)
  {
    Alphabet(k);
  }

  /** The table holds just that. */
  lemma DenotesValue(c: char, d: nat)
    requires d < 36
    ensures Denotes(c, d) <==> DigitValue(c) == d
  {
    hide DigitValue, IsLetter;
    if d < 10 {
      FigureValue(c, d);
    } else {
      LetterMeans(c, d - 10);
    }
  }

  lemma CodesAlike(c: char, d: char, k: nat)
    requires k < 26 && c as int == 'A' as int + k && d as int == 'a' as int + k
    ensures DigitValue(c) == DigitValue(d) && c != '_' && d != '_' && c != '\0' && d != '\0' && !Space(c) && !Space(d)
    ensures PrefixBase(c) == PrefixBase(d) && c != '-' && d != '-' && c != '+' && d != '+' && c != '0' && d != '0'
  {
  }

  lemma LetterValue(c: char, d: char)
    requires SameLetter(c, d)
    ensures DigitValue(c) == DigitValue(d) && (c == '_' <==> d == '_') && (c == '\0' <==> d == '\0') && (Space(c) <==> Space(d))
    ensures PrefixBase(c) == PrefixBase(d) && (c == '-' <==> d == '-') && (c == '+' <==> d == '+') && (c == '0' <==> d == '0')
  {
    hide DigitValue, Space, PrefixBase;
    if c != d {
      var k :| 0 <= k < 26 && ((c == UPPER[k] && d == LOWER[k]) || (c == LOWER[k] && d == UPPER[k]));
      SameCode(c, k);
      SameCode(d, k);
      if c == UPPER[k] {
        CodesAlike(c, d, k);
      } else {
        CodesAlike(d, c, k);
      }
    }
  }

  // ----- letters' case -----

  lemma {:induction false} CaseDigits(base: nat, s: string, t: string)
    requires SameButCase(s, t)
    ensures Val(base, s) == Val(base, t) && (AllDigits(base, s) <==> AllDigits(base, t)) && CountDigits(s) == CountDigits(t)
    decreases |s|
  {
    hide SameLetter, DigitValue;
    if s != "" {
      var n := |s| - 1;
      CaseDigits(base, s[..n], t[..n]);
      LetterValue(s[n], t[n]);
    }
    forall i | 0 <= i < |s|
      ensures DigitValue(s[i]) == DigitValue(t[i]) && (s[i] == '_' <==> t[i] == '_')
    {
      LetterValue(s[i], t[i]);
    }
  }

  lemma {:induction false} CaseNul(s: string, t: string)
    requires SameButCase(s, t)
    ensures SameButCase(UpToNul(s), UpToNul(t))
    decreases |s|
  {
    hide SameLetter;
    if s != "" {
      LetterValue(s[0], t[0]);
      CaseNul(s[1..], t[1..]);
    }
  }

  lemma {:induction false} CaseStrip(s: string, t: string)
    requires SameButCase(s, t)
    ensures SameButCase(StripLeft(s), StripLeft(t)) && SameButCase(StripRight(s), StripRight(t))
    decreases |s|
  {
    hide SameLetter, Space;
    if s != "" {
      var n := |s| - 1;
      LetterValue(s[0], t[0]);
      LetterValue(s[n], t[n]);
      CaseStrip(s[1..], t[1..]);
      CaseStrip(s[..n], t[..n]);
    }
  }

  lemma CaseUnsigned(sign: int, base: nat, s: string, t: string)
    requires SameButCase(s, t)
    ensures InterpretUnsigned(sign, base, s) == InterpretUnsigned(sign, base, t)
  {
    hide SameLetter, AllDigits, Val, CountDigits, UpToNul, InterpretDigits, PrefixBase;
    CaseInterpret(sign, base, s, t);
    CaseInterpret(sign, 10, s, t);
    if |s| > 1 {
      LetterValue(s[0], t[0]);
      LetterValue(s[1], t[1]);
      CaseInterpret(sign, PrefixBase(s[1]), s[2..], t[2..]);
    } else if |s| == 1 {
      LetterValue(s[0], t[0]);
    }
  }

  lemma CaseInterpret(sign: int, base: nat, s: string, t: string)
    requires SameButCase(s, t)
    ensures InterpretDigits(sign, base, s) == InterpretDigits(sign, base, t)
  {
    hide SameLetter, AllDigits, Val, CountDigits, UpToNul;
    CaseDigits(base, s, t);
    CaseNul(s, t);
    CaseDigits(base, UpToNul(s), UpToNul(t));
  }

  /** Letters may be large or small, digits and prefixes alike. */
  lemma CaseIgnored(s: string, t: string, base: nat)
    requires SameButCase(s, t)
    ensures Interpret(s, base) == Interpret(t, base)
  {
    hide SameLetter, StripLeft, StripRight, InterpretUnsigned;
    CaseStrip(s, t);
    var a, b := StripRight(StripLeft(s)), StripRight(StripLeft(t));
    CaseStrip(StripLeft(s), StripLeft(t));
    if a != "" {
      LetterValue(a[0], b[0]);
      CaseUnsigned(1, base, a, b);
      CaseUnsigned(1, base, a[1..], b[1..]);
      CaseUnsigned(-1, base, a[1..], b[1..]);
    }
  }

  // ----- digits -----

  function Squeezed(s: string): string {
    if s == "" then "" else Squeezed(s[..|s| - 1]) + if s[|s| - 1] == '_' then "" else [s[|s| - 1]]
  }

  /** The characters of s denote the digits ds, the first the most significant. */
  ghost predicate Spells(s: string, base: nat, ds: seq<nat>) {
    |s| == |ds| && forall i | 0 <= i < |s| :: ds[i] < base && Denotes(s[i], ds[i])
  }

  /** What is read: bases that are powers of two go to the end, the others to the first NUL. */
  function Body(base: nat, t: string): string {
    if base in {2, 4, 8, 16, 32} then t else UpToNul(t)
  }

  lemma SpelledLast(rest: string, c: char, base: nat, ds: seq<nat>)
    requires Spells(rest + [c], base, ds)
    ensures ds != [] && Spells(rest, base, ds[..|ds| - 1]) && ds[|ds| - 1] < base && Denotes(c, ds[|ds| - 1])
  {
    hide Denotes;
    var k, s := |ds| - 1, rest + [c];
    assert s[k] == c;
    forall i | 0 <= i < k ensures ds[..k][i] < base && Denotes(rest[i], ds[..k][i]) {
      assert s[i] == rest[i];
    }
  }

  lemma AllLast(base: nat, s: string, n: nat)
    requires n + 1 == |s|
    ensures AllDigits(base, s) <==> AllDigits(base, s[..n]) && (s[n] == '_' || DigitValue(s[n]) < base)
  {
    hide DigitValue;
    assert forall i | 0 <= i < n :: s[..n][i] == s[i];
  }

  lemma LastCharacter(base: nat, s: string, n: nat)
    requires n + 1 == |s|
    ensures AllDigits(base, s) <==> AllDigits(base, s[..n]) && (s[n] == '_' || DigitValue(s[n]) < base)
    ensures CountDigits(s) == CountDigits(s[..n]) + if s[n] == '_' then 0 else 1
    ensures Val(base, s) == if s[n] == '_' then Val(base, s[..n]) else Val(base, s[..n]) * base + DigitValue(s[n])
    ensures Squeezed(s) == if s[n] == '_' then Squeezed(s[..n]) else Squeezed(s[..n]) + [s[n]]
  {
    hide DigitValue, AllDigits;
    AllLast(base, s, n);
    Followed(Squeezed(s[..n]));
  }

  lemma Followed(s: string)
    ensures s + "" == s
  {
  }

  lemma NothingSpelled(base: nat, ds: seq<nat>)
    requires Spells(Squeezed(""), base, ds)
    ensures AllDigits(base, "") && CountDigits("") == |ds| == 0 && Val(base, "") == From(base, Reversed(ds), 0) == 0
  {
    assert Reversed(ds) == [];
  }

  lemma {:induction false} SpelledValue(base: nat, s: string, ds: seq<nat>)
    requires 2 <= base <= 36 && Spells(Squeezed(s), base, ds)
    ensures AllDigits(base, s) && CountDigits(s) == |ds| && Val(base, s) == From(base, Reversed(ds), 0)
    decreases |s|
  {
    hide Denotes, DigitValue, Spells, AllDigits, CountDigits, Val, Squeezed, From;
    if s == "" {
      NothingSpelled(base, ds);
    } else {
      var n, k := |s| - 1, |ds| - 1;
      LastCharacter(base, s, n);
      if s[n] == '_' {
        SpelledValue(base, s[..n], ds);
      } else {
        SpelledLast(Squeezed(s[..n]), s[n], base, ds);
        SpelledValue(base, s[..n], ds[..k]);
        DenotesValue(s[n], ds[k]);
        LastFirst(base, ds);
      }
    }
  }

  lemma LastFirst(base: nat, ds: seq<nat>)
    requires ds != []
    ensures var k := |ds| - 1;
      From(base, Reversed(ds), 0) == From(base, Reversed(ds[..k]), 0) * base + ds[k]
  {
    var k := |ds| - 1;
    var r := Reversed(ds);
    assert r[0] == ds[k] && r[1..] == Reversed(ds[..k]);
    FromTail(base, r, 0);
  }

  // ----- what is refused -----

  /** No figure or letter below the base. */
  ghost predicate Foreign(c: char, base: nat) {
    c != '_' && forall d | 0 <= d < base :: !Denotes(c, d)
  }

  lemma ForeignValue(c: char, base: nat)
    requires base <= 36
    ensures Foreign(c, base) <==> c != '_' && DigitValue(c) >= base
  {
    hide Denotes, DigitValue;
    forall d: nat | d < base ensures Denotes(c, d) <==> DigitValue(c) == d {
      DenotesValue(c, d);
    }
    if DigitValue(c) < base {
      assert Denotes(c, DigitValue(c));
    }
  }

  lemma {:induction false} SqueezedCount(s: string)
    ensures CountDigits(s) == |Squeezed(s)|
    decreases |s|
  {
    if s != "" {
      SqueezedCount(s[..|s| - 1]);
    }
  }

  /** The digits of a base may be figures and letters of either case, with underscores anywhere: they stand for the number
      they spell. */
  lemma DigitsRead(sign: int, base: nat, t: string, ds: seq<nat>)
    requires 2 <= base <= 36 && t != "" && Spells(Squeezed(Body(base, t)), base, ds) && (base in {2, 4, 8, 16, 32} ==> ds != [])
    ensures InterpretDigits(sign, base, t) == Good(sign * From(base, Reversed(ds), 0))
  {
    hide Denotes, DigitValue, Spells, Squeezed, From;
    SpelledValue(base, Body(base, t), ds);
  }

  /** Everything else is refused: a character that is no digit of the base, or no digit at all where the base is a power of
      two. In the other bases nothing but underscores is a zero. */
  lemma DigitsRefused(sign: int, base: nat, t: string)
    requires 2 <= base <= 36 && t != ""
    ensures InterpretDigits(sign, base, t) == Bad(1) <==>
      var body := Body(base, t);
      (exists i :: 0 <= i < |body| && Foreign(body[i], base)) || (base in {2, 4, 8, 16, 32} && Squeezed(body) == "")
    ensures InterpretDigits(sign, base, t) == Bad(1) || InterpretDigits(sign, base, t).Good?
  {
    hide Denotes, DigitValue, Squeezed, Foreign;
    var body := Body(base, t);
    SqueezedCount(body);
    forall i | 0 <= i < |body| ensures Foreign(body[i], base) <==> body[i] != '_' && DigitValue(body[i]) >= base {
      ForeignValue(body[i], base);
    }
    assert AllDigits(base, body) <==> !exists i :: 0 <= i < |body| && Foreign(body[i], base);
  }

  /** A text that has no digit is read all the same, as zero, exactly in a base that is no power of two, if there is
      nothing but underscores up to a NUL. */
  lemma NothingRead(sign: int, base: nat, t: string)
    requires 2 <= base <= 36 && t != "" && Squeezed(Body(base, t)) == ""
    ensures InterpretDigits(sign, base, t) == if base in {2, 4, 8, 16, 32} then Bad(1) else Good(0)
  {
    if base !in {2, 4, 8, 16, 32} {
      DigitsRead(sign, base, t, []);
      assert Reversed<nat>([]) == [] && sign * 0 == 0;
    } else {
      SqueezedCount(t);
    }
  }

  /** int("_") is 0. */
  lemma UnderscoreIsZero()
    ensures Interpret("_", 10) == Good(0) && Interpret("_", 16) == Bad(1)
  {
    assert StripRight(StripLeft("_")) == "_";
    assert UpToNul("_") == "_" by { assert "_"[1..] == ""; }
    assert Squeezed("_") == "";
    NothingRead(1, 10, "_");
    NothingRead(1, 16, "_");
  }

  // ----- around the digits -----

  ghost predicate Blank(s: string) {
    forall i | 0 <= i < |s| :: s[i] in {' ', '\t', '\n', '\r'}
  }

  lemma {:induction false} BlankLeft(a: string, t: string)
    requires Blank(a)
    ensures StripLeft(a + t) == StripLeft(t)
    decreases |a|
  {
    if a == "" {
      assert a + t == t;
    } else {
      assert (a + t)[1..] == a[1..] + t;
      BlankLeft(a[1..], t);
    }
  }

  lemma {:induction false} BlankRight(t: string, b: string)
    requires Blank(b)
    ensures StripRight(t + b) == StripRight(t)
    decreases |b|
  {
    if b == "" {
      assert t + b == t;
    } else {
      var n := |b| - 1;
      assert (t + b)[..|t + b| - 1] == t + b[..n];
      BlankRight(t, b[..n]);
    }
  }

  lemma {:induction false} AllBlank(s: string)
    requires Blank(s)
    ensures StripLeft(s) == ""
    decreases |s|
  {
    if s != "" {
      AllBlank(s[1..]);
    }
  }

  lemma {:induction false} LeftThenBlank(t: string, b: string)
    requires Blank(b)
    ensures StripLeft(t + b) == if StripLeft(t) == "" then "" else StripLeft(t) + b
    decreases |t|
  {
    if t == "" {
      assert t + b == b;
      AllBlank(b);
    } else if Space(t[0]) {
      assert (t + b)[1..] == t[1..] + b;
      LeftThenBlank(t[1..], b);
    }
  }

  /** Blanks before and after make no difference. */
  lemma BlanksIgnored(a: string, t: string, b: string, base: nat)
    requires Blank(a) && Blank(b)
    ensures Interpret(a + t + b, base) == Interpret(t, base)
  {
    hide InterpretUnsigned, StripLeft, StripRight;
    assert a + t + b == a + (t + b);
    BlankLeft(a, t + b);
    LeftThenBlank(t, b);
    BlankRight(StripLeft(t), b);
    BlankRight("", "");
    NothingStripped();
  }

  lemma NothingStripped()
    ensures StripRight("") == "" && StripLeft("") == ""
  {
  }

  /** A text that starts with neither a blank nor a sign. */
  predicate Bare(t: string) {
    t != "" && t[0] !in {' ', '\t', '\n', '\r', '+', '-'}
  }

  /** A plus before it makes no difference, and a minus negates it. */
  lemma SignsMean(t: string, base: nat)
    requires Bare(t)
    ensures Interpret("+" + t, base) == Interpret(t, base)
    ensures Interpret("-" + t, base) == match Interpret(t, base) case Good(v) => Good(-v) case Bad(code) => Bad(code)
  {
    hide InterpretUnsigned;
    assert StripLeft(t) == t && StripLeft("+" + t) == "+" + t && StripLeft("-" + t) == "-" + t;
    SignStays("+", t);
    SignStays("-", t);
    var s := StripRight(t);
    FirstStays(t);
    assert ("+" + s)[1..] == s && ("-" + s)[1..] == s;
    Opposite(base, s);
  }

  lemma {:induction false} FirstStays(t: string)
    requires t != "" && !Space(t[0])
    ensures StripRight(t) != "" && StripRight(t)[0] == t[0]
    decreases |t|
  {
    if Space(t[|t| - 1]) {
      FirstStays(t[..|t| - 1]);
    }
  }

  lemma {:induction false} SignStays(sign: string, t: string)
    requires |sign| == 1 && !Space(sign[0])
    ensures StripRight(sign + t) == sign + StripRight(t)
    decreases |t|
  {
    if t == "" {
      assert sign + t == sign && StripRight(sign) == sign && sign + StripRight(t) == sign;
    } else if Space(t[|t| - 1]) {
      assert (sign + t)[..|sign + t| - 1] == sign + t[..|t| - 1];
      SignStays(sign, t[..|t| - 1]);
    }
  }

  lemma Opposite(base: nat, t: string)
    ensures InterpretUnsigned(-1, base, t)
         == match InterpretUnsigned(1, base, t) case Good(v) => Good(-v) case Bad(code) => Bad(code)
  {
    hide Val, AllDigits, CountDigits, UpToNul;
  }

  /** Without a base, a zero and one of x, o, b in either case choose it; a zero before anything else is refused; and what
      starts with no zero is decimal. */
  lemma BaseChosen(sign: int, c: char, t: string)
    ensures c in {'x', 'X'} ==> InterpretUnsigned(sign, 0, ['0', c] + t) == InterpretDigits(sign, 16, t)
    ensures c in {'o', 'O'} ==> InterpretUnsigned(sign, 0, ['0', c] + t) == InterpretDigits(sign, 8, t)
    ensures c in {'b', 'B'} ==> InterpretUnsigned(sign, 0, ['0', c] + t) == InterpretDigits(sign, 2, t)
    ensures c !in {'x', 'X', 'o', 'O', 'b', 'B'} ==> InterpretUnsigned(sign, 0, ['0', c] + t) == Bad(2)
    ensures c != '0' ==> InterpretUnsigned(sign, 0, [c] + t) == InterpretDigits(sign, 10, [c] + t)
    ensures InterpretUnsigned(sign, 0, "0") == Good(0)
  {
    hide InterpretDigits;
    assert (['0', c] + t)[2..] == t;
  }

  /** A base of one or above 36 is refused, and so is a text with nothing but blanks and a sign in it. */
  lemma NothingGiven(sign: int, base: nat, t: string, blanks: string)
    requires base != 0
    ensures (base == 1 || base > 36) && t != "" ==> InterpretUnsigned(sign, base, t) == Bad(2)
    ensures Blank(blanks) ==> Interpret(blanks, base) == Bad(1)
    ensures Interpret("+", base) == Interpret("-", base) == Bad(1)
  {
    if Blank(blanks) {
      AllBlank(blanks);
    }
    assert StripRight(StripLeft("+")) == "+" && StripRight(StripLeft("-")) == "-";
    assert "+"[1..] == "" && "-"[1..] == "";
  }

  // ----- round trips in every base, in either case -----

  /** A sign as it may be written before a number. */
  ghost predicate Signs(sign: string, v: int) {
    if v < 0 then sign == "-" else sign == "" || sign == "+"
  }

  lemma {:induction false} SpellsPlain(s: string, base: nat, ds: seq<nat>)
    requires Spells(s, base, ds) && base <= 36
    ensures Squeezed(s) == s && forall i | 0 <= i < |s| :: s[i] != '\0' && s[i] != '_' && s[i] !in {' ', '\t', '\n', '\r', '+', '-'}
    decreases |s|
  {
    hide Denotes, DigitValue;
    if s != "" {
      var n := |s| - 1;
      SpellsPlain(s[..n], base, ds[..n]);
      DenotesValue(s[n], ds[n]);
      NoMark(s[n]);
    }
  }

  lemma NoMark(c: char)
    requires DigitValue(c) < 36
    ensures c != '\0' && c != '_' && c !in {' ', '\t', '\n', '\r', '+', '-'}
  {
  }

  /** The digits of a number, spelt in any base up to 36 with letters of either case, read as the number. */
  lemma SpeltReads(v: int, base: nat, sign: string, s: string)
    requires 2 <= base <= 36 && Signs(sign, v)
    requires var n := if v < 0 then -v else v;
      Spells(s, base, if n == 0 then [0] else Reversed(DigitsOf(n, base)))
    ensures Interpret(sign + s, base) == Good(v)
  {
    hide Interpret, Denotes, DigitValue, Spells, Squeezed, From, InterpretDigits, StripLeft, StripRight, DigitsOf, UpToNul;
    var n := if v < 0 then -v else v;
    var ds := if n == 0 then [0] else Reversed(DigitsOf(n, base));
    SpeltDigits(n, base, ds, s);
    SpellsPlain(s, base, ds);
    SpeltStays(s);
    DigitsRead(1, base, s, ds);
    Unsigned(s, base);
    if v < 0 || sign == "+" {
      SignsMean(s, base);
    } else {
      assert sign + s == s;
    }
  }

  lemma SpeltDigits(n: nat, base: nat, ds: seq<nat>, s: string)
    requires base >= 2 && ds == (if n == 0 then [0] else Reversed(DigitsOf(n, base))) && Spells(s, base, ds)
    ensures ds != [] && s != "" && From(base, Reversed(ds), 0) == n
  {
    if n == 0 {
      assert Reversed(ds) == [0];
      assert From(base, [0], 1) == 0 && From(base, [0], 0) == 0 + base * 0;
    } else {
      DigitsValue(n, base);
      ReversedTwice(DigitsOf(n, base));
      DigitsCount(n, base);
    }
  }

  lemma {:induction false} SpeltStays(s: string)
    requires forall i | 0 <= i < |s| :: s[i] != '\0' && s[i] !in {' ', '\t', '\n', '\r'}
    ensures StripLeft(s) == s && StripRight(s) == s && UpToNul(s) == s
    decreases |s|
  {
    if s != "" {
      SpeltStays(s[1..]);
    }
  }

  lemma Unsigned(s: string, base: nat)
    requires Bare(s) && StripLeft(s) == s && StripRight(s) == s && base != 0
    ensures Interpret(s, base) == InterpretDigits(1, base, s)
  {
    hide InterpretDigits;
  }

  /** What is printed has small letters only. */
  lemma PrintedSmall(v: int, base: nat)
    requires 2 <= base <= 16
    ensures forall i | 0 <= i < |Text(v, base, "")| :: Text(v, base, "")[i] == '-' || Text(v, base, "")[i] in FIGURES + LOWER
  {
    var n := if v < 0 then -v else v;
    if n > 0 {
      SmallChars(DigitsOf(n, base));
    }
  }

  lemma {:induction false} SmallChars(ds: seq<nat>)
    requires forall i | 0 <= i < |ds| :: ds[i] < 16
    ensures forall i | 0 <= i < |ds| :: Chars(ds)[i] in FIGURES + LOWER
    decreases |ds|
  {
    if ds != [] {
      SmallChars(ds[1..]);
      SmallChar(ds[0]);
    }
  }

  lemma SmallChar(d: nat)
    requires d < 16
    ensures VALS[d] in FIGURES + LOWER
  {
    if d < 10 {
      assert (FIGURES + LOWER)[d] == VALS[d];
    } else {
      assert (FIGURES + LOWER)[d] == VALS[d];
    }
  }
}
