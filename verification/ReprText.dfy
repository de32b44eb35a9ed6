/** Which text `__repr__` writes and what a literal's escapes stand for, said against tables of their own (src/obj_str.c,
    src/obj_bytes.c, src/compiler.c, src/scanner.c). */
module ReprText {
  import opened Options
  import opened Repr

  // ----- what is printed -----

  /** "0123456789abcdef". */
  const HEX_DIGITS: Bytes := [48, 49, 50, 51, 52, 53, 54, 55, 56, 57, 97, 98, 99, 100, 101, 102]

  /** A letter that the decoder takes for the byte. */
  ghost predicate Lettered(b: Byte) {
    exists d: Byte :: Plain(d) == Some(b)
  }

  function InHex(b: Byte): Bytes {
    [92, 120, HEX_DIGITS[b / 16], HEX_DIGITS[b % 16]]
  }

  lemma HexDigits(d: nat)
    requires d < 16
    ensures HexDigit(d) == HEX_DIGITS[d]
  {
  }

  /** str.__repr__: a byte that is no quote is written as a backslash and a letter exactly if the decoder has a letter for
      it; of the rest the control bytes are written in hex, with small letters, and all else as it is. */
  lemma StrEscapes(b: Byte, quote: Byte)
    requires IsQuote(quote) && !IsQuote(b)
    ensures forall d: Byte :: StrEscape(b, quote) == [92, d] <==> Plain(d) == Some(b)
    ensures !Lettered(b) ==> StrEscape(b, quote) == if b < 32 || b == 127 then InHex(b) else [b]
  {
    HexDigits(b / 16);
    HexDigits(b % 16);
    forall d: Byte ensures StrEscape(b, quote) == [92, d] <==> Plain(d) == Some(b) {
    }
    if !Lettered(b) {
      NoLetter(b);
    }
  }

  /** The bytes that have a letter. */
  lemma NoLetter(b: Byte)
    requires !Lettered(b)
    ensures b !in {7, 8, 9, 10, 11, 12, 13, 27, 34, 39, 92}
  {
    assert Plain(97) == Some(7) && Plain(98) == Some(8) && Plain(116) == Some(9) && Plain(110) == Some(10);
    assert Plain(118) == Some(11) && Plain(102) == Some(12) && Plain(114) == Some(13) && Plain(91) == Some(27);
    assert Plain(34) == Some(34) && Plain(39) == Some(39) && Plain(92) == Some(92);
  }

  /** Its own quote is written after a backslash, the other one as it is. */
  lemma StrQuotes(b: Byte, quote: Byte)
    requires IsQuote(quote) && IsQuote(b)
    ensures StrEscape(b, quote) == if b == quote then [92, b] else [b]
  {
  }

  /** bytes.__repr__ does likewise, but writes the escape byte in hex and the double quote as it is, though the decoder has
      letters for both, and writes what is above 127 in hex too. */
  lemma BytesEscapes(b: Byte)
    ensures b != 27 && b != 34 ==> forall d: Byte :: BytesEscape(b) == [92, d] <==> Plain(d) == Some(b)
    ensures b == 27 ==> Lettered(b) && BytesEscape(b) == InHex(b)
    ensures b == 34 ==> Lettered(b) && BytesEscape(b) == [b]
    ensures !Lettered(b) ==> BytesEscape(b) == if b < 32 || b >= 127 then InHex(b) else [b]
  {
    HexDigits(b / 16);
    HexDigits(b % 16);
    if b != 27 && b != 34 {
      forall d: Byte ensures BytesEscape(b) == [92, d] <==> Plain(d) == Some(b) {
      }
    }
    assert Plain(91) == Some(27) && Plain(34) == Some(34);
    if !Lettered(b) {
      NoLetter(b);
    }
  }

  // ----- the quote -----

  function Other(quote: Byte): Byte {
    if quote == SINGLE then DOUBLE else SINGLE
  }

  lemma {:induction false} QuoteCost(s: Bytes)
    ensures |Escaped(s, SINGLE, false)| - Count(s, SINGLE) == |Escaped(s, DOUBLE, false)| - Count(s, DOUBLE)
    decreases |s|
  {
    hide Named, Hex;
    if s != [] {
      var n := |s| - 1;
      QuoteCost(s[..n]);
      EscapedNext(s, n, SINGLE, false);
      EscapedNext(s, n, DOUBLE, false);
      assert s[..n + 1] == s;
      OneCost(s[n]);
    }
  }

  lemma OneCost(b: Byte)
    ensures |StrEscape(b, SINGLE)| - (if b == SINGLE then 1 else 0) == |StrEscape(b, DOUBLE)| - (if b == DOUBLE then 1 else 0)
  {
  }

  /** The quote is the one with which the text is shorter, and the single one if neither makes it so. */
  lemma QuoteShorter(s: Bytes)
    ensures QuoteFor(s) == DOUBLE <==> |Escaped(s, DOUBLE, false)| < |Escaped(s, SINGLE, false)|
    ensures |StrPrinted(s)| <= |Escaped(s, Other(QuoteFor(s)), false)| + 2
  {
    hide Escaped, Count;
    QuoteCost(s);
  }

  // ----- escapes -----

  /** The letters a b f n r t v [ and what the standard names of C, and the last for escape, stand for; and the three
      characters that stand for themselves. */
  const LETTERS: Bytes := [97, 98, 102, 110, 114, 116, 118, 91, 92, 39, 34]
  const CODES: Bytes := [7, 8, 12, 10, 13, 9, 11, 27, 92, 39, 34]

  lemma LetterStands(i: nat)
    requires i < |LETTERS|
    ensures |LETTERS| == |CODES| && Plain(LETTERS[i]) == Some(CODES[i])
  {
  }

  lemma OnlyLetters(d: Byte)
    requires Plain(d).Some?
    ensures d in LETTERS
  {
    assert LETTERS[0] == 97 && LETTERS[1] == 98 && LETTERS[2] == 102 && LETTERS[3] == 110 && LETTERS[4] == 114;
    assert LETTERS[5] == 116 && LETTERS[6] == 118 && LETTERS[7] == 91 && LETTERS[8] == 92 && LETTERS[9] == 39 && LETTERS[10] == 34;
  }

  /** A backslash and one of the letters is the byte of the same place; a backslash before a line's end is nothing; before
      any character that starts no escape it stays, and that character is read by itself. */
  lemma EscapesDecode(t: Bytes, c: nat, end: nat, isBytes: bool)
    requires Peek(t, c) == 92
    ensures var d := Peek(t, c + 1);
      && (forall i | 0 <= i < |LETTERS| :: d == LETTERS[i] ==> Decoded(t, c, end, isBytes) == Piece([CODES[i]], c + 2))
      && (d == 10 ==> Decoded(t, c, end, isBytes) == Piece([], c + 2))
      && (d in {117, 85} && isBytes ==> Decoded(t, c, end, isBytes) == Piece([92, d], c + 2))
      && (d !in LETTERS && d !in {10, 117, 85, 120} && !(48 <= d <= 55) ==> Decoded(t, c, end, isBytes) == Piece([92], c + 1))
  {
    hide HexPiece, OctalPiece, Peek, Plain;
    var d := Peek(t, c + 1);
    forall i | 0 <= i < |LETTERS| && d == LETTERS[i] ensures Decoded(t, c, end, isBytes) == Piece([CODES[i]], c + 2) {
      LetterStands(i);
    }
    if d !in LETTERS && Plain(d).Some? {
      OnlyLetters(d);
    }
    OtherPlain(d);
  }

  lemma OtherPlain(d: Byte)
    ensures d in {10, 117, 85, 120} ==> Plain(d).None? && d !in LETTERS
  {
  }

  /** What is not escaped is itself, except that bytes take nothing above 127. */
  lemma OthersDecode(t: Bytes, c: nat, end: nat, isBytes: bool)
    requires Peek(t, c) != 92
    ensures Decoded(t, c, end, isBytes) == if isBytes && Peek(t, c) > 127 then Bad else Piece([Peek(t, c)], c + 1)
  {
  }

  // ----- numbers in escapes -----

  /** A hex digit d, its letters large or small. */
  ghost predicate HexChar(c: Byte, d: nat) {
    d < 16 && (c == HEX_DIGITS[d] || (d >= 10 && c == HEX_DIGITS[d] - 32))
  }

  ghost predicate NoHexChar(c: Byte) {
    forall d: nat :: !HexChar(c, d)
  }

  lemma HexCharValue(c: Byte)
    ensures IsHex(c) <==> exists d: nat :: HexChar(c, d)
    ensures forall d: nat :: HexChar(c, d) ==> IsHex(c) && HexValue(c) == d
  {
    if IsHex(c) {
      assert HexChar(c, HexValue(c));
    }
  }

  /** The number that hex digits write, the first the most significant. */
  function Written(base: nat, ds: seq<nat>): nat {
    if ds == [] then 0 else Written(base, ds[..|ds| - 1]) * base + ds[|ds| - 1]
  }

  lemma {:induction false} HexRunValue(t: Bytes, at: nat, end: nat, ds: seq<nat>)
    requires at + |ds| <= end && forall i | 0 <= i < |ds| :: HexChar(Peek(t, at + i), ds[i])
    ensures HexRun(t, at, end, |ds|) == Some(Written(16, ds))
    decreases |ds|
  {
    hide HexChar;
    if ds != [] {
      var n := |ds| - 1;
      HexRunValue(t, at, end, ds[..n]);
      HexCharValue(Peek(t, at + n));
    }
  }

  /** n hex digits after the letter are the number they write: a byte of it, or its UTF-8, if there is such a character. */
  lemma HexReads(t: Bytes, c: nat, end: nat, ds: seq<nat>, isBytes: bool)
    requires c + 2 + |ds| <= end && forall i | 0 <= i < |ds| :: HexChar(Peek(t, c + 2 + i), ds[i])
    ensures var v := Written(16, ds);
      HexPiece(t, c, end, |ds|, isBytes)
      == if v >= 0x110000 then Bad else Piece(if isBytes then [v % 256] else CodepointBytes(v), c + 2 + |ds|)
  {
    HexRunValue(t, c + 2, end, ds);
  }

  lemma {:induction false} HexRunFails(t: Bytes, at: nat, end: nat, i: nat, n: nat)
    requires i < n && (at + i == end || NoHexChar(Peek(t, at + i)))
    ensures HexRun(t, at, end, n) == None
    decreases n
  {
    HexCharValue(Peek(t, at + i));
    HexRunStops(t, at, end, i + 1, n);
  }

  /** One hex digit missing, or the end among them, and there is no literal. */
  lemma HexRefused(t: Bytes, c: nat, end: nat, i: nat, n: nat, isBytes: bool)
    requires i < n && (c + 2 + i == end || NoHexChar(Peek(t, c + 2 + i)))
    ensures HexPiece(t, c, end, n, isBytes) == Bad
  {
    HexRunFails(t, c + 2, end, i, n);
  }

  /** How many hex digits each letter takes. */
  lemma HexLetters(t: Bytes, c: nat, end: nat, isBytes: bool)
    requires Peek(t, c) == 92
    ensures Peek(t, c + 1) == 120 ==> Decoded(t, c, end, isBytes) == HexPiece(t, c, end, 2, isBytes)
    ensures Peek(t, c + 1) == 117 && !isBytes ==> Decoded(t, c, end, isBytes) == HexPiece(t, c, end, 4, false)
    ensures Peek(t, c + 1) == 85 && !isBytes ==> Decoded(t, c, end, isBytes) == HexPiece(t, c, end, 8, false)
  {
    OtherPlain(Peek(t, c + 1));
  }

  ghost predicate OctalChar(c: Byte, d: nat) {
    d < 8 && c == HEX_DIGITS[d]
  }

  ghost predicate NoOctalChar(c: Byte) {
    forall d: nat :: !OctalChar(c, d)
  }

  lemma OctalCharIs(c: Byte)
    ensures NoOctalChar(c) <==> !IsOctal(c)
    ensures forall d: nat :: OctalChar(c, d) ==> c == 48 + d && d < 8
  {
    if IsOctal(c) {
      assert OctalChar(c, c - 48);
    }
  }

  /** Octal digits after a backslash, three at most: the number they write. */
  lemma OctalReads(t: Bytes, c: nat, end: nat, ds: seq<nat>, isBytes: bool)
    requires Peek(t, c) == 92 && 1 <= |ds| <= 3 && c + 1 + |ds| <= end
    requires forall i | 0 <= i < |ds| :: OctalChar(Peek(t, c + 1 + i), ds[i])
    requires |ds| == 3 || (|ds| == 1 && c + 2 == end) || NoOctalChar(Peek(t, c + 1 + |ds|))
    ensures Written(8, ds) < 512
    ensures var v := Written(8, ds);
      Decoded(t, c, end, isBytes) == Piece(if isBytes then [v % 256] else CodepointBytes(v), c + 1 + |ds|)
  {
    hide OctalChar, NoOctalChar, CodepointBytes, HexPiece, Peek, Written, Plain;
    forall i | 0 <= i < |ds| ensures Peek(t, c + 1 + i) == 48 + ds[i] && ds[i] < 8 {
      OctalCharIs(Peek(t, c + 1 + i));
    }
    OctalCharIs(Peek(t, c + 1 + |ds|));
    WrittenOctal(ds);
    NoOctalLetter(Peek(t, c + 1));
    assert Peek(t, c + 1 + 0) == 48 + ds[0];
    assert |ds| > 1 ==> Peek(t, c + 1 + 1) == 48 + ds[1];
    assert |ds| > 2 ==> Peek(t, c + 1 + 2) == 48 + ds[2];
  }

  lemma WrittenOctal(ds: seq<nat>)
    requires 1 <= |ds| <= 3 && forall i | 0 <= i < |ds| :: ds[i] < 8
    ensures Written(8, ds) == (if |ds| == 1 then ds[0] else if |ds| == 2 then 8 * ds[0] + ds[1] else 64 * ds[0] + 8 * ds[1] + ds[2])
    ensures Written(8, ds) < 512
  {
    assert Written(8, ds[..1]) == ds[0] by { assert ds[..1][..0] == []; }
    if |ds| > 1 {
      assert ds[..2][..1] == ds[..1];
      assert Written(8, ds[..2]) == ds[0] * 8 + ds[1];
    }
    assert ds[..|ds|] == ds;
    if |ds| == 3 {
      assert ds[..3][..2] == ds[..2];
    }
  }

  lemma NoOctalLetter(d: Byte)
    ensures 48 <= d <= 55 ==> Plain(d).None? && d !in {10, 117, 85, 120}
  {
  }

  // ----- UTF-8 -----

  function Int(b: Byte): int {
    b
  }

  /** A character of up to 7, 11, 16 or 21 bits takes one, two, three or four bytes, the fewest that hold it: the first
      with the marks of their number, the others six bits each. */
  lemma Utf8(v: nat)
    requires v < 0x110000
    ensures var u := CodepointBytes(v);
      && |u| == (if v < 0x80 then 1 else if v < 0x800 then 2 else if v < 0x10000 then 3 else 4)
      && (|u| == 1 ==> u[0] == v)
      && (|u| == 2 ==> 192 <= u[0] < 224 && 128 <= u[1] < 192 && (Int(u[0]) - 192) * 64 + (Int(u[1]) - 128) == v)
      && (|u| == 3 ==> 224 <= u[0] < 240 && 128 <= u[1] < 192 && 128 <= u[2] < 192
                       && ((Int(u[0]) - 224) * 64 + (Int(u[1]) - 128)) * 64 + (Int(u[2]) - 128) == v)
      && (|u| == 4 ==> 240 <= u[0] < 245 && 128 <= u[1] < 192 && 128 <= u[2] < 192 && 128 <= u[3] < 192
                       && (((Int(u[0]) - 240) * 64 + (Int(u[1]) - 128)) * 64 + (Int(u[2]) - 128)) * 64 + (Int(u[3]) - 128) == v)
  {
    Sixes(v);
  }

  lemma Sixes(v: nat)
    ensures v == (v / 0x40) * 64 + v % 0x40 && v / 0x40 == (v / 0x1000) * 64 + v / 0x40 % 0x40
    ensures v / 0x1000 == (v / 0x40000) * 64 + v / 0x1000 % 0x40
  {
  }

  // ----- where a literal ends -----

  /** One byte that is no backslash, or a backslash and the byte after it, whatever that is. */
  ghost predicate Unit(u: Bytes) {
    (|u| == 1 && u[0] !in {0, 92}) || (|u| == 2 && u[0] == 92 && u[1] != 0)
  }

  function Length(us: seq<Bytes>): nat {
    if us == [] then 0 else |us[0]| + Length(us[1..])
  }

  ghost predicate Triple(t: Bytes, c: nat, quote: Byte) {
    Peek(t, c) == quote && Peek(t, c + 1) == quote && Peek(t, c + 2) == quote
  }

  /** From c on there stand these units, with no quote and no line's end bare among them, or in a triple-quoted literal
      with no three quotes at any of them. */
  ghost predicate Runs(t: Bytes, c: nat, us: seq<Bytes>, quote: Byte, big: bool)
    decreases |us|
  {
    us != [] ==>
      && Unit(us[0]) && Stands(t, c, us[0])
      && (if big then !Triple(t, c, quote) else us[0][0] !in {quote, 10})
      && Runs(t, c + |us[0]|, us[1..], quote, big)
  }

  lemma {:induction false} ShortRuns(t: Bytes, c: nat, us: seq<Bytes>, quote: Byte)
    requires IsQuote(quote) && Runs(t, c, us, quote, false)
    ensures ShortEnd(t, c, quote) == ShortEnd(t, c + Length(us), quote)
    decreases |us|
  {
    hide ShortEnd, Stands;
    if us != [] {
      StandsAt(t, c, us[0]);
      assert Peek(t, c + 0) == us[0][0];
      if |us[0]| == 1 {
        PlainStep(t, c, quote);
      } else {
        assert Peek(t, c + 1) == us[0][1];
        SlashStep(t, c, quote);
      }
      ShortRuns(t, c + |us[0]|, us[1..], quote);
    }
  }

  lemma BigStep(t: Bytes, c: nat, u: Bytes, quote: Byte)
    requires IsQuote(quote) && Unit(u) && Stands(t, c, u) && !Triple(t, c, quote)
    ensures BigEnd(t, c, quote) == BigEnd(t, c + |u|, quote)
  {
    hide Stands;
    StandsAt(t, c, u);
    Ahead(t, c);
    assert Peek(t, c + 0) == u[0];
    if |u| == 2 {
      assert Peek(t, c + 1) == u[1];
    }
  }

  lemma {:induction false} BigRuns(t: Bytes, c: nat, us: seq<Bytes>, quote: Byte)
    requires IsQuote(quote) && Runs(t, c, us, quote, true)
    ensures BigEnd(t, c, quote) == BigEnd(t, c + Length(us), quote)
    decreases |us|
  {
    hide BigEnd, Stands, Triple;
    if us != [] {
      BigStep(t, c, us[0], quote);
      BigRuns(t, c + |us[0]|, us[1..], quote);
    }
  }

  /** The source ends at c, or a backslash there is its last byte. */
  ghost predicate NoMore(t: Bytes, c: nat) {
    Peek(t, c) == 0 || (Peek(t, c) == 92 && Peek(t, c + 1) == 0)
  }

  /** A literal goes over whole units to the first bare quote, and is not one if its line or the source ends before. */
  lemma ShortLiteral(t: Bytes, c: nat, us: seq<Bytes>, quote: Byte)
    requires IsQuote(quote) && Runs(t, c, us, quote, false) && !(Peek(t, c) == quote && Peek(t, c + 1) == quote)
    ensures var e := c + Length(us);
      && (Peek(t, e) == quote ==> Literal(t, c, quote) == Scanned(STRING, e + 1))
      && (Peek(t, e) == 10 || NoMore(t, e) ==> Literal(t, c, quote).kind == ERROR)
  {
    hide BigEnd, Runs;
    ShortRuns(t, c, us, quote);
    Ahead(t, c);
    var e := c + Length(us);
    if Peek(t, e) == 92 && Peek(t, e + 1) == 0 {
      assert Past(t, e) == e + 1;
      assert ShortEnd(t, e + 1, quote).kind == ERROR;
    }
  }

  /** After three quotes it goes on to the next three, over line ends, quotes and all, if they come. */
  lemma BigLiteral(t: Bytes, c: nat, us: seq<Bytes>, quote: Byte)
    requires IsQuote(quote) && Peek(t, c) == quote && Peek(t, c + 1) == quote && Runs(t, c + 2, us, quote, true)
    ensures var e := c + 2 + Length(us);
      && (Triple(t, e, quote) ==> Literal(t, c, quote) == Scanned(BIG_STRING, e + 3))
      && (NoMore(t, e) ==> Literal(t, c, quote).kind == ERROR)
  {
    hide ShortEnd, Runs;
    BigRuns(t, c + 2, us, quote);
    LooksAhead(t, c);
    var e := c + 2 + Length(us);
    LooksAhead(t, e);
    if Peek(t, e) == 92 && Peek(t, e + 1) == 0 {
      assert Past(t, e) == e + 1;
      assert BigEnd(t, e + 1, quote).kind == ERROR;
    }
  }

  lemma LooksAhead(t: Bytes, c: nat)
    ensures Peek(t, c) != 0 ==> PeekNext(t, c, 1) == Peek(t, c + 1)
    ensures Peek(t, c) != 0 && Peek(t, c + 1) != 0 ==> PeekNext(t, c, 2) == Peek(t, c + 2)
  {
    AheadIs(t, c);
    assert PeekNext(t, c + 1, 1) == if Peek(t, c + 1) == 0 then 0 else Peek(t, c + 2) by { AheadIs(t, c + 1); }
  }
}
