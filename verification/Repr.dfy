/** Text on its way out and back in: `__repr__` of str and bytes, the scanner's search for a literal's end, and the
    compiler's decoding of what is between the quotes. Text is bytes, and a source ends at its first zero byte. */
module Repr {
  import opened Options

  type Byte = x: int | 0 <= x < 256
  type Bytes = seq<Byte>

  const SINGLE: Byte := 39
  const DOUBLE: Byte := 34
  const BACKSLASH: Byte := 92
  const NEWLINE: Byte := 10
  const ESCAPE: Byte := 27
  const PREFIX_B: Byte := 98

  // ----- printing -----

  /** The letter that names a control character after a backslash: \a \b \f \n \r \t \v. */
  function Named(b: Byte): (r: Option<Byte>)
    ensures r.Some? ==> 97 <= r.value < 123
  {
    match b
    case 7 => Some(97)
    case 8 => Some(98)
    case 12 => Some(102)
    case 10 => Some(110)
    case 13 => Some(114)
    case 9 => Some(116)
    case 11 => Some(118)
    case _ => None
  }

  /** One digit of "%02x". */
  function HexDigit(d: nat): Byte
    requires d < 16
  {
    if d < 10 then 48 + d else 87 + d
  }

  function Hex(b: Byte): Bytes {
    [BACKSLASH, 120, HexDigit(b / 16), HexDigit(b % 16)]
  }

  /** What str.__repr__ writes for one byte. */
  function StrEscape(b: Byte, quote: Byte): Bytes {
    if b == SINGLE || b == DOUBLE then (if b == quote then [BACKSLASH, b] else [b])
    else if b == BACKSLASH then [BACKSLASH, BACKSLASH]
    else if Named(b).Some? then [BACKSLASH, Named(b).value]
    else if b == ESCAPE then [BACKSLASH, 91]
    else if b < 32 || b == 127 then Hex(b)
    else [b]
  }

  /** What bytes.__repr__ writes for one byte. */
  function BytesEscape(b: Byte): Bytes {
    if b == SINGLE || b == BACKSLASH then [BACKSLASH, b]
    else if Named(b).Some? then [BACKSLASH, Named(b).value]
    else if b < 32 || b >= 127 then Hex(b)
    else [b]
  }

  function Escape(b: Byte, quote: Byte, isBytes: bool): Bytes {
    if isBytes then BytesEscape(b) else StrEscape(b, quote)
  }

  function Escaped(s: Bytes, quote: Byte, isBytes: bool): Bytes {
    if s == [] then [] else Escape(s[0], quote, isBytes) + Escaped(s[1..], quote, isBytes)
  }

  lemma {:induction false} EscapedConcat(a: Bytes, b: Bytes, quote: Byte, isBytes: bool)
    ensures Escaped(a + b, quote, isBytes) == Escaped(a, quote, isBytes) + Escaped(b, quote, isBytes)
    decreases |a|
  {
    if a == [] {
      assert a + b == b;
    } else {
      assert (a + b)[1..] == a[1..] + b;
      EscapedConcat(a[1..], b, quote, isBytes);
    }
  }

  lemma EscapedNext(s: Bytes, i: nat, quote: Byte, isBytes: bool)
    requires i < |s|
    ensures Escaped(s[..i + 1], quote, isBytes) == Escaped(s[..i], quote, isBytes) + Escape(s[i], quote, isBytes)
  {
    assert s[..i + 1] == s[..i] + [s[i]];
    EscapedConcat(s[..i], [s[i]], quote, isBytes);
    assert [s[i]][1..] == [];
  }

  function Count(s: Bytes, b: Byte): nat {
    if s == [] then 0 else Count(s[..|s| - 1], b) + if s[|s| - 1] == b then 1 else 0
  }

  /** A string goes in single quotes unless it holds more of those than of double ones. */
  function QuoteFor(s: Bytes): (q: Byte)
    ensures q == SINGLE || q == DOUBLE
  {
    if Count(s, SINGLE) > Count(s, DOUBLE) then DOUBLE else SINGLE
  }

  function StrPrinted(s: Bytes): Bytes {
    [QuoteFor(s)] + Escaped(s, QuoteFor(s), false) + [QuoteFor(s)]
  }

  function BytesPrinted(s: Bytes): Bytes {
    [PREFIX_B, SINGLE] + Escaped(s, SINGLE, true) + [SINGLE]
  }

  method ChooseQuote(s: Bytes) returns (quote: Byte)
    ensures quote == QuoteFor(s)
  {
    var singles, doubles := 0, 0;
    var i := 0;
    while i < |s|
      invariant i <= |s| && singles == Count(s[..i], SINGLE) && doubles == Count(s[..i], DOUBLE)
    {
      assert s[..i + 1][..i] == s[..i];
      if s[i] == SINGLE {
        singles := singles + 1;
      }
      if s[i] == DOUBLE {
        doubles := doubles + 1;
      }
      i := i + 1;
    }
    assert s[..|s|] == s;
    quote := if singles > doubles then DOUBLE else SINGLE;
  }

  method StrRepr(s: Bytes) returns (sb: Bytes)
    ensures sb == StrPrinted(s)
  {
    hide Count, Named, StrEscape, Escaped, QuoteFor;
    var quote := ChooseQuote(s);
    sb := [quote];
    var i := 0;
    assert Escaped(s[..0], quote, false) == [] by { EscapedNone(quote, false); }
    while i < |s|
      invariant i <= |s| && sb == [quote] + Escaped(s[..i], quote, false)
    {
      EscapedNext(s, i, quote, false);
      sb := PushStr(sb, s[i], quote);
      i := i + 1;
    }
    assert s[..|s|] == s;
    sb := sb + [quote];
  }

  lemma EscapedNone(quote: Byte, isBytes: bool)
    ensures Escaped([], quote, isBytes) == []
  {
  }

  method PushStr(before: Bytes, ch: Byte, quote: Byte) returns (sb: Bytes)
    requires quote == SINGLE || quote == DOUBLE
    ensures sb == before + StrEscape(ch, quote)
  {
    sb := before;
    var addSlash, out := false, ch;
    if ch == SINGLE || ch == DOUBLE {
      addSlash := quote == ch;
    } else if ch == BACKSLASH {
      addSlash := true;
    } else if Named(ch).Some? {
      addSlash, out := true, Named(ch).value;
    } else if ch == ESCAPE {
      addSlash, out := true, 91;
    } else if ch < 32 || ch == 127 {
      sb := sb + [BACKSLASH, 120];
      sb := sb + [HexDigit(ch / 16), HexDigit(ch % 16)];
      return;
    }
    if addSlash {
      sb := sb + [BACKSLASH];
    }
    sb := sb + [out];
  }

  method BytesRepr(s: Bytes) returns (sb: Bytes)
    ensures sb == BytesPrinted(s)
  {
    sb := [PREFIX_B, SINGLE];
    var i := 0;
    while i < |s|
      invariant i <= |s| && sb == [PREFIX_B, SINGLE] + Escaped(s[..i], SINGLE, true)
    {
      EscapedNext(s, i, SINGLE, true);
      var ch := s[i];
      if ch == BACKSLASH || ch == SINGLE {
        sb := sb + [BACKSLASH];
        sb := sb + [ch];
      } else if Named(ch).Some? {
        sb := sb + [BACKSLASH];
        sb := sb + [Named(ch).value];
      } else if ch < 32 || ch >= 127 {
        sb := sb + Hex(ch);
      } else {
        sb := sb + [ch];
      }
      i := i + 1;
    }
    assert s[..|s|] == s;
    sb := sb + [SINGLE];
  }

  // ----- scanning -----

  datatype Kind = STRING | BIG_STRING | ERROR

  /** A token's kind and where the scanner stands after it. */
  datatype Scanned = Scanned(kind: Kind, cur: nat)

  function Peek(source: Bytes, cur: nat): Byte {
    if cur < |source| then source[cur] else 0
  }

  function PeekNext(source: Bytes, cur: nat, n: nat): Byte
    decreases n
  {
    if n == 0 || Peek(source, cur) == 0 then Peek(source, cur) else PeekNext(source, cur + 1, n - 1)
  }

  /** advance: the end is not passed. */
  function Advanced(source: Bytes, cur: nat): nat {
    if Peek(source, cur) == 0 then cur else cur + 1
  }

  /** One step through a literal: a backslash takes what follows with it. */
  function Past(source: Bytes, cur: nat): nat {
    Advanced(source, if Peek(source, cur) == BACKSLASH then Advanced(source, cur) else cur)
  }

  function ShortEnd(source: Bytes, cur: nat, quote: Byte): (s: Scanned)
    ensures s.kind == ERROR || (s.kind == STRING && s.cur > cur)
    decreases |source| - cur
  {
    var c := Peek(source, cur);
    if c == 0 then Scanned(ERROR, cur)
    else if c == quote then Scanned(STRING, cur + 1)
    else if c == NEWLINE then Scanned(ERROR, cur)
    else ShortEnd(source, Past(source, cur), quote)
  }

  function BigEnd(source: Bytes, cur: nat, quote: Byte): (s: Scanned)
    ensures s.kind == ERROR || (s.kind == BIG_STRING && s.cur >= cur + 3)
    decreases |source| - cur
  {
    var c := Peek(source, cur);
    if c == 0 then Scanned(ERROR, cur)
    else if c == quote && PeekNext(source, cur, 1) == quote && PeekNext(source, cur, 2) == quote then Scanned(BIG_STRING, cur + 3)
    else BigEnd(source, Past(source, cur), quote)
  }

  /** The literal whose opening quote has just been passed. */
  function Literal(source: Bytes, cur: nat, quote: Byte): Scanned {
    if Peek(source, cur) == quote && PeekNext(source, cur, 1) == quote then BigEnd(source, cur + 2, quote)
    else ShortEnd(source, cur, quote)
  }

  /** Looking ahead to a byte that is not the end. */
  lemma Ahead(source: Bytes, cur: nat)
    ensures PeekNext(source, cur, 1) != 0 ==> Peek(source, cur) != 0 && Peek(source, cur + 1) == PeekNext(source, cur, 1)
    ensures PeekNext(source, cur, 2) != 0 ==> Peek(source, cur + 1) != 0 && Peek(source, cur + 2) == PeekNext(source, cur, 2)
  {
    assert PeekNext(source, cur + 1, 0) == Peek(source, cur + 1);
    assert PeekNext(source, cur + 1, 1) == if Peek(source, cur + 1) == 0 then 0 else PeekNext(source, cur + 2, 0);
  }

  class Scanner {
    const source: Bytes
    var cur: nat

    constructor (source: Bytes)
      ensures this.source == source && cur == 0
    {
      this.source, cur := source, 0;
    }

    method Advance()
      modifies this
      ensures cur == Advanced(source, old(cur))
    {
      if Peek(source, cur) != 0 {
        cur := cur + 1;
      }
    }

    /** peekNext: zero if the source ends first. */
    method LookAhead(n: nat) returns (c: Byte)
      ensures c == PeekNext(source, cur, n)
    {
      var i := 0;
      while i < n
        invariant i <= n && PeekNext(source, cur, n) == PeekNext(source, cur + i, n - i)
      {
        if Peek(source, cur + i) == 0 {
          return 0;
        }
        i := i + 1;
      }
      c := Peek(source, cur + n);
    }

    /** Find the end of a literal. */
    method String(quote: Byte) returns (kind: Kind)
      requires quote == SINGLE || quote == DOUBLE
      modifies this
      ensures Scanned(kind, cur) == Literal(source, old(cur), quote)
    {
      var next := LookAhead(1);
      Ahead(source, cur);
      if Peek(source, cur) == quote && next == quote {
        Advance();
        Advance();
        while Peek(source, cur) != 0
          invariant BigEnd(source, cur, quote) == Literal(source, old(cur), quote)
          decreases |source| - cur
        {
          var one := LookAhead(1);
          var two := LookAhead(2);
          Ahead(source, cur);
          if Peek(source, cur) == quote && one == quote && two == quote {
            Advance();
            Advance();
            Advance();
            return BIG_STRING;
          }
          if Peek(source, cur) == BACKSLASH {
            Advance();
          }
          Advance();
        }
        return ERROR;
      }
      while Peek(source, cur) != quote && Peek(source, cur) != 0
        invariant ShortEnd(source, cur, quote) == Literal(source, old(cur), quote)
        decreases |source| - cur
      {
        if Peek(source, cur) == NEWLINE {
          return ERROR;
        }
        if Peek(source, cur) == BACKSLASH {
          Advance();
        }
        Advance();
      }
      if Peek(source, cur) == 0 {
        return ERROR;
      }
      Advance();
      kind := STRING;
    }
  }

  // ----- decoding -----

  predicate IsHex(c: Byte) {
    48 <= c <= 57 || 97 <= c <= 102 || 65 <= c <= 70
  }

  function HexValue(c: Byte): (v: nat)
    requires IsHex(c)
    ensures v < 16
  {
    if c <= 57 then c - 48 else if c >= 97 then c - 87 else c - 55
  }

  predicate IsOctal(c: Byte) {
    48 <= c <= 55
  }

  /** The n hex digits from `at`, if they are there before `end`. */
  function HexRun(t: Bytes, at: nat, end: nat, n: nat): Option<nat>
    decreases n
  {
    if n == 0 then Some(0) else
      match HexRun(t, at, end, n - 1)
      case None => None
      case Some(v) =>
        var c := Peek(t, at + n - 1);
        if at + n - 1 == end || !IsHex(c) then None else Some(16 * v + HexValue(c))
  }

  /** krk_codepointToBytes: UTF-8. */
  function CodepointBytes(v: nat): Bytes
    requires v < 0x110000
  {
    if v > 0xFFFF then [0xF0 + v / 0x40000, 0x80 + v / 0x1000 % 0x40, 0x80 + v / 0x40 % 0x40, 0x80 + v % 0x40]
    else if v > 0x7FF then [0xE0 + v / 0x1000, 0x80 + v / 0x40 % 0x40, 0x80 + v % 0x40]
    else if v > 0x7F then [0xC0 + v / 0x40, 0x80 + v % 0x40]
    else [v]
  }

  /** What one step of the decoder pushes, and how far it goes. */
  datatype Piece = Piece(out: Bytes, next: nat) | Bad

  function HexPiece(t: Bytes, c: nat, end: nat, n: nat, isBytes: bool): (p: Piece)
    ensures p.Piece? ==> p.next > c
  {
    match HexRun(t, c + 2, end, n)
    case None => Bad
    case Some(v) => if v >= 0x110000 then Bad else Piece(if isBytes then [v % 256] else CodepointBytes(v), c + 2 + n)
  }

  function OctalPiece(t: Bytes, c: nat, end: nat, isBytes: bool): (p: Piece)
    requires IsOctal(Peek(t, c + 1))
    ensures p.Piece? && p.next > c
  {
    var v := Peek(t, c + 1) - 48;
    var two := c + 2 != end && IsOctal(Peek(t, c + 2));
    var v2 := if two then 8 * v + (Peek(t, c + 2) - 48) else v;
    var three := two && c + 2 != end && IsOctal(Peek(t, c + 3));
    var v3 := if three then 8 * v2 + (Peek(t, c + 3) - 48) else v2;
    Piece(if isBytes then [v3 % 256] else CodepointBytes(v3), c + 2 + (if two then 1 else 0) + (if three then 1 else 0))
  }

  /** The letter after a backslash, where it stands for one byte. */
  function Plain(c: Byte): Option<Byte> {
    match c
    case 92 => Some(92)
    case 39 => Some(39)
    case 34 => Some(34)
    case 97 => Some(7)
    case 98 => Some(8)
    case 102 => Some(12)
    case 110 => Some(10)
    case 114 => Some(13)
    case 116 => Some(9)
    case 118 => Some(11)
    case 91 => Some(27)
    case _ => None
  }

  function Decoded(t: Bytes, c: nat, end: nat, isBytes: bool): (p: Piece)
    ensures p.Piece? ==> p.next > c
  {
    var ch := Peek(t, c);
    if ch == BACKSLASH then
      var d := Peek(t, c + 1);
      if Plain(d).Some? then Piece([Plain(d).value], c + 2)
      else if d == 120 then HexPiece(t, c, end, 2, isBytes)
      else if d == 117 then (if isBytes then Piece([BACKSLASH, d], c + 2) else HexPiece(t, c, end, 4, false))
      else if d == 85 then (if isBytes then Piece([BACKSLASH, d], c + 2) else HexPiece(t, c, end, 8, false))
      else if d == NEWLINE then Piece([], c + 2)
      else if IsOctal(d) then OctalPiece(t, c, end, isBytes)
      else Piece([BACKSLASH], c + 1)
    else if ch > 127 && isBytes then Bad
    else Piece([ch], c + 1)
  }

  function DecodedFrom(t: Bytes, c: nat, end: nat, isBytes: bool): Option<Bytes>
    decreases end - c
  {
    if c >= end then Some([]) else
      match Decoded(t, c, end, isBytes)
      case Bad => None
      case Piece(out, next) => Prefixed(out, DecodedFrom(t, next, end, isBytes))
  }

  /** _pushHex: n hex digits after a backslash and its letter, as a byte or as UTF-8. */
  method PushHex(t: Bytes, c: nat, end: nat, n: nat, isBytes: bool) returns (p: Piece)
    ensures p == HexPiece(t, c, end, n, isBytes)
  {
    var value: nat, i: nat := 0, 0;
    while i < n
      invariant i <= n && HexRun(t, c + 2, end, i) == Some(value)
    {
      var digit := Peek(t, c + 2 + i);
      if c + 2 + i == end || !IsHex(digit) {
        HexRunStops(t, c + 2, end, i + 1, n);
        return Bad;
      }
      value := 16 * value + if digit <= 57 then digit - 48 else if digit >= 97 then digit - 87 else digit - 55;
      i := i + 1;
    }
    if value >= 0x110000 {
      return Bad;
    }
    p := Piece(if isBytes then [value % 256] else CodepointBytes(value), c + 2 + n);
  }

  lemma {:induction false} HexRunStops(t: Bytes, at: nat, end: nat, i: nat, n: nat)
    requires i <= n && HexRun(t, at, end, i) == None
    ensures HexRun(t, at, end, n) == None
    decreases n
  {
    if i < n {
      HexRunStops(t, at, end, i, n - 1);
    }
  }

  /** One to three octal digits after a backslash. */
  method PushOctal(t: Bytes, start: nat, end: nat, isBytes: bool) returns (p: Piece)
    requires IsOctal(Peek(t, start + 1))
    ensures p == OctalPiece(t, start, end, isBytes)
  {
    var c: nat, out: nat := start, Peek(t, start + 1) - 48;
    if c + 2 != end && IsOctal(Peek(t, c + 2)) {
      out := 8 * out + Peek(t, c + 2) - 48;
      c := c + 1;
      if c + 1 != end && IsOctal(Peek(t, c + 2)) {
        out := 8 * out + Peek(t, c + 2) - 48;
        c := c + 1;
      }
    }
    p := Piece(if isBytes then [out % 256] else CodepointBytes(out), c + 2);
  }

  /** The cases of a backslash. */
  method PushEscape(t: Bytes, c: nat, end: nat, isBytes: bool) returns (p: Piece)
    requires Peek(t, c) == BACKSLASH
    ensures p == Decoded(t, c, end, isBytes)
  {
    hide HexPiece, OctalPiece, Peek;
    var d := Peek(t, c + 1);
    match d {
      case 92 => p := Piece([92], c + 2);
      case 39 => p := Piece([39], c + 2);
      case 34 => p := Piece([34], c + 2);
      case 97 => p := Piece([7], c + 2);
      case 98 => p := Piece([8], c + 2);
      case 102 => p := Piece([12], c + 2);
      case 110 => p := Piece([10], c + 2);
      case 114 => p := Piece([13], c + 2);
      case 116 => p := Piece([9], c + 2);
      case 118 => p := Piece([11], c + 2);
      case 91 => p := Piece([27], c + 2);
      case 120 => p := PushHex(t, c, end, 2, isBytes);
      case 117 =>
        if isBytes {
          p := Piece([BACKSLASH, d], c + 2);
        } else {
          p := PushHex(t, c, end, 4, false);
        }
      case 85 =>
        if isBytes {
          p := Piece([BACKSLASH, d], c + 2);
        } else {
          p := PushHex(t, c, end, 8, false);
        }
      case 10 => p := Piece([], c + 2);
      case _ =>
        if IsOctal(d) {
          p := PushOctal(t, c, end, isBytes);
        } else {
          p := Piece([BACKSLASH], c + 1);
        }
    }
  }

  /** Decode the literal that lies from `start` to `cur`, `type_` quotes at each end. */
  method Decode(t: Bytes, start: nat, cur: nat, type_: nat, isBytes: bool) returns (sb: Option<Bytes>)
    requires start + 2 * type_ <= cur
    ensures sb == DecodedFrom(t, start + type_, cur - type_, isBytes)
  {
    hide HexPiece, OctalPiece, Plain;
    var c, end := start + type_, cur - type_;
    var out := [];
    ghost var all := DecodedFrom(t, c, end, isBytes);
    PrefixedNone(all);
    while c < end
      invariant all == Prefixed(out, DecodedFrom(t, c, end, isBytes))
      decreases end - c
    {
      var ch := Peek(t, c);
      var piece := Piece([ch], c + 1);
      if ch == BACKSLASH {
        piece := PushEscape(t, c, end, isBytes);
        if piece.Bad? {
          return None;
        }
      } else if ch > 127 && isBytes {
        return None;
      }
      PrefixedTwice(out, piece.out, DecodedFrom(t, piece.next, end, isBytes));
      out := out + piece.out;
      c := piece.next;
    }
    assert out + [] == out;
    sb := Some(out);
  }

  lemma PrefixedNone(b: Option<Bytes>)
    ensures Prefixed([], b) == b
  {
    match b
    case None =>
    case Some(v) => assert [] + v == v;
  }

  function Prefixed(a: Bytes, b: Option<Bytes>): Option<Bytes> {
    match b
    case None => None
    case Some(v) => Some(a + v)
  }

  lemma PrefixedTwice(a: Bytes, b: Bytes, c: Option<Bytes>)
    ensures Prefixed(a, Prefixed(b, c)) == Prefixed(a + b, c)
  {
    match c
    case None =>
    case Some(v) => assert a + (b + v) == a + b + v;
  }

  // ----- a literal read back -----

  datatype Parsed = Str(value: Bytes, used: nat) | ByteStr(value: Bytes, used: nat) | Failed

  predicate IsAlnum(c: Byte) {
    97 <= c <= 122 || 65 <= c <= 90 || c == 95 || c > 127 || 48 <= c <= 57
  }

  /** Where the identifier that goes through `cur` ends. */
  function WordEnd(source: Bytes, cur: nat): nat
    decreases |source| - cur
  {
    if IsAlnum(Peek(source, cur)) then WordEnd(source, cur + 1) else cur
  }

  predicate IsQuote(c: Byte) {
    c == SINGLE || c == DOUBLE
  }

  /** A quoted literal whose opening quote is at `at`. */
  function ParsedAt(source: Bytes, at: nat, isBytes: bool): Parsed
    requires IsQuote(Peek(source, at))
  {
    var s := Literal(source, at + 1, Peek(source, at));
    if s.kind == ERROR then Failed else
      var type_ := if s.kind == BIG_STRING then 3 else 1;
      match DecodedFrom(source, at + type_, s.cur - type_, isBytes)
      case None => Failed
      case Some(value) => if isBytes then ByteStr(value, s.cur) else Str(value, s.cur)
  }

  /** The literal a source starts with. A lone b before a quote is a prefix. */
  function ParseLiteral(source: Bytes): Parsed {
    if IsQuote(Peek(source, 0)) then ParsedAt(source, 0, false)
    else if Peek(source, 0) == PREFIX_B && WordEnd(source, 0) == 1 && IsQuote(Peek(source, 1)) then ParsedAt(source, 1, true)
    else Failed
  }

  method ReadLiteral(source: Bytes) returns (p: Parsed)
    ensures p == ParseLiteral(source)
  {
    var scanner := new Scanner(source);
    var isBytes, at := false, 0;
    if !IsQuote(Peek(source, 0)) {
      if Peek(source, 0) != PREFIX_B {
        return Failed;
      }
      while IsAlnum(Peek(source, scanner.cur))
        invariant scanner.source == source && WordEnd(source, scanner.cur) == WordEnd(source, 0)
        decreases |source| - scanner.cur
      {
        scanner.Advance();
      }
      if scanner.cur != 1 || !IsQuote(Peek(source, 1)) {
        return Failed;
      }
      isBytes, at := true, 1;
    }
    assert scanner.source == source && scanner.cur == at && IsQuote(Peek(source, at));
    var quote := Peek(source, at);
    scanner.Advance();
    var kind := scanner.String(quote);
    if kind == ERROR {
      return Failed;
    }
    var value := Decode(source, at, scanner.cur, if kind == BIG_STRING then 3 else 1, isBytes);
    p := if value.None? then Failed else if isBytes then ByteStr(value.value, scanner.cur) else Str(value.value, scanner.cur);
  }

  // ----- what is printed reads back -----

  /** e stands in t at c. */
  ghost predicate Stands(t: Bytes, c: nat, e: Bytes) {
    c + |e| <= |t| && t[c..c + |e|] == e
  }

  lemma StandsParts(t: Bytes, c: nat, a: Bytes, b: Bytes)
    requires Stands(t, c, a + b)
    ensures Stands(t, c, a) && Stands(t, c + |a|, b)
  {
    var all := t[c..c + |a + b|];
    assert t[c..c + |a|] == all[..|a|] == a;
    assert t[c + |a|..c + |a| + |b|] == all[|a|..] == b;
  }

  lemma StandsAt(t: Bytes, c: nat, e: Bytes)
    requires Stands(t, c, e)
    ensures forall i | 0 <= i < |e| :: Peek(t, c + i) == e[i]
  {
    forall i | 0 <= i < |e| ensures Peek(t, c + i) == e[i] {
      assert t[c..c + |e|][i] == t[c + i];
    }
  }

  ghost predicate Suits(quote: Byte, isBytes: bool) {
    IsQuote(quote) && (isBytes ==> quote == SINGLE)
  }

  lemma PlainStep(t: Bytes, c: nat, quote: Byte)
    requires Peek(t, c) != 0 && Peek(t, c) != quote && Peek(t, c) != NEWLINE && Peek(t, c) != BACKSLASH
    ensures ShortEnd(t, c, quote) == ShortEnd(t, c + 1, quote)
  {
  }

  lemma SlashStep(t: Bytes, c: nat, quote: Byte)
    requires IsQuote(quote) && Peek(t, c) == BACKSLASH && Peek(t, c + 1) != 0
    ensures ShortEnd(t, c, quote) == ShortEnd(t, c + 2, quote)
  {
  }

  /** The scanner goes through what was written for a byte. */
  lemma ScanOne(t: Bytes, c: nat, b: Byte, quote: Byte, isBytes: bool)
    requires Suits(quote, isBytes) && Stands(t, c, Escape(b, quote, isBytes))
    ensures ShortEnd(t, c, quote) == ShortEnd(t, c + |Escape(b, quote, isBytes)|, quote)
  {
    hide ShortEnd, Stands;
    var e := Escape(b, quote, isBytes);
    StandsAt(t, c, e);
    assert Peek(t, c) == e[0];
    if |e| == 1 {
      PlainStep(t, c, quote);
    } else {
      assert Peek(t, c + 1) == e[1];
      SlashStep(t, c, quote);
      if |e| == 4 {
        assert Peek(t, c + 2) == e[2] && Peek(t, c + 3) == e[3];
        PlainStep(t, c + 2, quote);
        PlainStep(t, c + 3, quote);
      }
    }
  }

  /** The decoder turns it back into the byte. */
  lemma DecodeOne(t: Bytes, c: nat, end: nat, b: Byte, quote: Byte, isBytes: bool)
    requires Suits(quote, isBytes) && Stands(t, c, Escape(b, quote, isBytes)) && c + |Escape(b, quote, isBytes)| <= end
    ensures Decoded(t, c, end, isBytes) == Piece([b], c + |Escape(b, quote, isBytes)|)
  {
    hide Stands;
    var e := Escape(b, quote, isBytes);
    StandsAt(t, c, e);
    assert Peek(t, c) == e[0];
    if |e| == 4 {
      assert e == Hex(b);
      assert Peek(t, c + 1) == e[1] && Peek(t, c + 2) == e[2] && Peek(t, c + 3) == e[3];
      HexBack(t, c, end, b);
    } else if |e| == 2 {
      assert Peek(t, c + 1) == e[1];
    }
  }

  lemma HexBack(t: Bytes, c: nat, end: nat, b: Byte)
    requires Peek(t, c + 2) == HexDigit(b / 16) && Peek(t, c + 3) == HexDigit(b % 16) && c + 4 <= end
    ensures HexRun(t, c + 2, end, 2) == Some(b)
  {
    assert HexRun(t, c + 2, end, 0) == Some(0);
    assert HexRun(t, c + 2, end, 1) == Some(b / 16);
  }

  lemma {:induction false} ScanAll(t: Bytes, c: nat, s: Bytes, quote: Byte, isBytes: bool)
    requires Suits(quote, isBytes) && Stands(t, c, Escaped(s, quote, isBytes))
    ensures ShortEnd(t, c, quote) == ShortEnd(t, c + |Escaped(s, quote, isBytes)|, quote)
    decreases |s|
  {
    hide ShortEnd, Stands, Escape, Suits;
    if s != [] {
      var e := Escape(s[0], quote, isBytes);
      StandsParts(t, c, e, Escaped(s[1..], quote, isBytes));
      ScanOne(t, c, s[0], quote, isBytes);
      ScanAll(t, c + |e|, s[1..], quote, isBytes);
    }
  }

  lemma {:induction false} DecodeAll(t: Bytes, c: nat, end: nat, s: Bytes, quote: Byte, isBytes: bool)
    requires Suits(quote, isBytes) && Stands(t, c, Escaped(s, quote, isBytes)) && end == c + |Escaped(s, quote, isBytes)|
    ensures DecodedFrom(t, c, end, isBytes) == Some(s)
    decreases |s|
  {
    hide Stands, Escape, Suits, Decoded;
    if s != [] {
      var e := Escape(s[0], quote, isBytes);
      StandsParts(t, c, e, Escaped(s[1..], quote, isBytes));
      DecodeOne(t, c, end, s[0], quote, isBytes);
      DecodeAll(t, c + |e|, end, s[1..], quote, isBytes);
      assert [s[0]] + s[1..] == s;
    }
  }

  /** A printed literal reads back, and the scanner stops at its closing quote - unless it is empty and a third quote
      follows, which makes it the start of a triple-quoted one. */
  lemma LiteralReads(t: Bytes, at: nat, s: Bytes, quote: Byte, isBytes: bool)
    requires Suits(quote, isBytes) && Stands(t, at, [quote] + Escaped(s, quote, isBytes) + [quote])
    requires Peek(t, at) == quote
    ensures var used := at + |Escaped(s, quote, isBytes)| + 2;
      ParsedAt(t, at, isBytes) == (if isBytes then ByteStr(s, used) else Str(s, used))
      <==> !(s == [] && Peek(t, at + 2) == quote)
  {
    hide ShortEnd, BigEnd, DecodedFrom, Stands, Escape;
    var body := Escaped(s, quote, isBytes);
    var close := at + 1 + |body|;
    StandsParts(t, at, [quote] + body, [quote]);
    StandsParts(t, at, [quote], body);
    StandsAt(t, close, [quote]);
    assert Peek(t, close + 0) == quote;
    Ahead(t, at + 1);
    if s != [] {
      NotQuoted(t, at + 1, s, quote, isBytes);
    }
    if !(s == [] && Peek(t, at + 2) == quote) {
      assert !(Peek(t, at + 1) == quote && PeekNext(t, at + 1, 1) == quote);
      ScanAll(t, at + 1, s, quote, isBytes);
      ShortStops(t, close, quote);
      DecodeAll(t, at + 1, close, s, quote, isBytes);
    } else {
      assert PeekNext(t, at + 1, 1) == quote by { AheadIs(t, at + 1); }
    }
  }

  lemma AheadIs(t: Bytes, c: nat)
    ensures PeekNext(t, c, 1) == if Peek(t, c) == 0 then 0 else Peek(t, c + 1)
  {
    assert PeekNext(t, c + 1, 0) == Peek(t, c + 1);
  }

  lemma ShortStops(t: Bytes, c: nat, quote: Byte)
    requires IsQuote(quote) && Peek(t, c) == quote
    ensures ShortEnd(t, c, quote) == Scanned(STRING, c + 1)
  {
  }

  /** What is written never starts with the quote. */
  lemma NotQuoted(t: Bytes, c: nat, s: Bytes, quote: Byte, isBytes: bool)
    requires Suits(quote, isBytes) && s != [] && Stands(t, c, Escaped(s, quote, isBytes))
    ensures Peek(t, c) != quote
  {
    var e := Escape(s[0], quote, isBytes);
    StandsParts(t, c, e, Escaped(s[1..], quote, isBytes));
    StandsAt(t, c, e);
    assert Peek(t, c + 0) == e[0];
  }

  /** Reading a printed string gives it back, whatever comes after it, but for one case. */
  lemma StrRoundTrip(s: Bytes, rest: Bytes)
    ensures ParseLiteral(StrPrinted(s) + rest) == Str(s, |StrPrinted(s)|)
      <==> !(s == [] && rest != [] && rest[0] == SINGLE)
  {
    hide Escaped;
    var quote, t := QuoteFor(s), StrPrinted(s) + rest;
    assert Stands(t, 0, StrPrinted(s)) by { assert t[..|StrPrinted(s)|] == StrPrinted(s); }
    assert Peek(t, 0) == quote;
    LiteralReads(t, 0, s, quote, false);
    if s == [] {
      EscapedNone(quote, false);
      assert StrPrinted(s) == [SINGLE, SINGLE];
      assert Peek(t, 2) == if rest == [] then 0 else rest[0];
    }
  }

  lemma BytesRoundTrip(s: Bytes, rest: Bytes)
    ensures ParseLiteral(BytesPrinted(s) + rest) == ByteStr(s, |BytesPrinted(s)|)
      <==> !(s == [] && rest != [] && rest[0] == SINGLE)
  {
    hide Escaped;
    var t, body := BytesPrinted(s) + rest, [SINGLE] + Escaped(s, SINGLE, true) + [SINGLE];
    assert BytesPrinted(s) == [PREFIX_B] + body;
    assert Stands(t, 1, body) by { assert t[1..1 + |body|] == body; }
    assert Peek(t, 0) == PREFIX_B && Peek(t, 1) == SINGLE;
    assert WordEnd(t, 0) == WordEnd(t, 1) == 1;
    LiteralReads(t, 1, s, SINGLE, true);
    if s == [] {
      EscapedNone(SINGLE, true);
      assert Peek(t, 3) == if rest == [] then 0 else rest[0];
    }
  }
}
