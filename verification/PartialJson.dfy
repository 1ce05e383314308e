/**
  The streaming extractor of conversation.rs: reads string and number fields out of a JSON
  buffer that is still arriving. Rust strings are their UTF-8 bytes.
 */
module PartialJson {
  import opened Wrappers
  import opened Utf8

  const QUOTE: byte := 0x22
  const BACKSLASH: byte := 0x5C
  const COLON: byte := 0x3A

  // ----- Decoding a string body -----

  function HexDigit(b: byte): Option<nat> {
    if 0x30 <= b <= 0x39 then Some(b - 0x30)
    else if 0x41 <= b <= 0x46 then Some(b - 0x41 + 10)
    else if 0x61 <= b <= 0x66 then Some(b - 0x61 + 10)
    else None
  }

  function HexValue(digits: seq<byte>): Option<nat> {
    if digits == [] then Some(0)
    else
      var last := HexDigit(digits[|digits| - 1]);
      var front := HexValue(digits[..|digits| - 1]);
      if last.Some? && front.Some? then Some(front.value * 16 + last.value) else None
  }

  /** `u32::from_str_radix(_, 16)` on four bytes: it also accepts one leading `+`. */
  function FromStrRadix16(s: seq<byte>): Option<nat>
    requires |s| == 4
  {
    if s[0] == 0x2B then HexValue(s[1..]) else HexValue(s)
  }

  /** What a one-letter escape stands for. */
  function ShortEscape(letter: byte): Option<scalar> {
    match letter
    case 0x22 => Some(0x22)
    case 0x5C => Some(0x5C)
    case 0x2F => Some(0x2F)
    case 0x6E => Some(0x0A)
    case 0x72 => Some(0x0D)
    case 0x74 => Some(0x09)
    case 0x62 => Some(0x08)
    case 0x66 => Some(0x0C)
    case _ => None
  }

  /** One step of the decoder: stop here, or write `out` and move on by `used` bytes. */
  datatype Lexeme = Stop | Emit(out: seq<byte>, used: nat)

  function LexUnicodeEscape(src: seq<byte>): Lexeme
    requires |src| >= 2
  {
    if |src| < 6 || !Valid(src[2..6]) then Stop
    else
      match FromStrRadix16(src[2..6])
      case None => Stop
      case Some(code) => Emit(if IsScalar(code) then Encode(code) else [], 6)
  }

  function Lex(src: seq<byte>): (l: Lexeme)
    requires src != []
    ensures l.Emit? ==> 0 < l.used <= |src|
  {
    if src[0] == QUOTE then Stop
    else if src[0] == BACKSLASH then
      if |src| < 2 then Stop
      else if src[1] == 0x75 then LexUnicodeEscape(src)
      else
        match ShortEscape(src[1])
        case Some(c) => Emit(Encode(c), 2)
        case None => Emit([BACKSLASH] + Encode(src[1]), 2)
    else
      var width := CharWidth(src[0]);
      if width == 0 then Emit([], 1)
      else if |src| < width || !Valid(src[..width]) then Stop
      else Emit(src[..width], width)
  }

  function Decode(src: seq<byte>): seq<byte> {
    if src == [] || Lex(src).Stop? then []
    else Lex(src).out + Decode(src[Lex(src).used..])
  }

  /** The escape at `i`: its letter, or its four hexadecimal digits once all have arrived. */
  method ReadEscape(src: seq<byte>, i: nat) returns (l: Lexeme)
    requires i < |src| && src[i] == BACKSLASH
    ensures l == Lex(src[i..])
  {
    if i + 1 >= |src| {
      return Stop;
    }
    var esc := src[i + 1];
    if esc == 0x75 {
      if i + 6 > |src| {
        return Stop;
      }
      var hex := src[i + 2..i + 6];
      assert src[i..][2..6] == hex;
      if !Valid(hex) {
        return Stop;
      }
      var code := FromStrRadix16(hex);
      if code.None? {
        return Stop;
      }
      return Emit(if IsScalar(code.value) then Encode(code.value) else [], 6);
    }
    var letter := ShortEscape(esc);
    if letter.Some? {
      return Emit(Encode(letter.value), 2);
    }
    return Emit([BACKSLASH] + Encode(esc), 2);
  }

  /** The whole character at `i`, nothing for a byte that cannot lead one. */
  method ReadChar(src: seq<byte>, i: nat) returns (l: Lexeme)
    requires i < |src| && src[i] != BACKSLASH && src[i] != QUOTE
    ensures l == Lex(src[i..])
  {
    var width := CharWidth(src[i]);
    if width == 0 {
      return Emit([], 1);
    }
    if i + width > |src| {
      return Stop;
    }
    assert src[i..][..width] == src[i..i + width];
    if !Valid(src[i..i + width]) {
      return Stop;
    }
    return Emit(src[i..i + width], width);
  }

  method DecodePartialJsonString(src: seq<byte>) returns (out: seq<byte>)
    ensures out == Decode(src)
    ensures Valid(out)
  {
    hide Decode, Lex;
    DecodeValid(src);
    out := [];
    var i := 0;
    while i < |src|
      invariant 0 <= i <= |src|
      invariant out + Decode(src[i..]) == Decode(src)
    {
      var b := src[i];
      if b == QUOTE {
        DecodeEnd(src, i);
        return;
      }
      var l: Lexeme;
      if b == BACKSLASH {
        l := ReadEscape(src, i);
      } else {
        l := ReadChar(src, i);
      }
      if l.Stop? {
        DecodeEnd(src, i);
        return;
      }
      DecodeStep(src, i, l, out);
      out := out + l.out;
      i := i + l.used;
    }
    DecodeEnd(src, i);
  }

  lemma DecodeEnd(src: seq<byte>, i: nat)
    requires i <= |src|
    requires i == |src| || src[i] == QUOTE || Lex(src[i..]).Stop?
    ensures Decode(src[i..]) == []
  {
    if i == |src| {
      assert src[i..] == [];
    }
  }

  lemma DecodeStep(src: seq<byte>, i: nat, l: Lexeme, done: seq<byte>)
    requires i < |src| && l == Lex(src[i..]) && l.Emit?
    ensures done + Decode(src[i..]) == (done + l.out) + Decode(src[i + l.used..])
  {
    assert src[i..][l.used..] == src[i + l.used..];
  }

  lemma LexValid(src: seq<byte>)
    requires src != []
    ensures Lex(src).Emit? ==> Valid(Lex(src).out)
  {
    forall c: scalar ensures Valid(Encode(c)) {
      WellFormedCharIsValid(Encode(c));
    }
    forall c: scalar ensures Valid([BACKSLASH] + Encode(c)) {
      ValidConcat([BACKSLASH], Encode(c));
    }
  }

  /** Whatever bytes arrive, the decoded value is valid UTF-8. */
  lemma {:induction false} DecodeValid(src: seq<byte>)
    ensures Valid(Decode(src))
  {
    if src != [] && Lex(src).Emit? {
      LexValid(src);
      DecodeValid(src[Lex(src).used..]);
      ValidConcat(Lex(src).out, Decode(src[Lex(src).used..]));
    }
  }

  /** A step that was possible on a buffer is the step taken on every extension of it. */
  lemma LexStable(src: seq<byte>, more: seq<byte>)
    requires src != [] && Lex(src).Emit?
    ensures Lex(src + more) == Lex(src)
  {
    assert |src| >= 6 ==> (src + more)[2..6] == src[2..6];
    var width := CharWidth(src[0]);
    assert |src| >= width ==> (src + more)[..width] == src[..width];
  }

  /** More bytes only ever append to the decoded value. */
  lemma {:induction false} DecodeMonotone(src: seq<byte>, more: seq<byte>)
    ensures Decode(src) <= Decode(src + more)
  {
    if src != [] && Lex(src).Emit? {
      LexStable(src, more);
      var n := Lex(src).used;
      assert (src + more)[n..] == src[n..] + more;
      DecodeMonotone(src[n..], more);
    }
  }

  // ----- The printers it inverts -----

  /**
    The ways section 7 of RFC 8259 lets one character of a string be written: itself, a
    one-letter escape, one `\u` escape, or (beyond the basic plane) two `\u` escapes.
   */
  datatype Piece =
    | Raw(c: scalar)
    | Short(c: scalar, letter: byte)
    | Hex(c: scalar, digits: seq<byte>)
    | Pair(c: scalar, high: seq<byte>, low: seq<byte>)

  /** The hexadecimal digit `d`, in either case. */
  predicate WritesDigit(b: byte, d: nat) {
    if d < 10 then b == 0x30 + d else d < 16 && (b == 0x41 + (d - 10) || b == 0x61 + (d - 10))
  }

  /** Four digits that write `code`. */
  ghost predicate IsHex(digits: seq<byte>, code: nat) {
    |digits| == 4 &&
    exists d0: nat, d1: nat, d2: nat, d3: nat ::
      && WritesDigit(digits[0], d0) && WritesDigit(digits[1], d1)
      && WritesDigit(digits[2], d2) && WritesDigit(digits[3], d3)
      && code == ((d0 * 16 + d1) * 16 + d2) * 16 + d3
  }

  /** The one-letter escapes: quote, backslash, solidus, and the letters for five controls. */
  predicate IsEscape(letter: int, c: int) {
    (letter, c) in {(0x22, 0x22), (0x5C, 0x5C), (0x2F, 0x2F), (0x62, 0x08), (0x66, 0x0C), (0x6E, 0x0A), (0x72, 0x0D),
                    (0x74, 0x09)}
  }

  ghost predicate Legal(p: Piece) {
    match p
    case Raw(c) => c >= 0x20 && c != QUOTE && c != BACKSLASH
    case Short(c, letter) => IsEscape(letter, c)
    case Hex(c, digits) => IsHex(digits, c)
    case Pair(c, high, low) =>
      && c >= 0x10000
      && IsHex(high, 0xD800 + (c - 0x10000) / 1024)
      && IsHex(low, 0xDC00 + (c - 0x10000) % 1024)
  }

  function Written(p: Piece): (r: seq<byte>) {
    match p
    case Raw(c) => Encode(c)
    case Short(_, letter) => [BACKSLASH, letter]
    case Hex(_, digits) => [BACKSLASH, 0x75] + digits
    case Pair(_, high, low) => [BACKSLASH, 0x75] + high + ([BACKSLASH, 0x75] + low)
  }

  function WrittenAll(ps: seq<Piece>): seq<byte> {
    if ps == [] then [] else Written(ps[0]) + WrittenAll(ps[1..])
  }

  /** The text the pieces stand for. */
  function Meaning(ps: seq<Piece>): seq<byte> {
    if ps == [] then [] else Encode(ps[0].c) + Meaning(ps[1..])
  }

  /** The text without the characters written as surrogate pairs. */
  function MeaningSansPairs(ps: seq<Piece>): seq<byte> {
    if ps == [] then []
    else (if ps[0].Pair? then [] else Encode(ps[0].c)) + MeaningSansPairs(ps[1..])
  }

  ghost predicate AllLegal(ps: seq<Piece>) {
    forall i :: 0 <= i < |ps| ==> Legal(ps[i])
  }

  lemma DigitRead(b: byte, d: nat)
    ensures HexDigit(b) == Some(d) <==> WritesDigit(b, d)
  {
  }

  lemma EscapeRead(letter: byte, c: scalar)
    ensures ShortEscape(letter) == Some(c) <==> IsEscape(letter, c)
  {
  }

  lemma HexOfFour(digits: seq<byte>)
    requires |digits| == 4
    ensures var d0, d1, d2, d3 := HexDigit(digits[0]), HexDigit(digits[1]), HexDigit(digits[2]), HexDigit(digits[3]);
            HexValue(digits) ==
            if d0.Some? && d1.Some? && d2.Some? && d3.Some?
            then Some(((d0.value * 16 + d1.value) * 16 + d2.value) * 16 + d3.value) else None
  {
    hide HexDigit;
    HexOfThree(digits[..3]);
    assert digits[..3][0] == digits[0] && digits[..3][1] == digits[1] && digits[..3][2] == digits[2];
  }

  lemma HexOfThree(digits: seq<byte>)
    requires |digits| == 3
    ensures var d0, d1, d2 := HexDigit(digits[0]), HexDigit(digits[1]), HexDigit(digits[2]);
            HexValue(digits) ==
            if d0.Some? && d1.Some? && d2.Some? then Some((d0.value * 16 + d1.value) * 16 + d2.value) else None
  {
    hide HexDigit;
    assert digits[..1][..0] == [] && HexValue(digits[..1]) == HexDigit(digits[0]);
    assert digits[..2][..1] == digits[..1];
  }

  /** Reading four digits is the inverse of writing them, in either case. */
  lemma HexReadExactly(digits: seq<byte>, code: nat)
    requires |digits| == 4
    ensures HexValue(digits) == Some(code) <==> IsHex(digits, code)
  {
    hide HexDigit, WritesDigit, HexValue;
    HexOfFour(digits);
    forall b: byte, d: nat ensures HexDigit(b) == Some(d) <==> WritesDigit(b, d) {
      DigitRead(b, d);
    }
    if IsHex(digits, code) {
      var d0: nat, d1: nat, d2: nat, d3: nat :|
        && WritesDigit(digits[0], d0) && WritesDigit(digits[1], d1)
        && WritesDigit(digits[2], d2) && WritesDigit(digits[3], d3)
        && code == ((d0 * 16 + d1) * 16 + d2) * 16 + d3;
    } else if HexValue(digits).Some? {
      HexWritten(digits, HexDigit(digits[0]).value, HexDigit(digits[1]).value, HexDigit(digits[2]).value,
                 HexDigit(digits[3]).value);
    }
  }

  lemma HexDigitsAreText(digits: seq<byte>, code: nat)
    requires IsHex(digits, code)
    ensures Valid(digits) && FromStrRadix16(digits) == Some(code)
  {
    HexReadExactly(digits, code);
    AsciiIsValid(digits);
  }

  lemma DecodeHexEscape(digits: seq<byte>, code: nat, rest: seq<byte>)
    requires IsHex(digits, code)
    ensures Decode([BACKSLASH, 0x75] + digits + rest)
         == (if IsScalar(code) then Encode(code) else []) + Decode(rest)
  {
    HexDigitsAreText(digits, code);
    var src := [BACKSLASH, 0x75] + digits + rest;
    assert src[2..6] == digits && src[6..] == rest;
  }

  /** One written character is decoded whole, and the decoder is left at what follows it. */
  lemma DecodePiece(p: Piece, rest: seq<byte>)
    requires Legal(p)
    ensures Decode(Written(p) + rest) == (if p.Pair? then [] else Encode(p.c)) + Decode(rest)
  {
    match p
    case Raw(c) => DecodeRaw(c, rest);
    case Short(c, letter) =>
      var src := [BACKSLASH, letter] + rest;
      EscapeRead(letter, c);
      assert src[2..] == rest;
      DecodeStep(src, 0, Emit(Encode(c), 2), []);
    case Hex(c, digits) => DecodeHexEscape(digits, c, rest);
    case Pair(c, high, low) => DecodePair(c, high, low, rest);
  }

  lemma DecodeRaw(c: scalar, rest: seq<byte>)
    requires Legal(Raw(c))
    ensures Decode(Encode(c) + rest) == Encode(c) + Decode(rest)
  {
    var text := Encode(c);
    var src := text + rest;
    WellFormedCharIsValid(text);
    assert src[..|text|] == text && src[|text|..] == rest && src[0] == text[0];
    assert text[0] != QUOTE && text[0] != BACKSLASH;
  }

  lemma DecodePair(c: scalar, high: seq<byte>, low: seq<byte>, rest: seq<byte>)
    requires Legal(Pair(c, high, low))
    ensures Decode(Written(Pair(c, high, low)) + rest) == Decode(rest)
  {
    hide Decode, Encode, HexValue;
    assert IsScalar(c);
    var tail := [BACKSLASH, 0x75] + low + rest;
    assert Written(Pair(c, high, low)) + rest == [BACKSLASH, 0x75] + high + tail;
    DecodeHexEscape(high, 0xD800 + (c - 0x10000) / 1024, tail);
    DecodeHexEscape(low, 0xDC00 + (c - 0x10000) % 1024, rest);
  }

  lemma {:induction false} DecodePieces(ps: seq<Piece>, rest: seq<byte>)
    requires AllLegal(ps)
    ensures Decode(WrittenAll(ps) + rest) == MeaningSansPairs(ps) + Decode(rest)
  {
    hide Decode, Written, Encode, Legal;
    if ps == [] {
      assert WrittenAll(ps) + rest == rest;
    } else {
      var tail := WrittenAll(ps[1..]) + rest;
      assert WrittenAll(ps) + rest == Written(ps[0]) + tail;
      DecodePiece(ps[0], tail);
      DecodePieces(ps[1..], rest);
    }
  }

  lemma {:induction false} SansPairsLength(ps: seq<Piece>)
    ensures |MeaningSansPairs(ps)| <= |Meaning(ps)|
    ensures MeaningSansPairs(ps) == Meaning(ps) <==> forall i :: 0 <= i < |ps| ==> !ps[i].Pair?
  {
    if ps != [] {
      SansPairsLength(ps[1..]);
      if ps[0].Pair? {
        assert |Encode(ps[0].c)| > 0;
      } else {
        var head := Encode(ps[0].c);
        assert (head + MeaningSansPairs(ps[1..]))[|head|..] == MeaningSansPairs(ps[1..]);
        assert (head + Meaning(ps[1..]))[|head|..] == Meaning(ps[1..]);
        assert forall i :: 1 <= i < |ps| ==> ps[i] == ps[1..][i - 1];
        assert forall i :: 0 <= i < |ps| - 1 ==> ps[1..][i] == ps[i + 1];
      }
    }
  }

  /**
    Decoding inverts every JSON spelling of every string, whatever follows the closing quote,
    exactly when no character is spelled as a surrogate pair.
   */
  lemma {:induction false} DecodeInvertsSpelling(ps: seq<Piece>, rest: seq<byte>)
    requires AllLegal(ps)
    ensures Decode(WrittenAll(ps) + ([QUOTE] + rest)) == Meaning(ps)
       <==> forall i :: 0 <= i < |ps| ==> !ps[i].Pair?
  {
    DecodePieces(ps, [QUOTE] + rest);
    SansPairsLength(ps);
  }

  /** A face (U+1F600) spelled as RFC 8259 asks, `\ud83d\ude00`, is decoded to nothing. */
  lemma PairDecodedToNothing()
    ensures var face := Pair(0x1F600, [0x64, 0x38, 0x33, 0x64], [0x64, 0x65, 0x30, 0x30]);
            Legal(face) && Decode(Written(face) + [QUOTE]) == [] && Meaning([face]) != []
  {
    var high: seq<byte>, low: seq<byte> := [0x64, 0x38, 0x33, 0x64], [0x64, 0x65, 0x30, 0x30];
    hide IsHex, HexValue, Decode;
    FaceDigits(high, low);
    DecodePair(0x1F600, high, low, [QUOTE]);
  }

  lemma FaceDigits(high: seq<byte>, low: seq<byte>)
    requires high == [0x64, 0x38, 0x33, 0x64] && low == [0x64, 0x65, 0x30, 0x30]
    ensures IsHex(high, 0xD83D) && IsHex(low, 0xDE00)
  {
    HexWritten(high, 0xD, 8, 3, 0xD);
    HexWritten(low, 0xD, 0xE, 0, 0);
  }

  lemma HexWritten(digits: seq<byte>, d0: nat, d1: nat, d2: nat, d3: nat)
    requires |digits| == 4 && WritesDigit(digits[0], d0) && WritesDigit(digits[1], d1)
    requires WritesDigit(digits[2], d2) && WritesDigit(digits[3], d3)
    ensures IsHex(digits, ((d0 * 16 + d1) * 16 + d2) * 16 + d3)
  {
  }

  /** In upper case, `\u00E9` is an e with an acute accent. */
  lemma UpperCaseHex(rest: seq<byte>)
    ensures Decode([BACKSLASH, 0x75, 0x30, 0x30, 0x45, 0x39] + rest) == [0xC3, 0xA9] + Decode(rest)
  {
    hide Decode;
    var digits: seq<byte> := [0x30, 0x30, 0x45, 0x39];
    HexWritten(digits, 0, 0, 0xE, 9);
    DecodeHexEscape(digits, 0xE9, rest);
    assert [BACKSLASH, 0x75] + digits == [BACKSLASH, 0x75, 0x30, 0x30, 0x45, 0x39];
  }

  function LowerHex(d: nat): byte
    requires d < 16
  {
    if d < 10 then 0x30 + d else 0x61 + (d - 10)
  }

  /** The usual printer: one-letter escapes, `\u00XX` for the other controls, raw UTF-8 elsewhere. */
  function Print(c: scalar): (p: Piece)
    ensures Legal(p) && p.c == c && !p.Pair?
  {
    match c
    case 0x22 => Short(c, 0x22)
    case 0x5C => Short(c, 0x5C)
    case 0x0A => Short(c, 0x6E)
    case 0x0D => Short(c, 0x72)
    case 0x09 => Short(c, 0x74)
    case 0x08 => Short(c, 0x62)
    case 0x0C => Short(c, 0x66)
    case _ =>
      assert IsScalar(c);
      if c < 0x20 then
        var digits: seq<byte> := [0x30, 0x30, LowerHex(c / 16), LowerHex(c % 16)];
        assert IsHex(digits, c) by { HexWritten(digits, 0, 0, c / 16, c % 16); }
        Hex(c, digits)
      else Raw(c)
  }

  function PrintAll(cs: seq<scalar>): (ps: seq<Piece>)
    ensures |ps| == |cs| && forall i :: 0 <= i < |cs| ==> ps[i] == Print(cs[i])
  {
    if cs == [] then [] else [Print(cs[0])] + PrintAll(cs[1..])
  }

  lemma {:induction false} PrintedMeaning(cs: seq<scalar>)
    ensures Meaning(PrintAll(cs)) == EncodeAll(cs)
  {
    if cs != [] {
      assert PrintAll(cs)[1..] == PrintAll(cs[1..]);
      PrintedMeaning(cs[1..]);
    }
  }

  /** Printing a string and decoding it back gives the string. */
  lemma {:induction false} DecodeInvertsPrint(cs: seq<scalar>, rest: seq<byte>)
    ensures Decode(WrittenAll(PrintAll(cs)) + ([QUOTE] + rest)) == EncodeAll(cs)
  {
    PrintedMeaning(cs);
    DecodeInvertsSpelling(PrintAll(cs), rest);
  }

  /**
    While the text is still arriving, the decoder shows exactly the characters received whole:
    a cut inside the next character, escaped or multi-byte, hides that character and no other.
   */
  lemma {:induction false} DecodeStreamed(ps: seq<Piece>, next: Piece, cut: nat)
    requires AllLegal(ps) && Legal(next) && cut < |Written(next)|
    ensures Decode(WrittenAll(ps) + Written(next)[..cut]) == MeaningSansPairs(ps)
  {
    var part := Written(next)[..cut];
    DecodePieces(ps, part);
    DecodeCut(next, cut);
  }

  /** A character that is cut off shows nothing. */
  lemma DecodeCut(p: Piece, cut: nat)
    requires Legal(p) && cut < |Written(p)|
    ensures Decode(Written(p)[..cut]) == []
  {
    var part := Written(p)[..cut];
    if cut > 0 {
      match p
      case Raw(c) =>
        WellFormedCharIsValid(Encode(c));
        assert part[0] == Encode(c)[0];
      case Short(_, _) =>
      case Hex(_, _) =>
      case Pair(c, high, low) => DecodeCutPair(high, 0xD800 + (c - 0x10000) / 1024, low, cut);
    }
  }

  lemma DecodeCutPair(high: seq<byte>, code: nat, low: seq<byte>, cut: nat)
    requires IsHex(high, code) && 0xD800 <= code < 0xDC00 && |low| == 4 && 0 < cut < 12
    ensures Decode(([BACKSLASH, 0x75] + high + ([BACKSLASH, 0x75] + low))[..cut]) == []
  {
    hide HexValue, FromStrRadix16;
    var part := ([BACKSLASH, 0x75] + high + ([BACKSLASH, 0x75] + low))[..cut];
    if cut < 6 {
      CutEscape(part);
    } else {
      var tail := part[6..];
      assert part == [BACKSLASH, 0x75] + high + tail;
      DecodeHexEscape(high, code, tail);
      if 6 < cut {
        CutEscape(tail);
      }
    }
  }

  /** The start of a `\u` escape. */
  lemma CutEscape(part: seq<byte>)
    requires 0 < |part| < 6 && part[0] == BACKSLASH && (|part| > 1 ==> part[1] == 0x75)
    ensures Decode(part) == []
  {
  }

  // ----- What is no legal spelling -----

  /** An escape that JSON does not have is kept as it stands. */
  lemma UnknownEscapeKept(letter: byte, rest: seq<byte>)
    requires letter != 0x75 && forall c: scalar :: !IsEscape(letter, c)
    ensures Decode([BACKSLASH, letter] + rest) == [BACKSLASH] + Encode(letter) + Decode(rest)
  {
    var src := [BACKSLASH, letter] + rest;
    assert src[2..] == rest;
    if ShortEscape(letter).Some? {
      EscapeRead(letter, ShortEscape(letter).value);
      assert false;
    }
  }

  /** A sign and three digits, which the number parser takes as well. */
  ghost predicate IsSignedHex(quad: seq<byte>, code: nat) {
    |quad| == 4 && quad[0] == 0x2B &&
    exists d1: nat, d2: nat, d3: nat ::
      && WritesDigit(quad[1], d1) && WritesDigit(quad[2], d2) && WritesDigit(quad[3], d3)
      && code == (d1 * 16 + d2) * 16 + d3
  }

  lemma SignedHexRead(quad: seq<byte>, code: nat)
    requires |quad| == 4 && quad[0] == 0x2B
    ensures HexValue(quad[1..]) == Some(code) <==> IsSignedHex(quad, code)
  {
    hide HexDigit, WritesDigit, HexValue;
    var digits := quad[1..];
    HexOfThree(digits);
    assert digits[0] == quad[1] && digits[1] == quad[2] && digits[2] == quad[3];
    forall b: byte, d: nat ensures HexDigit(b) == Some(d) <==> WritesDigit(b, d) {
      DigitRead(b, d);
    }
    if IsSignedHex(quad, code) {
      var d1: nat, d2: nat, d3: nat :|
        && WritesDigit(quad[1], d1) && WritesDigit(quad[2], d2) && WritesDigit(quad[3], d3)
        && code == (d1 * 16 + d2) * 16 + d3;
    } else if HexValue(digits).Some? {
      SignedHexWritten(quad, HexDigit(quad[1]).value, HexDigit(quad[2]).value, HexDigit(quad[3]).value);
    }
  }

  lemma SignedHexWritten(quad: seq<byte>, d1: nat, d2: nat, d3: nat)
    requires |quad| == 4 && quad[0] == 0x2B
    requires WritesDigit(quad[1], d1) && WritesDigit(quad[2], d2) && WritesDigit(quad[3], d3)
    ensures IsSignedHex(quad, (d1 * 16 + d2) * 16 + d3)
  {
  }

  lemma RadixExactly(quad: seq<byte>, code: nat)
    requires |quad| == 4
    ensures Valid(quad) && FromStrRadix16(quad) == Some(code) <==> IsHex(quad, code) || IsSignedHex(quad, code)
  {
    HexReadExactly(quad, code);
    if quad[0] == 0x2B {
      SignedHexRead(quad, code);
    }
    if IsHex(quad, code) || IsSignedHex(quad, code) {
      AsciiIsValid(quad);
    }
  }

  /**
    A `\u` escape stands for the code its four characters write, or nothing if that is no scalar
    value; if they write none the text ends there.
   */
  lemma HexEscapeExactly(quad: seq<byte>, code: nat, rest: seq<byte>)
    requires |quad| == 4
    ensures IsHex(quad, code) || IsSignedHex(quad, code) ==>
              Decode([BACKSLASH, 0x75] + quad + rest) == (if IsScalar(code) then Encode(code) else []) + Decode(rest)
    ensures (forall c: nat :: !IsHex(quad, c) && !IsSignedHex(quad, c)) ==>
              Decode([BACKSLASH, 0x75] + quad + rest) == []
  {
    hide IsHex, IsSignedHex, HexValue, FromStrRadix16, Valid;
    var src := [BACKSLASH, 0x75] + quad + rest;
    assert src[2..6] == quad && src[6..] == rest;
    RadixExactly(quad, code);
    if FromStrRadix16(quad).Some? {
      RadixExactly(quad, FromStrRadix16(quad).value);
    }
  }

  /** A byte that begins no character is skipped. */
  lemma StrayByteSkipped(b: byte, rest: seq<byte>)
    requires 0x80 <= b < 0xC0 || 0xF8 <= b
    ensures Decode([b] + rest) == Decode(rest)
  {
    assert ([b] + rest)[1..] == rest;
  }

  /** A character that is cut off or malformed ends the text. */
  lemma MalformedStops(src: seq<byte>)
    requires src != [] && 0xC0 <= src[0] < 0xF8 && forall n :: 0 <= n <= |src| ==> !WellFormedChar(src[..n])
    ensures Decode(src) == []
  {
    var w := CharWidth(src[0]);
    if w <= |src| {
      assert src[..w][..w] == src[..w] && src[..w][0] == src[0];
      assert !WellFormedChar(src[..w]);
    }
  }

  // ----- Finding a field -----

  predicate Whitespace(b: byte) {
    b == 0x20 || b == 0x09 || b == 0x0A || b == 0x0D
  }

  predicate NumberByte(b: byte) {
    b == 0x2D || b == 0x2B || 0x30 <= b <= 0x39 || b == 0x2E || b == 0x65 || b == 0x45
  }

  function SkipWhitespace(bytes: seq<byte>, i: nat): (j: nat)
    requires i <= |bytes|
    ensures i <= j <= |bytes|
    decreases |bytes| - i
  {
    if i < |bytes| && Whitespace(bytes[i]) then SkipWhitespace(bytes, i + 1) else i
  }

  lemma {:induction false} SkippedIsWhitespace(bytes: seq<byte>, i: nat, k: nat)
    requires i <= k < |bytes| && k < SkipWhitespace(bytes, i)
    ensures Whitespace(bytes[k])
    decreases k - i
  {
    if i < k {
      SkippedIsWhitespace(bytes, i + 1, k);
    }
  }

  function SkipNumber(bytes: seq<byte>, i: nat): (j: nat)
    requires i <= |bytes|
    ensures i <= j <= |bytes|
    ensures forall k :: i <= k < j ==> NumberByte(bytes[k])
    ensures j < |bytes| ==> !NumberByte(bytes[j])
    decreases |bytes| - i
  {
    if i < |bytes| && NumberByte(bytes[i]) then SkipNumber(bytes, i + 1) else i
  }

  predicate MatchAt(haystack: seq<byte>, needle: seq<byte>, k: nat) {
    k + |needle| <= |haystack| && haystack[k..k + |needle|] == needle
  }

  /** The first occurrence of `needle` at or after `start`. */
  function FindAt(haystack: seq<byte>, needle: seq<byte>, start: nat): (r: Option<nat>)
    ensures r.Some? ==> start <= r.value && MatchAt(haystack, needle, r.value)
    decreases |haystack| - start
  {
    if needle == [] || start + |needle| > |haystack| then None
    else if MatchAt(haystack, needle, start) then Some(start)
    else FindAt(haystack, needle, start + 1)
  }

  lemma {:induction false} FindAtFirst(haystack: seq<byte>, needle: seq<byte>, start: nat, k: nat)
    requires needle != [] && start <= k && MatchAt(haystack, needle, k)
    ensures FindAt(haystack, needle, start).Some? && FindAt(haystack, needle, start).value <= k
    decreases k - start
  {
    if !MatchAt(haystack, needle, start) {
      FindAtFirst(haystack, needle, start + 1, k);
    }
  }

  function Quoted(key: seq<byte>): seq<byte> {
    [QUOTE] + key + [QUOTE]
  }

  /** One turn of the search for a key: no occurrence, one that is no key, or a key's value. */
  datatype Hit = NoHit | NotKey(idx: nat) | Key(start: nat)

  function NextHit(bytes: seq<byte>, needle: seq<byte>, pos: nat): (h: Hit)
    ensures h.NotKey? ==> pos <= h.idx
    ensures h.Key? ==> h.start <= |bytes|
  {
    match FindAt(bytes, needle, pos)
    case None => NoHit
    case Some(idx) =>
      var cursor := SkipWhitespace(bytes, idx + |needle|);
      if cursor >= |bytes| || bytes[cursor] != COLON then NotKey(idx)
      else Key(SkipWhitespace(bytes, cursor + 1))
  }

  /** Where the value of the first real occurrence of the quoted key begins, white space skipped. */
  function ValueStart(bytes: seq<byte>, needle: seq<byte>, pos: nat): (r: Option<nat>)
    ensures r.Some? ==> r.value <= |bytes|
    decreases |bytes| + 1 - pos
  {
    if pos > |bytes| then None
    else
      match NextHit(bytes, needle, pos)
      case NoHit => None
      case NotKey(idx) => ValueStart(bytes, needle, idx + 1)
      case Key(start) => Some(start)
  }

  function ScanString(bytes: seq<byte>, key: seq<byte>): Option<seq<byte>> {
    match ValueStart(bytes, Quoted(key), 0)
    case None => None
    case Some(cursor) =>
      if cursor >= |bytes| || bytes[cursor] != QUOTE then None
      else Some(Decode(bytes[cursor + 1..]))
  }

  /** The digits of a number field, once something other than the end of the buffer ends them. */
  function NumberText(bytes: seq<byte>, key: seq<byte>): Option<seq<byte>> {
    match ValueStart(bytes, Quoted(key), 0)
    case None => None
    case Some(start) =>
      var end := SkipNumber(bytes, start);
      if end == start || end == |bytes| then None else Some(bytes[start..end])
  }

  function ScanNumber<T>(bytes: seq<byte>, key: seq<byte>, parse: seq<byte> -> Option<T>): Option<T> {
    match NumberText(bytes, key)
    case None => None
    case Some(text) => parse(text)
  }

  method SkipSpaces(bytes: seq<byte>, i: nat) returns (j: nat)
    requires i <= |bytes|
    ensures j == SkipWhitespace(bytes, i)
  {
    j := i;
    while j < |bytes| && Whitespace(bytes[j])
      invariant j <= |bytes|
      invariant SkipWhitespace(bytes, j) == SkipWhitespace(bytes, i)
    {
      j := j + 1;
    }
  }

  method NextOccurrence(bytes: seq<byte>, needle: seq<byte>, pos: nat) returns (h: Hit)
    ensures h == NextHit(bytes, needle, pos)
  {
    var found := FindAt(bytes, needle, pos);
    if found.None? {
      return NoHit;
    }
    var cursor := SkipSpaces(bytes, found.value + |needle|);
    if cursor >= |bytes| || bytes[cursor] != COLON {
      return NotKey(found.value);
    }
    cursor := SkipSpaces(bytes, cursor + 1);
    return Key(cursor);
  }

  method LocateValue(bytes: seq<byte>, needle: seq<byte>) returns (r: Option<nat>)
    ensures r == ValueStart(bytes, needle, 0)
  {
    var pos := 0;
    while pos <= |bytes|
      invariant ValueStart(bytes, needle, pos) == ValueStart(bytes, needle, 0)
      decreases |bytes| + 1 - pos
    {
      var hit := NextOccurrence(bytes, needle, pos);
      match hit
      case NoHit => return None;
      case Key(start) => return Some(start);
      case NotKey(idx) => pos := idx + 1;
    }
    return None;
  }

  method ScanStringField(bytes: seq<byte>, key: seq<byte>) returns (r: Option<seq<byte>>)
    ensures r == ScanString(bytes, key)
  {
    hide Decode;
    var cursor := LocateValue(bytes, Quoted(key));
    if cursor.None? || cursor.value >= |bytes| || bytes[cursor.value] != QUOTE {
      return None;
    }
    var text := DecodePartialJsonString(bytes[cursor.value + 1..]);
    return Some(text);
  }

  method ScanNumberField<T>(bytes: seq<byte>, key: seq<byte>, parse: seq<byte> -> Option<T>) returns (r: Option<T>)
    ensures r == ScanNumber(bytes, key, parse)
  {
    var start := LocateValue(bytes, Quoted(key));
    if start.None? {
      return None;
    }
    var cursor := start.value;
    while cursor < |bytes| && NumberByte(bytes[cursor])
      invariant start.value <= cursor <= |bytes|
      invariant SkipNumber(bytes, cursor) == SkipNumber(bytes, start.value)
    {
      cursor := cursor + 1;
    }
    if cursor == start.value || cursor == |bytes| {
      return None;
    }
    return parse(bytes[start.value..cursor]);
  }

  // ----- What more bytes can change -----

  lemma {:induction false} SkipWhitespaceStable(bytes: seq<byte>, more: seq<byte>, i: nat)
    requires i <= |bytes| && SkipWhitespace(bytes, i) < |bytes|
    ensures SkipWhitespace(bytes + more, i) == SkipWhitespace(bytes, i)
    decreases |bytes| - i
  {
    if Whitespace(bytes[i]) {
      SkipWhitespaceStable(bytes, more, i + 1);
    }
  }

  lemma {:induction false} FindAtStable(bytes: seq<byte>, more: seq<byte>, needle: seq<byte>, start: nat)
    requires FindAt(bytes, needle, start).Some?
    ensures FindAt(bytes + more, needle, start) == FindAt(bytes, needle, start)
    decreases |bytes| - start
  {
    assert (bytes + more)[start..start + |needle|] == bytes[start..start + |needle|];
    if bytes[start..start + |needle|] != needle {
      FindAtStable(bytes, more, needle, start + 1);
    }
  }

  /** After a match that is followed only by white space there is no later match. */
  lemma NoMatchInTrailingSpace(bytes: seq<byte>, key: seq<byte>, idx: nat)
    requires idx + |Quoted(key)| <= |bytes|
    requires SkipWhitespace(bytes, idx + |Quoted(key)|) == |bytes|
    ensures FindAt(bytes, Quoted(key), idx + 1).None?
  {
    hide FindAt, SkipWhitespace;
    var needle := Quoted(key);
    var later := FindAt(bytes, needle, idx + 1);
    if later.Some? {
      var last := later.value + |needle| - 1;
      assert bytes[later.value..later.value + |needle|][|needle| - 1] == bytes[last];
      SkippedIsWhitespace(bytes, idx + |needle|, last);
    }
  }

  lemma NextHitStable(bytes: seq<byte>, more: seq<byte>, needle: seq<byte>, pos: nat)
    requires FindAt(bytes, needle, pos).Some?
    requires var cursor := SkipWhitespace(bytes, FindAt(bytes, needle, pos).value + |needle|);
             && cursor < |bytes|
             && (bytes[cursor] == COLON ==> SkipWhitespace(bytes, cursor + 1) < |bytes|)
    ensures NextHit(bytes + more, needle, pos) == NextHit(bytes, needle, pos)
  {
    hide SkipWhitespace, FindAt, Whitespace;
    var idx := FindAt(bytes, needle, pos).value;
    var cursor := SkipWhitespace(bytes, idx + |needle|);
    FindAtStable(bytes, more, needle, pos);
    SkipWhitespaceStable(bytes, more, idx + |needle|);
    if bytes[cursor] == COLON {
      SkipWhitespaceStable(bytes, more, cursor + 1);
    }
  }

  lemma {:induction false} ValueStartStable(bytes: seq<byte>, more: seq<byte>, key: seq<byte>, pos: nat)
    requires ValueStart(bytes, Quoted(key), pos).Some?
    requires ValueStart(bytes, Quoted(key), pos).value < |bytes|
    ensures ValueStart(bytes + more, Quoted(key), pos) == ValueStart(bytes, Quoted(key), pos)
    decreases |bytes| + 1 - pos
  {
    hide SkipWhitespace, Whitespace, FindAt, Quoted;
    var needle := Quoted(key);
    var hit := NextHit(bytes, needle, pos);
    if hit.NotKey? {
      if SkipWhitespace(bytes, hit.idx + |needle|) == |bytes| {
        NoMatchInTrailingSpace(bytes, key, hit.idx);
        assert false;
      }
      ValueStartStable(bytes, more, key, hit.idx + 1);
    }
    NextHitStable(bytes, more, needle, pos);
  }

  /**
    Streaming monotonicity, per key: once a field has been seen, every longer buffer shows the
    same field with a value that extends the one already shown.
   */
  lemma {:induction false} ScanStringMonotone(bytes: seq<byte>, more: seq<byte>, key: seq<byte>)
    requires ScanString(bytes, key).Some?
    ensures ScanString(bytes + more, key).Some?
    ensures ScanString(bytes, key).value <= ScanString(bytes + more, key).value
  {
    hide Decode, ValueStart, Quoted;
    ValueStartStable(bytes, more, key, 0);
    var cursor := ValueStart(bytes, Quoted(key), 0).value;
    assert (bytes + more)[cursor + 1..] == bytes[cursor + 1..] + more;
    DecodeMonotone(bytes[cursor + 1..], more);
  }

  /** A number starts where the field's value does, and ends at a byte that cannot belong to it. */
  ghost predicate NumberEndsAt(bytes: seq<byte>, start: nat, end: nat) {
    && start < end < |bytes| && !NumberByte(bytes[end])
    && forall k :: start <= k < end ==> NumberByte(bytes[k])
  }

  /**
    The digits of a number are read exactly when the field has a value, which starts with at
    least one byte of a number and runs into another byte before the buffer ends.
   */
  lemma NumberTextExactly(bytes: seq<byte>, key: seq<byte>, text: seq<byte>)
    ensures NumberText(bytes, key) == Some(text)
       <==> exists start: nat, end: nat :: ValueStart(bytes, Quoted(key), 0) == Some(start)
              && NumberEndsAt(bytes, start, end) && text == bytes[start..end]
  {
    hide ValueStart, Quoted;
    var found := ValueStart(bytes, Quoted(key), 0);
    if found.Some? {
      var start := found.value;
      var stop := SkipNumber(bytes, start);
      forall end: nat | NumberEndsAt(bytes, start, end) ensures end == stop {
        assert stop < |bytes| ==> !NumberByte(bytes[stop]);
      }
      assert start < stop < |bytes| ==> NumberEndsAt(bytes, start, stop);
    }
  }

  /**
    Number finality: once the digits are delimited, no extension changes them, so neither a
    parsed number nor a failure to parse one is ever revised.
   */
  lemma {:induction false} ScanNumberFinal<T>(
      bytes: seq<byte>, more: seq<byte>, key: seq<byte>, parse: seq<byte> -> Option<T>)
    requires NumberText(bytes, key).Some?
    ensures NumberText(bytes + more, key) == NumberText(bytes, key)
    ensures ScanNumber(bytes + more, key, parse) == ScanNumber(bytes, key, parse)
  {
    hide ValueStart, Quoted, NumberText, NumberByte;
    var text := NumberText(bytes, key).value;
    NumberTextExactly(bytes, key, text);
    var start: nat, end: nat :| ValueStart(bytes, Quoted(key), 0) == Some(start)
      && NumberEndsAt(bytes, start, end) && text == bytes[start..end];
    ValueStartStable(bytes, more, key, 0);
    assert (bytes + more)[start..end] == bytes[start..end];
    assert NumberEndsAt(bytes + more, start, end);
    NumberTextExactly(bytes + more, key, text);
  }

  /** A number is never read from digits that run to the end of the buffer. */
  lemma ScanNumberDelimited<T>(bytes: seq<byte>, key: seq<byte>, parse: seq<byte> -> Option<T>)
    returns (start: nat, end: nat)
    requires ScanNumber(bytes, key, parse).Some?
    ensures ValueStart(bytes, Quoted(key), 0) == Some(start) && NumberEndsAt(bytes, start, end)
    ensures ScanNumber(bytes, key, parse) == parse(bytes[start..end])
  {
    start := ValueStart(bytes, Quoted(key), 0).value;
    end := SkipNumber(bytes, start);
  }

  /** A letter ends a number too: `"n":1x` is read as 1. */
  lemma LetterEndsNumber()
    ensures NumberText([QUOTE, 0x6E, QUOTE, COLON, 0x31, 0x78], [0x6E]) == Some([0x31])
  {
    hide ValueStart, Quoted;
    var bytes: seq<byte> := [QUOTE, 0x6E, QUOTE, COLON, 0x31, 0x78];
    KeyAt(bytes, 0x6E, 0);
    assert NumberEndsAt(bytes, 4, 5) && bytes[4..5] == [0x31];
    NumberTextExactly(bytes, [0x6E], [0x31]);
  }

  // ----- Several spellings of one key -----

  /** The first alias, in the order given, that is present. */
  function ExtractString(bytes: seq<byte>, keys: seq<seq<byte>>): Option<seq<byte>> {
    if keys == [] then None
    else if ScanString(bytes, keys[0]).Some? then ScanString(bytes, keys[0])
    else ExtractString(bytes, keys[1..])
  }

  /** Where the alias that answers stands in the list; the length of the list if none does. */
  function Answering(bytes: seq<byte>, keys: seq<seq<byte>>): (i: nat)
    ensures i <= |keys|
    ensures ExtractString(bytes, keys) == if i < |keys| then ScanString(bytes, keys[i]) else None
  {
    if keys == [] || ScanString(bytes, keys[0]).Some? then 0
    else 1 + Answering(bytes, keys[1..])
  }

  /**
    With aliases the answer can only move to an earlier alias, and the value grows as long as
    it does not move.
   */
  lemma {:induction false} ExtractStringMonotone(bytes: seq<byte>, more: seq<byte>, keys: seq<seq<byte>>)
    requires ExtractString(bytes, keys).Some?
    ensures ExtractString(bytes + more, keys).Some?
    ensures Answering(bytes + more, keys) <= Answering(bytes, keys)
    ensures Answering(bytes + more, keys) == Answering(bytes, keys) ==>
              ExtractString(bytes, keys).value <= ExtractString(bytes + more, keys).value
  {
    if ScanString(bytes, keys[0]).Some? {
      ScanStringMonotone(bytes, more, keys[0]);
    } else if ScanString(bytes + more, keys[0]).None? {
      ExtractStringMonotone(bytes, more, keys[1..]);
    }
  }

  /** Such a move can replace the value: when an earlier alias arrives later, the answer is another field's. */
  lemma AliasMaySwitch() returns (bytes: seq<byte>, more: seq<byte>, keys: seq<seq<byte>>)
    ensures ExtractString(bytes, keys).Some? && ExtractString(bytes + more, keys).Some?
    ensures !(ExtractString(bytes, keys).value <= ExtractString(bytes + more, keys).value)
  {
    hide Decode, ScanString;
    var a, b: seq<byte> := [0x61], [0x62];
    keys := [a, b];
    bytes := [0x22, 0x62, 0x22, 0x3A, 0x22, 0x78];
    more := [0x22, 0x2C, 0x22, 0x61, 0x22, 0x3A, 0x22, 0x79];
    AbsentKey(bytes, 0x61);
    FieldAt(bytes, 0x62, 0, 0x78);
    FieldAt(bytes + more, 0x61, 8, 0x79);
    assert keys[1..] == [b];
    assert ExtractString(bytes, [b]) == ScanString(bytes, b);
    var before, after: seq<byte> := [0x78], [0x79];
    assert ExtractString(bytes, keys) == Some(before) && ExtractString(bytes + more, keys) == Some(after);
    assert before[0] != after[0];
  }

  lemma MatchHasLetter(bytes: seq<byte>, letter: byte, k: nat)
    requires MatchAt(bytes, Quoted([letter]), k)
    ensures k + 3 <= |bytes| && bytes[k + 1] == letter
  {
    assert bytes[k..k + 3][1] == letter;
  }

  lemma AbsentKey(bytes: seq<byte>, letter: byte)
    requires letter !in bytes
    ensures ScanString(bytes, [letter]).None?
  {
    hide Decode, MatchAt, Quoted;
    var found := FindAt(bytes, Quoted([letter]), 0);
    if found.Some? {
      MatchHasLetter(bytes, letter, found.value);
      assert false;
    }
  }

  /** A one-letter key, with a value after its colon. */
  lemma KeyAt(bytes: seq<byte>, letter: byte, idx: nat)
    requires idx + 5 <= |bytes| && bytes[idx..idx + 4] == [QUOTE, letter, QUOTE, COLON]
    requires !Whitespace(bytes[idx + 4]) && forall k :: 0 <= k <= idx ==> bytes[k] != letter
    ensures ValueStart(bytes, Quoted([letter]), 0) == Some(idx + 4)
  {
    hide FindAt;
    var needle := Quoted([letter]);
    var head := bytes[idx..idx + 4];
    assert head[3] == bytes[idx + 3];
    assert bytes[idx..idx + 3] == head[..3] == needle;
    FindAtFirst(bytes, needle, 0, idx);
    var found := FindAt(bytes, needle, 0).value;
    MatchHasLetter(bytes, letter, found);
    assert found == idx;
    assert SkipWhitespace(bytes, idx + 3) == idx + 3 && SkipWhitespace(bytes, idx + 4) == idx + 4;
  }

  /** A one-letter key whose one-character value ends the buffer. */
  lemma FieldAt(bytes: seq<byte>, letter: byte, idx: nat, value: byte)
    requires idx + 6 == |bytes| && bytes[idx..] == [QUOTE, letter, QUOTE, COLON, QUOTE, value]
    requires forall k :: 0 <= k <= idx ==> bytes[k] != letter
    requires 0x20 < value < 0x80 && value != QUOTE && value != BACKSLASH
    ensures ScanString(bytes, [letter]) == Some([value])
  {
    hide Decode, ValueStart;
    var tail := bytes[idx..];
    assert tail[4] == bytes[idx + 4] && bytes[idx..idx + 4] == tail[..4];
    KeyAt(bytes, letter, idx);
    assert bytes[idx + 5..] == tail[5..] == [value];
    OneCharacter(value);
  }

  lemma OneCharacter(value: byte)
    requires 0x20 < value < 0x80 && value != QUOTE && value != BACKSLASH
    ensures Decode([value]) == [value]
  {
    assert [value][..1] == [value] && [value][1..] == [];
    assert Valid([value]);
  }
}
