/**
 * What the small JSON reader and writer do, in terms of text: a strict UTF-8 decoder for the bytes that come out of a
 * string, and a strict reader for the objects of the disassembly records.
 */
module JsonText {
  import opened Bits
  import opened Json

  // ---- UTF-8, as section 3 of RFC 3629 has it ----

  /** How many bytes follow a lead byte, the bits it carries itself, and the least code point of that length. */
  function Lead(b: Byte): Option<(nat, nat, nat)> {
    if b < 0x80 then Some((0, b, 0))
    else if 0xC0 <= b < 0xE0 then Some((1, b - 0xC0, 0x80))
    else if 0xE0 <= b < 0xF0 then Some((2, b - 0xE0, 0x800))
    else if 0xF0 <= b < 0xF8 then Some((3, b - 0xF0, 0x1_0000))
    else None
  }

  /** Six bits from each of `n` continuation bytes. */
  function Continued(s: seq<Byte>, n: nat, bits: nat): Option<(nat, seq<Byte>)> {
    if n == 0 then Some((bits, s))
    else if s == [] || !(0x80 <= s[0] < 0xC0) then None
    else Continued(s[1..], n - 1, bits * 64 + (s[0] - 0x80))
  }

  /** The first character, and what follows it; overlong forms, surrogates and stray bytes are refused. */
  function Decode(s: seq<Byte>): Option<(nat, seq<Byte>)> {
    if s == [] || Lead(s[0]).None? then None
    else
      var (n, bits, least) := Lead(s[0]).value;
      match Continued(s[1..], n, bits)
      case None => None
      case Some((cp, rest)) => if least <= cp && Scalar(cp) then Some((cp, rest)) else None
  }

  function DecodeAll(s: seq<Byte>): Option<seq<nat>>
    decreases |s|
  {
    if s == [] then Some([])
    else
      match Decode(s)
      case None => None
      case Some((cp, rest)) =>
        if |rest| >= |s| then None
        else if DecodeAll(rest).None? then None
        else Some([cp] + DecodeAll(rest).value)
  }

  lemma ContinuedStep(s: seq<Byte>, n: nat, bits: nat, d: nat, rest: seq<Byte>)
    requires s == [0x80 + d] + rest && d < 64 && n > 0
    ensures Continued(s, n, bits) == Continued(rest, n - 1, bits * 64 + d)
  {
    assert s[1..] == rest;
  }

  lemma SixBits(cp: nat)
    ensures cp / 64 * 64 + cp % 64 == cp
    ensures cp / 4096 * 64 + cp / 64 % 64 == cp / 64
    ensures cp / 262144 * 64 + cp / 4096 % 64 == cp / 4096
  {
    DivModUnique(cp / 64, 64, cp / 4096, cp / 64 % 64);
    DivModUnique(cp / 4096, 64, cp / 262144, cp / 4096 % 64);
  }

  /** The encoder's bytes decode to its character, whatever follows. */
  lemma Utf8Reads(cp: nat, rest: seq<Byte>)
    requires Scalar(cp)
    ensures Decode(Utf8(cp) + rest) == Some((cp, rest))
  {
    SixBits(cp);
    var s := Utf8(cp) + rest;
    var a, b, c := cp % 64, cp / 64 % 64, cp / 4096 % 64;
    hide Continued;
    if cp < 0x80 {
      ContinuedEnds(s[1..], cp);
      assert s[1..] == rest;
    } else if cp < 0x800 {
      assert s[1..] == [0x80 + a] + rest;
      ContinuedStep(s[1..], 1, cp / 64, a, rest);
      ContinuedEnds(rest, cp);
    } else if cp < 0x1_0000 {
      assert s[1..] == [0x80 + b] + ([0x80 + a] + rest);
      ContinuedStep(s[1..], 2, cp / 4096, b, [0x80 + a] + rest);
      ContinuedStep([0x80 + a] + rest, 1, cp / 64, a, rest);
      ContinuedEnds(rest, cp);
    } else {
      assert s[1..] == [0x80 + c] + ([0x80 + b] + ([0x80 + a] + rest));
      ContinuedStep(s[1..], 3, cp / 262144, c, [0x80 + b] + ([0x80 + a] + rest));
      ContinuedStep([0x80 + b] + ([0x80 + a] + rest), 2, cp / 4096, b, [0x80 + a] + rest);
      ContinuedStep([0x80 + a] + rest, 1, cp / 64, a, rest);
      ContinuedEnds(rest, cp);
    }
  }

  lemma ContinuedEnds(s: seq<Byte>, bits: nat)
    ensures Continued(s, 0, bits) == Some((bits, s))
  {
  }

  /** No other bytes decode to it: the encoder's form is the only one. */
  lemma Utf8IsUnique(s: seq<Byte>, cp: nat, rest: seq<Byte>)
    requires Decode(s) == Some((cp, rest))
    ensures Scalar(cp) && s == Utf8(cp) + rest
  {
    var (n, bits, least) := Lead(s[0]).value;
    assert s == [s[0]] + s[1..];
    ContinuedIs(s[1..], n, bits, cp, rest);
  }

  lemma ContinuedIs(s: seq<Byte>, n: nat, bits: nat, cp: nat, rest: seq<Byte>)
    requires n <= 3 && Continued(s, n, bits) == Some((cp, rest))
    ensures n == 0 ==> cp == bits && s == rest
    ensures n == 1 ==> cp / 64 == bits && s == [0x80 + cp % 64] + rest
    ensures n == 2 ==> cp / 4096 == bits && s == [0x80 + cp / 64 % 64, 0x80 + cp % 64] + rest
    ensures n == 3 ==>
      cp / 262144 == bits && s == [0x80 + cp / 4096 % 64, 0x80 + cp / 64 % 64, 0x80 + cp % 64] + rest
  {
    if n > 0 {
      var d := s[0] - 0x80;
      ContinuedIs(s[1..], n - 1, bits * 64 + d, cp, rest);
      SixBits(cp);
      assert s == [s[0]] + s[1..];
      DivModUnique(bits * 64 + d, 64, bits, d);
    }
  }

  /** Decoding reads exactly the encoder's form of every character, and nothing else. */
  lemma DecodeIff(s: seq<Byte>, cp: nat, rest: seq<Byte>)
    ensures Scalar(cp) <==> cp <= 0x10_FFFF && !(0xD800 <= cp <= 0xDFFF)
    ensures Decode(s) == Some((cp, rest)) <==> Scalar(cp) && s == Utf8(cp) + rest
  {
    hide Decode, Utf8;
    if Decode(s) == Some((cp, rest)) {
      Utf8IsUnique(s, cp, rest);
    }
    if Scalar(cp) && s == Utf8(cp) + rest {
      Utf8Reads(cp, rest);
    }
  }

  function Encoded(cps: seq<nat>): seq<Byte>
    requires forall i :: 0 <= i < |cps| ==> Scalar(cps[i])
  {
    if cps == [] then [] else Utf8(cps[0]) + Encoded(cps[1..])
  }

  lemma {:induction false} EncodedAppend(a: seq<nat>, b: seq<nat>)
    requires (forall i :: 0 <= i < |a| ==> Scalar(a[i])) && (forall i :: 0 <= i < |b| ==> Scalar(b[i]))
    ensures forall i :: 0 <= i < |a + b| ==> Scalar((a + b)[i])
    ensures Encoded(a + b) == Encoded(a) + Encoded(b)
  {
    hide Scalar, Utf8;
    if a == [] {
      assert a + b == b;
    } else {
      assert (a + b)[1..] == a[1..] + b;
      EncodedAppend(a[1..], b);
    }
  }

  lemma {:induction false} EncodedDecodes(cps: seq<nat>)
    requires forall i :: 0 <= i < |cps| ==> Scalar(cps[i])
    ensures DecodeAll(Encoded(cps)) == Some(cps)
  {
    hide Scalar, Utf8, Decode;
    if cps == [] {
    } else {
      Utf8Reads(cps[0], Encoded(cps[1..]));
      EncodedDecodes(cps[1..]);
      assert [cps[0]] + cps[1..] == cps;
    }
  }

  // ---- Strings of characters ----

  /** A character may stand for itself, as a one-letter escape, or by number. */
  datatype How = Raw | Letter | Number(upper: bool)

  datatype Char = Char(cp: nat, how: How)

  /** The letters of section 7 of RFC 8259. */
  function LetterOf(cp: nat): Option<char> {
    match cp
    case 0x22 => Some('"')
    case 0x5C => Some('\\')
    case 0x2F => Some('/')
    case 0x08 => Some('b')
    case 0x0C => Some('f')
    case 0x0A => Some('n')
    case 0x0D => Some('r')
    case 0x09 => Some('t')
    case _ => None
  }

  predicate GoodChar(c: Char) {
    && Scalar(c.cp)
    && (c.how.Raw? ==> c.cp != 0x22 && c.cp != 0x5C)
    && (c.how.Letter? ==> LetterOf(c.cp).Some?)
  }

  predicate GoodText(cs: seq<Char>) {
    forall i :: 0 <= i < |cs| ==> GoodChar(cs[i])
  }

  /** By number: one unit, or a pair of surrogates. */
  function NumberOf(cp: nat, upper: bool): Piece
    requires Scalar(cp)
  {
    if cp < 0x1_0000 then Unit(cp, upper)
    else Pair(0xD800 + (cp - 0x1_0000) / 1024, 0xDC00 + (cp - 0x1_0000) % 1024, upper)
  }

  function WriteChar(c: Char): seq<Byte>
    requires GoodChar(c)
  {
    match c.how
    case Raw => Utf8(c.cp)
    case Letter => [BACKSLASH, Code(LetterOf(c.cp).value)]
    case Number(upper) => Written(NumberOf(c.cp, upper))
  }

  function WriteText(cs: seq<Char>): seq<Byte>
    requires GoodText(cs)
  {
    if cs == [] then []
    else
      assert GoodChar(cs[0]);
      WriteChar(cs[0]) + WriteText(cs[1..])
  }

  function CodePoints(cs: seq<Char>): (cps: seq<nat>)
    ensures |cps| == |cs| && forall i :: 0 <= i < |cs| ==> cps[i] == cs[i].cp
  {
    seq(|cs|, i requires 0 <= i < |cs| => cs[i].cp)
  }

  lemma {:induction false} PlainReads(bytes: seq<Byte>, rest: seq<Byte>)
    requires QUOTE !in bytes && BACKSLASH !in bytes
    ensures Unescape(bytes + rest) == Prepend(bytes, Unescape(rest))
  {
    if bytes == [] {
      assert bytes + rest == rest;
      PrependNothing(Unescape(rest));
    } else {
      var s := bytes + rest;
      assert s[1..] == bytes[1..] + rest;
      PlainReads(bytes[1..], rest);
      PrependTwice([bytes[0]], bytes[1..], Unescape(rest));
      assert [bytes[0]] + bytes[1..] == bytes;
    }
  }

  lemma LetterReads(cp: nat, rest: seq<Byte>)
    requires LetterOf(cp).Some?
    ensures Unescape([BACKSLASH, Code(LetterOf(cp).value)] + rest) == Prepend(Utf8(cp), Unescape(rest))
  {
    var s := [BACKSLASH, Code(LetterOf(cp).value)] + rest;
    assert s[2..] == rest;
  }

  lemma CharReads(c: Char, rest: seq<Byte>)
    requires GoodChar(c)
    ensures Unescape(WriteChar(c) + rest) == Prepend(Utf8(c.cp), Unescape(rest))
  {
    match c.how
    case Raw =>
      hide Unescape;
      PlainReads(Utf8(c.cp), rest);
    case Letter =>
      hide Unescape;
      LetterReads(c.cp, rest);
    case Number(upper) =>
      hide Unescape, Written, Utf8;
      ScalarEscapeReads(c.cp, upper, rest);
  }

  /**
   * A JSON string is the text it was written for: however each character is written, in whatever mixture, unescaping
   * up to the closing quote gives bytes that a strict UTF-8 decoder reads as exactly those characters.
   */
  lemma TextReads(cs: seq<Char>, rest: seq<Byte>)
    requires GoodText(cs)
    ensures var r := Unescape(WriteText(cs) + ([QUOTE] + rest));
      r.Some? && DecodeAll(r.value) == Some(CodePoints(cs))
  {
    hide Unescape, WriteText, DecodeAll, Scalar;
    ScalarText(cs);
    TextUnescapes(cs, rest);
    EncodedDecodes(CodePoints(cs));
  }

  lemma ScalarText(cs: seq<Char>)
    requires GoodText(cs)
    ensures forall i :: 0 <= i < |cs| ==> Scalar(CodePoints(cs)[i])
  {
    hide Scalar;
    assert forall i :: 0 <= i < |cs| ==> GoodChar(cs[i]);
  }

  lemma {:induction false} TextUnescapes(cs: seq<Char>, rest: seq<Byte>)
    requires GoodText(cs) && forall i :: 0 <= i < |cs| ==> Scalar(CodePoints(cs)[i])
    ensures Unescape(WriteText(cs) + ([QUOTE] + rest)) == Some(Encoded(CodePoints(cs)))
  {
    hide Unescape, WriteChar, Scalar, Utf8;
    var end := [QUOTE] + rest;
    if cs == [] {
      assert WriteText(cs) + end == end;
      QuoteCloses(rest);
    } else {
      assert GoodChar(cs[0]);
      assert CodePoints(cs)[1..] == CodePoints(cs[1..]);
      TextUnescapes(cs[1..], rest);
      CharReads(cs[0], WriteText(cs[1..]) + end);
      assert WriteText(cs) + end == WriteChar(cs[0]) + (WriteText(cs[1..]) + end);
    }
  }

  /** The hexadecimal digits are these and no others, in either case. */
  lemma HexDigitIff(b: Byte, d: nat)
    requires d < 16
    ensures HexDigit(b) == Some(d) <==>
      b == Ascii("0123456789abcdef")[d] || b == Ascii("0123456789ABCDEF")[d]
  {
    if d < 10 {
      DecimalDigit(d);
    } else {
      LetterDigit(d);
    }
  }

  lemma DecimalDigit(d: nat)
    requires d < 10
    ensures Ascii("0123456789abcdef")[d] == 48 + d && Ascii("0123456789ABCDEF")[d] == 48 + d
  {
  }

  lemma LetterDigit(d: nat)
    requires 10 <= d < 16
    ensures Ascii("0123456789abcdef")[d] == 87 + d && Ascii("0123456789ABCDEF")[d] == 55 + d
  {
  }

  predicate AreDigits(s: seq<Byte>) {
    forall i :: 0 <= i < |s| ==> HexDigit(s[i]).Some?
  }

  lemma ThreeDigits(s: seq<Byte>, acc: nat)
    requires |s| == 3
    ensures HexFrom(s, acc).Some? <==> AreDigits(s)
    ensures AreDigits(s) ==> HexFrom(s, acc).value ==
                             4096 * acc + 256 * HexDigit(s[0]).value + 16 * HexDigit(s[1]).value + HexDigit(s[2]).value
  {
    hide HexDigit;
    var b, c := s[1..], s[1..][1..];
    assert c[1..] == [] && b[0] == s[1] && c[0] == s[2];
    if HexDigit(s[0]).Some? && HexDigit(s[1]).Some? {
      var next := acc * 16 + HexDigit(s[0]).value;
      assert HexFrom(s, acc) == HexFrom(b, next) == HexFrom(c, next * 16 + HexDigit(s[1]).value);
    }
  }

  /** Four hexadecimal digits, or a plus sign and three, which the number parser of the source takes as well. */
  lemma UnitParses(s: seq<Byte>)
    requires |s| == 4
    ensures ParseU16Hex(s).Some? <==> AreDigits(s[1..]) && (s[0] == Code('+') || HexDigit(s[0]).Some?)
    ensures ParseU16Hex(s).Some? ==> ParseU16Hex(s).value ==
                                     (if s[0] == Code('+') then 0 else 4096 * HexDigit(s[0]).value)
                                     + 256 * HexDigit(s[1]).value + 16 * HexDigit(s[2]).value + HexDigit(s[3]).value
  {
    assert Code('+') == 43 && HexDigit(43) == None;
    hide HexDigit;
    if s[0] == 43 {
      ThreeDigits(s[1..], 0);
    } else if HexDigit(s[0]).Some? {
      ThreeDigits(s[1..], HexDigit(s[0]).value);
    }
  }

  lemma ClosedAfter(w: seq<Byte>, bytes: seq<Byte>, rest: seq<Byte>)
    requires Unescape(w + ([QUOTE] + rest)) == Prepend(bytes, Unescape([QUOTE] + rest))
    ensures Unescape(w + [QUOTE] + rest) == Some(bytes)
  {
    assert Unescape([QUOTE] + rest) == Some([]);
    hide Unescape;
    assert w + [QUOTE] + rest == w + ([QUOTE] + rest);
    assert bytes + [] == bytes;
  }

  /** The escapes of an accented letter and of an emoji, byte by byte. */
  lemma KnownEscapes(rest: seq<Byte>)
    ensures Unescape(Ascii("\\u00e9\"") + rest) == Some([0xC3, 0xA9])
    ensures Unescape(Ascii("\\ud83d\\ude00\"") + rest) == Some([0xF0, 0x9F, 0x98, 0x80])
  {
    KnownTexts();
    KnownUtf8();
    hide Unescape, Ascii, Written, Utf8, GoodPiece, Prepend;
    ScalarEscapeReads(0xE9, false, [QUOTE] + rest);
    ScalarEscapeReads(0x1_F600, false, [QUOTE] + rest);
    ClosedAfter(Written(Unit(0xE9, false)), Utf8(0xE9), rest);
    ClosedAfter(Written(Pair(0xD83D, 0xDE00, false)), Utf8(0x1_F600), rest);
  }

  lemma KnownUtf8()
    ensures Utf8(0xE9) == [0xC3, 0xA9] && Utf8(0x1_F600) == [0xF0, 0x9F, 0x98, 0x80]
  {
  }

  lemma KnownTexts()
    ensures Written(Unit(0xE9, false)) + [QUOTE] == Ascii("\\u00e9\"")
    ensures Written(Pair(0xD83D, 0xDE00, false)) + [QUOTE] == Ascii("\\ud83d\\ude00\"")
  {
  }

  /** A lone second half of a pair stands for no character: what comes out is U+FFFD. */
  lemma LoneSurrogateReads(v: U16, upper: bool, rest: seq<Byte>)
    requires 0xDC00 <= v < 0xE000
    ensures Unescape(Written(Unit(v, upper)) + rest) == Prepend([0xEF, 0xBF, 0xBD], Unescape(rest))
  {
    hide Unescape, Written;
    assert Meaning(Unit(v, upper)) == [0xEF, 0xBF, 0xBD];
    PieceReads(Unit(v, upper), rest);
  }

  /** A string that is not closed gives nothing. */
  lemma {:induction false} UnclosedGivesNothing(s: seq<Byte>)
    requires QUOTE !in s
    ensures Unescape(s) == None
    decreases |s|
  {
    hide ShortEscape, UnicodeEscape;
    if s == [] {
    } else if s[0] != BACKSLASH {
      UnclosedGivesNothing(s[1..]);
    } else if |s| >= 2 {
      if s[1] == LETTER_U {
        if UnicodeEscape(s[2..]).Some? {
          UnclosedGivesNothing(s[2 + UnicodeEscape(s[2..]).value.1..]);
        }
      } else {
        UnclosedGivesNothing(s[2..]);
      }
    }
  }

  /** A backslash with a wrong letter, or with nothing, gives nothing. */
  lemma WrongLetterGivesNothing(s: seq<Byte>)
    requires s != [] && s[0] == BACKSLASH
    requires |s| > 1 ==> s[1] != LETTER_U && forall cp :: LetterOf(cp).Some? ==> s[1] != Code(LetterOf(cp).value)
    ensures Unescape(s) == None
  {
    assert Code(LetterOf(0x22).value) == 34 && Code(LetterOf(0x5C).value) == 92 && Code(LetterOf(0x2F).value) == 47;
    assert Code(LetterOf(0x08).value) == 98 && Code(LetterOf(0x0C).value) == 102 && Code(LetterOf(0x0A).value) == 110;
    assert Code(LetterOf(0x0D).value) == 114 && Code(LetterOf(0x09).value) == 116;
  }

  /** The first half of a pair without the escape of another unit behind it gives nothing. */
  lemma LoneFirstHalfGivesNothing(hi: U16, upper: bool, rest: seq<Byte>)
    requires HighSurrogate(hi) && !(|rest| >= 2 && rest[..2] == [BACKSLASH, LETTER_U])
    ensures Unescape([BACKSLASH, LETTER_U] + (Hex4(hi, upper) + rest)) == None
  {
    hide UnicodeEscape, Hex4;
    LoneFirstHalf(hi, upper, rest);
    var s := [BACKSLASH, LETTER_U] + (Hex4(hi, upper) + rest);
    assert s[2..] == Hex4(hi, upper) + rest;
  }

  lemma LoneFirstHalf(hi: U16, upper: bool, rest: seq<Byte>)
    requires HighSurrogate(hi) && !(|rest| >= 2 && rest[..2] == [BACKSLASH, LETTER_U])
    ensures UnicodeEscape(Hex4(hi, upper) + rest) == None
  {
    hide Hex4, ParseU16Hex, CharBytes, PairCodePoint;
    var s := Hex4(hi, upper) + rest;
    Hex4Reads(hi, upper);
    assert s[..4] == Hex4(hi, upper);
    if |rest| >= 2 {
      assert s[4..6] == rest[..2];
    }
  }

  // ---- Text in pieces ----

  function Plains(bytes: seq<Byte>): (ps: seq<Piece>)
    ensures |ps| == |bytes|
  {
    seq(|bytes|, i requires 0 <= i < |bytes| => Plain(bytes[i]))
  }

  function PiecesOfChar(c: Char): seq<Piece>
    requires GoodChar(c)
  {
    match c.how
    case Raw => Plains(Utf8(c.cp))
    case Letter => [Short(Code(LetterOf(c.cp).value))]
    case Number(upper) => [NumberOf(c.cp, upper)]
  }

  function PiecesOfText(cs: seq<Char>): seq<Piece>
    requires GoodText(cs)
  {
    if cs == [] then []
    else
      assert GoodChar(cs[0]);
      PiecesOfChar(cs[0]) + PiecesOfText(cs[1..])
  }

  lemma {:induction false} PiecesConcat(a: seq<Piece>, b: seq<Piece>)
    requires GoodPieces(a) && GoodPieces(b)
    ensures GoodPieces(a + b)
    ensures WrittenAll(a + b) == WrittenAll(a) + WrittenAll(b)
    ensures MeaningAll(a + b) == MeaningAll(a) + MeaningAll(b)
  {
    hide Written, Meaning, GoodPiece;
    if a == [] {
      assert a + b == b;
    } else {
      assert (a + b)[1..] == a[1..] + b;
      PiecesConcat(a[1..], b);
    }
  }

  lemma {:induction false} PlainsMean(bytes: seq<Byte>)
    requires QUOTE !in bytes && BACKSLASH !in bytes
    ensures GoodPieces(Plains(bytes)) && WrittenAll(Plains(bytes)) == bytes && MeaningAll(Plains(bytes)) == bytes
  {
    if bytes == [] {
    } else {
      assert Plains(bytes)[1..] == Plains(bytes[1..]);
      PlainsMean(bytes[1..]);
      assert [bytes[0]] + bytes[1..] == bytes;
    }
  }

  lemma OnePieceMeans(p: Piece)
    requires GoodPiece(p)
    ensures GoodPieces([p]) && WrittenAll([p]) == Written(p) && MeaningAll([p]) == Meaning(p)
  {
    hide Written, Meaning, GoodPiece;
    assert [p][1..] == [];
    assert Written(p) + [] == Written(p) && Meaning(p) + [] == Meaning(p);
  }

  lemma PiecesOfCharMean(c: Char)
    requires GoodChar(c)
    ensures GoodPieces(PiecesOfChar(c))
    ensures WrittenAll(PiecesOfChar(c)) == WriteChar(c) && MeaningAll(PiecesOfChar(c)) == Utf8(c.cp)
  {
    match c.how
    case Raw =>
      PlainsMean(Utf8(c.cp));
    case Letter =>
      OnePieceMeans(Short(Code(LetterOf(c.cp).value)));
    case Number(upper) =>
      assert GoodPiece(NumberOf(c.cp, upper)) && Meaning(NumberOf(c.cp, upper)) == Utf8(c.cp);
      hide Written, Meaning, Utf8;
      OnePieceMeans(NumberOf(c.cp, upper));
  }

  /** Text is a string of pieces that means its characters in UTF-8. */
  lemma {:induction false} TextIsPieces(cs: seq<Char>)
    requires GoodText(cs)
    ensures GoodPieces(PiecesOfText(cs)) && WrittenAll(PiecesOfText(cs)) == WriteText(cs)
    ensures forall i :: 0 <= i < |cs| ==> Scalar(CodePoints(cs)[i])
    ensures MeaningAll(PiecesOfText(cs)) == Encoded(CodePoints(cs))
  {
    ScalarText(cs);
    hide Written, Meaning, GoodPiece, Scalar, Utf8, WriteChar, PiecesOfChar, Plains;
    if cs == [] {
    } else {
      assert GoodChar(cs[0]);
      assert CodePoints(cs)[1..] == CodePoints(cs[1..]);
      TextIsPieces(cs[1..]);
      PiecesOfCharMean(cs[0]);
      PiecesConcat(PiecesOfChar(cs[0]), PiecesOfText(cs[1..]));
    }
  }

  // ---- A strict reader of instruction objects ----

  /** What follows a fixed text. */
  function After(s: seq<Byte>, text: string): Option<seq<Byte>> {
    if |text| <= |s| && s[..|text|] == Ascii(text) then Some(s[|text|..]) else None
  }

  /** A decimal number as far as its digits go, and what follows. */
  function ReadDigits(s: seq<Byte>, acc: nat): (nat, seq<Byte>) {
    if s == [] || !(0x30 <= s[0] <= 0x39) then (acc, s) else ReadDigits(s[1..], acc * 10 + (s[0] - 0x30))
  }

  function LowerHex(b: Byte): Option<nat> {
    if 0x30 <= b <= 0x39 then Some(b - 0x30)
    else if 0x61 <= b <= 0x66 then Some(b - 0x61 + 10)
    else None
  }

  /** Bytes in pairs of digits, up to the closing quote. */
  function ReadPairs(s: seq<Byte>): Option<(seq<Byte>, seq<Byte>)>
    decreases |s|
  {
    if |s| > 0 && s[0] == QUOTE then Some(([], s[1..]))
    else if |s| < 2 || LowerHex(s[0]).None? || LowerHex(s[1]).None? then None
    else
      match ReadPairs(s[2..])
      case None => None
      case Some((bytes, rest)) => Some(([LowerHex(s[0]).value * 16 + LowerHex(s[1]).value] + bytes, rest))
  }

  /** What follows the closing quote of a string. */
  function PastString(s: seq<Byte>): Option<seq<Byte>>
    decreases |s|
  {
    if s == [] then None
    else if s[0] == QUOTE then Some(s[1..])
    else if s[0] != BACKSLASH then PastString(s[1..])
    else if |s| < 2 then None
    else PastString(s[2..])
  }

  datatype InsnRead = InsnRead(relPc: nat, bytes: seq<Byte>, text: seq<Byte>, line: Option<nat>)

  function ReadLine(s: seq<Byte>): Option<Option<nat>> {
    match After(s, ",\"l\":")
    case Some(rest) =>
      var (line, end) := ReadDigits(rest, 0);
      if end == Ascii("}") then Some(Some(line)) else None
    case None => if s == Ascii("}") then Some(None) else None
  }

  function ReadText(s: seq<Byte>): Option<(seq<Byte>, Option<nat>)> {
    match (Unescape(s), PastString(s))
    case (Some(text), Some(end)) =>
      if ReadLine(end).None? then None else Some((text, ReadLine(end).value))
    case _ => None
  }

  /** The object of one instruction, whole. */
  function ReadInsn(s: seq<Byte>): Option<InsnRead> {
    match After(s, "{\"a\":\"")
    case None => None
    case Some(a) =>
      var (relPc, afterPc) := ReadDigits(a, 0);
      match After(afterPc, "\",\"b\":\"")
      case None => None
      case Some(b) =>
        match ReadPairs(b)
        case None => None
        case Some((bytes, afterBytes)) =>
          match After(afterBytes, ",\"t\":\"")
          case None => None
          case Some(t) =>
            if ReadText(t).None? then None
            else Some(InsnRead(relPc, bytes, ReadText(t).value.0, ReadText(t).value.1))
  }

  lemma AfterIs(text: string, bytes: seq<Byte>, rest: seq<Byte>)
    requires bytes == Ascii(text)
    ensures After(bytes + rest, text) == Some(rest)
  {
    var s := bytes + rest;
    assert s[..|text|] == bytes && s[|text|..] == rest;
  }

  lemma {:induction false} DecimalReads(n: nat, rest: seq<Byte>)
    ensures ReadDigits(Decimal(n) + rest, 0) == ReadDigits(rest, n)
    decreases n
  {
    if n < 10 {
      assert (Decimal(n) + rest)[1..] == rest;
    } else {
      var tail := [48 + n % 10] + rest;
      assert Decimal(n) + rest == Decimal(n / 10) + tail;
      DecimalReads(n / 10, tail);
      assert tail[1..] == rest;
    }
  }

  lemma {:induction false} PairsRead(bytes: seq<Byte>, rest: seq<Byte>)
    ensures ReadPairs(BytesToHex(bytes) + rest) ==
      match ReadPairs(rest)
      case None => None
      case Some((more, end)) => Some((bytes + more, end))
    decreases |bytes|
  {
    if bytes == [] {
      assert BytesToHex(bytes) + rest == rest;
      assert ReadPairs(rest).Some? ==> [] + ReadPairs(rest).value.0 == ReadPairs(rest).value.0;
    } else {
      var n := |bytes| - 1;
      var b := bytes[n];
      var last := [HexByte(b / 16, false), HexByte(b % 16, false)];
      assert BytesToHex(bytes) + rest == BytesToHex(bytes[..n]) + (last + rest);
      PairsRead(bytes[..n], last + rest);
      assert (last + rest)[2..] == rest;
      if ReadPairs(rest).Some? {
        assert bytes[..n] + ([b] + ReadPairs(rest).value.0) == bytes + ReadPairs(rest).value.0;
      }
    }
  }

  lemma {:induction false} EscapedIsPassed(s: seq<Byte>, rest: seq<Byte>)
    ensures PastString(Escape(s) + rest) == PastString(rest)
    decreases |s|
  {
    if s == [] {
      assert Escape(s) + rest == rest;
    } else {
      var n := |s| - 1;
      var tail := EscapeByte(s[n]) + rest;
      assert Escape(s) + rest == Escape(s[..n]) + tail;
      EscapedIsPassed(s[..n], tail);
      if EscapeByte(s[n]) == [] {
        assert tail == rest;
      } else if |EscapeByte(s[n])| == 1 {
        assert tail[1..] == rest;
      } else {
        assert tail[2..] == rest;
      }
    }
  }

  lemma TextAndLineRead(text: seq<Byte>, line: U32)
    ensures ReadText(Escape(text) + ([QUOTE] + LineJson(line)))
         == Some((KeptBytes(text), if line > 0 then Some(line) else None))
  {
    LineReads(line);
    hide Escape, Unescape, KeptBytes, LineJson, ReadLine;
    EscapeReads(text, LineJson(line));
    EscapedIsPassed(text, [QUOTE] + LineJson(line));
    assert ([QUOTE] + LineJson(line))[1..] == LineJson(line);
  }

  lemma LineReads(line: U32)
    ensures ReadLine(LineJson(line)) == Some(if line > 0 then Some(line) else None)
  {
    assert [125] == Ascii("}");
    if line > 0 {
      assert KEY_L == Ascii(",\"l\":");
      assert LineJson(line) == KEY_L + (Decimal(line) + [125]);
      AfterIs(",\"l\":", KEY_L, Decimal(line) + [125]);
      DecimalReads(line, [125]);
    } else {
      assert LineJson(line) == [125];
    }
  }

  lemma Keys()
    ensures KEY_A == Ascii("{\"a\":\"") && KEY_B == Ascii("\",\"b\":\"")
    ensures KEY_T == [QUOTE] + Ascii(",\"t\":\"")
  {
  }

  lemma NoDigit(rest: seq<Byte>, n: nat)
    requires rest != [] && rest[0] == QUOTE
    ensures ReadDigits(rest, n) == (n, rest)
  {
  }

  lemma PairsEnd(rest: seq<Byte>)
    ensures ReadPairs([QUOTE] + rest) == Some(([], rest))
  {
    assert ([QUOTE] + rest)[1..] == rest;
  }

  /**
   * The object of an instruction, read strictly as JSON with its four keys, is the instruction: its address, its bytes,
   * its text without dropped control bytes, and its line if it has one.
   */
  lemma InsnReadsBack(insn: Insn, line: U32)
    ensures ReadInsn(InsnJson(insn, line)) ==
      Some(InsnRead(insn.relPc, insn.bytes, KeptBytes(insn.text), if line > 0 then Some(line) else None))
  {
    Keys();
    var text := Escape(insn.text) + ([QUOTE] + LineJson(line));
    InsnSplits(insn, line, text);
    hide Ascii, Escape, LineJson, Decimal, BytesToHex, KeptBytes, InsnJson, ReadText;
    var bytes := BytesToHex(insn.bytes) + ([QUOTE] + (Ascii(",\"t\":\"") + text));
    var pc := Decimal(insn.relPc) + (KEY_B + bytes);
    AfterIs("{\"a\":\"", KEY_A, pc);
    DecimalReads(insn.relPc, KEY_B + bytes);
    NoDigit(KEY_B + bytes, insn.relPc);
    AfterIs("\",\"b\":\"", KEY_B, bytes);
    PairsRead(insn.bytes, [QUOTE] + (Ascii(",\"t\":\"") + text));
    PairsEnd(Ascii(",\"t\":\"") + text);
    assert insn.bytes + [] == insn.bytes;
    AfterIs(",\"t\":\"", Ascii(",\"t\":\""), text);
    TextAndLineRead(insn.text, line);
  }

  lemma InsnSplits(insn: Insn, line: U32, text: seq<Byte>)
    requires text == Escape(insn.text) + ([QUOTE] + LineJson(line))
    ensures InsnJson(insn, line) ==
      KEY_A + (Decimal(insn.relPc) + (KEY_B + (BytesToHex(insn.bytes) + ([QUOTE] + (Ascii(",\"t\":\"") + text)))))
  {
    Keys();
    hide Ascii, Escape, LineJson, Decimal, BytesToHex;
  }
}
