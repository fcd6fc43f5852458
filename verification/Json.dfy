/** The small JSON writer of the disassembly records and the small JSON reader of the heap snapshots. */
module Json {
  import opened Bits

  const QUOTE: Byte := 34
  const BACKSLASH: Byte := 92
  const LETTER_U: Byte := 117
  const REPLACEMENT: nat := 0xFFFD

  // ---- Searching ----

  predicate At(haystack: seq<Byte>, needle: seq<Byte>, i: nat) {
    i + |needle| <= |haystack| && haystack[i..i + |needle|] == needle
  }

  /** Where `needle` occurs first. */
  function FindFrom(haystack: seq<Byte>, needle: seq<Byte>, i: nat): (r: Option<nat>)
    ensures r.Some? ==> i <= r.value && At(haystack, needle, r.value)
    ensures r.Some? ==> forall j :: i <= j < r.value ==> !At(haystack, needle, j)
    ensures r.None? ==> forall j :: i <= j ==> !At(haystack, needle, j)
    decreases |haystack| - i
  {
    if i + |needle| > |haystack| then None
    else if At(haystack, needle, i) then Some(i)
    else FindFrom(haystack, needle, i + 1)
  }

  function Find(haystack: seq<Byte>, needle: seq<Byte>): (r: Option<nat>)
    ensures r.Some? ==> r.value + |needle| <= |haystack|
  {
    FindFrom(haystack, needle, 0)
  }

  // ---- Characters ----

  predicate Scalar(cp: nat) {
    cp < 0xD800 || 0xE000 <= cp < 0x11_0000
  }

  /** The UTF-8 bytes of a Unicode scalar. */
  function Utf8(cp: nat): (s: seq<Byte>)
    requires Scalar(cp)
    ensures 1 <= |s| <= 4
  {
    if cp < 0x80 then [cp]
    else if cp < 0x800 then [0xC0 + cp / 64, 0x80 + cp % 64]
    else if cp < 0x1_0000 then [0xE0 + cp / 4096, 0x80 + cp / 64 % 64, 0x80 + cp % 64]
    else [0xF0 + cp / 262144, 0x80 + cp / 4096 % 64, 0x80 + cp / 64 % 64, 0x80 + cp % 64]
  }

  /** What is no character becomes the replacement character. */
  function CharBytes(cp: nat): seq<Byte> {
    if Scalar(cp) then Utf8(cp) else Utf8(REPLACEMENT)
  }

  function HexDigit(b: Byte): Option<nat> {
    if 48 <= b < 58 then Some(b - 48)
    else if 97 <= b < 103 then Some(b - 87)
    else if 65 <= b < 71 then Some(b - 55)
    else None
  }

  function HexFrom(s: seq<Byte>, acc: nat): Option<nat> {
    if s == [] then Some(acc)
    else if HexDigit(s[0]).None? then None
    else HexFrom(s[1..], acc * 16 + HexDigit(s[0]).value)
  }

  /** Four hexadecimal digits; the integer parser also takes a plus sign for the first of them. */
  function ParseU16Hex(s: seq<Byte>): (r: Option<U16>)
    requires |s| == 4
  {
    var digits := if s[0] == 43 then s[1..] else s;
    HexBound(digits, 0);
    HexFrom(digits, 0)
  }

  lemma HexBound(s: seq<Byte>, acc: nat)
    requires |s| <= 4 && (|s| == 4 ==> acc == 0) && (|s| == 3 ==> acc < 16) && (|s| == 2 ==> acc < 256)
    requires (|s| == 1 ==> acc < 4096) && (s == [] ==> acc < 65536)
    ensures HexFrom(s, acc).Some? ==> HexFrom(s, acc).value < 65536
  {
    if s != [] && HexDigit(s[0]).Some? {
      HexBound(s[1..], acc * 16 + HexDigit(s[0]).value);
    }
  }

  predicate HighSurrogate(v: nat) {
    0xD800 <= v < 0xDC00
  }

  /** `0x10000 + ((hi - 0xD800) << 10 | (lo - 0xDC00))` on 32-bit words. */
  function PairCodePoint(hi: U16, lo: U16): nat
    requires HighSurrogate(hi)
  {
    (0x1_0000 + Or((hi - 0xD800) * 1024, (lo - 0xDC00) % TWO_32)) % TWO_32
  }

  /** What follows `\u`: the bytes it stands for, and how many bytes it takes. */
  function UnicodeEscape(s: seq<Byte>): (r: Option<(seq<Byte>, nat)>)
    ensures r.Some? ==> r.value.1 <= |s|
  {
    if |s| < 4 then None
    else
      match ParseU16Hex(s[..4])
      case None => None
      case Some(hi) =>
        if HighSurrogate(hi) then
          if |s| < 6 || s[4..6] != [BACKSLASH, LETTER_U] || |s| < 10 then None
          else
            match ParseU16Hex(s[6..10])
            case None => None
            case Some(lo) => Some((CharBytes(PairCodePoint(hi, lo)), 10))
        else Some((CharBytes(hi), 4))
  }

  /** The escapes of one letter. */
  function ShortEscape(b: Byte): Option<Byte> {
    if b == QUOTE || b == BACKSLASH || b == 47 then Some(b)
    else if b == 98 then Some(8)
    else if b == 102 then Some(12)
    else if b == 110 then Some(10)
    else if b == 114 then Some(13)
    else if b == 116 then Some(9)
    else None
  }

  // ---- Unescaping ----

  function Prepend(head: seq<Byte>, tail: Option<seq<Byte>>): Option<seq<Byte>> {
    if tail.Some? then Some(head + tail.value) else None
  }

  /** The string up to its closing quote, unescaped; nothing when it is not closed or has a wrong escape. */
  function Unescape(s: seq<Byte>): Option<seq<Byte>>
    decreases |s|
  {
    if s == [] then None
    else if s[0] == QUOTE then Some([])
    else if s[0] != BACKSLASH then Prepend([s[0]], Unescape(s[1..]))
    else if |s| < 2 then None
    else if s[1] == LETTER_U then
      match UnicodeEscape(s[2..])
      case None => None
      case Some((bytes, n)) => Prepend(bytes, Unescape(s[2 + n..]))
    else
      match ShortEscape(s[1])
      case None => None
      case Some(b) => Prepend([b], Unescape(s[2..]))
  }

  /** The value of a key: the first string after the first place where the key stands. */
  function ExtractString(msg: seq<Byte>, key: seq<Byte>): Option<seq<Byte>> {
    match Find(msg, key)
    case None => None
    case Some(at) =>
      var rest := msg[at + |key|..];
      match Find(rest, [QUOTE])
      case None => None
      case Some(open) => Unescape(rest[open + 1..])
  }

  method ExtractJsonString(msg: seq<Byte>, key: seq<Byte>) returns (r: Option<seq<Byte>>)
    ensures r == ExtractString(msg, key)
  {
    var at := Find(msg, key);
    if at.None? {
      return None;
    }
    var rest := msg[at.value + |key|..];
    var open := Find(rest, [QUOTE]);
    if open.None? {
      return None;
    }
    r := UnescapeLoop(rest[open.value + 1..]);
  }

  method UnescapeLoop(rest: seq<Byte>) returns (r: Option<seq<Byte>>)
    ensures r == Unescape(rest)
  {
    hide UnicodeEscape, ShortEscape;
    var out: seq<Byte>, i := [], 0;
    assert rest[0..] == rest;
    PrependNothing(Unescape(rest));
    while i < |rest|
      invariant i <= |rest| && Unescape(rest) == Prepend(out, Unescape(rest[i..]))
      decreases |rest| - i
    {
      ghost var s := rest[i..];
      if rest[i] == QUOTE {
        assert out + [] == out;
        return Some(out);
      }
      var bytes, n := [rest[i]], 1;
      if rest[i] == BACKSLASH {
        if i + 1 >= |rest| {
          return None;
        }
        if rest[i + 1] == LETTER_U {
          assert s[2..] == rest[i + 2..];
          var u := UnicodeEscape(rest[i + 2..]);
          if u.None? {
            return None;
          }
          bytes, n := u.value.0, 2 + u.value.1;
        } else {
          var b := ShortEscape(rest[i + 1]);
          if b.None? {
            return None;
          }
          bytes, n := [b.value], 2;
        }
      }
      assert s[n..] == rest[i + n..];
      PrependTwice(out, bytes, Unescape(rest[i + n..]));
      out := out + bytes;
      i := i + n;
    }
    return None;
  }

  lemma PrependNothing(tail: Option<seq<Byte>>)
    ensures Prepend([], tail) == tail
  {
    if tail.Some? {
      assert [] + tail.value == tail.value;
    }
  }

  lemma PrependTwice(a: seq<Byte>, b: seq<Byte>, tail: Option<seq<Byte>>)
    ensures Prepend(a, Prepend(b, tail)) == Prepend(a + b, tail)
  {
    if tail.Some? {
      assert a + (b + tail.value) == a + b + tail.value;
    }
  }

  // ---- Every way of writing a string ----

  /**
   * One element of a JSON string: a plain byte, a one-letter escape, or a character by number, in upper or lower
   * case.
   */
  datatype Piece =
    | Plain(b: Byte)
    | Short(letter: Byte)
    | Unit(v: U16, upper: bool)
    | Pair(hi: U16, lo: U16, upper: bool)

  predicate GoodPiece(p: Piece) {
    match p
    case Plain(b) => b != QUOTE && b != BACKSLASH
    case Short(letter) => letter != LETTER_U && ShortEscape(letter).Some?
    case Unit(v, _) => !HighSurrogate(v)
    case Pair(hi, lo, _) => HighSurrogate(hi) && 0xDC00 <= lo < 0xE000
  }

  function HexByte(d: nat, upper: bool): Byte
    requires d < 16
  {
    if d < 10 then 48 + d else if upper then 55 + d else 87 + d
  }

  function Hex4(v: U16, upper: bool): (s: seq<Byte>)
    ensures |s| == 4
  {
    [HexByte(v / 4096, upper), HexByte(v / 256 % 16, upper), HexByte(v / 16 % 16, upper), HexByte(v % 16, upper)]
  }

  function Written(p: Piece): seq<Byte> {
    match p
    case Plain(b) => [b]
    case Short(letter) => [BACKSLASH, letter]
    case Unit(v, upper) => [BACKSLASH, LETTER_U] + Hex4(v, upper)
    case Pair(hi, lo, upper) => [BACKSLASH, LETTER_U] + Hex4(hi, upper) + [BACKSLASH, LETTER_U] + Hex4(lo, upper)
  }

  /** What an element stands for, as RFC 8259 section 7 has it; a low surrogate alone stands for no character. */
  function Meaning(p: Piece): seq<Byte>
    requires GoodPiece(p)
  {
    match p
    case Plain(b) => [b]
    case Short(letter) => [ShortEscape(letter).value]
    case Unit(v, _) => CharBytes(v)
    case Pair(hi, lo, _) => Utf8(0x1_0000 + (hi - 0xD800) * 1024 + (lo - 0xDC00))
  }

  function WrittenAll(ps: seq<Piece>): seq<Byte> {
    if ps == [] then [] else Written(ps[0]) + WrittenAll(ps[1..])
  }

  predicate GoodPieces(ps: seq<Piece>) {
    forall i :: 0 <= i < |ps| ==> GoodPiece(ps[i])
  }

  function MeaningAll(ps: seq<Piece>): seq<Byte>
    requires GoodPieces(ps)
  {
    if ps == [] then [] else Meaning(ps[0]) + MeaningAll(ps[1..])
  }

  lemma HexByteReads(d: nat, upper: bool)
    requires d < 16
    ensures HexDigit(HexByte(d, upper)) == Some(d) && HexByte(d, upper) != 43
  {
  }

  lemma HexDigitsAddUp(v: U16)
    ensures ((v / 4096 * 16 + v / 256 % 16) * 16 + v / 16 % 16) * 16 + v % 16 == v
  {
    var x, y, z := v / 16, v / 16 / 16, v / 16 / 16 / 16;
    assert v == 16 * x + v % 16 && x == 16 * y + x % 16 && y == 16 * z + y % 16;
    DivModUnique(v, 256, y, 16 * (x % 16) + v % 16);
    DivModUnique(v, 4096, z, 256 * (y % 16) + 16 * (x % 16) + v % 16);
  }

  lemma HexOne(b: Byte, d: nat, rest: seq<Byte>, acc: nat)
    requires HexDigit(b) == Some(d)
    ensures HexFrom([b] + rest, acc) == HexFrom(rest, acc * 16 + d)
  {
    hide HexDigit;
    assert ([b] + rest)[1..] == rest;
  }

  lemma Hex4Reads(v: U16, upper: bool)
    ensures ParseU16Hex(Hex4(v, upper)) == Some(v)
  {
    var a, b, c, d := v / 4096, v / 256 % 16, v / 16 % 16, v % 16;
    HexByteReads(a, upper);
    HexByteReads(b, upper);
    HexByteReads(c, upper);
    HexByteReads(d, upper);
    HexDigitsAddUp(v);
    hide HexDigit, HexByte;
    var p, q, r, t := HexByte(a, upper), HexByte(b, upper), HexByte(c, upper), HexByte(d, upper);
    assert Hex4(v, upper) == [p] + ([q] + ([r] + ([t] + [])));
    assert HexFrom([], v) == Some(v);
    hide HexFrom, Hex4;
    HexOne(p, a, [q] + ([r] + ([t] + [])), 0);
    HexOne(q, b, [r] + ([t] + []), a);
    HexOne(r, c, [t] + [], a * 16 + b);
    HexOne(t, d, [], (a * 16 + b) * 16 + c);
  }

  lemma OrTens(a: nat, b: nat)
    requires b < 1024
    ensures Or(a * 1024, b) == a * 1024 + b
  {
    assert Pow2(10) == 1024;
    hide Or, Pow2;
    OrCommutes(a * 1024, b);
    OrDisjoint(b, a, 10);
  }

  lemma PairIsSum(hi: U16, lo: U16)
    requires HighSurrogate(hi) && 0xDC00 <= lo < 0xE000
    ensures PairCodePoint(hi, lo) == 0x1_0000 + (hi - 0xD800) * 1024 + (lo - 0xDC00)
    ensures Scalar(PairCodePoint(hi, lo))
  {
    hide Or;
    OrTens(hi - 0xD800, lo - 0xDC00);
  }

  lemma {:induction false} OrCommutes(a: nat, b: nat)
    ensures Or(a, b) == Or(b, a)
    decreases a + b
  {
    if a == b == 0 {
    } else {
      OrCommutes(a / 2, b / 2);
    }
  }

  lemma UnitReads(v: U16, upper: bool, rest: seq<Byte>)
    requires !HighSurrogate(v)
    ensures UnicodeEscape(Hex4(v, upper) + rest) == Some((CharBytes(v), 4))
  {
    hide ParseU16Hex, Hex4, CharBytes, PairCodePoint;
    Hex4Reads(v, upper);
    assert (Hex4(v, upper) + rest)[..4] == Hex4(v, upper);
  }

  lemma PairReads(hi: U16, lo: U16, upper: bool, rest: seq<Byte>)
    requires HighSurrogate(hi)
    ensures UnicodeEscape(Hex4(hi, upper) + ([BACKSLASH, LETTER_U] + (Hex4(lo, upper) + rest)))
         == Some((CharBytes(PairCodePoint(hi, lo)), 10))
  {
    hide ParseU16Hex, Hex4, CharBytes, PairCodePoint;
    Hex4Reads(hi, upper);
    Hex4Reads(lo, upper);
    var s := Hex4(hi, upper) + ([BACKSLASH, LETTER_U] + (Hex4(lo, upper) + rest));
    assert s[..4] == Hex4(hi, upper) && s[4..6] == [BACKSLASH, LETTER_U] && s[6..10] == Hex4(lo, upper);
  }

  lemma UnicodeReads(p: Piece, rest: seq<Byte>)
    requires GoodPiece(p) && (p.Unit? || p.Pair?)
    ensures UnicodeEscape(Written(p)[2..] + rest) == Some((Meaning(p), |Written(p)| - 2))
  {
    hide UnicodeEscape, Hex4, PairCodePoint, Scalar, Utf8;
    if p.Unit? {
      UnitReads(p.v, p.upper, rest);
      assert Written(p)[2..] == Hex4(p.v, p.upper);
    } else {
      PairReads(p.hi, p.lo, p.upper, rest);
      PairIsSum(p.hi, p.lo);
      assert Written(p)[2..] + rest == Hex4(p.hi, p.upper) + ([BACKSLASH, LETTER_U] + (Hex4(p.lo, p.upper) + rest));
    }
  }

  lemma PieceReads(p: Piece, rest: seq<Byte>)
    requires GoodPiece(p)
    ensures Unescape(Written(p) + rest) == Prepend(Meaning(p), Unescape(rest))
  {
    var s := Written(p) + rest;
    if p.Unit? || p.Pair? {
      UnicodeReads(p, rest);
      assert s[2..] == Written(p)[2..] + rest;
      hide Hex4, UnicodeEscape, Meaning;
      assert s[|Written(p)|..] == rest;
    } else {
      assert s[|Written(p)|..] == rest;
    }
  }

  /** However a string is written, unescaping it up to its closing quote gives what it means. */
  lemma {:induction false} StringReads(ps: seq<Piece>, rest: seq<Byte>)
    requires GoodPieces(ps)
    ensures Unescape(WrittenAll(ps) + ([QUOTE] + rest)) == Some(MeaningAll(ps))
    decreases |ps|
  {
    hide Unescape, Written, Meaning, GoodPiece;
    var end := [QUOTE] + rest;
    if ps == [] {
      assert WrittenAll(ps) + end == end;
      QuoteCloses(rest);
    } else {
      StringReads(ps[1..], rest);
      PieceReads(ps[0], WrittenAll(ps[1..]) + end);
      assert WrittenAll(ps) + end == Written(ps[0]) + (WrittenAll(ps[1..]) + end);
    }
  }

  lemma QuoteCloses(rest: seq<Byte>)
    ensures Unescape([QUOTE] + rest) == Some([])
  {
  }

  /** Every Unicode scalar has an escape, and it stands for the character's UTF-8. */
  lemma ScalarEscapeReads(cp: nat, upper: bool, rest: seq<Byte>)
    requires Scalar(cp)
    ensures var p := if cp < 0x1_0000 then Unit(cp, upper)
                     else Pair(0xD800 + (cp - 0x1_0000) / 1024, 0xDC00 + (cp - 0x1_0000) % 1024, upper);
      GoodPiece(p) && Unescape(Written(p) + rest) == Prepend(Utf8(cp), Unescape(rest))
  {
    var p := if cp < 0x1_0000 then Unit(cp, upper)
             else Pair(0xD800 + (cp - 0x1_0000) / 1024, 0xDC00 + (cp - 0x1_0000) % 1024, upper);
    assert GoodPiece(p) && Meaning(p) == Utf8(cp);
    hide Unescape, Written, Meaning, GoodPiece, Utf8;
    PieceReads(p, rest);
  }

  // ---- The writer ----

  function EscapeByte(c: Byte): seq<Byte> {
    if c == QUOTE then [BACKSLASH, QUOTE]
    else if c == BACKSLASH then [BACKSLASH, BACKSLASH]
    else if c == 10 then [BACKSLASH, 110]
    else if c == 9 then [BACKSLASH, 116]
    else if c >= 32 then [c]
    else []
  }

  function Escape(s: seq<Byte>): seq<Byte> {
    if s == [] then [] else Escape(s[..|s| - 1]) + EscapeByte(s[|s| - 1])
  }

  /** Control bytes other than newline and tab are dropped. */
  predicate Kept(c: Byte) {
    c >= 32 || c == 10 || c == 9
  }

  function KeptBytes(s: seq<Byte>): seq<Byte> {
    if s == [] then [] else KeptBytes(s[..|s| - 1]) + if Kept(s[|s| - 1]) then [s[|s| - 1]] else []
  }

  method AppendJsonEscaped(js: seq<Byte>, s: seq<Byte>) returns (out: seq<Byte>)
    ensures out == js + Escape(s)
  {
    hide EscapeByte;
    out := js;
    for i := 0 to |s|
      invariant out == js + Escape(s[..i])
    {
      assert s[..i + 1][..i] == s[..i];
      out := out + EscapeByte(s[i]);
    }
    assert s[..|s|] == s;
  }

  function PieceOf(c: Byte): Piece {
    if c == QUOTE then Short(QUOTE)
    else if c == BACKSLASH then Short(BACKSLASH)
    else if c == 10 then Short(110)
    else if c == 9 then Short(116)
    else Plain(c)
  }

  function PiecesOf(s: seq<Byte>): (ps: seq<Piece>)
    ensures GoodPieces(ps)
  {
    if s == [] then [] else PiecesOf(s[..|s| - 1]) + if Kept(s[|s| - 1]) then [PieceOf(s[|s| - 1])] else []
  }

  lemma {:induction false} PiecesAppend(a: seq<Piece>, p: Piece)
    requires GoodPieces(a) && GoodPiece(p)
    ensures WrittenAll(a + [p]) == WrittenAll(a) + Written(p)
    ensures MeaningAll(a + [p]) == MeaningAll(a) + Meaning(p)
  {
    hide Written, Meaning, GoodPiece;
    if a == [] {
      assert a + [p] == [p] && [p][1..] == [];
    } else {
      PiecesAppend(a[1..], p);
      assert (a + [p])[1..] == a[1..] + [p];
    }
  }

  lemma PieceOfIs(c: Byte)
    ensures EscapeByte(c) == if Kept(c) then Written(PieceOf(c)) else []
    ensures Kept(c) ==> GoodPiece(PieceOf(c)) && Meaning(PieceOf(c)) == [c]
  {
  }

  lemma {:induction false} EscapeIsWritten(s: seq<Byte>)
    ensures Escape(s) == WrittenAll(PiecesOf(s)) && KeptBytes(s) == MeaningAll(PiecesOf(s))
    decreases |s|
  {
    hide EscapeByte, PieceOf, Written, Meaning, Kept, GoodPiece;
    if s == [] {
    } else {
      var n := |s| - 1;
      EscapeIsWritten(s[..n]);
      PieceOfIs(s[n]);
      if Kept(s[n]) {
        PiecesAppend(PiecesOf(s[..n]), PieceOf(s[n]));
      } else {
        assert Escape(s[..n]) + [] == Escape(s[..n]) && KeptBytes(s[..n]) + [] == KeptBytes(s[..n]);
        assert PiecesOf(s[..n]) + [] == PiecesOf(s[..n]);
      }
    }
  }

  /** Unescaping undoes escaping, but for the dropped control bytes. */
  lemma EscapeReads(s: seq<Byte>, rest: seq<Byte>)
    ensures Unescape(Escape(s) + ([QUOTE] + rest)) == Some(KeptBytes(s))
  {
    EscapeIsWritten(s);
    hide Unescape, Escape, KeptBytes, WrittenAll, MeaningAll;
    StringReads(PiecesOf(s), rest);
  }

  function Decimal(n: nat): (s: seq<Byte>)
    ensures forall i :: 0 <= i < |s| ==> 48 <= s[i] < 58
  {
    if n < 10 then [48 + n] else Decimal(n / 10) + [48 + n % 10]
  }

  function BytesToHex(bytes: seq<Byte>): (s: seq<Byte>)
    ensures forall i :: 0 <= i < |s| ==> 48 <= s[i] < 58 || 97 <= s[i] < 103
  {
    if bytes == [] then []
    else
      var b := bytes[|bytes| - 1];
      BytesToHex(bytes[..|bytes| - 1]) + [HexByte(b / 16, false), HexByte(b % 16, false)]
  }

  datatype Insn = Insn(relPc: U64, bytes: seq<Byte>, text: seq<Byte>)

  const KEY_A: seq<Byte> := [123, QUOTE, 97, QUOTE, 58, QUOTE]             // {"a":"
  const KEY_B: seq<Byte> := [QUOTE, 44, QUOTE, 98, QUOTE, 58, QUOTE]       // ","b":"
  const KEY_T: seq<Byte> := [QUOTE, 44, QUOTE, 116, QUOTE, 58, QUOTE]      // ","t":"
  const KEY_L: seq<Byte> := [44, QUOTE, 108, QUOTE, 58]                    // ,"l":
  const NEEDLE_T: seq<Byte> := [QUOTE, 116, QUOTE]                         // "t"

  function LineJson(line: U32): seq<Byte> {
    (if line > 0 then KEY_L + Decimal(line) else []) + [125]
  }

  function InsnJson(insn: Insn, line: U32): seq<Byte> {
    KEY_A + Decimal(insn.relPc) + KEY_B + BytesToHex(insn.bytes) + KEY_T + Escape(insn.text) + [QUOTE] + LineJson(line)
  }

  method AppendInsnJson(js: seq<Byte>, insn: Insn, line: U32) returns (out: seq<Byte>)
    ensures out == js + InsnJson(insn, line)
  {
    hide Escape, Decimal, BytesToHex;
    out := js + KEY_A;
    out := out + Decimal(insn.relPc);
    out := out + KEY_B;
    out := out + BytesToHex(insn.bytes);
    out := out + KEY_T;
    out := AppendJsonEscaped(out, insn.text);
    out := out + [QUOTE];
    if line > 0 {
      out := out + KEY_L;
      out := out + Decimal(line);
    }
    out := out + [125];
  }

  /** The front of an object up to the key, which holds no `t`. */
  function InsnFront(insn: Insn): (s: seq<Byte>)
    ensures 116 !in s
  {
    KEY_A + Decimal(insn.relPc) + KEY_B + BytesToHex(insn.bytes) + [QUOTE, 44]
  }

  lemma FirstT(front: seq<Byte>, rest: seq<Byte>)
    requires 116 !in front
    ensures Find(front + (NEEDLE_T + rest), NEEDLE_T) == Some(|front|)
  {
    var s := front + (NEEDLE_T + rest);
    assert s[|front|..|front| + 3] == NEEDLE_T;
    forall j | 0 <= j < |front|
      ensures !At(s, NEEDLE_T, j)
    {
      if j + 3 <= |s| {
        assert s[j..j + 3][1] == s[j + 1] && NEEDLE_T[1] == 116;
        assert j + 1 < |front| ==> s[j + 1] == front[j + 1];
        assert j + 1 == |front| ==> s[j + 1] == QUOTE;
      }
    }
    assert At(s, NEEDLE_T, |front|);
  }

  lemma InsnParts(insn: Insn, line: U32)
    ensures InsnJson(insn, line)
         == InsnFront(insn) + (NEEDLE_T + ([58, QUOTE] + (Escape(insn.text) + ([QUOTE] + LineJson(line)))))
  {
    hide Escape, Decimal, BytesToHex, LineJson;
    assert KEY_T == [QUOTE, 44] + (NEEDLE_T + [58, QUOTE]);
  }

  lemma ColonQuote(rest: seq<Byte>)
    ensures Find([58, QUOTE] + rest, [QUOTE]) == Some(1)
  {
    var s := [58, QUOTE] + rest;
    assert s[0..1] == [58] && s[1..2] == [QUOTE];
    assert !At(s, [QUOTE], 0) && At(s, [QUOTE], 1);
  }

  /** The text of an instruction can be read back from its JSON object, whatever bytes it holds. */
  lemma InsnTextReadsBack(insn: Insn, line: U32)
    ensures ExtractString(InsnJson(insn, line), NEEDLE_T) == Some(KeptBytes(insn.text))
  {
    InsnParts(insn, line);
    hide InsnJson, InsnFront, Escape, LineJson, Find, Unescape, KeptBytes;
    var value := Escape(insn.text) + ([QUOTE] + LineJson(line));
    var rest := [58, QUOTE] + value;
    var s := InsnFront(insn) + (NEEDLE_T + rest);
    FirstT(InsnFront(insn), rest);
    assert s[|InsnFront(insn)| + |NEEDLE_T|..] == rest;
    ColonQuote(value);
    assert rest[2..] == value;
    EscapeReads(insn.text, LineJson(line));
  }

  lemma {:induction false} KeptLength(s: seq<Byte>)
    ensures |KeptBytes(s)| <= |s|
    ensures |KeptBytes(s)| == |s| <==> forall i :: 0 <= i < |s| ==> Kept(s[i])
  {
    hide Kept;
    if s == [] {
    } else {
      var n := |s| - 1;
      KeptLength(s[..n]);
      assert forall i :: 0 <= i < n ==> s[..n][i] == s[i];
      assert |KeptBytes(s)| == |KeptBytes(s[..n])| + if Kept(s[n]) then 1 else 0;
    }
  }

  lemma {:induction false} NothingDropped(s: seq<Byte>)
    requires forall i :: 0 <= i < |s| ==> Kept(s[i])
    ensures KeptBytes(s) == s
  {
    hide Kept;
    if s == [] {
    } else {
      var n := |s| - 1;
      NothingDropped(s[..n]);
      assert s == s[..n] + [s[n]];
    }
  }

  /** The text itself comes back if and only if it holds no control bytes other than newline and tab. */
  lemma InsnTextSurvivesIff(insn: Insn, line: U32)
    ensures ExtractString(InsnJson(insn, line), NEEDLE_T) == Some(insn.text)
      <==> forall i :: 0 <= i < |insn.text| ==> Kept(insn.text[i])
  {
    InsnTextReadsBack(insn, line);
    KeptLength(insn.text);
    if forall i :: 0 <= i < |insn.text| ==> Kept(insn.text[i]) {
      NothingDropped(insn.text);
    }
    hide ExtractString, InsnJson, KeptBytes, Kept;
  }
}
