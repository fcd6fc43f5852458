/**
 * The table of a Go program as its linker lays it out (go1.18 and later), written from a list of functions: where the
 * names, the pc-value tables, the function table and the records lie, and what reading the bytes gives back.
 */
module GoLayout {
  import opened Bits
  import opened GoPclntabs
  import JsonText
  import ProtoWire

  // ---- The functions ----

  /** A frame size that holds for so many bytes of code. */
  datatype Segment = Segment(size: I32, length: U32)

  /** A function: where it starts in the text, its name, and its frame sizes; the other fields are not looked at. */
  datatype Func = Func(entry: U32, name: seq<Byte>, args: U32, deferreturn: U32, segments: seq<Segment>,
                       more: seq<Byte>)

  /** The frame size at `q`, from the segments that start at `pc`. */
  function SizeIn(segments: seq<Segment>, pc: nat, q: nat): Option<I32> {
    if segments == [] then None
    else if q < pc + segments[0].length then Some(segments[0].size)
    else SizeIn(segments[1..], pc + segments[0].length, q)
  }

  /** Neighbouring segments differ, and the code they cover stays within 32 bits. */
  predicate GoodSegments(segments: seq<Segment>, pc: nat) {
    segments != [] ==>
      && pc + segments[0].length < TWO_32
      && (|segments| > 1 ==> segments[0].size != segments[1].size)
      && GoodSegments(segments[1..], pc + segments[0].length)
  }

  predicate GoodFunc(f: Func) {
    && f.segments != [] && GoodSegments(f.segments, f.entry)
    && 0 !in f.name && JsonText.DecodeAll(f.name).Some?
  }

  /** Functions in ascending order, none at the end of the text or beyond. */
  predicate GoodFuncs(fs: seq<Func>, end: U32) {
    && fs != [] && (forall i :: 0 <= i < |fs| ==> GoodFunc(fs[i]) && fs[i].entry <= end)
    && (forall i, j :: 0 <= i < j < |fs| ==> fs[i].entry <= fs[j].entry)
  }

  // ---- The bytes ----

  function Flat(parts: seq<seq<Byte>>): seq<Byte> {
    if parts == [] then [] else Flat(parts[..|parts| - 1]) + parts[|parts| - 1]
  }

  /** The change of value from one segment to the next, on 32-bit words. */
  function Delta(from: I32, to: I32): I32 {
    (to - from + 0x8000_0000) % TWO_32 - 0x8000_0000
  }

  function TableOf(segments: seq<Segment>, val: I32): Table {
    if segments == [] then End
    else Step(Delta(val, segments[0].size), segments[0].length, TableOf(segments[1..], segments[0].size))
  }

  function NameParts(fs: seq<Func>): (parts: seq<seq<Byte>>)
    ensures |parts| == |fs|
  {
    seq(|fs|, i requires 0 <= i < |fs| => fs[i].name + [0])
  }

  function TableParts(fs: seq<Func>): (parts: seq<seq<Byte>>)
    ensures |parts| == |fs|
  {
    seq(|fs|, i requires 0 <= i < |fs| => EncodeTable(TableOf(fs[i].segments, -1)))
  }

  /** Where part `i` starts. */
  function Offset(parts: seq<seq<Byte>>, i: nat): nat
    requires i <= |parts|
  {
    |Flat(parts[..i])|
  }

  /** The record of a function: entry, name, arguments, deferred return, frame sizes, and more. */
  function RecordOf(f: Func, nameOff: nat, pcsp: nat): seq<Byte> {
    Le32(f.entry) + Le32(nameOff % TWO_32) + Le32(f.args) + Le32(f.deferreturn) + Le32(pcsp % TWO_32) + f.more
  }

  function RecordParts(fs: seq<Func>): (parts: seq<seq<Byte>>)
    ensures |parts| == |fs|
  {
    seq(|fs|, i requires 0 <= i < |fs| =>
      RecordOf(fs[i], Offset(NameParts(fs), i), Offset(TableParts(fs), i)))
  }

  /** The function table: entry and record of each function, and the end of the text. */
  function EntryParts(fs: seq<Func>, end: U32): (parts: seq<seq<Byte>>)
    ensures |parts| == |fs| + 1
  {
    seq(|fs| + 1, i requires 0 <= i <= |fs| =>
      if i < |fs| then Le32(fs[i].entry) + Le32(((|fs| + 1) * 8 + Offset(RecordParts(fs), i)) % TWO_32)
      else Le32(end) + Le32(0))
  }

  /** The header fields that are not looked at. */
  datatype Unused = Unused(pad: U16, minLC: Byte, nfiles: U64, textStart: U64, cuOff: U64, filetabOff: U64)

  function HeaderOf(newer: bool, u: Unused, nfunc: nat, funcnameOff: nat, pctabOff: nat, functabOff: nat): seq<Byte> {
    Le32(if newer then 0xffff_fff1 else 0xffff_fff0) + [u.pad % 256, u.pad / 256, u.minLC, 8]
    + Le64(nfunc % TWO_64) + Le64(u.nfiles) + Le64(u.textStart) + Le64(funcnameOff % TWO_64) + Le64(u.cuOff)
    + Le64(u.filetabOff) + Le64(pctabOff % TWO_64) + Le64(functabOff % TWO_64)
  }

  const HEADER_BYTES: nat := 72

  function Section(fs: seq<Func>, end: U32, newer: bool, u: Unused, tail: seq<Byte>): seq<Byte> {
    var names, tables := Flat(NameParts(fs)), Flat(TableParts(fs));
    HeaderOf(newer, u, |fs|, 72, 72 + |names|, 72 + |names| + |tables|)
    + names + tables + Flat(EntryParts(fs, end)) + Flat(RecordParts(fs)) + tail
  }

  // ---- What stands where ----

  /** `bytes` stands at `off`. */
  predicate Stands(data: seq<Byte>, off: nat, bytes: seq<Byte>) {
    off + |bytes| <= |data| && data[off..off + |bytes|] == bytes
  }

  lemma StandsBetween(a: seq<Byte>, b: seq<Byte>, c: seq<Byte>)
    ensures Stands(a + b + c, |a|, b)
  {
  }

  lemma StandsInside(data: seq<Byte>, off: nat, bytes: seq<Byte>, inner: nat, part: seq<Byte>)
    requires Stands(data, off, bytes) && Stands(bytes, inner, part)
    ensures Stands(data, off + inner, part)
  {
    var whole := data[off..off + |bytes|];
    var a, b := whole[inner..inner + |part|], data[off + inner..off + inner + |part|];
    assert a == part && |b| == |part|;
    forall k | 0 <= k < |part|
      ensures a[k] == b[k]
    {
      assert a[k] == whole[inner + k];
    }
  }

  lemma {:induction false} PartStands(parts: seq<seq<Byte>>, i: nat)
    requires i < |parts|
    ensures Stands(Flat(parts), Offset(parts, i), parts[i])
    decreases |parts|
  {
    var n := |parts| - 1;
    if i == n {
      StandsBetween(Flat(parts[..n]), parts[n], []);
      assert Flat(parts[..n]) + parts[n] + [] == Flat(parts);
    } else {
      PartStands(parts[..n], i);
      assert parts[..n][..i] == parts[..i];
      StandsBetween([], Flat(parts[..n]), parts[n]);
      assert [] + Flat(parts[..n]) + parts[n] == Flat(parts);
      StandsInside(Flat(parts), 0, Flat(parts[..n]), Offset(parts, i), parts[i]);
    }
  }

  /** A word that stands somewhere is read there. */
  lemma WordReads(data: seq<Byte>, off: nat, v: U32)
    requires Stands(data, off, Le32(v))
    ensures FromLe32(data[off..off + 4]) == v
  {
    hide Le32, FromLe32;
    Le32RoundTrip(v);
  }

  lemma LongReads(data: seq<Byte>, off: nat, v: U64)
    requires Stands(data, off, Le64(v))
    ensures WordAt(data, off) == Some(v)
  {
    hide Le64, FromLe64;
    Le64RoundTrip(v);
  }

  /** A concatenation of parts of eight bytes each. */
  lemma {:induction false} EightEach(parts: seq<seq<Byte>>)
    requires forall i :: 0 <= i < |parts| ==> |parts[i]| == 8
    ensures |Flat(parts)| == 8 * |parts|
    decreases |parts|
  {
    if parts == [] {
    } else {
      EightEach(parts[..|parts| - 1]);
    }
  }

  lemma EntriesAreEight(fs: seq<Func>, end: U32)
    ensures |Flat(EntryParts(fs, end))| == 8 * (|fs| + 1)
    ensures forall i :: 0 <= i <= |fs| ==> Offset(EntryParts(fs, end), i) == 8 * i
  {
    var parts := EntryParts(fs, end);
    EntryIsEight(fs, end);
    hide Flat, EntryParts;
    EightEach(parts);
    forall i | 0 <= i <= |fs|
      ensures Offset(parts, i) == 8 * i
    {
      EightEach(parts[..i]);
    }
  }

  lemma EntryIsEight(fs: seq<Func>, end: U32)
    ensures forall i :: 0 <= i <= |fs| ==> |EntryParts(fs, end)[i]| == 8
  {
    hide Flat, RecordParts, Le32;
  }

  /** Where the regions of a section lie. */
  datatype Places = Places(tables: nat, entries: nat, records: nat, end: nat)

  function PlacesOf(fs: seq<Func>, end: U32): Places {
    var names, tables := |Flat(NameParts(fs))|, |Flat(TableParts(fs))|;
    Places(72 + names, 72 + names + tables, 72 + names + tables + 8 * (|fs| + 1),
           72 + names + tables + 8 * (|fs| + 1) + |Flat(RecordParts(fs))|)
  }

  function HeaderFor(fs: seq<Func>, end: U32, newer: bool, u: Unused): seq<Byte> {
    HeaderOf(newer, u, |fs|, 72, PlacesOf(fs, end).tables, PlacesOf(fs, end).entries)
  }

  lemma HeaderIs72(newer: bool, u: Unused, a: nat, b: nat, c: nat, d: nat)
    ensures |HeaderOf(newer, u, a, b, c, d)| == 72
  {
    hide Le32, Le64;
  }

  lemma StandsLonger(data: seq<Byte>, off: nat, bytes: seq<Byte>, more: seq<Byte>)
    requires Stands(data, off, bytes)
    ensures Stands(data + more, off, bytes)
  {
    assert (data + more)[off..off + |bytes|] == data[off..off + |bytes|];
  }

  lemma StandsLast(data: seq<Byte>, bytes: seq<Byte>)
    ensures Stands(data + bytes, |data|, bytes)
  {
  }

  lemma StandsFirst(bytes: seq<Byte>)
    ensures Stands(bytes, 0, bytes)
  {
  }

  /** Where each of five stretches stands, when something may follow. */
  lemma FiveRegions(a: seq<Byte>, b: seq<Byte>, c: seq<Byte>, d: seq<Byte>, e: seq<Byte>, f: seq<Byte>)
    ensures var s := a + b + c + d + e + f;
      Stands(s, 0, a) && Stands(s, |a|, b) && Stands(s, |a| + |b|, c) && Stands(s, |a| + |b| + |c|, d)
      && Stands(s, |a| + |b| + |c| + |d|, e)
  {
    hide Stands;
    StandsFirst(a);
    StandsLonger(a, 0, a, b);
    StandsLast(a, b);
    StandsLonger(a + b, 0, a, c);
    StandsLonger(a + b, |a|, b, c);
    StandsLast(a + b, c);
    StandsLonger(a + b + c, 0, a, d);
    StandsLonger(a + b + c, |a|, b, d);
    StandsLonger(a + b + c, |a| + |b|, c, d);
    StandsLast(a + b + c, d);
    var s := a + b + c + d;
    StandsLonger(s, 0, a, e);
    StandsLonger(s, |a|, b, e);
    StandsLonger(s, |a| + |b|, c, e);
    StandsLonger(s, |a| + |b| + |c|, d, e);
    StandsLast(s, e);
    StandsLonger(s + e, 0, a, f);
    StandsLonger(s + e, |a|, b, f);
    StandsLonger(s + e, |a| + |b|, c, f);
    StandsLonger(s + e, |a| + |b| + |c|, d, f);
    StandsLonger(s + e, |a| + |b| + |c| + |d|, e, f);
  }

  lemma RegionsStand(fs: seq<Func>, end: U32, newer: bool, u: Unused, tail: seq<Byte>)
    ensures var s, p := Section(fs, end, newer, u, tail), PlacesOf(fs, end);
      && p.end <= |s| && Stands(s, 0, HeaderFor(fs, end, newer, u)) && Stands(s, 72, Flat(NameParts(fs)))
      && Stands(s, p.tables, Flat(TableParts(fs))) && Stands(s, p.entries, Flat(EntryParts(fs, end)))
      && Stands(s, p.records, Flat(RecordParts(fs)))
  {
    hide Flat, HeaderOf, Stands, NameParts, TableParts, EntryParts, RecordParts;
    EntriesAreEight(fs, end);
    HeaderIs72(newer, u, |fs|, 72, PlacesOf(fs, end).tables, PlacesOf(fs, end).entries);
    FiveRegions(HeaderFor(fs, end, newer, u), Flat(NameParts(fs)), Flat(TableParts(fs)), Flat(EntryParts(fs, end)),
                Flat(RecordParts(fs)), tail);
  }

  // ---- The header ----

  lemma WordsOfHeader(newer: bool, u: Unused, a: nat, b: nat, c: nat, d: nat)
    ensures var h := HeaderOf(newer, u, a, b, c, d);
      && Stands(h, 0, Le32(if newer then 0xffff_fff1 else 0xffff_fff0)) && Stands(h, 7, [8])
      && Stands(h, 8, Le64(a % TWO_64)) && Stands(h, 32, Le64(b % TWO_64)) && Stands(h, 56, Le64(c % TWO_64))
      && Stands(h, 64, Le64(d % TWO_64))
  {
    hide Le32, Le64;
  }

  lemma HeaderParses(fs: seq<Func>, end: U32, newer: bool, u: Unused, tail: seq<Byte>, textOff: nat)
    requires fs != [] && |Section(fs, end, newer, u, tail)| <= 0x1000_0000
    ensures var s, p := Section(fs, end, newer, u, tail), PlacesOf(fs, end);
      Parse(s, textOff) == Some(GoPclntab(s, textOff, |fs|, 72, p.entries, p.tables))
  {
    var s, p := Section(fs, end, newer, u, tail), PlacesOf(fs, end);
    RegionsStand(fs, end, newer, u, tail);
    hide Section, PlacesOf, Flat, HeaderOf, Stands, Le32, Le64, FromLe32, WordAt;
    var h := HeaderFor(fs, end, newer, u);
    WordsOfHeader(newer, u, |fs|, 72, p.tables, p.entries);
    RegionsAreSmall(fs, end);
    StandsInside(s, 0, h, 0, Le32(if newer then 0xffff_fff1 else 0xffff_fff0));
    WordReads(s, 0, if newer then 0xffff_fff1 else 0xffff_fff0);
    StandsInside(s, 0, h, 7, [8]);
    ByteReads(s, 7, 8);
    StandsInside(s, 0, h, 8, Le64(|fs| % TWO_64));
    LongReads(s, 8, |fs| % TWO_64);
    StandsInside(s, 0, h, 32, Le64(72 % TWO_64));
    LongReads(s, 32, 72 % TWO_64);
    StandsInside(s, 0, h, 56, Le64(p.tables % TWO_64));
    LongReads(s, 56, p.tables % TWO_64);
    StandsInside(s, 0, h, 64, Le64(p.entries % TWO_64));
    LongReads(s, 64, p.entries % TWO_64);
    assert s[0..4] == s[..4];
  }

  lemma ByteReads(data: seq<Byte>, off: nat, b: Byte)
    requires Stands(data, off, [b])
    ensures off < |data| && data[off] == b
  {
    assert data[off..off + 1][0] == data[off];
  }

  lemma RegionsAreSmall(fs: seq<Func>, end: U32)
    ensures var p := PlacesOf(fs, end);
      72 <= p.tables <= p.entries && p.entries + 8 * (|fs| + 1) == p.records && p.records <= p.end
  {
    hide Flat;
  }

  // ---- A table that holds the functions ----

  /** The regions stand where the table says, with anything before, between and behind them. */
  ghost predicate Holds(t: GoPclntab, fs: seq<Func>, end: U32) {
    && fs != [] && t.nfunc == |fs| && |t.data| <= 0x1000_0000
    && Stands(t.data, t.funcnameOff, Flat(NameParts(fs)))
    && Stands(t.data, t.pctabOff, Flat(TableParts(fs)))
    && Stands(t.data, t.functabOff, Flat(EntryParts(fs, end)))
    && Stands(t.data, t.functabOff + 8 * (|fs| + 1), Flat(RecordParts(fs)))
  }

  lemma HoldsParsed(t: GoPclntab, fs: seq<Func>, end: U32)
    requires Holds(t, fs, end)
    ensures t.Parsed() && t.nfunc == |fs| && |t.data| <= 0x1000_0000
  {
    hide Flat, EntryParts, NameParts, TableParts, RecordParts;
    EntriesAreEight(fs, end);
  }

  lemma HoldsRegions(t: GoPclntab, fs: seq<Func>, end: U32)
    requires Holds(t, fs, end)
    ensures Stands(t.data, t.funcnameOff, Flat(NameParts(fs)))
    ensures Stands(t.data, t.pctabOff, Flat(TableParts(fs)))
    ensures Stands(t.data, t.functabOff, Flat(EntryParts(fs, end)))
    ensures Stands(t.data, t.functabOff + 8 * (|fs| + 1), Flat(RecordParts(fs)))
  {
  }

  lemma PartStandsIn(data: seq<Byte>, off: nat, parts: seq<seq<Byte>>, i: nat)
    requires i < |parts| && Stands(data, off, Flat(parts))
    ensures Stands(data, off + Offset(parts, i), parts[i])
    ensures off + Offset(parts, i) + |parts[i]| <= |data|
  {
    hide Flat;
    PartStands(parts, i);
    StandsInside(data, off, Flat(parts), Offset(parts, i), parts[i]);
  }

  lemma TwoWords(data: seq<Byte>, off: nat, a: U32, b: U32)
    requires Stands(data, off, Le32(a) + Le32(b))
    ensures off + 8 <= |data|
    ensures FromLe32(data[off..off + 4]) == a && FromLe32(data[off + 4..off + 8]) == b
  {
    assert off + 8 <= |data|;
    hide Le32, FromLe32, Stands;
    StandsLast(Le32(a), Le32(b));
    StandsFirst(Le32(a));
    StandsLonger(Le32(a), 0, Le32(a), Le32(b));
    StandsInside(data, off, Le32(a) + Le32(b), 0, Le32(a));
    StandsInside(data, off, Le32(a) + Le32(b), 4, Le32(b));
    WordReads(data, off, a);
    WordReads(data, off + 4, b);
  }

  /** The record of function `i`, from the start of the function table. */
  function RecordAt(fs: seq<Func>, i: nat): nat
    requires i < |fs|
  {
    8 * (|fs| + 1) + Offset(RecordParts(fs), i)
  }

  lemma EntryIs(fs: seq<Func>, end: U32, i: nat, a: U32, b: U32)
    requires i <= |fs| && a == if i < |fs| then fs[i].entry else end
    requires b == if i < |fs| then RecordAt(fs, i) % TWO_32 else 0
    ensures EntryParts(fs, end)[i] == Le32(a) + Le32(b)
  {
    hide Offset, RecordParts, Le32;
  }

  lemma EntryReads(t: GoPclntab, fs: seq<Func>, end: U32, i: nat)
    requires Holds(t, fs, end) && i <= |fs|
    ensures t.Parsed() && t.nfunc == |fs| && t.Entry(i) == (if i < |fs| then fs[i].entry else end)
    ensures i < |fs| ==> t.FuncOff(i) == RecordAt(fs, i) % TWO_32
  {
    hide Holds, Stands, Flat, EntryParts, NameParts, TableParts, RecordParts, Le32, FromLe32, Offset, RecordAt;
    HoldsParsed(t, fs, end);
    HoldsRegions(t, fs, end);
    EntriesAreEight(fs, end);
    var a, b := if i < |fs| then fs[i].entry else end, if i < |fs| then RecordAt(fs, i) % TWO_32 else 0;
    EntryIs(fs, end, i, a, b);
    PartStandsIn(t.data, t.functabOff, EntryParts(fs, end), i);
    TwoWords(t.data, t.functabOff + 8 * i, a, b);
  }

  lemma RecordWords(f: Func, nameOff: nat, pcsp: nat)
    ensures Stands(RecordOf(f, nameOff, pcsp), 4, Le32(nameOff % TWO_32))
    ensures Stands(RecordOf(f, nameOff, pcsp), 16, Le32(pcsp % TWO_32))
  {
    hide Le32;
  }

  lemma RecordPartIs(fs: seq<Func>, i: nat)
    requires i < |fs|
    ensures RecordParts(fs)[i] == RecordOf(fs[i], Offset(NameParts(fs), i), Offset(TableParts(fs), i))
  {
    hide Offset, RecordOf, NameParts, TableParts;
  }

  lemma WordStandsReads(data: seq<Byte>, off: nat, bytes: seq<Byte>, inner: nat, v: U32)
    requires Stands(data, off, bytes) && Stands(bytes, inner, Le32(v))
    ensures off + inner + 4 <= |data| && FromLe32(data[off + inner..off + inner + 4]) == v
  {
    hide Le32, FromLe32;
    StandsInside(data, off, bytes, inner, Le32(v));
    WordReads(data, off + inner, v);
  }

  /** Every part lies in the data, so its offset is small. */
  lemma OffsetsAreSmall(t: GoPclntab, fs: seq<Func>, end: U32, i: nat)
    requires Holds(t, fs, end) && i < |fs|
    ensures Stands(t.data, t.functabOff + RecordAt(fs, i), RecordParts(fs)[i]) && RecordAt(fs, i) < TWO_32
    ensures Stands(t.data, t.funcnameOff + Offset(NameParts(fs), i), NameParts(fs)[i])
    ensures Stands(t.data, t.pctabOff + Offset(TableParts(fs), i), TableParts(fs)[i])
    ensures Offset(NameParts(fs), i) < 0x8000_0000 && Offset(TableParts(fs), i) < TWO_32
  {
    hide Holds, Stands, Flat, EntryParts, NameParts, TableParts, RecordParts, Offset;
    HoldsParsed(t, fs, end);
    HoldsRegions(t, fs, end);
    PartStandsIn(t.data, t.functabOff + 8 * (|fs| + 1), RecordParts(fs), i);
    PartStandsIn(t.data, t.funcnameOff, NameParts(fs), i);
    PartStandsIn(t.data, t.pctabOff, TableParts(fs), i);
  }

  /** The offsets of a function's name and table are read from its record. */
  lemma RecordReads(t: GoPclntab, fs: seq<Func>, end: U32, i: nat)
    requires Holds(t, fs, end) && i < |fs|
    ensures t.Parsed() && t.nfunc == |fs| && t.FuncOff(i) == RecordAt(fs, i)
    ensures t.PcspOff(i) == Some(t.pctabOff + Offset(TableParts(fs), i))
    ensures var pos := t.functabOff + t.FuncOff(i) + 4;
      pos + 4 <= |t.data| && FromLe32(t.data[pos..pos + 4]) == Offset(NameParts(fs), i)
  {
    hide Holds, Stands, Flat, EntryParts, NameParts, TableParts, RecordParts, RecordOf, Le32, FromLe32, Offset,
      RecordAt, GoPclntab.Entry, GoPclntab.FuncOff;
    EntryReads(t, fs, end, i);
    OffsetsAreSmall(t, fs, end, i);
    RecordPartIs(fs, i);
    var at, name, pcsp := t.functabOff + RecordAt(fs, i), Offset(NameParts(fs), i), Offset(TableParts(fs), i);
    RecordWords(fs[i], name, pcsp);
    WordStandsReads(t.data, at, RecordOf(fs[i], name, pcsp), 4, name % TWO_32);
    WordStandsReads(t.data, at, RecordOf(fs[i], name, pcsp), 16, pcsp % TWO_32);
  }

  // ---- Names ----

  lemma {:induction false} NulEnds(name: seq<Byte>, rest: seq<Byte>)
    requires 0 !in name
    ensures NulAt(name + ([0] + rest)) == Some(|name|)
  {
    var s := name + ([0] + rest);
    if name == [] {
      assert s[0] == 0;
    } else {
      assert s[1..] == name[1..] + ([0] + rest);
      NulEnds(name[1..], rest);
    }
  }

  lemma NameStands(data: seq<Byte>, off: nat, name: seq<Byte>)
    requires Stands(data, off, name + [0]) && 0 !in name && JsonText.DecodeAll(name).Some?
    ensures CStrAt(data, off) == Some(name)
  {
    hide JsonText.DecodeAll;
    var rest := data[off + |name| + 1..];
    assert data[off..] == name + ([0] + rest) by {
      assert data[off..] == data[off..off + |name + [0]|] + rest;
    }
    NulEnds(name, rest);
    assert data[off..][..|name|] == name;
  }

  lemma GoodName(f: Func)
    requires GoodFunc(f)
    ensures 0 !in f.name && JsonText.DecodeAll(f.name).Some? && f.segments != [] && GoodSegments(f.segments, f.entry)
  {
  }

  lemma NamePartIs(fs: seq<Func>, i: nat)
    requires i < |fs|
    ensures NameParts(fs)[i] == fs[i].name + [0]
    ensures TableParts(fs)[i] == EncodeTable(TableOf(fs[i].segments, -1))
  {
    hide EncodeTable, TableOf;
  }

  lemma NameReads(t: GoPclntab, fs: seq<Func>, end: U32, i: nat)
    requires Holds(t, fs, end) && i < |fs| && GoodFunc(fs[i])
    ensures t.Parsed() && t.nfunc == |fs| && NameOf(t, t.FuncOff(i)) == Some(fs[i].name)
  {
    hide Holds, Stands, Flat, NameParts, TableParts, RecordParts, EntryParts, FromLe32, Offset, CStrAt, RecordAt,
      GoPclntab.Entry, GoPclntab.FuncOff, GoPclntab.PcspOff, GoodFunc, GoodSegments, JsonText.DecodeAll, EncodeTable;
    RecordReads(t, fs, end, i);
    OffsetsAreSmall(t, fs, end, i);
    NamePartIs(fs, i);
    GoodName(fs[i]);
    NameStands(t.data, t.funcnameOff + Offset(NameParts(fs), i), fs[i].name);
  }

  // ---- Frame sizes ----

  lemma DeltaAdds(from: I32, to: I32)
    ensures WrapAdd(from, Delta(from, to)) == to
    ensures Delta(from, to) == 0 <==> from == to
  {
  }

  lemma {:induction false} TableIsEncodable(segments: seq<Segment>, val: I32, pc: nat, first: bool)
    requires GoodSegments(segments, pc) && (first ==> segments != [])
    requires !first && segments != [] ==> segments[0].size != val
    ensures Encodable(TableOf(segments, val), first)
    decreases |segments|
  {
    hide Delta;
    if segments == [] {
    } else {
      DeltaAdds(val, segments[0].size);
      TableIsEncodable(segments[1..], segments[0].size, pc + segments[0].length, false);
    }
  }

  lemma {:induction false} TableAnswers(segments: seq<Segment>, val: I32, pc: U32, q: U32)
    requires GoodSegments(segments, pc)
    ensures Value(TableOf(segments, val), val, pc, q) == SizeIn(segments, pc, q)
    decreases |segments|
  {
    hide Delta, WrapAdd;
    if segments == [] {
    } else {
      DeltaAdds(val, segments[0].size);
      TableAnswers(segments[1..], segments[0].size, pc + segments[0].length, q);
    }
  }

  lemma StandsSuffix(data: seq<Byte>, off: nat, bytes: seq<Byte>) returns (rest: seq<Byte>)
    requires Stands(data, off, bytes)
    ensures Suffix(data, off) == bytes + rest
  {
    rest := data[off + |bytes|..];
    assert data[off..] == data[off..off + |bytes|] + rest;
  }

  lemma TableReads(t: GoPclntab, fs: seq<Func>, end: U32, i: nat)
    requires Holds(t, fs, end) && i < |fs| && GoodFunc(fs[i])
    ensures t.Parsed() && t.nfunc == |fs| && t.TableOf(i) == Some(TableOf(fs[i].segments, -1))
  {
    hide Holds, Stands, Flat, NameParts, TableParts, RecordParts, EntryParts, FromLe32, Offset, RecordAt, TableOf,
      GoPclntab.Entry, GoPclntab.FuncOff, GoPclntab.PcspOff, GoodFunc, GoodSegments, JsonText.DecodeAll, ParseTable,
      EncodeTable, Suffix;
    RecordReads(t, fs, end, i);
    OffsetsAreSmall(t, fs, end, i);
    NamePartIs(fs, i);
    GoodName(fs[i]);
    var table := TableOf(fs[i].segments, -1);
    TableIsEncodable(fs[i].segments, -1, fs[i].entry, true);
    var rest := StandsSuffix(t.data, t.pctabOff + Offset(TableParts(fs), i), EncodeTable(table));
    TableReadsBack(table, true, rest);
  }

  // ---- What the table says about an address ----

  /** The functions lie where the table says, in order. */
  lemma Ascends(t: GoPclntab, fs: seq<Func>, end: U32)
    requires GoodFuncs(fs, end) && Holds(t, fs, end)
    ensures t.Ascending() && t.nfunc == |fs|
  {
    hide Holds, GoPclntab.Entry, GoPclntab.FuncOff, GoodFunc, RecordAt;
    HoldsParsed(t, fs, end);
    forall i, j | 0 <= i <= j <= |fs|
      ensures t.Entry(i) <= t.Entry(j)
    {
      EntryReads(t, fs, end, i);
      EntryReads(t, fs, end, j);
    }
  }

  /** Where the next function starts, or the text ends. */
  function NextEntry(fs: seq<Func>, end: U32, i: nat): U32
    requires i < |fs|
  {
    if i + 1 < |fs| then fs[i + 1].entry else end
  }

  lemma FuncFound(t: GoPclntab, fs: seq<Func>, end: U32, i: nat, q: U32)
    requires GoodFuncs(fs, end) && Holds(t, fs, end) && i < |fs| && fs[i].entry <= q < NextEntry(fs, end, i)
    ensures t.Parsed() && t.nfunc == |fs| && t.FuncAt(q) == Some(i) && t.Entry(i) == fs[i].entry
  {
    hide Holds, GoPclntab.Entry, GoPclntab.FuncOff, GoodFunc, GoPclntab.LastAtOrBelow, RecordAt, GoodFuncs;
    Ascends(t, fs, end);
    EntryReads(t, fs, end, i);
    EntryReads(t, fs, end, i + 1);
    assert t.Entry(0) <= t.Entry(i) && t.Entry(i + 1) <= t.Entry(|fs|);
  }

  lemma GoodAt(fs: seq<Func>, end: U32, i: nat)
    requires GoodFuncs(fs, end) && i < |fs|
    ensures GoodFunc(fs[i])
  {
  }

  /**
   * The bytes mean the functions they were written from: at every address of a function, the frame size is the one that
   * the function's own segments give, and the name is its own, with the distance from its entry.
   */
  lemma TableMeansFunctions(t: GoPclntab, fs: seq<Func>, end: U32, i: nat, q: U32)
    requires GoodFuncs(fs, end) && Holds(t, fs, end) && i < |fs| && fs[i].entry <= q < NextEntry(fs, end, i)
    ensures t.Ascending() && t.FrameSize(t.textOff + q) == SizeIn(fs[i].segments, fs[i].entry, q)
    ensures Resolution(t, t.textOff + q) == Some(Resolved(fs[i].name, q - fs[i].entry))
  {
    hide Holds, GoodFuncs, GoodFunc, GoodSegments, GoPclntab.Entry, GoPclntab.FuncOff, GoPclntab.FuncAt,
      GoPclntab.TableOf, Value, NameOf, TableOf, GoPclntab.Ascending, JsonText.DecodeAll;
    Ascends(t, fs, end);
    FuncFound(t, fs, end, i, q);
    GoodAt(fs, end, i);
    GoodName(fs[i]);
    TableReads(t, fs, end, i);
    NameReads(t, fs, end, i);
    TableAnswers(fs[i].segments, -1, fs[i].entry, q);
  }

  /** Outside the functions there is neither. */
  lemma NothingOutside(t: GoPclntab, fs: seq<Func>, end: U32, addr: nat)
    requires GoodFuncs(fs, end) && Holds(t, fs, end) && (addr < t.textOff + fs[0].entry || addr >= t.textOff + end)
    ensures t.Parsed() && t.FrameSize(addr) == None && Resolution(t, addr) == None
  {
    hide Holds, GoodFunc, GoPclntab.Entry, GoPclntab.FuncOff, GoPclntab.TableOf, Value, NameOf, RecordAt;
    EntryReads(t, fs, end, 0);
    EntryReads(t, fs, end, |fs|);
  }

  /** A section written from functions is parsed, and holds them. */
  lemma SectionHolds(fs: seq<Func>, end: U32, newer: bool, u: Unused, tail: seq<Byte>, textOff: nat)
    requires fs != [] && |Section(fs, end, newer, u, tail)| <= 0x1000_0000
    ensures var t := Parse(Section(fs, end, newer, u, tail), textOff);
      t.Some? && Holds(t.value, fs, end) && t.value.textOff == textOff
  {
    hide Section, Parse, Flat, NameParts, TableParts, EntryParts, RecordParts, Stands, HeaderOf;
    HeaderParses(fs, end, newer, u, tail, textOff);
    RegionsStand(fs, end, newer, u, tail);
  }

  lemma MagicIs(s: seq<Byte>)
    requires |s| == 4
    ensures FromLe32(s) == 0xffff_fff0 <==> s == [0xf0, 0xff, 0xff, 0xff]
    ensures FromLe32(s) == 0xffff_fff1 <==> s == [0xf1, 0xff, 0xff, 0xff]
  {
    LeastFirst(s);
    if FromLe32(s) == 0xffff_fff0 || FromLe32(s) == 0xffff_fff1 {
      assert s == [s[0], s[1], s[2], s[3]];
    }
  }

  /** What makes a header acceptable, byte by byte; anything else is refused. */
  lemma ParsesIff(data: seq<Byte>, textOff: nat)
    ensures Parse(data, textOff).Some? <==>
      && 72 <= |data| <= 268435456
      && (data[..4] == [0xf0, 0xff, 0xff, 0xff] || data[..4] == [0xf1, 0xff, 0xff, 0xff]) && data[7] == 8
      && FromLe64(data[8..16]) > 0 && FromLe64(data[32..40]) < |data| && FromLe64(data[56..64]) < |data|
      && FromLe64(data[64..72]) + (FromLe64(data[8..16]) + 1) * 8 <= |data|
  {
    hide FromLe32, FromLe64;
    if |data| >= 4 {
      MagicIs(data[..4]);
    }
  }

  // ---- The precomputed rows ----

  /** Where the code that segments cover ends. */
  function EndOf(segments: seq<Segment>, pc: nat): nat {
    if segments == [] then pc else EndOf(segments[1..], pc + segments[0].length)
  }

  /** The last segment covers something, and no function's segments run into the next function. */
  predicate Spaced(fs: seq<Func>, end: U32) {
    forall i :: 0 <= i < |fs| ==>
      && fs[i].segments != [] && fs[i].segments[|fs[i].segments| - 1].length > 0
      && EndOf(fs[i].segments, fs[i].entry) <= NextEntry(fs, end, i)
  }

  lemma {:induction false} TableIsOk(segments: seq<Segment>, val: I32, pc: U32)
    requires GoodSegments(segments, pc) && (segments != [] ==> segments[|segments| - 1].length > 0)
    ensures TableOk(TableOf(segments, val), pc)
    ensures EndPc(TableOf(segments, val), pc) == EndOf(segments, pc)
    decreases |segments|
  {
    hide Delta;
    if segments == [] {
    } else {
      TableIsOk(segments[1..], segments[0].size, pc + segments[0].length);
    }
  }

  lemma FuncIsWell(t: GoPclntab, fs: seq<Func>, end: U32, i: nat)
    requires GoodFuncs(fs, end) && Spaced(fs, end) && Holds(t, fs, end) && i < |fs|
    ensures t.Parsed() && t.nfunc == |fs| && FuncOk(t, i)
  {
    hide Holds, GoodFuncs, GoodFunc, GoodSegments, GoPclntab.Entry, GoPclntab.FuncOff, GoPclntab.TableOf, TableOf,
      JsonText.DecodeAll, TableOk, EndPc, EndOf, RecordAt;
    GoodAt(fs, end, i);
    GoodName(fs[i]);
    EntryReads(t, fs, end, i);
    EntryReads(t, fs, end, i + 1);
    TableReads(t, fs, end, i);
    TableIsOk(fs[i].segments, -1, fs[i].entry);
  }

  /** The rows that are computed ahead say of every address what the functions' segments say. */
  lemma RowsMeanFunctions(t: GoPclntab, fs: seq<Func>, end: U32, i: nat, q: U32)
    requires GoodFuncs(fs, end) && Spaced(fs, end) && Holds(t, fs, end)
    requires i < |fs| && fs[i].entry <= q < NextEntry(fs, end, i)
    ensures t.Parsed()
    ensures Lookup(StableSort(t.AllRows(t.nfunc)), t.textOff + q) == SizeIn(fs[i].segments, fs[i].entry, q)
  {
    hide Holds, GoodFuncs, Spaced, FuncOk, GoPclntab.Ascending, GoPclntab.FrameSize, GoPclntab.AllRows, Lookup,
      StableSort, NextEntry;
    HoldsParsed(t, fs, end);
    Ascends(t, fs, end);
    forall j: nat | j < |fs|
      ensures FuncOk(t, j)
    {
      FuncIsWell(t, fs, end, j);
    }
    TableMeansFunctions(t, fs, end, i, q);
    RowsAgreeWithTables(t, t.textOff + q);
  }

  // ---- A table byte by byte ----

  /** Frame size 0 for three bytes of code, 32 for ten, and 0 again for five. */
  lemma KnownTable(q: U32)
    ensures Value(ParseTable([2, 3, 64, 10, 63, 5, 0], true), -1, 0, q) ==
      if q < 3 then Some(0) else if q < 13 then Some(32) else if q < 18 then Some(0) else None
  {
    hide Value, ParseTable, EncodeTable, TableOf, SizeIn, GoodSegments;
    var segments := [Segment(0, 3), Segment(32, 10), Segment(0, 5)];
    KnownSegments(segments, q);
    KnownBytes();
    TableIsEncodable(segments, -1, 0, true);
    TableReadsBack(TableOf(segments, -1), true, []);
    assert EncodeTable(TableOf(segments, -1)) + [] == EncodeTable(TableOf(segments, -1));
    TableAnswers(segments, -1, 0, q);
  }

  lemma KnownSegments(segments: seq<Segment>, q: U32)
    requires segments == [Segment(0, 3), Segment(32, 10), Segment(0, 5)]
    ensures GoodSegments(segments, 0)
    ensures SizeIn(segments, 0, q) ==
        if q < 3 then Some(0) else if q < 13 then Some(32) else if q < 18 then Some(0) else None
  {
    var two, last := segments[1..], segments[1..][1..];
    assert two == [Segment(32, 10), Segment(0, 5)] && last == [Segment(0, 5)] && last[1..] == [];
    assert SizeIn(last[1..], 18, q) == None && GoodSegments(last[1..], 18);
    assert GoodSegments(last, 13) && SizeIn(last, 13, q) == if q < 18 then Some(0) else None;
    assert GoodSegments(two, 3);
  }

  lemma KnownBytes()
    ensures EncodeTable(TableOf([Segment(0, 3), Segment(32, 10), Segment(0, 5)], -1)) == [2, 3, 64, 10, 63, 5, 0]
  {
    var last, two := [Segment(0, 5)], [Segment(32, 10), Segment(0, 5)];
    var all := [Segment(0, 3), Segment(32, 10), Segment(0, 5)];
    assert all[1..] == two && two[1..] == last && last[1..] == [];
    assert ProtoWire.VarintBytes(2) == [2] && ProtoWire.VarintBytes(3) == [3] && ProtoWire.VarintBytes(64) == [64];
    assert ProtoWire.VarintBytes(10) == [10] && ProtoWire.VarintBytes(63) == [63] && ProtoWire.VarintBytes(5) == [5];
    assert TableOf(last, 32) == Step(-32, 5, End) && TableOf(two, 0) == Step(32, 10, TableOf(last, 32));
    hide ProtoWire.VarintBytes;
    assert TableOf(all, -1) == Step(1, 3, TableOf(two, 0));
    assert EncodeTable(TableOf(last, 32)) == [63] + ([5] + [0]);
    assert EncodeTable(TableOf(two, 0)) == [64] + ([10] + EncodeTable(TableOf(last, 32)));
  }
}
