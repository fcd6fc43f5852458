/** The protobuf wire format: what `ProtoWriter` appends and what `ProtoReader` yields. */
module ProtoWire {
  import opened Bits

  const RESERVED_LEN := 5
  const RESERVED_LIMIT := 0x8_0000_0000 // 2^35: what five 7-bit groups can hold

  datatype Wire = Varint(v: U64) | Fixed64(raw: seq<Byte>) | Len(bytes: seq<Byte>) | Fixed32(raw: seq<Byte>)
  datatype Field = Field(number: U32, value: Wire)
  datatype Read<+T> = Read(value: T, size: nat)

  // ---- Encodings ----

  function Pow128(n: nat): (p: nat)
    ensures p >= 1
  {
    if n == 0 then 1 else 128 * Pow128(n - 1)
  }

  /** `v` as exactly `n` groups of seven bits, low group first, every byte but the last marked. */
  function Groups(v: nat, n: nat): (s: seq<Byte>)
    requires 1 <= n && v < Pow128(n)
    ensures |s| == n
  {
    if n == 1 then [v] else [v % 128 + 128] + Groups(v / 128, n - 1)
  }

  /** How many groups the shortest encoding of `v` needs. */
  function GroupCount(v: nat): (n: nat)
    ensures 1 <= n && v < Pow128(n)
    ensures n > 1 ==> v >= Pow128(n - 1)
  {
    if v < 128 then 1 else 1 + GroupCount(v / 128)
  }

  function VarintBytes(v: nat): (s: seq<Byte>)
    ensures |s| == GroupCount(v)
  {
    Groups(v, GroupCount(v))
  }

  function Tag(field: U32, wire: nat): (s: seq<Byte>)
    requires wire < 8
  {
    VarintBytes(field * 8 + wire)
  }

  /** `(v >> 7 * i) & 0x7f` */
  function GroupAt(v: nat, i: nat): (b: Byte)
    ensures b < 128
  {
    v / Pow128(i) % 128
  }

  /** The fixed-width length slot: only the low 35 bits of the length fit. */
  function ReservedLen(len: nat): (s: seq<Byte>)
    ensures |s| == RESERVED_LEN
  {
    [len % 128 + 128, len / 128 % 128 + 128, len / 16384 % 128 + 128, len / 2097152 % 128 + 128, len / 268435456 % 128]
  }

  lemma DivisionChain(v: nat)
    ensures v / 128 / 128 == v / 16384 && v / 16384 / 128 == v / 2097152 && v / 2097152 / 128 == v / 268435456
  {
  }

  lemma DropGroup(v: nat, q: nat, m: nat, w: nat)
    requires v == q * (128 * m) + w
    ensures v % 128 == w % 128 && v / 128 == q * m + w / 128
  {
    var k := q * m;
    assert q * (128 * m) == 128 * k;
  }

  lemma ModuloKeepsGroups(len: nat)
    ensures var v := len % RESERVED_LIMIT;
      && v % 128 == len % 128 && v / 128 % 128 == len / 128 % 128 && v / 16384 % 128 == len / 16384 % 128
      && v / 2097152 % 128 == len / 2097152 % 128 && v / 268435456 == len / 268435456 % 128
  {
    var q, v := len / RESERVED_LIMIT, len % RESERVED_LIMIT;
    DivisionChain(len);
    DivisionChain(v);
    DropGroup(len, q, 268435456, v);
    DropGroup(len / 128, q, 2097152, v / 128);
    DropGroup(len / 16384, q, 16384, v / 16384);
    DropGroup(len / 2097152, q, 128, v / 2097152);
  }

  lemma ReservedLenIsFiveGroups(len: nat)
    ensures len % RESERVED_LIMIT < Pow128(5)
    ensures ReservedLen(len) == Groups(len % RESERVED_LIMIT, RESERVED_LEN)
  {
    assert Pow128(1) == 128 && Pow128(2) == 16384 && Pow128(3) == 2097152 && Pow128(4) == 268435456;
    assert Pow128(5) == RESERVED_LIMIT;
    var v := len % RESERVED_LIMIT;
    ModuloKeepsGroups(len);
    DivisionChain(v);
    hide Pow128;
    assert Groups(v / 268435456, 1) == [v / 268435456];
    assert Groups(v / 2097152, 2) == [v / 2097152 % 128 + 128] + Groups(v / 268435456, 1);
    assert Groups(v / 16384, 3) == [v / 16384 % 128 + 128] + Groups(v / 2097152, 2);
    assert Groups(v / 128, 4) == [v / 128 % 128 + 128] + Groups(v / 16384, 3);
    assert Groups(v, 5) == [v % 128 + 128] + Groups(v / 128, 4);
  }

  // ---- Decodings ----

  /** One varint at the front of `s`; `shift` bits are already in `acc`. */
  function VarintFrom(s: seq<Byte>, shift: nat, acc: U64): (r: Option<Read<U64>>)
    ensures r.Some? ==> 1 <= r.value.size <= |s|
    decreases |s|
  {
    if s == [] then None
    else
      var value := AddGroup(acc, s[0], shift);
      if s[0] < 128 then Some(Read(value, 1))
      else if shift + 7 >= 64 then None
      else
        match VarintFrom(s[1..], shift + 7, value)
        case None => None
        case Some(Read(v, n)) => Some(Read(v, n + 1))
  }

  /** `v << shift`, before any truncation. */
  function Place(v: nat, shift: nat): nat {
    v * Pow2(shift)
  }

  /** `acc | ((b & 0x7f) << shift)` on 64-bit words. */
  function AddGroup(acc: U64, b: Byte, shift: nat): U64 {
    Or(acc, Place(b % 128, shift) % TWO_64) % TWO_64
  }

  function ReadVarint(s: seq<Byte>): (r: Option<Read<U64>>)
    ensures r.Some? ==> 1 <= r.value.size <= |s|
  {
    VarintFrom(s, 0, 0)
  }

  function ReadValue(wire: nat, s: seq<Byte>): (r: Option<Read<Wire>>)
    ensures r.Some? ==> 1 <= r.value.size <= |s|
  {
    match wire
    case 0 =>
      (match ReadVarint(s)
       case None => None
       case Some(Read(v, n)) => Some(Read(Varint(v), n)))
    case 1 => if |s| < 8 then None else Some(Read(Fixed64(s[..8]), 8))
    case 2 =>
      (match ReadVarint(s)
       case None => None
       case Some(Read(len, n)) =>
         if len <= |s| - n then Some(Read(Len(s[n..n + len]), n + len)) else None)
    case 5 => if |s| < 4 then None else Some(Read(Fixed32(s[..4]), 4))
    case _ => None
  }

  /** The field at the front of `s`, and how many bytes it takes. */
  function ReadField(s: seq<Byte>): (r: Option<Read<Field>>)
    ensures r.Some? ==> 2 <= r.value.size <= |s|
  {
    match ReadVarint(s)
    case None => None
    case Some(Read(tag, n)) =>
      match ReadValue(tag % 8, s[n..])
      case None => None
      case Some(Read(value, m)) => Some(Read(Field(tag / 8 % TWO_32, value), n + m))
  }

  /** Everything the iterator yields on `s`, in order. */
  function Fields(s: seq<Byte>): (fs: seq<Field>)
    ensures 2 * |fs| <= |s|
    decreases |s|
  {
    match ReadField(s)
    case None => []
    case Some(Read(f, n)) => [f] + Fields(s[n..])
  }

  function Shift(a: seq<nat>, n: nat): (b: seq<nat>)
    ensures |b| == |a| && forall i :: 0 <= i < |a| ==> b[i] == a[i] + n
  {
    seq(|a|, i requires 0 <= i < |a| => a[i] + n)
  }

  lemma {:induction false} PayloadsAreShorter(s: seq<Byte>, i: nat)
    requires i < |Fields(s)| && Fields(s)[i].value.Len?
    ensures |Fields(s)[i].value.bytes| < |s|
    decreases |s|
  {
    if i == 0 {
    } else {
      PayloadsAreShorter(s[ReadField(s).value.size..], i - 1);
    }
  }

  /** Where each yielded field ends. */
  function Ends(s: seq<Byte>): (ends: seq<nat>)
    ensures |ends| == |Fields(s)|
    ensures forall i :: 0 <= i < |ends| ==> ends[i] <= |s|
    decreases |s|
  {
    hide ReadField;
    match ReadField(s)
    case None => []
    case Some(Read(f, n)) =>
      var tail := Ends(s[n..]);
      [n] + Shift(tail, n)
  }

  /** `s` is a whole number of fields, nothing left over. */
  predicate WellFormed(s: seq<Byte>)
    decreases |s|
  {
    s == [] ||
    match ReadField(s)
    case None => false
    case Some(Read(f, n)) => WellFormed(s[n..])
  }

  // ---- The varint round trip ----

  lemma AddGroupAdds(acc: U64, b: Byte, shift: nat)
    requires acc < Pow2(shift) && acc + Place(b % 128, shift) < TWO_64
    ensures AddGroup(acc, b, shift) == acc + Place(b % 128, shift)
  {
    hide Or, Pow2;
    OrDisjoint(acc, b % 128, shift);
  }

  lemma PlaceSplit(v: nat, shift: nat)
    ensures Place(v, shift) == Place(v % 128, shift) + Place(v / 128, shift + 7)
    ensures Place(v % 128, shift) + Pow2(shift) <= Pow2(shift + 7)
  {
    Pow2Seven(shift);
    hide Pow2;
    var lo, hi, p := v % 128, v / 128, Pow2(shift);
    Distribute(128 * hi, lo, p);
    assert 128 * hi * p == hi * (128 * p);
    MulMonotone(lo, 127, p);
  }

  lemma {:induction false} GroupsRead(v: nat, n: nat, rest: seq<Byte>, shift: nat, acc: U64)
    requires 1 <= n && v < Pow128(n)
    requires acc < Pow2(shift) && acc + Place(v, shift) < TWO_64
    requires shift + 7 * (n - 1) < 64
    ensures VarintFrom(Groups(v, n) + rest, shift, acc) == Some(Read(acc + Place(v, shift), n))
    decreases n
  {
    PlaceSplit(v, shift);
    hide Pow2, Place, AddGroup;
    var s := Groups(v, n) + rest;
    assert s[0] == if n == 1 then v else v % 128 + 128;
    AddGroupAdds(acc, s[0], shift);
    if n == 1 {
    } else {
      assert s[1..] == Groups(v / 128, n - 1) + rest;
      GroupsRead(v / 128, n - 1, rest, shift + 7, AddGroup(acc, s[0], shift));
    }
  }

  /** A varint of any width that fits reads back as its value. */
  lemma {:induction false} AnyWidthReads(v: U64, n: nat, rest: seq<Byte>)
    requires 1 <= n <= 10 && v < Pow128(n)
    ensures ReadVarint(Groups(v, n) + rest) == Some(Read(v, n))
  {
    assert Place(v, 0) == v;
    GroupsRead(v, n, rest, 0, 0);
  }

  lemma {:induction false} Pow128Monotone(a: nat, b: nat)
    requires a <= b
    ensures Pow128(a) <= Pow128(b)
  {
    if a == b {
    } else {
      Pow128Monotone(a, b - 1);
    }
  }

  lemma VarintReads(v: U64, rest: seq<Byte>)
    ensures ReadVarint(VarintBytes(v) + rest) == Some(Read(v, |VarintBytes(v)|))
  {
    assert GroupCount(v) <= 10 by {
      if GroupCount(v) > 10 {
        Pow128Monotone(10, GroupCount(v) - 1);
      }
      assert Pow128(10) == 0x40_0000_0000_0000_0000;
    }
    AnyWidthReads(v, GroupCount(v), rest);
  }

  /** Numbers of more than one byte: low groups first, every byte but the last marked. */
  lemma TwoGroups(v: nat)
    requires 128 <= v < 16384
    ensures VarintBytes(v) == [v % 128 + 128, v / 128]
  {
    assert GroupCount(v / 128) == 1 && GroupCount(v) == 2;
    assert Groups(v / 128, 1) == [v / 128];
    assert Groups(v, 2) == [v % 128 + 128] + Groups(v / 128, 1);
  }

  lemma ThreeGroups(v: nat)
    requires 16384 <= v < 2097152
    ensures VarintBytes(v) == [v % 128 + 128, v / 128 % 128 + 128, v / 16384]
  {
    assert 128 <= v / 128 < 16384;
    TwoGroups(v / 128);
    assert VarintBytes(v) == [v % 128 + 128] + VarintBytes(v / 128);
  }

  lemma LargestWord()
    ensures VarintBytes(0xffff_ffff) == [0xff, 0xff, 0xff, 0xff, 0x0f]
  {
    TwoGroups(0x7ff);
    assert VarintBytes(0x7ff) == [0xff, 0x0f];
    assert VarintBytes(0x3_ffff) == [0xff] + VarintBytes(0x7ff);
    assert VarintBytes(0x1ff_ffff) == [0xff] + VarintBytes(0x3_ffff);
    assert VarintBytes(0xffff_ffff) == [0xff] + VarintBytes(0x1ff_ffff);
  }

  /** A length that promises more than there is ends the reading. */
  lemma TruncatedEnds()
    ensures Fields([0x0a, 0x05, 0x01]) == []
  {
    TruncatedField();
    hide ReadField;
  }

  lemma TruncatedField()
    ensures ReadField([0x0a, 0x05, 0x01]) == None
  {
    assert VarintBytes(5) == [5] && VarintBytes(10) == [10];
    hide VarintBytes, ReadVarint;
    VarintReads(10, [0x05, 0x01]);
    VarintReads(5, [0x01]);
    assert [0x0a] + [0x05, 0x01] == [0x0a, 0x05, 0x01] && [0x05] + [0x01] == [0x05, 0x01];
    assert [0x0a, 0x05, 0x01][1..] == [0x05, 0x01];
  }

  /** Fields of fixed width, which the writer never writes, are read too: wire type 1 is eight bytes and 5 is four. */
  lemma FixedReads(number: U32, raw: seq<Byte>, rest: seq<Byte>)
    requires number < 0x2000_0000 && (|raw| == 8 || |raw| == 4)
    ensures var key := VarintBytes(number * 8 + if |raw| == 8 then 1 else 5);
      ReadField(key + raw + rest) ==
        Some(Read(Field(number, if |raw| == 8 then Fixed64(raw) else Fixed32(raw)), |key| + |raw|))
  {
    hide ReadVarint, VarintBytes;
    var tag := number * 8 + if |raw| == 8 then 1 else 5;
    var key := VarintBytes(tag);
    assert key + raw + rest == key + (raw + rest);
    VarintReads(tag, raw + rest);
    assert (key + (raw + rest))[|key|..] == raw + rest;
    assert (raw + rest)[..|raw|] == raw;
    TagSplits(number, if |raw| == 8 then 1 else 5);
  }

  lemma TagSplits(number: U32, wire: nat)
    requires wire < 8
    ensures (number * 8 + wire) % 8 == wire && (number * 8 + wire) / 8 == number
  {
  }

  /** Groups and any other wire type end the reading. */
  lemma OtherTypesEnd(number: U32, wire: nat, rest: seq<Byte>)
    requires wire == 3 || wire == 4 || wire == 6 || wire == 7
    ensures ReadField(VarintBytes(number * 8 + wire) + rest) == None
    ensures Fields(VarintBytes(number * 8 + wire) + rest) == []
  {
    var tag := number * 8 + wire;
    assert tag % 8 == wire;
    VarintReads(tag, rest);
    hide ReadVarint, VarintBytes;
  }

  lemma ReservedLenReads(len: nat, rest: seq<Byte>)
    ensures ReadVarint(ReservedLen(len) + rest) == Some(Read(len % RESERVED_LIMIT, RESERVED_LEN))
  {
    ReservedLenIsFiveGroups(len);
    AnyWidthReads(len % RESERVED_LIMIT, RESERVED_LEN, rest);
  }

  // ---- Locality: a read sees only the bytes it consumes ----

  lemma {:induction false} VarintLocal(s: seq<Byte>, t: seq<Byte>, shift: nat, acc: U64)
    requires VarintFrom(s, shift, acc).Some?
    ensures VarintFrom(s[..VarintFrom(s, shift, acc).value.size] + t, shift, acc) == VarintFrom(s, shift, acc)
    decreases |s|
  {
    var n := VarintFrom(s, shift, acc).value.size;
    var u := s[..n] + t;
    assert u[0] == s[0];
    if s[0] < 128 {
    } else {
      VarintLocal(s[1..], t, shift + 7, AddGroup(acc, s[0], shift));
      assert u[1..] == s[1..][..n - 1] + t;
    }
  }

  lemma FieldLocal(s: seq<Byte>, t: seq<Byte>)
    requires ReadField(s).Some?
    ensures ReadField(s[..ReadField(s).value.size] + t) == ReadField(s)
  {
    hide VarintFrom;
    var size := ReadField(s).value.size;
    var Read(tag, n) := ReadVarint(s).value;
    var u := s[..size] + t;
    VarintLocal(s, s[n..size] + t, 0, 0);
    assert u == s[..n] + (s[n..size] + t);
    var body := s[n..];
    var ubody := u[n..];
    var m := size - n;
    assert ubody == body[..m] + t;
    match tag % 8
    case 0 => VarintLocal(body, t, 0, 0);
    case 2 =>
      var Read(len, k) := ReadVarint(body).value;
      VarintLocal(body, body[k..m] + t, 0, 0);
      assert ubody == body[..k] + (body[k..m] + t);
      assert ubody[k..k + len] == body[k..k + len];
    case _ =>
  }

  /** Appending bytes never changes a field that was already readable. */
  lemma FieldExtends(s: seq<Byte>, t: seq<Byte>)
    requires ReadField(s).Some?
    ensures ReadField(s + t) == ReadField(s)
  {
    var n := ReadField(s).value.size;
    FieldLocal(s, s[n..] + t);
    assert s + t == s[..n] + (s[n..] + t);
  }

  /** The reader maps concatenation to concatenation. */
  lemma {:induction false} FieldsAppend(a: seq<Byte>, b: seq<Byte>)
    requires WellFormed(a)
    ensures Fields(a + b) == Fields(a) + Fields(b)
    ensures WellFormed(b) ==> WellFormed(a + b)
    decreases |a|
  {
    hide ReadField;
    if a == [] {
      assert a + b == b;
    } else {
      var Read(f, n) := ReadField(a).value;
      FieldExtends(a, b);
      assert (a + b)[n..] == a[n..] + b;
      FieldsAppend(a[n..], b);
    }
  }

  lemma CutFieldReads(s: seq<Byte>, k: nat)
    requires ReadField(s).Some? && ReadField(s).value.size <= k <= |s|
    ensures ReadField(s[..k]) == ReadField(s)
  {
    hide ReadField;
    var n := ReadField(s).value.size;
    FieldLocal(s, s[n..k]);
    assert s[..k] == s[..n] + s[n..k];
  }

  /** Cutting a buffer anywhere keeps exactly the fields that lie wholly before the cut. */
  lemma {:induction false} FieldsTruncate(s: seq<Byte>, k: nat)
    requires k <= |s|
    ensures Fields(s[..k]) <= Fields(s)
    ensures forall i :: 0 <= i < |Fields(s)| ==> (i < |Fields(s[..k])| <==> Ends(s)[i] <= k)
    decreases |s|
  {
    hide ReadField;
    if ReadField(s[..k]).Some? {
      FieldExtends(s[..k], s[k..]);
      assert s == s[..k] + s[k..];
      var Read(f, n) := ReadField(s).value;
      assert s[..k][n..] == s[n..][..k - n];
      FieldsTruncate(s[n..], k - n);
    } else if ReadField(s).Some? {
      var Read(f, n) := ReadField(s).value;
      if n <= k {
        CutFieldReads(s, k);
      }
    }
  }

  // ---- One field written, one field read ----

  lemma TagReads(field: U32, wire: nat, rest: seq<Byte>)
    requires wire < 8
    ensures ReadVarint(Tag(field, wire) + rest) == Some(Read(field * 8 + wire, |Tag(field, wire)|))
  {
    VarintReads(field * 8 + wire, rest);
  }

  function VarintField(field: U32, v: U64): seq<Byte> {
    Tag(field, 0) + VarintBytes(v)
  }

  function LenField(field: U32, bytes: seq<Byte>): seq<Byte> {
    Tag(field, 2) + VarintBytes(|bytes|) + bytes
  }

  function InPlaceField(field: U32, bytes: seq<Byte>): seq<Byte> {
    Tag(field, 2) + ReservedLen(|bytes|) + bytes
  }

  lemma VarintFieldReads(field: U32, v: U64, rest: seq<Byte>)
    ensures ReadField(VarintField(field, v) + rest) == Some(Read(Field(field, Varint(v)), |VarintField(field, v)|))
  {
    hide VarintFrom, VarintBytes;
    var s := VarintField(field, v) + rest;
    TagReads(field, 0, VarintBytes(v) + rest);
    assert s == Tag(field, 0) + (VarintBytes(v) + rest);
    VarintReads(v, rest);
    assert s[|Tag(field, 0)|..] == VarintBytes(v) + rest;
  }

  lemma LenFieldReads(field: U32, bytes: seq<Byte>, rest: seq<Byte>)
    requires |bytes| < TWO_64
    ensures ReadField(LenField(field, bytes) + rest) == Some(Read(Field(field, Len(bytes)), |LenField(field, bytes)|))
  {
    hide VarintFrom, VarintBytes;
    var s := LenField(field, bytes) + rest;
    var len := VarintBytes(|bytes|);
    TagReads(field, 2, len + bytes + rest);
    assert s == Tag(field, 2) + (len + bytes + rest);
    assert s[|Tag(field, 2)|..] == len + (bytes + rest);
    VarintReads(|bytes|, bytes + rest);
    assert (len + (bytes + rest))[|len|..|len| + |bytes|] == bytes;
  }

  /** A body built in place reads back as the bytes its 35-bit length slot can describe. */
  lemma InPlaceFieldReads(field: U32, bytes: seq<Byte>, rest: seq<Byte>)
    ensures var kept := |bytes| % RESERVED_LIMIT;
      ReadField(InPlaceField(field, bytes) + rest)
        == Some(Read(Field(field, Len(bytes[..kept])), |Tag(field, 2)| + RESERVED_LEN + kept))
  {
    hide VarintFrom, VarintBytes, ReservedLen;
    var s := InPlaceField(field, bytes) + rest;
    var len := ReservedLen(|bytes|);
    var kept := |bytes| % RESERVED_LIMIT;
    TagReads(field, 2, len + bytes + rest);
    assert s == Tag(field, 2) + (len + bytes + rest);
    assert s[|Tag(field, 2)|..] == len + (bytes + rest);
    ReservedLenReads(|bytes|, bytes + rest);
    assert (len + (bytes + rest))[|len|..|len| + kept] == bytes[..kept];
  }

  /** Building in place and copying in read back alike exactly when the body is below 2^35 bytes. */
  lemma InPlaceReadsLikeCopiedIff(field: U32, bytes: seq<Byte>, rest: seq<Byte>)
    requires |bytes| < TWO_64
    ensures var inPlace := ReadField(InPlaceField(field, bytes) + rest);
      var copied := ReadField(LenField(field, bytes) + rest);
      && inPlace.Some? && copied.Some?
      && (inPlace.value.value == copied.value.value <==> |bytes| < RESERVED_LIMIT)
  {
    hide ReadField, InPlaceField, LenField;
    InPlaceFieldReads(field, bytes, rest);
    LenFieldReads(field, bytes, rest);
    var kept := |bytes| % RESERVED_LIMIT;
    assert |bytes[..kept]| == kept < RESERVED_LIMIT;
    assert |bytes| < RESERVED_LIMIT ==> bytes[..kept] == bytes;
  }

  // ---- The writer and the reader ----

  lemma VarintStep(v: nat)
    ensures VarintBytes(v) == if v < 128 then [v % 128] else [v % 128 + 128] + VarintBytes(v / 128)
  {
  }

  class ProtoWriter {
    var buf: seq<Byte>

    constructor ()
      ensures buf == []
    {
      buf := [];
    }

    method WriteVarint(v0: U64)
      modifies this
      ensures buf == old(buf) + VarintBytes(v0)
    {
      hide VarintBytes;
      var v := v0;
      while v >= 128
        invariant 0 <= v < TWO_64
        invariant buf + VarintBytes(v) == old(buf) + VarintBytes(v0)
      {
        VarintStep(v);
        buf := buf + [v % 128 + 128];
        v := v / 128;
      }
      VarintStep(v);
      buf := buf + [v % 128];
    }

    method WriteTag(field: U32, wire: nat)
      requires wire < 8
      modifies this
      ensures buf == old(buf) + Tag(field, wire)
    {
      WriteVarint(field * 8 + wire);
    }

    method WriteUint64(field: U32, value: U64)
      modifies this
      ensures buf == old(buf) + VarintField(field, value)
    {
      WriteTag(field, 0);
      WriteVarint(value);
    }

    /** Also `write_string`: both copy the bytes in behind a minimal length. */
    method WriteMessage(field: U32, msg: seq<Byte>)
      requires |msg| < TWO_64
      modifies this
      ensures buf == old(buf) + LenField(field, msg)
    {
      WriteTag(field, 2);
      WriteVarint(|msg|);
      buf := buf + msg;
    }

    method BeginMessage(field: U32) returns (marker: nat)
      modifies this
      ensures marker == |old(buf)| + |Tag(field, 2)|
      ensures buf == old(buf) + Tag(field, 2) + [0, 0, 0, 0, 0]
    {
      WriteTag(field, 2);
      marker := |buf|;
      buf := buf + [0, 0, 0, 0, 0];
    }

    method EndMessage(marker: nat)
      requires marker + RESERVED_LEN <= |buf|
      modifies this
      ensures buf == old(buf)[..marker] + ReservedLen(|old(buf)| - marker - RESERVED_LEN) +
          old(buf)[marker + RESERVED_LEN..]
    {
      hide GroupAt, ReservedLen;
      var len := |buf| - marker - RESERVED_LEN;
      ghost var was := buf;
      for i := 0 to RESERVED_LEN - 1
        invariant |buf| == |was|
        invariant buf[..marker] == was[..marker] && buf[marker + i..] == was[marker + i..]
        invariant buf[marker..marker + i] == ReservedLen(len)[..i]
      {
        ReservedLenAt(len, i);
        ghost var prev := buf;
        buf := buf[marker + i := GroupAt(len, i) + 128];
        assert buf[marker..marker + i + 1] == prev[marker..marker + i] + [buf[marker + i]];
        assert buf[marker + i + 1..] == prev[marker + i..][1..];
      }
      ReservedLenAt(len, 4);
      ghost var prev := buf;
      buf := buf[marker + RESERVED_LEN - 1 := GroupAt(len, RESERVED_LEN - 1)];
      assert buf == was[..marker] + ReservedLen(len)[..4] + [buf[marker + 4]] + was[marker + 4..][1..];
    }
  }

  lemma ReservedLenAt(len: nat, i: nat)
    requires i < 5
    ensures ReservedLen(len)[i] == GroupAt(len, i) + (if i < 4 then 128 else 0)
  {
    assert Pow128(1) == 128 && Pow128(2) == 16384 && Pow128(3) == 2097152 && Pow128(4) == 268435456;
  }

  class ProtoReader {
    const buf: seq<Byte>
    var pos: nat

    ghost predicate Valid()
      reads this
    {
      pos <= |buf|
    }

    ghost function Rest(): seq<Byte>
      reads this
      requires Valid()
    {
      buf[pos..]
    }

    constructor (bytes: seq<Byte>)
      ensures Valid() && buf == bytes && Rest() == bytes
    {
      buf, pos := bytes, 0;
    }

    method ReadVarintAt() returns (r: Option<U64>)
      requires Valid()
      modifies this
      ensures Valid() && old(pos) <= pos
      ensures match ReadVarint(old(Rest()))
              case None => r == None
              case Some(Read(v, n)) => r == Some(v) && Rest() == old(Rest())[n..]
    {
      var value: U64 := 0;
      var shift := 0;
      var goal := ReadVarint(buf[pos..]);
      while pos < |buf|
        invariant Valid() && old(pos) <= pos && shift < 64
        invariant match VarintFrom(Rest(), shift, value)
                  case None => goal == None
                  case Some(Read(v, n)) => goal == Some(Read(v, n + pos - old(pos)))
        decreases |buf| - pos
      {
        var b := buf[pos];
        ghost var before := Rest();
        pos := pos + 1;
        assert Rest() == before[1..];
        value := AddGroup(value, b, shift);
        if b < 128 {
          return Some(value);
        }
        shift := shift + 7;
        if shift >= 64 {
          return None;
        }
      }
      return None;
    }

    method TakeBytes(n: nat) returns (r: Option<seq<Byte>>)
      requires Valid()
      modifies this
      ensures Valid() && old(pos) <= pos
      ensures n <= |old(Rest())| ==> r == Some(old(Rest())[..n]) && Rest() == old(Rest())[n..]
      ensures n > |old(Rest())| ==> r == None
    {
      if pos + n > |buf| {
        return None;
      }
      ghost var before := Rest();
      assert buf[pos..pos + n] == before[..n];
      r := Some(buf[pos..pos + n]);
      pos := pos + n;
      assert Rest() == before[n..];
    }

    method ReadValueAt(wire: nat) returns (r: Option<Wire>)
      requires Valid()
      modifies this
      ensures Valid() && old(pos) <= pos
      ensures match ReadValue(wire, old(Rest()))
              case None => r == None
              case Some(Read(v, n)) => r == Some(v) && Rest() == old(Rest())[n..]
    {
      hide VarintFrom;
      ghost var s := Rest();
      match wire {
        case 0 =>
          var v := ReadVarintAt();
          r := if v.None? then None else Some(Varint(v.value));
        case 1 =>
          var raw := TakeBytes(8);
          r := if raw.None? then None else Some(Fixed64(raw.value));
        case 2 =>
          var len := ReadVarintAt();
          if len.None? {
            return None;
          }
          ghost var k := ReadVarint(s).value.size;
          var raw := TakeBytes(len.value);
          assert raw.Some? ==> s[k..][..len.value] == s[k..k + len.value] && s[k..][len.value..] == s[k + len.value..];
          r := if raw.None? then None else Some(Len(raw.value));
        case 5 =>
          var raw := TakeBytes(4);
          r := if raw.None? then None else Some(Fixed32(raw.value));
        case _ =>
          r := None;
      }
    }

    /** One step of the iterator: the field at the front, or the end of the iteration. */
    method Next() returns (r: Option<Field>)
      requires Valid()
      modifies this
      ensures Valid() && old(pos) <= pos
      ensures match ReadField(old(Rest()))
              case None => r == None
              case Some(Read(f, n)) => r == Some(f) && Rest() == old(Rest())[n..]
    {
      hide VarintFrom, ReadValue;
      var tag := ReadVarintAt();
      if tag.None? {
        return None;
      }
      var value := ReadValueAt(tag.value % 8);
      r := if value.None? then None else Some(Field(tag.value / 8 % TWO_32, value.value));
    }
  }

  lemma FieldsStep(s: seq<Byte>)
    ensures ReadField(s).None? ==> Fields(s) == []
    ensures ReadField(s).Some? ==>
      Fields(s) == [ReadField(s).value.value] + Fields(s[ReadField(s).value.size..])
  {
    hide ReadField;
  }

  lemma OneFieldMore(before: seq<Field>, f: Field, after: seq<Field>)
    ensures before + ([f] + after) == before + [f] + after
  {
  }

  /** Draining the iterator yields `Fields`, whatever the bytes are. */
  method ReadAll(bytes: seq<Byte>) returns (fs: seq<Field>)
    ensures fs == Fields(bytes)
  {
    hide ReadField, Fields;
    var reader := new ProtoReader(bytes);
    fs := [];
    while true
      invariant reader.Valid() && fresh(reader)
      invariant fs + Fields(reader.Rest()) == Fields(bytes)
      decreases |reader.Rest()|
    {
      ghost var before := reader.Rest();
      var f := reader.Next();
      FieldsStep(before);
      if f.None? {
        assert Fields(before) == [];
        return;
      }
      OneFieldMore(fs, f.value, Fields(reader.Rest()));
      fs := fs + [f.value];
    }
  }
}
