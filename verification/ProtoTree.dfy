/** Nested messages: whatever the writer nests, in place or copied, the reader gets back. */
module ProtoTree {
  import opened Bits
  import opened ProtoWire

  /** A list of fields as `EncodeFields` lays it out; only varint and length-delimited values are ever written. */
  predicate Writable(f: Field) {
    match f.value
    case Varint(_) => true
    case Len(bytes) => |bytes| < TWO_64
    case _ => false
  }

  predicate AllWritable(fs: seq<Field>) {
    forall f :: f in fs ==> Writable(f)
  }

  lemma AllWritableAppend(a: seq<Field>, b: seq<Field>)
    requires AllWritable(a) && AllWritable(b)
    ensures AllWritable(a + b)
  {
    hide Writable;
  }

  /** Proto3 defaults stay off the wire. */
  function NonZero(n: U32, v: U64): seq<Field> {
    if v != 0 then [Field(n, Varint(v))] else []
  }

  function EncodeField(f: Field): seq<Byte> {
    match f.value
    case Varint(v) => VarintField(f.number, v)
    case Len(bytes) => LenField(f.number, bytes)
    case _ => []
  }

  function EncodeFields(fs: seq<Field>): seq<Byte> {
    if fs == [] then [] else EncodeField(fs[0]) + EncodeFields(fs[1..])
  }

  lemma FieldReads(f: Field, rest: seq<Byte>)
    requires Writable(f)
    ensures ReadField(EncodeField(f) + rest) == Some(Read(f, |EncodeField(f)|))
  {
    hide ReadField, VarintField, LenField;
    match f.value
    case Varint(v) => VarintFieldReads(f.number, v, rest);
    case Len(bytes) => LenFieldReads(f.number, bytes, rest);
  }

  lemma {:induction false} FieldsOfEncoded(fs: seq<Field>)
    requires AllWritable(fs)
    ensures Fields(EncodeFields(fs)) == fs && WellFormed(EncodeFields(fs))
  {
    hide ReadField, EncodeField;
    if fs == [] {
    } else {
      assert fs[0] in fs;
      assert AllWritable(fs[1..]);
      FieldReads(fs[0], EncodeFields(fs[1..]));
      FieldsOfEncoded(fs[1..]);
    }
  }

  lemma {:induction false} EncodeFieldsAppend(a: seq<Field>, b: seq<Field>)
    ensures EncodeFields(a + b) == EncodeFields(a) + EncodeFields(b)
  {
    hide EncodeField;
    if a == [] {
      assert a + b == b;
    } else {
      assert (a + b)[1..] == a[1..] + b;
      EncodeFieldsAppend(a[1..], b);
    }
  }

  lemma {:induction false} EncodedPayloadFits(fs: seq<Field>, i: nat)
    requires i < |fs| && fs[i].value.Len?
    ensures |fs[i].value.bytes| < |EncodeFields(fs)|
  {
    if i == 0 {
    } else {
      EncodedPayloadFits(fs[1..], i - 1);
    }
  }

  // ---- Message trees ----

  datatype Node =
    | Num(field: U32, v: U64)
    | Str(field: U32, bytes: seq<Byte>)
    | Msg(field: U32, inPlace: bool, kids: seq<Node>)

  function EncodeNode(n: Node): seq<Byte> {
    match n
    case Num(field, v) => VarintField(field, v)
    case Str(field, bytes) => LenField(field, bytes)
    case Msg(field, inPlace, kids) =>
      if inPlace then InPlaceField(field, Encode(kids)) else LenField(field, Encode(kids))
  }

  function Encode(nodes: seq<Node>): seq<Byte> {
    if nodes == [] then [] else EncodeNode(nodes[0]) + Encode(nodes[1..])
  }

  /** The writer's own limits: lengths are 64-bit, and an in-place body fills at most its 35-bit slot. */
  predicate Fits(nodes: seq<Node>) {
    forall n :: n in nodes ==> FitsNode(n)
  }

  predicate FitsNode(n: Node) {
    match n
    case Num(_, _) => true
    case Str(_, bytes) => |bytes| < TWO_64
    case Msg(_, inPlace, kids) =>
      && |Encode(kids)| < (if inPlace then RESERVED_LIMIT else TWO_64)
      && forall k :: k in kids ==> FitsNode(k)
  }

  function Flat(n: Node): Field {
    match n
    case Num(field, v) => Field(field, Varint(v))
    case Str(field, bytes) => Field(field, Len(bytes))
    case Msg(field, _, kids) => Field(field, Len(Encode(kids)))
  }

  function FlatAll(nodes: seq<Node>): (fs: seq<Field>)
    ensures |fs| == |nodes|
    ensures forall i :: 0 <= i < |nodes| ==> fs[i] == Flat(nodes[i])
  {
    seq(|nodes|, i requires 0 <= i < |nodes| => Flat(nodes[i]))
  }

  /** `buf` holds the message `nodes`, however each sub-message was laid out. */
  predicate Holds(buf: seq<Byte>, nodes: seq<Node>)
    decreases nodes
  {
    var fs := Fields(buf);
    && WellFormed(buf)
    && |fs| == |nodes|
    && forall i :: 0 <= i < |nodes| ==> HoldsNode(fs[i], nodes[i])
  }

  predicate HoldsNode(f: Field, n: Node)
    decreases n
  {
    && f.number == n.field
    && match n
       case Num(_, v) => f.value == Varint(v)
       case Str(_, bytes) => f.value == Len(bytes)
       case Msg(_, _, kids) => f.value.Len? && Holds(f.value.bytes, kids)
  }

  /** The tree without the choice of how a body was written. */
  function Erase(n: Node): Node {
    match n
    case Msg(field, _, kids) => Msg(field, false, EraseAll(kids))
    case _ => n
  }

  function EraseAll(nodes: seq<Node>): (r: seq<Node>)
    ensures |r| == |nodes|
    ensures forall i :: 0 <= i < |nodes| ==> r[i] == Erase(nodes[i])
  {
    if nodes == [] then [] else [Erase(nodes[0])] + EraseAll(nodes[1..])
  }

  lemma NodeReads(n: Node, rest: seq<Byte>)
    requires FitsNode(n)
    ensures ReadField(EncodeNode(n) + rest) == Some(Read(Flat(n), |EncodeNode(n)|))
  {
    hide ReadField, VarintField, LenField, Encode;
    match n
    case Num(field, v) => VarintFieldReads(field, v, rest);
    case Str(field, bytes) =>
      LenFieldReads(field, bytes, rest);
    case Msg(field, inPlace, kids) =>
      if inPlace {
        InPlaceFieldReads(field, Encode(kids), rest);
        assert Encode(kids)[..|Encode(kids)|] == Encode(kids);
      } else {
        LenFieldReads(field, Encode(kids), rest);
      }
  }

  lemma {:induction false} FieldsOfTree(nodes: seq<Node>)
    requires Fits(nodes)
    ensures Fields(Encode(nodes)) == FlatAll(nodes) && WellFormed(Encode(nodes))
  {
    hide ReadField, EncodeNode, Flat, FitsNode;
    if nodes == [] {
    } else {
      NodeReads(nodes[0], Encode(nodes[1..]));
      FieldsOfTree(nodes[1..]);
      FieldsStep(Encode(nodes));
    }
  }

  /**
   * Reading undoes writing at every depth, and the reader cannot tell how any body was written:
   * what was encoded as `nodes` reads as every tree that differs from it only in placement.
   */
  lemma {:induction false} TreeReadsBack(nodes: seq<Node>, like: seq<Node>)
    requires Fits(nodes) && EraseAll(nodes) == EraseAll(like)
    ensures Holds(Encode(nodes), like)
    decreases nodes
  {
    hide Fields, WellFormed, Encode;
    FieldsOfTree(nodes);
    forall i | 0 <= i < |nodes|
      ensures HoldsNode(Flat(nodes[i]), like[i])
    {
      assert Erase(nodes[i]) == EraseAll(nodes)[i] == EraseAll(like)[i] == Erase(like[i]);
      assert nodes[i] in nodes && FitsNode(nodes[i]);
      match nodes[i]
      case Msg(_, _, kids) => TreeReadsBack(kids, like[i].kids);
      case _ =>
    }
  }

  /** The nested closures of the writer: every in-place body between its own begin and end. */
  method WriteTree(w: ProtoWriter, nodes: seq<Node>)
    requires Fits(nodes)
    modifies w
    ensures w.buf == old(w.buf) + Encode(nodes)
    decreases nodes
  {
    hide VarintField, LenField, InPlaceField;
    ghost var start := w.buf;
    for i := 0 to |nodes|
      invariant w.buf == start + Encode(nodes[..i])
    {
      assert nodes[i] in nodes && FitsNode(nodes[i]);
      EncodeAppend(nodes[..i], [nodes[i]]);
      assert nodes[..i] + [nodes[i]] == nodes[..i + 1];
      assert Encode([nodes[i]]) == EncodeNode(nodes[i]) + [];
      WriteNode(w, nodes[i]);
    }
    assert nodes[..|nodes|] == nodes;
  }

  method WriteNode(w: ProtoWriter, n: Node)
    requires FitsNode(n)
    modifies w
    ensures w.buf == old(w.buf) + EncodeNode(n)
    decreases n
  {
    hide VarintField, LenField, Encode;
    match n {
      case Num(field, v) => w.WriteUint64(field, v);
      case Str(field, bytes) => w.WriteMessage(field, bytes);
      case Msg(field, inPlace, kids) =>
        if inPlace {
          ghost var start := w.buf;
          var marker := w.BeginMessage(field);
          WriteTree(w, kids);
          ghost var full := w.buf;
          assert full[..marker] == start + Tag(field, 2);
          assert full[marker + RESERVED_LEN..] == Encode(kids);
          w.EndMessage(marker);
          assert w.buf == start + InPlaceField(field, Encode(kids));
        } else {
          var scratch := new ProtoWriter();
          WriteTree(scratch, kids);
          assert scratch.buf == Encode(kids);
          w.WriteMessage(field, scratch.buf);
        }
    }
  }

  lemma {:induction false} EncodeAppend(a: seq<Node>, b: seq<Node>)
    ensures Encode(a + b) == Encode(a) + Encode(b)
  {
    hide EncodeNode;
    if a == [] {
      assert a + b == b;
    } else {
      assert (a + b)[1..] == a[1..] + b;
      EncodeAppend(a[1..], b);
    }
  }

  // ---- Fields one by one ----

  lemma OneMore(done: seq<Field>, f: Field)
    ensures EncodeFields(done + [f]) == EncodeFields(done) + EncodeField(f)
  {
    hide EncodeField;
    EncodeFieldsAppend(done, [f]);
    assert EncodeFields([f]) == EncodeField(f) + [];
  }

  lemma EmptyEncodes()
    ensures EncodeFields([]) == []
  {
  }

  method WriteBody(w: ProtoWriter, ghost done: seq<Field>, n: U32, body: seq<Byte>)
    requires w.buf == EncodeFields(done) && |body| < TWO_64
    modifies w
    ensures w.buf == EncodeFields(done + [Field(n, Len(body))])
  {
    hide EncodeFields, LenField;
    OneMore(done, Field(n, Len(body)));
    w.WriteMessage(n, body);
  }

  method WriteNumber(w: ProtoWriter, ghost done: seq<Field>, n: U32, v: U64)
    requires w.buf == EncodeFields(done)
    modifies w
    ensures w.buf == EncodeFields(done + [Field(n, Varint(v))])
  {
    hide EncodeFields, VarintField;
    OneMore(done, Field(n, Varint(v)));
    w.WriteUint64(n, v);
  }

  // ---- How long fields get ----

  lemma VarintIsShort(v: U64)
    ensures |VarintBytes(v)| <= 10
  {
    assert Pow128(10) == 0x40_0000_0000_0000_0000;
    if |VarintBytes(v)| > 10 {
      Pow128Monotone(10, GroupCount(v) - 1);
    }
  }

  lemma SmallNumber(n: U32, v: U64)
    ensures |EncodeFields([Field(n, Varint(v))])| <= 20
  {
    VarintIsShort(n * 8);
    VarintIsShort(v);
    hide VarintBytes;
    assert EncodeFields([Field(n, Varint(v))]) == EncodeField(Field(n, Varint(v))) + [];
  }

  lemma SmallLen(n: U32, body: seq<Byte>)
    requires |body| < TWO_64
    ensures |EncodeFields([Field(n, Len(body))])| <= 20 + |body|
  {
    VarintIsShort(n * 8 + 2);
    VarintIsShort(|body|);
    hide VarintBytes;
    assert EncodeFields([Field(n, Len(body))]) == EncodeField(Field(n, Len(body))) + [];
  }

  /** The bytes of some fields, as the source's own examples have them. */
  lemma KnownBytes()
    ensures EncodeField(Field(1, Varint(150))) == [0x08, 0x96, 0x01]
    ensures EncodeField(Field(1, Varint(0xffff_ffff))) == [0x08, 0xff, 0xff, 0xff, 0xff, 0x0f]
    ensures EncodeField(Field(2000, Len([0x61]))) == [0x82, 0x7d, 0x01, 0x61]
    ensures EncodeField(Field(22, Len([0x73]))) == [0xb2, 0x01, 0x01, 0x73]
  {
    assert VarintBytes(8) == [8] && VarintBytes(1) == [1];
    hide EncodeField, VarintBytes;
    TwoGroups(150);
    LargestWord();
    TwoGroups(16002);
    TwoGroups(178);
    NumberBytes(1, 150);
    NumberBytes(1, 0xffff_ffff);
    BodyBytes(2000, [0x61]);
    BodyBytes(22, [0x73]);
  }

  lemma NumberBytes(n: U32, v: U64)
    requires n < 0x2000_0000
    ensures EncodeField(Field(n, Varint(v))) == VarintBytes(8 * n) + VarintBytes(v)
  {
    hide VarintBytes;
  }

  lemma BodyBytes(n: U32, body: seq<Byte>)
    requires n < 0x2000_0000
    ensures EncodeField(Field(n, Len(body))) == VarintBytes(8 * n + 2) + VarintBytes(|body|) + body
  {
    hide VarintBytes;
  }
}
