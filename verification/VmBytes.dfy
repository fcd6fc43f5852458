/** The bytes of every kind of instruction, and of the sched producer's program. */
module VmBytes {
  import opened Bits
  import opened ProtoWire
  import opened ProtoTree
  import opened VmProgram

  // ---- Short fields ----

  lemma OneByte(v: nat)
    requires v < 128
    ensures VarintBytes(v) == [v]
  {
  }

  lemma Concatenates(a: seq<Byte>, b: seq<Byte>, c: seq<Byte>)
    ensures a + b + c == a + (b + c)
  {
  }

  lemma FirstField(f: Field, rest: seq<Field>)
    ensures EncodeFields([f] + rest) == EncodeField(f) + EncodeFields(rest)
  {
    hide EncodeField;
    assert ([f] + rest)[1..] == rest;
  }

  lemma FieldBytes(n: U32, v: U64, body: seq<Byte>)
    requires n < 16 && v < 128 && |body| < 128
    ensures EncodeField(Field(n, Varint(v))) == [8 * n, v]
    ensures EncodeField(Field(n, Len(body))) == [8 * n + 2, |body|] + body
  {
    OneByte(8 * n);
    OneByte(v);
    OneByte(8 * n + 2);
    OneByte(|body|);
    hide VarintBytes;
  }

  /** A number field of one byte, and what follows. */
  lemma ShortNumber(n: U32, v: U64, rest: seq<Field>)
    requires n < 16 && v < 128
    ensures EncodeFields([Field(n, Varint(v))] + rest) == [8 * n, v] + EncodeFields(rest)
  {
    hide EncodeFields, EncodeField;
    FirstField(Field(n, Varint(v)), rest);
    FieldBytes(n, v, []);
  }

  /** A body of fewer than 128 bytes, and what follows. */
  lemma ShortBody(n: U32, body: seq<Byte>, rest: seq<Field>)
    requires n < 16 && |body| < 128
    ensures EncodeFields([Field(n, Len(body))] + rest) == [8 * n + 2, |body|] + body + EncodeFields(rest)
  {
    hide EncodeFields, EncodeField;
    FirstField(Field(n, Len(body)), rest);
    FieldBytes(n, 0, body);
  }

  lemma NoFields()
    ensures EncodeFields([]) == []
  {
  }

  lemma NumberAlone(n: U32, v: U64)
    requires n < 16 && v < 128
    ensures EncodeFields([Field(n, Varint(v))]) == [8 * n, v]
  {
    hide EncodeFields;
    ShortNumber(n, v, []);
    NoFields();
    assert [Field(n, Varint(v))] + [] == [Field(n, Varint(v))];
  }

  lemma BodyAlone(n: U32, body: seq<Byte>)
    requires n < 16 && |body| < 128
    ensures EncodeFields([Field(n, Len(body))]) == [8 * n + 2, |body|] + body
  {
    hide EncodeFields;
    ShortBody(n, body, []);
    NoFields();
    assert [Field(n, Len(body))] + [] == [Field(n, Len(body))];
    assert [8 * n + 2, |body|] + body + [] == [8 * n + 2, |body|] + body;
  }

  lemma TwoNumbers(n: U32, v: U64, m: U32, w: U64)
    requires n < 16 && v < 128 && m < 16 && w < 128
    ensures EncodeFields([Field(n, Varint(v)), Field(m, Varint(w))]) == [8 * n, v, 8 * m, w]
  {
    hide EncodeFields;
    assert [Field(n, Varint(v)), Field(m, Varint(w))] == [Field(n, Varint(v))] + [Field(m, Varint(w))];
    ShortNumber(n, v, [Field(m, Varint(w))]);
    NumberAlone(m, w);
  }

  // ---- The instructions, one kind at a time ----

  lemma AloneIs(op: Op, n: U32, body: seq<Byte>)
    requires OpField(op) == Field(n, Len(body)) && n < 16 && |body| < 128
    ensures EncodeFields(InstructionFields(Instruction(op, 0, []))) == [8 * n + 2, |body|] + body
  {
    hide EncodeFields, OpField;
    assert InstructionFields(Instruction(op, 0, [])) == [Field(n, Len(body))];
    BodyAlone(n, body);
  }

  /** The operations that hold no path: load of a register, merge, set and delete. */
  lemma PlainOperations(cursor: U32, dst: U32)
    requires 0 < cursor < 128 && dst < 128
    ensures EncodeFields(InstructionFields(Instruction(RegLoad(cursor, dst), 0, []))) ==
      [0x12, 0x04, 0x08, cursor, 0x10, dst]
    ensures EncodeFields(InstructionFields(Instruction(Merge(true), 0, []))) == [0x1a, 0x02, 0x08, 0x01]
    ensures EncodeFields(InstructionFields(Instruction(Merge(false), 0, []))) == [0x1a, 0x00]
    ensures EncodeFields(InstructionFields(Instruction(SetOp, 0, []))) == [0x22, 0x00]
    ensures EncodeFields(InstructionFields(Instruction(DelOp, 0, []))) == [0x2a, 0x00]
  {
    NoFields();
    hide EncodeFields, InstructionFields;
    TwoNumbers(1, cursor, 2, dst);
    NumberAlone(1, 1);
    assert [Field(1, Varint(cursor))] + [Field(2, Varint(dst))] == [Field(1, Varint(cursor)), Field(2, Varint(dst))];
    AloneIs(RegLoad(cursor, dst), 2, [0x08, cursor, 0x10, dst]);
    AloneIs(Merge(true), 3, [0x08, 0x01]);
    AloneIs(Merge(false), 3, []);
    AloneIs(SetOp, 4, []);
    AloneIs(DelOp, 5, []);
  }

  /** The whole program that deletes, with its version. */
  lemma DeleteProgram(version: U32)
    requires 0 < version < 128
    ensures EncodeProgram(Program(0, [Instruction(DelOp, 0, [])])) == [0x12, 0x02, 0x2a, 0x00]
    ensures EncodeProgram(Program(version, [Instruction(DelOp, 0, [])])) == [0x08, version, 0x12, 0x02, 0x2a, 0x00]
  {
    hide EncodeFields, InstructionFields;
    var delete := Instruction(DelOp, 0, []);
    PlainOperations(1, 0);
    ListOfOne(2, delete, [0x2a, 0x00]);
    BodyAlone(2, [0x2a, 0x00]);
    assert [] + [Field(2, Len([0x2a, 0x00]))] == [Field(2, Len([0x2a, 0x00]))];
    ShortNumber(1, version, [Field(2, Len([0x2a, 0x00]))]);
  }

  /** A step of a path with everything in it. */
  lemma FullPath(field: U32, index: U32, key: U32, matched: U32, store: U32)
    requires field < 128 && index < 128 && key < 128 && matched < 128 && store < 128
    ensures EncodeFields(PathFields(
              PathComponent(Some(field), Some(index), Some(key), true, Some(matched), Some(store))))
         == [0x08, field, 0x10, index, 0x18, key, 0x28, 0x01] + [0x30, matched, 0x38, store]
  {
    hide EncodeFields;
    var a, b, c, d := Field(1, Varint(field)), Field(2, Varint(index)), Field(3, Varint(key)), Field(5, Varint(1));
    var e, f := Field(6, Varint(matched)), Field(7, Varint(store));
    assert PathFields(PathComponent(Some(field), Some(index), Some(key), true, Some(matched), Some(store)))
        == [a] + ([b] + ([c] + ([d] + ([e] + [f]))));
    NumberAlone(7, store);
    ShortNumber(6, matched, [f]);
    ShortNumber(5, 1, [e] + [f]);
    ShortNumber(3, key, [d] + ([e] + [f]));
    ShortNumber(2, index, [c] + ([d] + ([e] + [f])));
    ShortNumber(1, field, [b] + ([c] + ([d] + ([e] + [f]))));
  }

  // ---- The steps and the selects of the sched producer ----


  lemma FieldPath(field: U32)
    requires field < 128
    ensures EncodeFields(PathFields(AtField(field))) == [0x08, field]
  {
    hide EncodeFields;
    assert PathFields(AtField(field)) == [Field(1, Varint(field))];
    NumberAlone(1, field);
  }

  lemma RepeatedPath(field: U32)
    requires field < 128
    ensures EncodeFields(PathFields(AtField(field).(isRepeated := true))) == [0x08, field, 0x28, 0x01]
  {
    hide EncodeFields;
    assert PathFields(AtField(field).(isRepeated := true)) == [Field(1, Varint(field)), Field(5, Varint(1))];
    TwoNumbers(1, field, 5, 1);
  }

  lemma KeyPath(key: U32)
    requires key < 128
    ensures EncodeFields(PathFields(PathComponent(None, None, Some(key), false, Some(0), None)))
         == [0x18, key, 0x30, 0x00]
  {
    hide EncodeFields;
    assert PathFields(PathComponent(None, None, Some(key), false, Some(0), None))
        == [Field(3, Varint(key)), Field(6, Varint(0))];
    TwoNumbers(3, key, 6, 0);
  }

  /** A select of one step from where the cursor is. */
  lemma SelectOne(c: PathComponent, path: seq<Byte>)
    requires EncodeFields(PathFields(c)) == path && |path| < 100
    ensures EncodeFields(SelectFields(Select(0, [c], false))) == [0x12, |path|] + path
  {
    hide EncodeFields, PathFields;
    assert [c][1..] == [];
    var f := Field(2, Len(path));
    assert PathList([c]) == [f] + [];
    assert SelectFields(Select(0, [c], false)) == [] + PathList([c]) + [];
    assert [] + ([f] + []) + [] == [f];
    BodyAlone(2, path);
  }

  lemma SelectFieldBytes(field: U32)
    requires field < 128
    ensures EncodeFields(SelectFields(Select(0, [AtField(field)], false))) == [0x12, 0x02, 0x08, field]
  {
    hide EncodeFields, PathFields, SelectFields;
    FieldPath(field);
    SelectOne(AtField(field), [0x08, field]);
  }

  lemma InstructionIs(op: Op, level: U32, nested: seq<Instruction>)
    ensures InstructionFields(Instruction(op, level, nested)) ==
      [OpField(op)] + (if level == 0 then [] else [Field(6, Varint(level))]) + InstructionList(7, nested)
  {
    hide OpField;
  }

  lemma ListOfOne(n: U32, ins: Instruction, body: seq<Byte>)
    requires EncodeFields(InstructionFields(ins)) == body
    ensures InstructionList(n, [ins]) == [Field(n, Len(body))]
  {
    hide EncodeFields, InstructionFields;
    assert [ins][1..] == [];
    assert [Field(n, Len(body))] + [] == [Field(n, Len(body))];
  }

  lemma SelectIs(s: Select, body: seq<Byte>)
    requires EncodeFields(SelectFields(s)) == body
    ensures OpField(SelectOp(s)) == Field(1, Len(body))
  {
  }

  /** A select with one nested instruction. */
  lemma SelectThen(s: Select, select: seq<Byte>, ins: Instruction, body: seq<Byte>)
    requires EncodeFields(SelectFields(s)) == select && EncodeFields(InstructionFields(ins)) == body
    requires |select| < 128 && |body| < 128
    ensures EncodeFields(InstructionFields(Instruction(SelectOp(s), 0, [ins]))) ==
      [0x0a, |select|] + select + ([0x3a, |body|] + body)
  {
    hide EncodeFields, InstructionFields, InstructionList, SelectFields, OpField;
    InstructionIs(SelectOp(s), 0, [ins]);
    ListOfOne(7, ins, body);
    SelectIs(s, select);
    assert [Field(1, Len(select))] + [] + [Field(7, Len(body))] == [Field(1, Len(select))] + [Field(7, Len(body))];
    ShortBody(1, select, [Field(7, Len(body))]);
    BodyAlone(7, body);
  }

  /** The instruction that reads a key into register 0. */
  lemma ReadKeyBytes(key: U32)
    requires key < 128
    ensures var load := Instruction(RegLoad(0, 0), 0, []);
      EncodeFields(InstructionFields(Instruction(SelectOp(Select(0, [AtField(key)], false)), 0, [load]))) ==
        [0x0a, 0x04, 0x12, 0x02, 0x08, key, 0x3a, 0x04, 0x12, 0x02, 0x10, 0x00]
  {
    hide EncodeFields, SelectFields, InstructionFields;
    var load := Instruction(RegLoad(0, 0), 0, []);
    LoadBytes();
    SelectFieldBytes(key);
    SelectThen(Select(0, [AtField(key)], false), [0x12, 0x02, 0x08, key], load, [0x12, 0x02, 0x10, 0x00]);
  }

  lemma LoadBytes()
    ensures EncodeFields(InstructionFields(Instruction(RegLoad(0, 0), 0, []))) == [0x12, 0x02, 0x10, 0x00]
  {
    hide EncodeFields;
    NumberAlone(2, 0);
    assert NonZero(1, 0) + [Field(2, Varint(0))] == [Field(2, Varint(0))];
    assert InstructionFields(Instruction(RegLoad(0, 0), 0, [])) == [Field(2, Len([0x10, 0x00]))];
    BodyAlone(2, [0x10, 0x00]);
  }

  /** Where the entry of a key is selected or made, in the destination. */
  function EntryPath(coll: U32, key: U32): seq<PathComponent> {
    [AtField(122), AtField(coll), PathComponent(None, None, Some(key), false, Some(0), None)]
  }

  lemma EntryFields(coll: U32, key: U32, c: seq<Byte>, d: seq<Byte>, e: seq<Byte>)
    requires EncodeFields(PathFields(AtField(122))) == c && EncodeFields(PathFields(AtField(coll))) == d
    requires EncodeFields(PathFields(EntryPath(coll, key)[2])) == e
    ensures SelectFields(Select(2, EntryPath(coll, key), true)) ==
      [Field(1, Varint(2))]
      + ([Field(2, Len(c))] + ([Field(2, Len(d))] + ([Field(2, Len(e))] + [Field(3, Varint(1))])))
  {
    hide EncodeFields, PathFields;
    var path := EntryPath(coll, key);
    assert path[1..][1..][1..] == [];
    assert PathList(path[1..][1..]) == [Field(2, Len(e))];
    assert PathList(path[1..]) == [Field(2, Len(d))] + [Field(2, Len(e))];
    assert PathList(path) == [Field(2, Len(c))] + ([Field(2, Len(d))] + [Field(2, Len(e))]);
  }

  lemma SelectEntryBytes(coll: U32, key: U32)
    requires coll < 128 && key < 128
    ensures EncodeFields(SelectFields(Select(2, EntryPath(coll, key), true))) ==
      [0x08, 0x02, 0x12, 0x02, 0x08, 0x7a, 0x12, 0x02, 0x08, coll, 0x12, 0x04, 0x18, key, 0x30, 0x00, 0x18, 0x01]
  {
    hide EncodeFields, PathFields, SelectFields;
    FieldPath(122);
    FieldPath(coll);
    KeyPath(key);
    var c, d, e := [0x08, 122], [0x08, coll], [0x18, key, 0x30, 0x00];
    EntryFields(coll, key, c, d, e);
    var made := Field(3, Varint(1));
    NumberAlone(3, 1);
    ShortBody(2, e, [made]);
    ShortBody(2, d, [Field(2, Len(e))] + [made]);
    ShortBody(2, c, [Field(2, Len(d))] + ([Field(2, Len(e))] + [made]));
    ShortNumber(1, 2, [Field(2, Len(c))] + ([Field(2, Len(d))] + ([Field(2, Len(e))] + [made])));
  }

  lemma MergeEntryBytes(coll: U32, key: U32)
    requires coll < 128 && key < 128
    ensures var merge := Instruction(Merge(false), 0, []);
      EncodeFields(InstructionFields(Instruction(SelectOp(Select(2, EntryPath(coll, key), true)), 0, [merge]))) ==
        [0x0a, 0x12, 0x08, 0x02, 0x12, 0x02, 0x08, 0x7a, 0x12, 0x02, 0x08, coll, 0x12, 0x04, 0x18, key, 0x30, 0x00,
         0x18, 0x01, 0x3a, 0x02, 0x1a, 0x00]
  {
    hide EncodeFields, SelectFields, InstructionFields;
    var merge := Instruction(Merge(false), 0, []);
    PlainOperations(1, 0);
    SelectEntryBytes(coll, key);
    SelectThen(Select(2, EntryPath(coll, key), true), EncodeFields(SelectFields(Select(2, EntryPath(coll, key), true))),
               merge, [0x1a, 0x00]);
  }

  function BlockHex(coll: U32, key: U32): seq<Byte>
    requires coll < 128 && key < 128
  {
    [0x0a, 0x06, 0x12, 0x04, 0x08, coll, 0x28, 0x01, 0x30, 0x01, 0x3a, 0x0c, 0x0a, 0x04, 0x12, 0x02, 0x08, key, 0x3a,
     0x04, 0x12, 0x02, 0x10, 0x00, 0x3a, 0x18]
    + [0x0a, 0x12, 0x08, 0x02, 0x12, 0x02, 0x08, 0x7a, 0x12, 0x02, 0x08, coll, 0x12, 0x04, 0x18, key, 0x30, 0x00,
       0x18, 0x01, 0x3a, 0x02, 0x1a, 0x00]
  }

  function ReadKey(key: U32): Instruction {
    Instruction(SelectOp(Select(0, [AtField(key)], false)), 0, [Instruction(RegLoad(0, 0), 0, [])])
  }

  function MergeEntry(coll: U32, key: U32): Instruction {
    Instruction(SelectOp(Select(2, EntryPath(coll, key), true)), 0, [Instruction(Merge(false), 0, [])])
  }

  lemma BlockIs(coll: U32, key: U32)
    ensures MakeBlock(coll, key) ==
      Instruction(SelectOp(Select(0, [AtField(coll).(isRepeated := true)], false)), 1,
                  [ReadKey(key), MergeEntry(coll, key)])
  {
  }

  lemma BlockHexParts(coll: U32, key: U32, select: seq<Byte>, read: seq<Byte>, merge: seq<Byte>)
    requires coll < 128 && key < 128
    requires select == [0x12, 0x04, 0x08, coll, 0x28, 0x01]
    requires read == [0x0a, 0x04, 0x12, 0x02, 0x08, key, 0x3a, 0x04, 0x12, 0x02, 0x10, 0x00]
    requires merge == [0x0a, 0x12, 0x08, 0x02, 0x12, 0x02, 0x08, 0x7a, 0x12, 0x02, 0x08, coll, 0x12, 0x04, 0x18, key,
                       0x30, 0x00, 0x18, 0x01, 0x3a, 0x02, 0x1a, 0x00]
    ensures [0x0a, |select|] + select + [0x30, 0x01] + [0x3a, |read|] + read + [0x3a, |merge|] + merge
         == BlockHex(coll, key)
  {
  }

  lemma EachBytes(coll: U32)
    requires coll < 128
    ensures EncodeFields(SelectFields(Select(0, [AtField(coll).(isRepeated := true)], false))) ==
      [0x12, 0x04, 0x08, coll, 0x28, 0x01]
  {
    hide EncodeFields, SelectFields, PathFields;
    RepeatedPath(coll);
    SelectOne(AtField(coll).(isRepeated := true), [0x08, coll, 0x28, 0x01]);
  }

  lemma BlockBytes(coll: U32, key: U32)
    requires coll < 128 && key < 128
    ensures EncodeFields(InstructionFields(MakeBlock(coll, key))) == BlockHex(coll, key)
  {
    hide EncodeFields, SelectFields, PathFields, InstructionFields, InstructionList, OpField, MakeBlock, BlockHex;
    var each := Select(0, [AtField(coll).(isRepeated := true)], false);
    var parts := [ReadKey(key), MergeEntry(coll, key)];
    var select := EncodeFields(SelectFields(each));
    var read, merge := EncodeFields(InstructionFields(parts[0])), EncodeFields(InstructionFields(parts[1]));
    ReadKeyBytes(key);
    MergeEntryBytes(coll, key);
    EachBytes(coll);
    BlockIs(coll, key);
    SelectIs(each, select);
    InstructionIs(SelectOp(each), 1, parts);
    ListOfTwo(parts);
    BlockParts(select, read, merge);
    BlockHexParts(coll, key, select, read, merge);
  }

  /** A select, an abort level, and two nested instructions. */
  lemma BlockParts(select: seq<Byte>, read: seq<Byte>, merge: seq<Byte>)
    requires |select| < 128 && |read| < 128 && |merge| < 128
    ensures EncodeFields([Field(1, Len(select))] + [Field(6, Varint(1))] +
                         ([Field(7, Len(read))] + [Field(7, Len(merge))]))
         == [0x0a, |select|] + select + [0x30, 0x01] + [0x3a, |read|] + read + [0x3a, |merge|] + merge
  {
    hide EncodeFields;
    var a, b, c, d := [Field(1, Len(select))], [Field(6, Varint(1))], [Field(7, Len(read))], [Field(7, Len(merge))];
    assert a + b + (c + d) == a + (b + (c + d));
    ShortBody(1, select, b + (c + d));
    ShortNumber(6, 1, c + d);
    ShortBody(7, read, d);
    BodyAlone(7, merge);
    var x, y, z := [0x0a, |select|] + select, [0x3a, |read|] + read, [0x3a, |merge|] + merge;
    assert x + ([0x30, 0x01] + (y + z)) == x + [0x30, 0x01] + [0x3a, |read|] + read + [0x3a, |merge|] + merge;
  }

  lemma ListOfTwo(list: seq<Instruction>)
    requires |list| == 2
    ensures InstructionList(7, list) ==
      [Field(7, Len(EncodeFields(InstructionFields(list[0]))))] +
          [Field(7, Len(EncodeFields(InstructionFields(list[1]))))]
  {
    hide EncodeFields, InstructionFields;
    assert list[1..][1..] == [];
    assert InstructionList(7, list[1..]) == [Field(7, Len(EncodeFields(InstructionFields(list[1]))))];
  }

  /** The program of the sched producer, byte for byte. */
  lemma MacosSchedProgramBytes()
    ensures EncodeProgram(MacosSchedProgram()) ==
      [0x12, 0x6e, 0x0a, 0x04, 0x12, 0x02, 0x08, 0x7a]
      + [0x3a, 0x32] + BlockHex(1, 1) + [0x3a, 0x32] + BlockHex(2, 1)
  {
    hide EncodeFields, SelectFields, MakeBlock, InstructionFields, InstructionList, OpField, BlockHex;
    var blocks := [MakeBlock(1, 1), MakeBlock(2, 1)];
    var top := Instruction(SelectOp(Select(0, [AtField(122)], false)), 0, blocks);
    var select, one, two := [0x12, 0x02, 0x08, 0x7a], BlockHex(1, 1), BlockHex(2, 1);
    BlockLength(1, 1);
    BlockLength(2, 1);
    SelectFieldBytes(122);
    BlockBytes(1, 1);
    BlockBytes(2, 1);
    ListOfTwo(blocks);
    SelectIs(Select(0, [AtField(122)], false), select);
    InstructionIs(SelectOp(Select(0, [AtField(122)], false)), 0, blocks);
    TopParts(select, one, two);
    var body := EncodeFields(InstructionFields(top));
    ListOfOne(2, top, body);
    assert MacosSchedProgram() == Program(0, [top]);
    assert NonZero(1, 0) + [Field(2, Len(body))] == [Field(2, Len(body))];
    BodyAlone(2, body);
    assert [0x12, 0x6e] + ([0x0a, 0x04] + select + [0x3a, 0x32] + one + [0x3a, 0x32] + two) ==
      [0x12, 0x6e, 0x0a, 0x04, 0x12, 0x02, 0x08, 0x7a] + [0x3a, 0x32] + one + [0x3a, 0x32] + two;
  }

  lemma BlockLength(coll: U32, key: U32)
    requires coll < 128 && key < 128
    ensures |BlockHex(coll, key)| == 50
  {
  }

  lemma TopParts(select: seq<Byte>, one: seq<Byte>, two: seq<Byte>)
    requires |select| == 4 && |one| == 50 && |two| == 50
    ensures EncodeFields([Field(1, Len(select))] + [] + ([Field(7, Len(one))] + [Field(7, Len(two))]))
         == [0x0a, 0x04] + select + [0x3a, 0x32] + one + [0x3a, 0x32] + two
  {
    hide EncodeFields;
    var a, c, d := [Field(1, Len(select))], [Field(7, Len(one))], [Field(7, Len(two))];
    assert a + [] + (c + d) == a + (c + d);
    ShortBody(1, select, c + d);
    ShortBody(7, one, d);
    BodyAlone(7, two);
    var x, y, z := [0x0a, 0x04] + select, [0x3a, 0x32] + one, [0x3a, 0x32] + two;
    assert x + (y + z) == x + [0x3a, 0x32] + one + [0x3a, 0x32] + two;
  }
}
