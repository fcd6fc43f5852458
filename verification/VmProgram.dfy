/** ProtoVM programs: a recursive instruction tree, its encoder, and the reader that gets the tree back. */
module VmProgram {
  import opened Bits
  import opened ProtoWire
  import opened ProtoTree

  datatype PathComponent = PathComponent(
    fieldId: Option<U32>,
    arrayIndex: Option<U32>,
    mapKeyFieldId: Option<U32>,
    isRepeated: bool,
    registerToMatch: Option<U32>,
    storeForeachIndexIntoRegister: Option<U32>)

  datatype Select = Select(cursor: U32, relativePath: seq<PathComponent>, createIfNotExist: bool)

  datatype Op =
    | SelectOp(select: Select)
    | RegLoad(cursor: U32, dstRegister: U32)
    | Merge(skipSubmessages: bool)
    | SetOp
    | DelOp

  datatype Instruction = Instruction(op: Op, abortLevel: U32, nested: seq<Instruction>)

  datatype Program = Program(version: U32, instructions: seq<Instruction>)

  // ---- What the encoders write ----

  function Optional(n: U32, o: Option<U32>): seq<Field> {
    if o.Some? then [Field(n, Varint(o.value))] else []
  }

  function Flag(n: U32, b: bool): seq<Field> {
    if b then [Field(n, Varint(1))] else []
  }

  function PathFields(c: PathComponent): seq<Field> {
    Optional(1, c.fieldId) + Optional(2, c.arrayIndex) + Optional(3, c.mapKeyFieldId) + Flag(5, c.isRepeated)
    + Optional(6, c.registerToMatch) + Optional(7, c.storeForeachIndexIntoRegister)
  }

  function PathList(path: seq<PathComponent>): seq<Field> {
    if path == [] then [] else [Field(2, Len(EncodeFields(PathFields(path[0]))))] + PathList(path[1..])
  }

  function SelectFields(s: Select): seq<Field> {
    NonZero(1, s.cursor) + PathList(s.relativePath) + Flag(3, s.createIfNotExist)
  }

  function OpField(op: Op): Field {
    match op
    case SelectOp(s) => Field(1, Len(EncodeFields(SelectFields(s))))
    case RegLoad(cursor, dst) => Field(2, Len(EncodeFields(NonZero(1, cursor) + [Field(2, Varint(dst))])))
    case Merge(skip) => Field(3, Len(EncodeFields(Flag(1, skip))))
    case SetOp => Field(4, Len([]))
    case DelOp => Field(5, Len([]))
  }

  function InstructionFields(ins: Instruction): seq<Field>
    decreases ins
  {
    [OpField(ins.op)] + NonZero(6, ins.abortLevel) + InstructionList(7, ins.nested)
  }

  function InstructionList(n: U32, list: seq<Instruction>): seq<Field>
    decreases list
  {
    if list == [] then [] else [Field(n, Len(EncodeFields(InstructionFields(list[0]))))] + InstructionList(n, list[1..])
  }

  function EncodeProgram(p: Program): seq<Byte> {
    EncodeFields(NonZero(1, p.version) + InstructionList(2, p.instructions))
  }

  // ---- The reader: field lookup over what `ProtoReader` yields ----

  /** The values of every field numbered `n`, in order. */
  function Only(fs: seq<Field>, n: U32): seq<Wire> {
    if fs == [] then []
    else (if fs[0].number == n then [fs[0].value] else []) + Only(fs[1..], n)
  }

  function LastNum(ws: seq<Wire>): Option<U32> {
    if ws == [] || !ws[|ws| - 1].Varint? then None else Some(ws[|ws| - 1].v % TWO_32)
  }

  function NumOrZero(ws: seq<Wire>): U32 {
    if LastNum(ws).Some? then LastNum(ws).value else 0
  }

  predicate AllLen(ws: seq<Wire>) {
    forall w :: w in ws ==> w.Len?
  }

  predicate Below(ws: seq<Wire>, limit: nat) {
    forall w :: w in ws && w.Len? ==> |w.bytes| < limit
  }

  lemma BelowTail(ws: seq<Wire>, limit: nat)
    requires Below(ws, limit) && ws != []
    ensures Below(ws[1..], limit)
    ensures ws[0].Len? ==> |ws[0].bytes| < limit
  {
    assert ws[0] in ws;
    assert forall w :: w in ws[1..] ==> w in ws;
  }

  function DecodePath(bytes: seq<Byte>): PathComponent {
    var fs := Fields(bytes);
    PathComponent(LastNum(Only(fs, 1)), LastNum(Only(fs, 2)), LastNum(Only(fs, 3)), NumOrZero(Only(fs, 5)) != 0,
                  LastNum(Only(fs, 6)), LastNum(Only(fs, 7)))
  }

  function DecodePaths(ws: seq<Wire>): seq<PathComponent>
    requires AllLen(ws)
  {
    if ws == [] then [] else [DecodePath(ws[0].bytes)] + DecodePaths(ws[1..])
  }

  function DecodeSelect(bytes: seq<Byte>): Option<Select> {
    var fs := Fields(bytes);
    if AllLen(Only(fs, 2)) then
      Some(Select(NumOrZero(Only(fs, 1)), DecodePaths(Only(fs, 2)), NumOrZero(Only(fs, 3)) != 0))
    else None
  }

  function DecodeOp(f: Field): Option<Op> {
    if !f.value.Len? then None
    else
      var fs := Fields(f.value.bytes);
      match f.number
      case 1 => (match DecodeSelect(f.value.bytes) case None => None case Some(s) => Some(SelectOp(s)))
      case 2 => Some(RegLoad(NumOrZero(Only(fs, 1)), NumOrZero(Only(fs, 2))))
      case 3 => Some(Merge(NumOrZero(Only(fs, 1)) != 0))
      case 4 => Some(SetOp)
      case 5 => Some(DelOp)
      case _ => None
  }

  /** The oneof member among the fields. */
  function FindOp(fs: seq<Field>): Option<Op> {
    if fs == [] then None
    else if 1 <= fs[0].number <= 5 then DecodeOp(fs[0])
    else FindOp(fs[1..])
  }

  function DecodeInstruction(bytes: seq<Byte>): Option<Instruction>
    decreases |bytes|, |bytes| + 1
  {
    var fs := Fields(bytes);
    OnlyIsShort(bytes, 7);
    match FindOp(fs)
    case None => None
    case Some(op) =>
      match DecodeInstructions(Only(fs, 7), |bytes|)
      case None => None
      case Some(nested) => Some(Instruction(op, NumOrZero(Only(fs, 6)), nested))
  }

  function DecodeInstructions(ws: seq<Wire>, limit: nat): Option<seq<Instruction>>
    requires Below(ws, limit)
    decreases limit, |ws|
  {
    if ws == [] then Some([])
    else if !ws[0].Len? then None
    else
      BelowTail(ws, limit);
      match DecodeInstruction(ws[0].bytes)
      case None => None
      case Some(ins) =>
        match DecodeInstructions(ws[1..], limit)
        case None => None
        case Some(rest) => Some([ins] + rest)
  }

  function DecodeProgram(bytes: seq<Byte>): Option<Program> {
    var fs := Fields(bytes);
    OnlyIsShort(bytes, 2);
    match DecodeInstructions(Only(fs, 2), |bytes|)
    case None => None
    case Some(list) => Some(Program(NumOrZero(Only(fs, 1)), list))
  }

  lemma {:induction false} OnlyFrom(fs: seq<Field>, n: U32)
    ensures |Only(fs, n)| <= |fs|
    ensures forall w :: w in Only(fs, n) ==> exists i :: 0 <= i < |fs| && fs[i].value == w
  {
    if fs == [] {
    } else {
      OnlyFrom(fs[1..], n);
      forall w | w in Only(fs, n)
        ensures exists i :: 0 <= i < |fs| && fs[i].value == w
      {
        if w in Only(fs[1..], n) {
          var i :| 0 <= i < |fs[1..]| && fs[1..][i].value == w;
          assert fs[i + 1].value == w;
        } else {
          assert fs[0].value == w;
        }
      }
    }
  }

  lemma OnlyIsShort(bytes: seq<Byte>, n: U32)
    ensures |Only(Fields(bytes), n)| <= |bytes|
    ensures Below(Only(Fields(bytes), n), |bytes|)
  {
    hide Only;
    var fs := Fields(bytes);
    OnlyFrom(fs, n);
    forall w | w in Only(fs, n) && w.Len?
      ensures |w.bytes| < |bytes|
    {
      var i :| 0 <= i < |fs| && fs[i].value == w;
      PayloadsAreShorter(bytes, i);
    }
  }

  // ---- The round trip ----

  lemma {:induction false} OnlyAppend(a: seq<Field>, b: seq<Field>, n: U32)
    ensures Only(a + b, n) == Only(a, n) + Only(b, n)
  {
    if a == [] {
      assert a + b == b;
    } else {
      assert (a + b)[1..] == a[1..] + b;
      OnlyAppend(a[1..], b, n);
      var first := if a[0].number == n then [a[0].value] else [];
      assert first + (Only(a[1..], n) + Only(b, n)) == first + Only(a[1..], n) + Only(b, n);
    }
  }

  /** What a reader looking for field `n` sees of an optional number written as field `k`. */
  function Seen(k: U32, o: Option<U32>, n: U32): seq<Wire> {
    if k == n && o.Some? then [Varint(o.value)] else []
  }

  function FlagValue(b: bool): Option<U32> {
    if b then Some(1) else None
  }

  function NonZeroValue(v: U32): Option<U32> {
    if v != 0 then Some(v) else None
  }

  lemma OnlyOptional(k: U32, o: Option<U32>, n: U32)
    ensures Only(Optional(k, o), n) == Seen(k, o, n)
  {
  }

  lemma NumSeen(n: U32, v: U32)
    ensures NumOrZero(Seen(n, NonZeroValue(v), n)) == v
    ensures NumOrZero(Seen(n, Some(v), n)) == v
  {
  }

  lemma FlagSeen(n: U32, b: bool)
    ensures NumOrZero(Seen(n, FlagValue(b), n)) != 0 <==> b
  {
  }

  lemma OnlyPath(c: PathComponent, n: U32)
    ensures Only(PathFields(c), n)
         == Seen(1, c.fieldId, n) + Seen(2, c.arrayIndex, n) + Seen(3, c.mapKeyFieldId, n)
            + Seen(5, FlagValue(c.isRepeated), n) + Seen(6, c.registerToMatch, n)
            + Seen(7, c.storeForeachIndexIntoRegister, n)
  {
    var a, b, d, e, f, g := Optional(1, c.fieldId), Optional(2, c.arrayIndex), Optional(3, c.mapKeyFieldId),
      Flag(5, c.isRepeated), Optional(6, c.registerToMatch), Optional(7, c.storeForeachIndexIntoRegister);
    assert e == Optional(5, FlagValue(c.isRepeated));
    hide Only, Optional, Seen, Flag, FlagValue;
    OnlyAppend(a + b + d + e + f, g, n);
    OnlyAppend(a + b + d + e, f, n);
    OnlyAppend(a + b + d, e, n);
    OnlyAppend(a + b, d, n);
    OnlyAppend(a, b, n);
    OnlyOptional(1, c.fieldId, n);
    OnlyOptional(2, c.arrayIndex, n);
    OnlyOptional(3, c.mapKeyFieldId, n);
    OnlyOptional(5, FlagValue(c.isRepeated), n);
    OnlyOptional(6, c.registerToMatch, n);
    OnlyOptional(7, c.storeForeachIndexIntoRegister, n);
  }

  lemma PathFieldsWritable(c: PathComponent)
    ensures AllWritable(PathFields(c))
  {
  }

  /** The number that field `n` of a path component carries, if any. */
  function PathNum(c: PathComponent, n: U32): Option<U32> {
    match n
    case 1 => c.fieldId
    case 2 => c.arrayIndex
    case 3 => c.mapKeyFieldId
    case 5 => FlagValue(c.isRepeated)
    case 6 => c.registerToMatch
    case 7 => c.storeForeachIndexIntoRegister
    case _ => None
  }

  lemma PathNumRead(c: PathComponent, n: U32)
    ensures LastNum(Only(PathFields(c), n)) == PathNum(c, n)
  {
    hide PathFields, Only;
    OnlyPath(c, n);
  }

  lemma PathReadsBack(c: PathComponent)
    ensures DecodePath(EncodeFields(PathFields(c))) == c
  {
    PathFieldsWritable(c);
    FieldsOfEncoded(PathFields(c));
    hide PathFields, EncodeFields, Fields, Only, LastNum;
    PathNumRead(c, 1);
    PathNumRead(c, 2);
    PathNumRead(c, 3);
    PathNumRead(c, 5);
    PathNumRead(c, 6);
    PathNumRead(c, 7);
  }

  lemma {:induction false} PathListReadsBack(path: seq<PathComponent>, n: U32)
    ensures Only(PathList(path), n) == if n == 2 then Only(PathList(path), 2) else []
    ensures AllLen(Only(PathList(path), 2))
    ensures DecodePaths(Only(PathList(path), 2)) == path
  {
    hide PathFields, EncodeFields, DecodePath;
    if path == [] {
    } else {
      PathListReadsBack(path[1..], n);
      PathReadsBack(path[0]);
    }
  }

  lemma {:induction false} PathListWritable(path: seq<PathComponent>)
    requires |EncodeFields(PathList(path))| < TWO_64
    ensures AllWritable(PathList(path))
  {
    forall f | f in PathList(path)
      ensures Writable(f)
    {
      var i :| 0 <= i < |PathList(path)| && PathList(path)[i] == f;
      PathListLens(path, i);
      EncodedPayloadFits(PathList(path), i);
    }
  }

  lemma {:induction false} PathListLens(path: seq<PathComponent>, i: nat)
    requires i < |PathList(path)|
    ensures PathList(path)[i].value.Len?
  {
    hide PathFields, EncodeFields;
    if i == 0 {
    } else {
      PathListLens(path[1..], i - 1);
    }
  }

  lemma OnlyThree(a: seq<Field>, b: seq<Field>, c: seq<Field>, n: U32)
    ensures Only(a + b + c, n) == Only(a, n) + Only(b, n) + Only(c, n)
  {
    hide Only;
    OnlyAppend(a + b, c, n);
    OnlyAppend(a, b, n);
  }

  lemma EncodedPartsFit(a: seq<Field>, b: seq<Field>, c: seq<Field>)
    ensures |EncodeFields(b)| <= |EncodeFields(a + b + c)|
    ensures |EncodeFields(c)| <= |EncodeFields(a + b + c)|
  {
    EncodeFieldsAppend(a + b, c);
    EncodeFieldsAppend(a, b);
  }

  lemma SelectReadsBack(s: Select)
    requires |EncodeFields(SelectFields(s))| < TWO_64
    ensures DecodeSelect(EncodeFields(SelectFields(s))) == Some(s)
  {
    var a, b, c := NonZero(1, s.cursor), PathList(s.relativePath), Flag(3, s.createIfNotExist);
    assert a == Optional(1, NonZeroValue(s.cursor)) && c == Optional(3, FlagValue(s.createIfNotExist));
    assert AllWritable(a) && AllWritable(c);
    assert SelectFields(s) == a + b + c;
    hide *;
    EncodedPartsFit(a, b, c);
    PathListWritable(s.relativePath);
    AllWritableAppend(a, b);
    AllWritableAppend(a + b, c);
    FieldsOfEncoded(a + b + c);
    SelectSeen(s, a, b, c, 1);
    SelectSeen(s, a, b, c, 2);
    SelectSeen(s, a, b, c, 3);
    PathListReadsBack(s.relativePath, 2);
    NumSeen(1, s.cursor);
    FlagSeen(3, s.createIfNotExist);
    DecodeSelectFrom(EncodeFields(SelectFields(s)), a + b + c);
  }

  lemma DecodeSelectFrom(bytes: seq<Byte>, fs: seq<Field>)
    requires Fields(bytes) == fs && AllLen(Only(fs, 2))
    ensures DecodeSelect(bytes)
      == Some(Select(NumOrZero(Only(fs, 1)), DecodePaths(Only(fs, 2)), NumOrZero(Only(fs, 3)) != 0))
  {
    hide Fields, Only, AllLen, DecodePaths, NumOrZero;
  }

  lemma SelectSeen(s: Select, a: seq<Field>, b: seq<Field>, c: seq<Field>, n: U32)
    requires a == Optional(1, NonZeroValue(s.cursor)) && b == PathList(s.relativePath)
    requires c == Optional(3, FlagValue(s.createIfNotExist)) && 1 <= n <= 3
    ensures Only(a + b + c, n) ==
      if n == 1 then Seen(1, NonZeroValue(s.cursor), 1)
      else if n == 2 then Only(PathList(s.relativePath), 2)
      else Seen(3, FlagValue(s.createIfNotExist), 3)
  {
    hide Only, PathList, Optional, NonZeroValue, FlagValue;
    OnlyThree(a, b, c, n);
    OnlyOptional(1, NonZeroValue(s.cursor), n);
    OnlyOptional(3, FlagValue(s.createIfNotExist), n);
    PathListReadsBack(s.relativePath, n);
  }

  lemma RegLoadSeen(cursor: U32, dst: U32)
    ensures var fs := NonZero(1, cursor) + [Field(2, Varint(dst))];
      Only(fs, 1) == Seen(1, NonZeroValue(cursor), 1) && Only(fs, 2) == Seen(2, Some(dst), 2)
  {
    var a, b := NonZero(1, cursor), [Field(2, Varint(dst))];
    assert b == Optional(2, Some(dst)) && a == Optional(1, NonZeroValue(cursor));
    hide Only, Optional, NonZeroValue;
    OnlyAppend(a, b, 1);
    OnlyAppend(a, b, 2);
    OnlyOptional(1, NonZeroValue(cursor), 1);
    OnlyOptional(1, NonZeroValue(cursor), 2);
    OnlyOptional(2, Some(dst), 1);
    OnlyOptional(2, Some(dst), 2);
  }

  lemma RegLoadReadsBack(cursor: U32, dst: U32)
    ensures DecodeOp(OpField(RegLoad(cursor, dst))) == Some(RegLoad(cursor, dst))
  {
    var fs := NonZero(1, cursor) + [Field(2, Varint(dst))];
    assert AllWritable(fs);
    FieldsOfEncoded(fs);
    RegLoadSeen(cursor, dst);
    hide EncodeFields, Fields, Only, Seen, NumOrZero, NonZero, NonZeroValue, AllWritable;
    NumSeen(1, cursor);
    NumSeen(2, dst);
  }

  lemma OpReadsBack(op: Op)
    requires |EncodeField(OpField(op))| < TWO_64
    ensures DecodeOp(OpField(op)) == Some(op)
  {
    hide Fields, Only;
    match op
    case SelectOp(s) =>
      hide EncodeFields;
      SelectReadsBack(s);
    case RegLoad(cursor, dst) => RegLoadReadsBack(cursor, dst);
    case Merge(skip) =>
      FieldsOfEncoded(Flag(1, skip));
      OnlyOptional(1, FlagValue(skip), 1);
    case _ =>
  }

  lemma {:induction false} InstructionListLens(n: U32, list: seq<Instruction>, i: nat)
    requires i < |InstructionList(n, list)|
    ensures InstructionList(n, list)[i].value.Len?
  {
    hide InstructionFields, EncodeFields;
    if i == 0 {
    } else {
      InstructionListLens(n, list[1..], i - 1);
    }
  }

  lemma {:induction false} InstructionListSeen(n: U32, list: seq<Instruction>, k: U32)
    requires k != n
    ensures Only(InstructionList(n, list), k) == []
  {
    hide InstructionFields, EncodeFields;
    if list == [] {
    } else {
      InstructionListSeen(n, list[1..], k);
    }
  }

  lemma InstructionListWritable(n: U32, list: seq<Instruction>)
    requires |EncodeFields(InstructionList(n, list))| < TWO_64
    ensures AllWritable(InstructionList(n, list))
  {
    hide InstructionFields, InstructionList;
    var fs := InstructionList(n, list);
    forall f | f in fs
      ensures Writable(f)
    {
      var i :| 0 <= i < |fs| && fs[i] == f;
      InstructionListLens(n, list, i);
      EncodedPayloadFits(fs, i);
    }
  }

  lemma DecodeStep(ws: seq<Wire>, limit: nat, ins: Instruction, rest: seq<Instruction>)
    requires Below(ws, limit)
    requires ws != [] && ws[0].Len? && DecodeInstruction(ws[0].bytes) == Some(ins)
    requires Below(ws[1..], limit)
    requires DecodeInstructions(ws[1..], limit) == Some(rest)
    ensures DecodeInstructions(ws, limit) == Some([ins] + rest)
  {
    hide DecodeInstruction;
  }

  lemma OnlyOfList(n: U32, list: seq<Instruction>)
    requires list != []
    ensures var ws := Only(InstructionList(n, list), n);
      && ws != [] && ws[0] == Len(EncodeFields(InstructionFields(list[0])))
      && ws[1..] == Only(InstructionList(n, list[1..]), n)
  {
    hide InstructionFields, EncodeFields;
    var fs := InstructionList(n, list);
    assert fs[1..] == InstructionList(n, list[1..]);
  }

  lemma ListPartsFit(n: U32, list: seq<Instruction>)
    requires list != []
    ensures |EncodeFields(InstructionFields(list[0]))| < |EncodeFields(InstructionList(n, list))|
    ensures |EncodeFields(InstructionList(n, list[1..]))| <= |EncodeFields(InstructionList(n, list))|
  {
    var fs := InstructionList(n, list);
    hide InstructionFields, EncodeFields;
    EncodedPayloadFits(fs, 0);
    EncodedPartsFit([], [fs[0]], fs[1..]);
    assert [] + [fs[0]] + fs[1..] == fs;
  }

  lemma {:induction false} InstructionListReadsBack(n: U32, list: seq<Instruction>, limit: nat)
    requires |EncodeFields(InstructionList(n, list))| < TWO_64
    requires Below(Only(InstructionList(n, list), n), limit)
    ensures DecodeInstructions(Only(InstructionList(n, list), n), limit) == Some(list)
    decreases list, 0
  {
    assert list == [] ==> DecodeInstructions(Only(InstructionList(n, list), n), limit) == Some(list);
    hide *;
    if list == [] {
    } else {
      var ws := Only(InstructionList(n, list), n);
      OnlyOfList(n, list);
      ListPartsFit(n, list);
      BelowTail(ws, limit);
      InstructionReadsBack(list[0]);
      InstructionListReadsBack(n, list[1..], limit);
      DecodeStep(ws, limit, list[0], list[1..]);
      assert [list[0]] + list[1..] == list;
    }
  }

  lemma InstructionSeen(ins: Instruction, k: U32)
    requires k == 6 || k == 7
    ensures Only(InstructionFields(ins), k) ==
      if k == 6 then Seen(6, NonZeroValue(ins.abortLevel), 6) else Only(InstructionList(7, ins.nested), 7)
  {
    var a, b, c := [OpField(ins.op)], NonZero(6, ins.abortLevel), InstructionList(7, ins.nested);
    assert Only(a, k) == [];
    assert b == Optional(6, NonZeroValue(ins.abortLevel));
    hide Only, OpField, NonZero, InstructionList, NonZeroValue, Optional;
    OnlyThree(a, b, c, k);
    OnlyOptional(6, NonZeroValue(ins.abortLevel), k);
    if k == 6 {
      InstructionListSeen(7, ins.nested, 6);
    }
  }

  lemma InstructionFieldsWritable(ins: Instruction)
    requires |EncodeFields(InstructionFields(ins))| < TWO_64
    ensures AllWritable(InstructionFields(ins))
    ensures |EncodeField(OpField(ins.op))| < TWO_64
    ensures |EncodeFields(InstructionList(7, ins.nested))| < TWO_64
  {
    var a, b, c := [OpField(ins.op)], NonZero(6, ins.abortLevel), InstructionList(7, ins.nested);
    assert AllWritable(b);
    assert OpField(ins.op).value.Len?;
    assert EncodeFields(a) == EncodeField(OpField(ins.op)) + [];
    EncodedPartsFit([], a, b + c);
    assert [] + a + (b + c) == a + b + c;
    EncodedPartsFit(a, b, c);
    hide OpField, NonZero, InstructionList, EncodeFields;
    EncodedPayloadFits(a, 0);
    InstructionListWritable(7, ins.nested);
    assert AllWritable(a);
    hide AllWritable;
    AllWritableAppend(a, b);
    AllWritableAppend(a + b, c);
  }

  lemma {:induction false} InstructionReadsBack(ins: Instruction)
    requires |EncodeFields(InstructionFields(ins))| < TWO_64
    ensures DecodeInstruction(EncodeFields(InstructionFields(ins))) == Some(ins)
    decreases ins, 1
  {
    var fs := InstructionFields(ins);
    var bytes := EncodeFields(fs);
    assert fs[0] == OpField(ins.op) && 1 <= fs[0].number <= 5;
    InstructionFieldsWritable(ins);
    hide InstructionFields, EncodeFields, Fields, Only, EncodeField, DecodeOp, InstructionList, AllWritable, OpField,
      NumOrZero, NonZeroValue;
    FieldsOfEncoded(fs);
    OpReadsBack(ins.op);
    assert FindOp(fs) == DecodeOp(fs[0]);
    hide FindOp;
    OnlyIsShort(bytes, 7);
    InstructionSeen(ins, 6);
    InstructionSeen(ins, 7);
    NumSeen(6, ins.abortLevel);
    hide Seen;
    InstructionListReadsBack(7, ins.nested, |bytes|);
    hide DecodeInstructions;
  }

  lemma ProgramSeen(p: Program)
    ensures var fs := NonZero(1, p.version) + InstructionList(2, p.instructions);
      && Only(fs, 1) == Seen(1, NonZeroValue(p.version), 1)
      && Only(fs, 2) == Only(InstructionList(2, p.instructions), 2)
  {
    var a, b := NonZero(1, p.version), InstructionList(2, p.instructions);
    assert a == Optional(1, NonZeroValue(p.version));
    hide Only, Optional, NonZeroValue, InstructionList;
    OnlyAppend(a, b, 1);
    OnlyAppend(a, b, 2);
    OnlyOptional(1, NonZeroValue(p.version), 1);
    OnlyOptional(1, NonZeroValue(p.version), 2);
    InstructionListSeen(2, p.instructions, 1);
  }

  /** The whole program, a tree of any depth and width, survives the wire although defaults are left out. */
  lemma ProgramReadsBack(p: Program)
    requires |EncodeProgram(p)| < TWO_64
    ensures DecodeProgram(EncodeProgram(p)) == Some(p)
  {
    var a, b := NonZero(1, p.version), InstructionList(2, p.instructions);
    var bytes := EncodeProgram(p);
    assert AllWritable(a);
    hide EncodeFields, Fields, Only, InstructionList, NonZero, AllWritable, DecodeInstructions, NumOrZero, Seen;
    EncodeFieldsAppend(a, b);
    InstructionListWritable(2, p.instructions);
    AllWritableAppend(a, b);
    FieldsOfEncoded(a + b);
    OnlyIsShort(bytes, 2);
    ProgramSeen(p);
    NumSeen(1, p.version);
    InstructionListReadsBack(2, p.instructions, |bytes|);
  }

  // ---- The encoders themselves: each appends field by field to its own writer ----

  method WriteOptional(w: ProtoWriter, ghost done: seq<Field>, n: U32, o: Option<U32>)
    requires w.buf == EncodeFields(done)
    modifies w
    ensures w.buf == EncodeFields(done + Optional(n, o))
  {
    hide EncodeFields, VarintField;
    if o.Some? {
      OneMore(done, Field(n, Varint(o.value)));
      w.WriteUint64(n, o.value);
    } else {
      assert done + [] == done;
    }
  }

  method EncodePath(c: PathComponent) returns (bytes: seq<Byte>)
    ensures bytes == EncodeFields(PathFields(c))
  {
    var w := new ProtoWriter();
    ghost var done: seq<Field> := [];
    assert w.buf == EncodeFields(done);
    hide EncodeFields, Optional;
    WriteOptional(w, done, 1, c.fieldId);
    done := done + Optional(1, c.fieldId);
    WriteOptional(w, done, 2, c.arrayIndex);
    done := done + Optional(2, c.arrayIndex);
    WriteOptional(w, done, 3, c.mapKeyFieldId);
    done := done + Optional(3, c.mapKeyFieldId);
    WriteOptional(w, done, 5, if c.isRepeated then Some(1) else None);
    done := done + Optional(5, if c.isRepeated then Some(1) else None);
    WriteOptional(w, done, 6, c.registerToMatch);
    done := done + Optional(6, c.registerToMatch);
    WriteOptional(w, done, 7, c.storeForeachIndexIntoRegister);
    PathFieldsAsOptionals(c);
    return w.buf;
  }

  lemma PathFieldsAsOptionals(c: PathComponent)
    ensures PathFields(c) == [] + Optional(1, c.fieldId) + Optional(2, c.arrayIndex) + Optional(3, c.mapKeyFieldId)
      + Optional(5, if c.isRepeated then Some(1) else None) + Optional(6, c.registerToMatch)
      + Optional(7, c.storeForeachIndexIntoRegister)
  {
    assert Flag(5, c.isRepeated) == Optional(5, if c.isRepeated then Some(1) else None);
    hide Optional, Flag;
  }

  lemma {:induction false} PathListGrows(path: seq<PathComponent>, i: nat)
    requires i < |path|
    ensures PathList(path[..i + 1]) == PathList(path[..i]) + [Field(2, Len(EncodeFields(PathFields(path[i]))))]
  {
    hide PathFields, EncodeFields;
    if i == 0 {
    } else {
      PathListGrows(path[1..], i - 1);
      assert path[..i + 1][1..] == path[1..][..i];
      assert path[..i][1..] == path[1..][..i - 1];
    }
  }

  lemma {:induction false} InstructionListGrows(n: U32, list: seq<Instruction>, i: nat)
    requires i < |list|
    ensures InstructionList(n, list[..i + 1])
      == InstructionList(n, list[..i]) + [Field(n, Len(EncodeFields(InstructionFields(list[i]))))]
  {
    hide InstructionFields, EncodeFields;
    if i == 0 {
    } else {
      InstructionListGrows(n, list[1..], i - 1);
      assert list[..i + 1][1..] == list[1..][..i];
      assert list[..i][1..] == list[1..][..i - 1];
    }
  }

  lemma {:induction false} InstructionListAt(n: U32, list: seq<Instruction>, i: nat)
    requires i < |list|
    ensures |InstructionList(n, list)| == |list|
    ensures InstructionList(n, list)[i] == Field(n, Len(EncodeFields(InstructionFields(list[i]))))
  {
    hide InstructionFields, EncodeFields;
    if i > 0 {
      InstructionListAt(n, list[1..], i - 1);
    } else if |list| > 1 {
      InstructionListAt(n, list[1..], 0);
    }
  }

  lemma {:induction false} PathListAt(path: seq<PathComponent>, i: nat)
    requires i < |path|
    ensures |PathList(path)| == |path|
    ensures PathList(path)[i] == Field(2, Len(EncodeFields(PathFields(path[i]))))
  {
    hide PathFields, EncodeFields;
    if i > 0 {
      PathListAt(path[1..], i - 1);
    } else if |path| > 1 {
      PathListAt(path[1..], 0);
    }
  }

  lemma PathStep(done: seq<Field>, path: seq<PathComponent>, i: nat)
    requires i < |path| && |EncodeFields(PathList(path))| < TWO_64
    ensures var body := EncodeFields(PathFields(path[i]));
      |body| < TWO_64 && done + PathList(path[..i]) + [Field(2, Len(body))] == done + PathList(path[..i + 1])
  {
    hide *;
    PathListAt(path, i);
    EncodedPayloadFits(PathList(path), i);
    PathListGrows(path, i);
    assert done + PathList(path[..i]) + [Field(2, Len(EncodeFields(PathFields(path[i]))))]
        == done + (PathList(path[..i]) + [Field(2, Len(EncodeFields(PathFields(path[i]))))]);
  }

  method WritePaths(w: ProtoWriter, ghost done: seq<Field>, path: seq<PathComponent>)
    requires w.buf == EncodeFields(done) && |EncodeFields(PathList(path))| < TWO_64
    modifies w
    ensures w.buf == EncodeFields(done + PathList(path))
  {
    assert path[..0] == [] && done + [] == done;
    assert PathList(path[..0]) == [];
    hide *;
    for i := 0 to |path|
      invariant w.buf == EncodeFields(done + PathList(path[..i]))
    {
      PathStep(done, path, i);
      var body := EncodePath(path[i]);
      WriteBody(w, done + PathList(path[..i]), 2, body);
    }
    assert path[..|path|] == path;
  }

  lemma SelectAsOptionals(s: Select)
    ensures SelectFields(s) == [] + Optional(1, if s.cursor != 0 then Some(s.cursor) else None)
      + PathList(s.relativePath) + Optional(3, if s.createIfNotExist then Some(1) else None)
  {
    assert NonZero(1, s.cursor) == [] + Optional(1, if s.cursor != 0 then Some(s.cursor) else None);
    assert Flag(3, s.createIfNotExist) == Optional(3, if s.createIfNotExist then Some(1) else None);
    hide Optional, NonZero, Flag, PathList;
  }

  method EncodeSelect(s: Select) returns (bytes: seq<Byte>)
    requires |EncodeFields(SelectFields(s))| < TWO_64
    ensures bytes == EncodeFields(SelectFields(s))
  {
    var w := new ProtoWriter();
    EmptyEncodes();
    hide *;
    SelectAsOptionals(s);
    var cursor := if s.cursor != 0 then Some(s.cursor) else None;
    var create := if s.createIfNotExist then Some(1) else None;
    ghost var a := [] + Optional(1, cursor);
    EncodedPartsFit(a, PathList(s.relativePath), Optional(3, create));
    WriteOptional(w, [], 1, cursor);
    WritePaths(w, a, s.relativePath);
    WriteOptional(w, a + PathList(s.relativePath), 3, create);
    return w.buf;
  }

  method WriteOp(w: ProtoWriter, op: Op)
    requires w.buf == EncodeFields([]) && |EncodeField(OpField(op))| < TWO_64
    modifies w
    ensures w.buf == EncodeFields([OpField(op)])
  {
    ghost var body := OpField(op).value.bytes;
    assert [] + [OpField(op)] == [OpField(op)];
    assert |body| < TWO_64 && OpField(op).value == Len(body);
    hide EncodeFields, Optional, LenField;
    match op {
      case SelectOp(s) =>
        var bytes := EncodeSelect(s);
        WriteBody(w, [], 1, bytes);
      case RegLoad(cursor, dst) =>
        var r := new ProtoWriter();
        assert r.buf == EncodeFields([]) by {
          EmptyEncodes();
        }
        var o := if cursor != 0 then Some(cursor) else None;
        WriteOptional(r, [], 1, o);
        WriteOptional(r, [] + Optional(1, o), 2, Some(dst));
        RegLoadAsOptionals(cursor, dst);
        WriteBody(w, [], 2, r.buf);
      case Merge(skip) =>
        var m := new ProtoWriter();
        assert m.buf == EncodeFields([]) by {
          EmptyEncodes();
        }
        var o := if skip then Some(1) else None;
        WriteOptional(m, [], 1, o);
        MergeAsOptionals(skip);
        WriteBody(w, [], 3, m.buf);
      case SetOp => WriteBody(w, [], 4, []);
      case DelOp => WriteBody(w, [], 5, []);
    }
  }

  lemma RegLoadAsOptionals(cursor: U32, dst: U32)
    ensures NonZero(1, cursor) + [Field(2, Varint(dst))]
      == [] + Optional(1, if cursor != 0 then Some(cursor) else None) + Optional(2, Some(dst))
  {
  }

  lemma MergeAsOptionals(skip: bool)
    ensures Flag(1, skip) == [] + Optional(1, if skip then Some(1) else None)
  {
  }

  method EncodeInstruction(ins: Instruction) returns (bytes: seq<Byte>)
    requires |EncodeFields(InstructionFields(ins))| < TWO_64
    ensures bytes == EncodeFields(InstructionFields(ins))
    decreases ins, 1
  {
    var w := new ProtoWriter();
    EmptyEncodes();
    InstructionFieldsWritable(ins);
    ghost var a := [OpField(ins.op)];
    var o := if ins.abortLevel != 0 then Some(ins.abortLevel) else None;
    ghost var b := a + Optional(6, o);
    assert InstructionFields(ins) == b + InstructionList(7, ins.nested);
    hide *;
    WriteOp(w, ins.op);
    WriteOptional(w, a, 6, o);
    WriteInstructions(w, b, 7, ins.nested);
    return w.buf;
  }

  lemma InstructionStep(done: seq<Field>, n: U32, list: seq<Instruction>, i: nat)
    requires i < |list| && |EncodeFields(InstructionList(n, list))| < TWO_64
    ensures var body := EncodeFields(InstructionFields(list[i]));
      && |body| < TWO_64
      && done + InstructionList(n, list[..i]) + [Field(n, Len(body))] == done + InstructionList(n, list[..i + 1])
  {
    hide *;
    InstructionListAt(n, list, i);
    EncodedPayloadFits(InstructionList(n, list), i);
    InstructionListGrows(n, list, i);
    assert done + InstructionList(n, list[..i]) + [Field(n, Len(EncodeFields(InstructionFields(list[i]))))]
        == done + (InstructionList(n, list[..i]) + [Field(n, Len(EncodeFields(InstructionFields(list[i]))))]);
  }

  method WriteInstructions(w: ProtoWriter, ghost done: seq<Field>, n: U32, list: seq<Instruction>)
    requires w.buf == EncodeFields(done)
    requires |EncodeFields(InstructionList(n, list))| < TWO_64
    modifies w
    ensures w.buf == EncodeFields(done + InstructionList(n, list))
    decreases list, 0
  {
    assert list[..0] == [] && done + [] == done;
    assert InstructionList(n, list[..0]) == [];
    hide *;
    for i := 0 to |list|
      invariant w.buf == EncodeFields(done + InstructionList(n, list[..i]))
    {
      InstructionStep(done, n, list, i);
      var body := EncodeInstruction(list[i]);
      WriteBody(w, done + InstructionList(n, list[..i]), n, body);
    }
    assert list[..|list|] == list;
  }

  method EncodeVmProgram(version: U32, instructions: seq<Instruction>) returns (bytes: seq<Byte>)
    requires |EncodeProgram(Program(version, instructions))| < TWO_64
    ensures bytes == EncodeProgram(Program(version, instructions))
  {
    var w := new ProtoWriter();
    EmptyEncodes();
    var o := if version != 0 then Some(version) else None;
    ghost var a := [] + Optional(1, o);
    assert NonZero(1, version) == a;
    hide EncodeFields, Optional, InstructionList;
    EncodeFieldsAppend(a, InstructionList(2, instructions));
    WriteOptional(w, [], 1, o);
    WriteInstructions(w, a, 2, instructions);
    return w.buf;
  }

  // ---- Programs are short ----

  function PathLength(op: Op): nat {
    if op.SelectOp? then |op.select.relativePath| else 0
  }

  /** Instructions and path components, over the whole tree. */
  function Weight(ins: Instruction): nat
    decreases ins
  {
    1 + PathLength(ins.op) + WeightOf(ins.nested)
  }

  function WeightOf(list: seq<Instruction>): nat
    decreases list
  {
    if list == [] then 0 else Weight(list[0]) + WeightOf(list[1..])
  }

  lemma OptionalIsSmall(n: U32, o: Option<U32>)
    ensures |EncodeFields(Optional(n, o))| <= 20
  {
    EmptyEncodes();
    if o.Some? {
      SmallNumber(n, o.value);
    }
  }

  lemma PathIsSmall(c: PathComponent)
    ensures |EncodeFields(PathFields(c))| <= 120
  {
    var a, b, d := Optional(1, c.fieldId), Optional(2, c.arrayIndex), Optional(3, c.mapKeyFieldId);
    var e, f, g := Optional(5, FlagValue(c.isRepeated)), Optional(6, c.registerToMatch),
        Optional(7, c.storeForeachIndexIntoRegister);
    assert PathFields(c) == a + b + d + e + f + g;
    hide EncodeFields, Optional, PathFields;
    OptionalIsSmall(1, c.fieldId);
    OptionalIsSmall(2, c.arrayIndex);
    OptionalIsSmall(3, c.mapKeyFieldId);
    OptionalIsSmall(5, FlagValue(c.isRepeated));
    OptionalIsSmall(6, c.registerToMatch);
    OptionalIsSmall(7, c.storeForeachIndexIntoRegister);
    EncodeFieldsAppend(a + b + d + e + f, g);
    EncodeFieldsAppend(a + b + d + e, f);
    EncodeFieldsAppend(a + b + d, e);
    EncodeFieldsAppend(a + b, d);
    EncodeFieldsAppend(a, b);
  }

  lemma {:induction false} PathListIsSmall(path: seq<PathComponent>)
    requires |path| < 0x1_0000_0000_0000
    ensures |EncodeFields(PathList(path))| <= 140 * |path|
  {
    hide EncodeFields, PathFields;
    EmptyEncodes();
    if path == [] {
    } else {
      var body := EncodeFields(PathFields(path[0]));
      PathListIsSmall(path[1..]);
      PathIsSmall(path[0]);
      EncodeFieldsAppend([Field(2, Len(body))], PathList(path[1..]));
      SmallLen(2, body);
    }
  }

  lemma SelectIsSmall(s: Select)
    requires |s.relativePath| < 0x1_0000_0000_0000
    ensures |EncodeFields(SelectFields(s))| <= 40 + 140 * |s.relativePath|
  {
    SelectAsOptionals(s);
    var cursor, create := if s.cursor != 0 then Some(s.cursor) else None, if s.createIfNotExist then Some(1) else None;
    var a, b, c := Optional(1, cursor), PathList(s.relativePath), Optional(3, create);
    assert [] + a + b + c == a + b + c;
    hide EncodeFields, SelectFields, Optional, PathList;
    OptionalIsSmall(1, cursor);
    OptionalIsSmall(3, create);
    PathListIsSmall(s.relativePath);
    EncodeFieldsAppend(a + b, c);
    EncodeFieldsAppend(a, b);
  }

  lemma OpIsSmall(op: Op)
    requires PathLength(op) < 0x1_0000_0000_0000
    ensures |EncodeFields([OpField(op)])| <= 60 + 140 * PathLength(op)
  {
    hide EncodeFields, SelectFields, Optional;
    match op
    case SelectOp(s) =>
      SelectIsSmall(s);
      SmallLen(1, EncodeFields(SelectFields(s)));
    case RegLoad(cursor, dst) =>
      var o := if cursor != 0 then Some(cursor) else None;
      RegLoadAsOptionals(cursor, dst);
      assert [] + Optional(1, o) + Optional(2, Some(dst)) == Optional(1, o) + Optional(2, Some(dst));
      OptionalIsSmall(1, o);
      OptionalIsSmall(2, Some(dst));
      EncodeFieldsAppend(Optional(1, o), Optional(2, Some(dst)));
      SmallLen(2, EncodeFields(Optional(1, o) + Optional(2, Some(dst))));
    case Merge(skip) =>
      var o := if skip then Some(1) else None;
      MergeAsOptionals(skip);
      assert [] + Optional(1, o) == Optional(1, o);
      OptionalIsSmall(1, o);
      SmallLen(3, EncodeFields(Optional(1, o)));
    case SetOp => SmallLen(4, []);
    case DelOp => SmallLen(5, []);
  }

  lemma {:induction false} InstructionIsSmall(ins: Instruction)
    requires Weight(ins) < 0x1_0000_0000_0000
    ensures |EncodeFields(InstructionFields(ins))| + 20 <= 400 * Weight(ins)
    decreases ins, 1
  {
    var a, b, c := [OpField(ins.op)], Optional(6, NonZeroValue(ins.abortLevel)), InstructionList(7, ins.nested);
    assert InstructionFields(ins) == a + b + c;
    assert Weight(ins) == 1 + PathLength(ins.op) + WeightOf(ins.nested);
    hide EncodeFields, InstructionFields, InstructionList, OpField, Optional, Weight, WeightOf, PathLength;
    OpIsSmall(ins.op);
    OptionalIsSmall(6, NonZeroValue(ins.abortLevel));
    InstructionListIsSmall(7, ins.nested);
    EncodeFieldsAppend(a + b, c);
    EncodeFieldsAppend(a, b);
  }

  lemma {:induction false} InstructionListIsSmall(n: U32, list: seq<Instruction>)
    requires WeightOf(list) < 0x1_0000_0000_0000
    ensures |EncodeFields(InstructionList(n, list))| <= 400 * WeightOf(list)
    decreases list, 0
  {
    hide EncodeFields, InstructionFields, Weight;
    EmptyEncodes();
    if list == [] {
    } else {
      var body := EncodeFields(InstructionFields(list[0]));
      InstructionIsSmall(list[0]);
      InstructionListIsSmall(n, list[1..]);
      EncodeFieldsAppend([Field(n, Len(body))], InstructionList(n, list[1..]));
      SmallLen(n, body);
    }
  }

  /** So any program of fewer than 2^48 instructions and path components reads back. */
  lemma AnyProgramReadsBack(p: Program)
    requires WeightOf(p.instructions) < 0x1_0000_0000_0000
    ensures DecodeProgram(EncodeProgram(p)) == Some(p)
  {
    var a, b := Optional(1, NonZeroValue(p.version)), InstructionList(2, p.instructions);
    assert EncodeProgram(p) == EncodeFields(a + b);
    hide EncodeFields, EncodeProgram, DecodeProgram, InstructionList, Optional, WeightOf;
    OptionalIsSmall(1, NonZeroValue(p.version));
    InstructionListIsSmall(2, p.instructions);
    EncodeFieldsAppend(a, b);
    ProgramReadsBack(p);
  }

  // ---- The program of the sched producer ----

  const TP_TREE: U32 := 122
  const CURSOR_DST: U32 := 2
  const SKIP_CURRENT: U32 := 1

  function AtField(field: U32): PathComponent {
    PathComponent(Some(field), None, None, false, None, None)
  }

  /** For each element of a collection: read its key, select or create the entry of that key, merge into it. */
  function MakeBlock(collField: U32, keyField: U32): Instruction {
    Instruction(
      SelectOp(Select(0, [AtField(collField).(isRepeated := true)], false)), SKIP_CURRENT,
      [ Instruction(SelectOp(Select(0, [AtField(keyField)], false)), 0, [Instruction(RegLoad(0, 0), 0, [])]),
        Instruction(
          SelectOp(Select(
            CURSOR_DST,
            [AtField(TP_TREE), AtField(collField), PathComponent(None, None, Some(keyField), false, Some(0), None)],
            true)),
          0, [Instruction(Merge(false), 0, [])])
      ])
  }

  function MacosSchedProgram(): Program {
    Program(0, [Instruction(SelectOp(Select(0, [AtField(TP_TREE)], false)), 0, [MakeBlock(1, 1), MakeBlock(2, 1)])])
  }

  lemma WeightOfTwo(a: Instruction, b: Instruction)
    ensures WeightOf([a]) == Weight(a) && WeightOf([a, b]) == Weight(a) + Weight(b)
  {
    hide Weight;
    assert [a][1..] == [] && [a, b][1..] == [b] && [b][1..] == [];
    assert WeightOf([b]) == Weight(b);
  }

  lemma BlockWeight(collField: U32, keyField: U32)
    ensures Weight(MakeBlock(collField, keyField)) == 10
  {
    var block := MakeBlock(collField, keyField);
    var read, merge := block.nested[0], block.nested[1];
    assert block.nested == [read, merge];
    WeightOfTwo(read, merge);
    WeightOfTwo(read.nested[0], read);
    WeightOfTwo(merge.nested[0], merge);
    assert read.nested == [read.nested[0]] && merge.nested == [merge.nested[0]];
    assert Weight(read.nested[0]) == 1 && Weight(merge.nested[0]) == 1;
    assert Weight(read) == 3 && Weight(merge) == 5;
  }

  /** The fixed program survives the wire. */
  lemma MacosSchedProgramReadsBack()
    ensures DecodeProgram(EncodeProgram(MacosSchedProgram())) == Some(MacosSchedProgram())
  {
    var p := MacosSchedProgram();
    var top := p.instructions[0];
    assert p.instructions == [top] && top.nested == [MakeBlock(1, 1), MakeBlock(2, 1)] && PathLength(top.op) == 1;
    assert Weight(top) == 1 + PathLength(top.op) + WeightOf(top.nested);
    hide MakeBlock, Weight, WeightOf, PathLength, EncodeProgram, DecodeProgram, MacosSchedProgram;
    WeightOfTwo(top, top);
    WeightOfTwo(MakeBlock(1, 1), MakeBlock(2, 1));
    BlockWeight(1, 1);
    BlockWeight(2, 1);
    AnyProgramReadsBack(p);
  }
}
