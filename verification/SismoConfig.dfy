/**
 * The configuration messages of the data sources: each producer's own message, the data source entry that carries
 * it, the trace configuration that carries the entries, and the way back.
 */
module SismoConfig {
  import opened Bits
  import opened ProtoWire
  import opened ProtoTree

  const SISMO_CONFIG_FIELD: U32 := 2000

  // ---- Fields of numbers ----

  /** The last varint of a number wins; an absent one is zero. */
  function LastVarint(fs: seq<Field>, n: U32): U64 {
    if fs == [] then 0
    else
      var f := fs[|fs| - 1];
      if f.number == n && f.value.Varint? then f.value.v else LastVarint(fs[..|fs| - 1], n)
  }

  predicate NoVarint(fs: seq<Field>, n: U32) {
    forall f :: f in fs ==> !(f.number == n && f.value.Varint?)
  }

  lemma {:induction false} LastVarintAppend(a: seq<Field>, b: seq<Field>, n: U32)
    ensures NoVarint(b, n) ==> LastVarint(a + b, n) == LastVarint(a, n)
    ensures !NoVarint(b, n) ==> LastVarint(a + b, n) == LastVarint(b, n)
    decreases |b|
  {
    if b == [] {
      assert a + b == a;
    } else {
      var k := |b| - 1;
      LastVarintAppend(a, b[..k], n);
      assert (a + b)[..|a| + k] == a + b[..k] && b == b[..k] + [b[k]];
    }
  }

  lemma {:induction false} NoVarintIsZero(fs: seq<Field>, n: U32)
    requires NoVarint(fs, n)
    ensures LastVarint(fs, n) == 0
  {
    if fs == [] {
    } else {
      NoVarintIsZero(fs[..|fs| - 1], n);
    }
  }

  /** Numbers in ascending field order, zeros left out. */
  function NumberFields(vs: seq<U64>): seq<Field> {
    if vs == [] then [] else NumberFields(vs[..|vs| - 1]) + NonZero(|vs| % TWO_32, vs[|vs| - 1])
  }

  lemma {:induction false} NumberFieldsWritable(vs: seq<U64>)
    ensures AllWritable(NumberFields(vs))
  {
    if vs == [] {
    } else {
      NumberFieldsWritable(vs[..|vs| - 1]);
    }
  }

  lemma NonZeroReads(m: U32, v: U64, n: U32)
    ensures n != m || v == 0 ==> NoVarint(NonZero(m, v), n)
    ensures n == m && v != 0 ==> !NoVarint(NonZero(m, v), n) && LastVarint(NonZero(m, v), n) == v
  {
    if v != 0 {
      assert NonZero(m, v)[0] in NonZero(m, v);
    }
  }

  lemma NoVarintAppend(a: seq<Field>, b: seq<Field>, n: U32)
    requires NoVarint(a, n) && NoVarint(b, n)
    ensures NoVarint(a + b, n)
  {
  }

  lemma {:induction false} NumberFieldRead(vs: seq<U64>, n: U32)
    requires |vs| < 100
    ensures n == 0 || n > |vs| ==> NoVarint(NumberFields(vs), n)
    ensures 1 <= n <= |vs| ==> LastVarint(NumberFields(vs), n) == vs[n - 1]
    decreases |vs|
  {
    hide NoVarint, NonZero, LastVarint;
    if vs == [] {
      NothingHasVarint(n);
    } else {
      var k := |vs| - 1;
      var front, last := NumberFields(vs[..k]), NonZero(|vs|, vs[k]);
      NumberFieldRead(vs[..k], n);
      LastVarintAppend(front, last, n);
      NonZeroReads(|vs|, vs[k], n);
      if n == 0 || n > |vs| {
        NoVarintAppend(front, last, n);
      } else if n == |vs| && vs[k] == 0 {
        NoVarintIsZero(front, n);
      }
    }
  }

  lemma NothingHasVarint(n: U32)
    ensures NoVarint([], n)
  {
  }

  /**
   * A message of numbers reads back number by number, zeros included, and fields of other numbers before or behind
   * them change nothing.
   */
  lemma NumbersReadBack(vs: seq<U64>, before: seq<Field>, after: seq<Field>, n: U32)
    requires 1 <= n <= |vs| < 100 && AllWritable(before) && AllWritable(after) && NoVarint(before, n) &&
        NoVarint(after, n)
    ensures LastVarint(Fields(EncodeFields(before + NumberFields(vs) + after)), n) == vs[n - 1]
  {
    var fs := NumberFields(vs);
    NumberFieldsWritable(vs);
    AllWritableAppend(before, fs);
    AllWritableAppend(before + fs, after);
    FieldsOfEncoded(before + fs + after);
    hide EncodeFields, Fields, AllWritable, NumberFields;
    NumberFieldRead(vs, n);
    LastVarintAppend(before + fs, after, n);
    LastVarintAppend(before, fs, n);
    if NoVarint(fs, n) {
      NoVarintIsZero(fs, n);
      NoVarintIsZero(before, n);
    }
  }

  method WriteNonZero(w: ProtoWriter, ghost done: seq<Field>, n: U32, v: U64)
    requires w.buf == EncodeFields(done)
    modifies w
    ensures w.buf == EncodeFields(done + NonZero(n, v))
  {
    if v != 0 {
      WriteNumber(w, done, n, v);
    } else {
      assert done + [] == done;
    }
  }

  // ---- The producers' messages ----

  datatype CpuConfig = CpuConfig(targetPid: U32, intervalUs: U32)
  datatype HeapConfig = HeapConfig(targetPid: U32, ringSizeBytes: U64, sampleIntervalBytes: U64)
  datatype SchedConfig = SchedConfig(kernelBufferEvents: I32, targetPid: U32, offcpuWaitThresholdUs: U32)

  /** `(v as i64) as u64` and back. */
  function SignExtend(v: I32): U64 {
    if v < 0 then v + TWO_64 else v
  }

  function TruncateSigned(v: U64): I32 {
    var low := v % TWO_32;
    if low >= 0x8000_0000 then low - TWO_32 else low
  }

  lemma SignSurvives(v: I32)
    ensures TruncateSigned(SignExtend(v)) == v
  {
    if v < 0 {
      DivModUnique(v + TWO_64, TWO_32, TWO_32 - 1, v + TWO_32);
    }
  }

  function CpuNumbers(c: CpuConfig): seq<U64> {
    [c.targetPid, c.intervalUs]
  }

  function HeapNumbers(c: HeapConfig): seq<U64> {
    [c.targetPid, c.ringSizeBytes, c.sampleIntervalBytes]
  }

  function SchedNumbers(c: SchedConfig): seq<U64> {
    [SignExtend(c.kernelBufferEvents), c.targetPid, c.offcpuWaitThresholdUs]
  }

  function CpuOf(fs: seq<Field>): CpuConfig {
    CpuConfig(LastVarint(fs, 1) % TWO_32, LastVarint(fs, 2) % TWO_32)
  }

  function HeapOf(fs: seq<Field>): HeapConfig {
    HeapConfig(LastVarint(fs, 1) % TWO_32, LastVarint(fs, 2), LastVarint(fs, 3))
  }

  function SchedOf(fs: seq<Field>): SchedConfig {
    SchedConfig(TruncateSigned(LastVarint(fs, 1)), LastVarint(fs, 2) % TWO_32, LastVarint(fs, 3) % TWO_32)
  }

  lemma NumberFieldsOf2(a: U64, b: U64)
    ensures NumberFields([a, b]) == [] + NonZero(1, a) + NonZero(2, b)
  {
    assert [a, b][..1] == [a] && [a][..0] == [];
    assert NumberFields([]) == [];
    assert NumberFields([a]) == [] + NonZero(1, a);
  }

  lemma NumberFieldsOf3(a: U64, b: U64, c: U64)
    ensures NumberFields([a, b, c]) == [] + NonZero(1, a) + NonZero(2, b) + NonZero(3, c)
  {
    NumberFieldsOf2(a, b);
    assert [a, b, c][..2] == [a, b];
    hide NonZero;
  }

  method CpuEncode(c: CpuConfig) returns (bytes: seq<Byte>)
    ensures bytes == EncodeFields(NumberFields(CpuNumbers(c)))
  {
    var w := new ProtoWriter();
    EmptyEncodes();
    hide EncodeFields, NonZero, NumberFields;
    WriteNonZero(w, [], 1, c.targetPid);
    WriteNonZero(w, [] + NonZero(1, c.targetPid), 2, c.intervalUs);
    NumberFieldsOf2(c.targetPid, c.intervalUs);
    bytes := w.buf;
  }

  method HeapEncode(c: HeapConfig) returns (bytes: seq<Byte>)
    ensures bytes == EncodeFields(NumberFields(HeapNumbers(c)))
  {
    var w := new ProtoWriter();
    EmptyEncodes();
    hide EncodeFields, NonZero, NumberFields;
    WriteNonZero(w, [], 1, c.targetPid);
    WriteNonZero(w, [] + NonZero(1, c.targetPid), 2, c.ringSizeBytes);
    WriteNonZero(w, [] + NonZero(1, c.targetPid) + NonZero(2, c.ringSizeBytes), 3, c.sampleIntervalBytes);
    NumberFieldsOf3(c.targetPid, c.ringSizeBytes, c.sampleIntervalBytes);
    bytes := w.buf;
  }

  method SchedEncode(c: SchedConfig) returns (bytes: seq<Byte>)
    ensures bytes == EncodeFields(NumberFields(SchedNumbers(c)))
  {
    var w := new ProtoWriter();
    EmptyEncodes();
    hide EncodeFields, NonZero, NumberFields;
    var events := SignExtend(c.kernelBufferEvents);
    WriteNonZero(w, [], 1, events);
    WriteNonZero(w, [] + NonZero(1, events), 2, c.targetPid);
    WriteNonZero(w, [] + NonZero(1, events) + NonZero(2, c.targetPid), 3, c.offcpuWaitThresholdUs);
    NumberFieldsOf3(events, c.targetPid, c.offcpuWaitThresholdUs);
    bytes := w.buf;
  }

  /** The walk that the decoders share: the last varint of each of the first three numbers. */
  method LastVarints(bytes: seq<Byte>) returns (first: U64, second: U64, third: U64)
    ensures var fs := Fields(bytes);
      first == LastVarint(fs, 1) && second == LastVarint(fs, 2) && third == LastVarint(fs, 3)
  {
    var fs := ReadAll(bytes);
    first, second, third := 0, 0, 0;
    for i := 0 to |fs|
      invariant first == LastVarint(fs[..i], 1) && second == LastVarint(fs[..i], 2) && third == LastVarint(fs[..i], 3)
    {
      assert fs[..i + 1][..i] == fs[..i];
      var f := fs[i];
      if f.value.Varint? {
        match f.number {
          case 1 => first := f.value.v;
          case 2 => second := f.value.v;
          case 3 => third := f.value.v;
          case _ =>
        }
      }
    }
    assert fs[..|fs|] == fs;
  }

  method CpuDecode(bytes: seq<Byte>) returns (c: CpuConfig)
    ensures c == CpuOf(Fields(bytes))
  {
    var pid, interval, _ := LastVarints(bytes);
    c := CpuConfig(pid % TWO_32, interval % TWO_32);
  }

  method HeapDecode(bytes: seq<Byte>) returns (c: HeapConfig)
    ensures c == HeapOf(Fields(bytes))
  {
    var pid, ring, interval := LastVarints(bytes);
    c := HeapConfig(pid % TWO_32, ring, interval);
  }

  method SchedDecode(bytes: seq<Byte>) returns (c: SchedConfig)
    ensures c == SchedOf(Fields(bytes))
  {
    hide TruncateSigned;
    var kbe, pid, threshold := LastVarints(bytes);
    c := SchedConfig(TruncateSigned(kbe), pid % TWO_32, threshold % TWO_32);
  }

  /** Fields that a message may hold besides its own. */
  predicate Unrelated(fs: seq<Field>) {
    AllWritable(fs) && NoVarint(fs, 1) && NoVarint(fs, 2) && NoVarint(fs, 3)
  }

  /** Every configuration comes back, whatever other fields stand around its own; negative buffer sizes too. */
  lemma ConfigsReadBack(cpu: CpuConfig, heap: HeapConfig, sched: SchedConfig, before: seq<Field>, after: seq<Field>)
    requires Unrelated(before) && Unrelated(after)
    ensures CpuOf(Fields(EncodeFields(before + NumberFields(CpuNumbers(cpu)) + after))) == cpu
    ensures HeapOf(Fields(EncodeFields(before + NumberFields(HeapNumbers(heap)) + after))) == heap
    ensures SchedOf(Fields(EncodeFields(before + NumberFields(SchedNumbers(sched)) + after))) == sched
  {
    hide EncodeFields, Fields, AllWritable, NumberFields, LastVarint, NoVarint, SignExtend, TruncateSigned;
    SignSurvives(sched.kernelBufferEvents);
    forall n: U32 | 1 <= n <= 3
      ensures n <= 2 ==>
        LastVarint(Fields(EncodeFields(before + NumberFields(CpuNumbers(cpu)) + after)), n) == CpuNumbers(cpu)[n - 1]
      ensures LastVarint(Fields(EncodeFields(before + NumberFields(HeapNumbers(heap)) + after)), n) ==
          HeapNumbers(heap)[n - 1]
      ensures LastVarint(Fields(EncodeFields(before + NumberFields(SchedNumbers(sched)) + after)), n) ==
          SchedNumbers(sched)[n - 1]
    {
      if n <= 2 {
        NumbersReadBack(CpuNumbers(cpu), before, after, n);
      }
      NumbersReadBack(HeapNumbers(heap), before, after, n);
      NumbersReadBack(SchedNumbers(sched), before, after, n);
    }
  }

  /** Through the encoders and the decoders, as producers and the session exchange them. */
  method ThroughTheWire(cpu: CpuConfig, heap: HeapConfig, sched: SchedConfig)
    returns (cpu': CpuConfig, heap': HeapConfig, sched': SchedConfig)
    ensures cpu' == cpu && heap' == heap && sched' == sched
  {
    hide CpuOf, HeapOf, SchedOf, NumberFields, EncodeFields, Fields, CpuNumbers, HeapNumbers, SchedNumbers;
    ghost var none: seq<Field> := [];
    NothingIsUnrelated();
    ConfigsReadBack(cpu, heap, sched, none, none);
    NoneAround(NumberFields(CpuNumbers(cpu)));
    NoneAround(NumberFields(HeapNumbers(heap)));
    NoneAround(NumberFields(SchedNumbers(sched)));
    var bytes := CpuEncode(cpu);
    cpu' := CpuDecode(bytes);
    bytes := HeapEncode(heap);
    heap' := HeapDecode(bytes);
    bytes := SchedEncode(sched);
    sched' := SchedDecode(bytes);
  }

  lemma NothingIsUnrelated()
    ensures Unrelated([])
  {
  }

  lemma NoneAround(fs: seq<Field>)
    ensures [] + fs + [] == fs
  {
  }

  // ---- Data source entries ----

  const TRACK_EVENT: U32 := 0
  const LINUX_FTRACE: U32 := 2

  datatype Entry = Entry(kind: U32, name: seq<Byte>, sismoConfig: seq<Byte>, protovmMemoryLimitKb: U32)

  function Strings(n: U32, names: seq<string>): seq<Field> {
    if names == [] then [] else Strings(n, names[..|names| - 1]) + [Field(n, Len(Ascii(names[|names| - 1])))]
  }

  const FTRACE_EVENTS: seq<string> :=
    ["sched/sched_switch", "sched/sched_waking", "sched/sched_wakeup", "sched/sched_process_exit",
     "power/cpu_frequency", "power/cpu_idle"]

  function FtraceFields(): seq<Field> {
    Strings(1, FTRACE_EVENTS) + [Field(12, Len(EncodeFields([Field(1, Varint(1))])))]
  }

  /** A vendor entry has its configuration and a memory limit where they are not empty. */
  function VendorFields(e: Entry): seq<Field> {
    [Field(1, Len(e.name))]
    + (if e.sismoConfig != [] then [Field(SISMO_CONFIG_FIELD, Len(e.sismoConfig))] else [])
    + (if e.protovmMemoryLimitKb > 0 then
         [Field(12, Len(EncodeFields([Field(1, Varint(e.protovmMemoryLimitKb))])))]
       else [])
  }

  function EntryFields(e: Entry): seq<Field> {
    if e.kind == TRACK_EVENT then
      [Field(1, Len(Ascii("track_event"))), Field(113, Len(EncodeFields(Strings(2, ["*"]))))]
    else if e.kind == LINUX_FTRACE then
      [Field(1, Len(Ascii("linux.ftrace"))), Field(100, Len(EncodeFields(FtraceFields())))]
    else VendorFields(e)
  }

  /** The first length-delimited field of a number. */
  function FirstLen(fs: seq<Field>, n: U32): Option<seq<Byte>> {
    if fs == [] then None
    else if fs[0].number == n && fs[0].value.Len? then Some(fs[0].value.bytes)
    else FirstLen(fs[1..], n)
  }

  function ConfigExtract(dsc: seq<Byte>): Option<seq<Byte>> {
    FirstLen(Fields(dsc), SISMO_CONFIG_FIELD)
  }

  method ExtractConfig(dsc: seq<Byte>) returns (r: Option<seq<Byte>>)
    ensures r == ConfigExtract(dsc)
  {
    hide Fields, FirstLen;
    var fs := ReadAll(dsc);
    var i := 0;
    assert fs[0..] == fs;
    while i < |fs|
      invariant i <= |fs| && FirstLen(fs[i..], SISMO_CONFIG_FIELD) == ConfigExtract(dsc)
    {
      FirstLenStep(fs[i..], SISMO_CONFIG_FIELD);
      assert fs[i..][1..] == fs[i + 1..];
      if fs[i].number == SISMO_CONFIG_FIELD && fs[i].value.Len? {
        return Some(fs[i].value.bytes);
      }
      i := i + 1;
    }
    NothingFirst(fs[i..], SISMO_CONFIG_FIELD);
    return None;
  }

  lemma FirstLenStep(fs: seq<Field>, n: U32)
    requires fs != []
    ensures FirstLen(fs, n) ==
      if fs[0].number == n && fs[0].value.Len? then Some(fs[0].value.bytes) else FirstLen(fs[1..], n)
  {
  }

  lemma NothingFirst(fs: seq<Field>, n: U32)
    requires fs == []
    ensures FirstLen(fs, n) == None
  {
  }

  /** What an entry carries for its producer. */
  function ConfigOf(e: Entry): Option<seq<Byte>> {
    if e.kind != TRACK_EVENT && e.kind != LINUX_FTRACE && e.sismoConfig != [] then Some(e.sismoConfig) else None
  }

  predicate EntryFits(e: Entry) {
    |e.name| < TWO_64 && |e.sismoConfig| < TWO_64
  }

  lemma SmallBodies()
    ensures |EncodeFields(Strings(2, ["*"]))| < TWO_64 && |EncodeFields(FtraceFields())| < TWO_64
    ensures forall v: U32 :: |EncodeFields([Field(1, Varint(v))])| < TWO_64
  {
    forall v: U32
      ensures |EncodeFields([Field(1, Varint(v))])| < TWO_64
    {
      SmallNumber(1, v);
    }
    SmallStrings(2, ["*"]);
    SmallStrings(1, FTRACE_EVENTS);
    SmallNumber(1, 1);
    hide Strings;
    var compact := EncodeFields([Field(1, Varint(1))]);
    EncodeFieldsAppend(Strings(1, FTRACE_EVENTS), [Field(12, Len(compact))]);
    SmallLen(12, compact);
  }

  lemma {:induction false} SmallStrings(n: U32, names: seq<string>)
    requires forall i :: 0 <= i < |names| ==> |names[i]| < 100
    ensures |EncodeFields(Strings(n, names))| <= 120 * |names|
  {
    if names != [] {
      var k := |names| - 1;
      SmallStrings(n, names[..k]);
      hide EncodeFields, Strings;
      var body := Ascii(names[k]);
      StringsGrow(n, names);
      EncodeFieldsAppend(Strings(n, names[..k]), [Field(n, Len(body))]);
      SmallLen(n, body);
    } else {
      EmptyEncodes();
    }
  }

  lemma StringsGrow(n: U32, names: seq<string>)
    requires names != []
    ensures Strings(n, names) == Strings(n, names[..|names| - 1]) + [Field(n, Len(Ascii(names[|names| - 1])))]
  {
  }

  lemma EntryWritable(e: Entry)
    requires EntryFits(e)
    ensures AllWritable(EntryFields(e))
  {
    SmallBodies();
    hide EncodeFields, Strings, FtraceFields;
  }

  lemma FirstLenCons(f: Field, rest: seq<Field>, n: U32)
    ensures FirstLen([f] + rest, n) == if f.number == n && f.value.Len? then Some(f.value.bytes) else FirstLen(rest, n)
  {
    assert ([f] + rest)[1..] == rest;
  }

  lemma NoneAmong(fs: seq<Field>, n: U32)
    requires |fs| <= 1 && (fs != [] ==> fs[0].number != n)
    ensures FirstLen(fs, n) == None
  {
  }

  lemma FirstLenOfEntry(e: Entry)
    ensures FirstLen(EntryFields(e), SISMO_CONFIG_FIELD) == ConfigOf(e)
  {
    hide EncodeFields, Strings, FtraceFields, FirstLen;
    var fs := EntryFields(e);
    var rest := fs[1..];
    assert fs == [fs[0]] + rest;
    FirstLenCons(fs[0], rest, SISMO_CONFIG_FIELD);
    if e.kind == TRACK_EVENT || e.kind == LINUX_FTRACE || e.sismoConfig == [] {
      NoneAmong(rest, SISMO_CONFIG_FIELD);
    } else {
      assert rest == [Field(SISMO_CONFIG_FIELD, Len(e.sismoConfig))] + fs[2..];
      FirstLenCons(Field(SISMO_CONFIG_FIELD, Len(e.sismoConfig)), fs[2..], SISMO_CONFIG_FIELD);
    }
  }

  /** The configuration is recovered from an encoded entry exactly when a vendor entry has one. */
  lemma ConfigIsRecovered(e: Entry)
    requires EntryFits(e)
    ensures ConfigExtract(EncodeFields(EntryFields(e))) == ConfigOf(e)
  {
    EntryWritable(e);
    hide EncodeFields, Fields, FirstLen, EntryFields, ConfigOf, AllWritable;
    FieldsOfEncoded(EntryFields(e));
    FirstLenOfEntry(e);
  }

  /** A heap configuration travels in a vendor entry and arrives. */
  lemma HeapConfigArrives(c: HeapConfig, name: seq<Byte>, limit: U32)
    requires c != HeapConfig(0, 0, 0) && |name| < TWO_64
    ensures var config := EncodeFields(NumberFields(HeapNumbers(c)));
      |config| < TWO_64 && ConfigExtract(EncodeFields(EntryFields(Entry(1, name, config, limit)))) == Some(config)
      && HeapOf(Fields(config)) == c
  {
    hide EncodeFields, Fields, NumberFields, EntryFields, ConfigExtract, HeapOf, HeapNumbers;
    var config := EncodeFields(NumberFields(HeapNumbers(c)));
    HeapConfigSize(c);
    ConfigIsRecovered(Entry(1, name, config, limit));
    NothingUnrelated();
    ConfigsReadBack(CpuConfig(0, 0), c, SchedConfig(0, 0, 0), [], []);
    assert [] + NumberFields(HeapNumbers(c)) + [] == NumberFields(HeapNumbers(c));
  }

  lemma NothingUnrelated()
    ensures Unrelated([])
  {
  }

  lemma NumberSize(n: U32, v: U64)
    ensures |EncodeFields(NonZero(n, v))| <= 20
    ensures v != 0 ==> EncodeFields(NonZero(n, v)) != []
  {
    VarintIsShort(n * 8);
    VarintIsShort(v);
    hide VarintBytes;
    if v != 0 {
      assert NonZero(n, v)[1..] == [];
      assert EncodeFields(NonZero(n, v)) == EncodeField(Field(n, Varint(v))) + EncodeFields([]);
      assert |EncodeField(Field(n, Varint(v)))| > 0;
    }
  }

  lemma HeapConfigSize(c: HeapConfig)
    requires c != HeapConfig(0, 0, 0)
    ensures 0 < |EncodeFields(NumberFields(HeapNumbers(c)))| < TWO_64
  {
    NumberFieldsOf3(c.targetPid, c.ringSizeBytes, c.sampleIntervalBytes);
    var a, b, d := NonZero(1, c.targetPid), NonZero(2, c.ringSizeBytes), NonZero(3, c.sampleIntervalBytes);
    assert [] + a + b + d == a + (b + d);
    hide EncodeFields, NumberFields, NonZero;
    EncodeFieldsAppend(a, b + d);
    EncodeFieldsAppend(b, d);
    NumberSize(1, c.targetPid);
    NumberSize(2, c.ringSizeBytes);
    NumberSize(3, c.sampleIntervalBytes);
  }

  method EncodeEntry(e: Entry) returns (bytes: seq<Byte>)
    requires EntryFits(e)
    ensures bytes == EncodeFields(EntryFields(e))
  {
    SmallBodies();
    var w := new ProtoWriter();
    EmptyEncodes();
    hide EncodeFields, Strings;
    if e.kind == TRACK_EVENT {
      var categories := EncodeStrings(2, ["*"]);
      WriteBody(w, [], 1, Ascii("track_event"));
      WriteBody(w, [] + [Field(1, Len(Ascii("track_event")))], 113, categories);
      assert EntryFields(e) == [] + [Field(1, Len(Ascii("track_event")))] + [Field(113, Len(categories))];
    } else if e.kind == LINUX_FTRACE {
      var ftrace := EncodeFtrace();
      WriteBody(w, [], 1, Ascii("linux.ftrace"));
      WriteBody(w, [] + [Field(1, Len(Ascii("linux.ftrace")))], 100, ftrace);
      assert EntryFields(e) == [] + [Field(1, Len(Ascii("linux.ftrace")))] + [Field(100, Len(ftrace))];
    } else {
      WriteVendor(w, e);
    }
    bytes := w.buf;
  }

  method WriteVendor(w: ProtoWriter, e: Entry)
    requires EntryFits(e) && w.buf == EncodeFields([])
    modifies w
    ensures w.buf == EncodeFields(VendorFields(e))
  {
    SmallNumber(1, e.protovmMemoryLimitKb);
    hide EncodeFields;
    WriteBody(w, [], 1, e.name);
    ghost var done := [] + [Field(1, Len(e.name))];
    if e.sismoConfig != [] {
      WriteBody(w, done, SISMO_CONFIG_FIELD, e.sismoConfig);
      done := done + [Field(SISMO_CONFIG_FIELD, Len(e.sismoConfig))];
    }
    if e.protovmMemoryLimitKb > 0 {
      var pvc := EncodeOne(1, e.protovmMemoryLimitKb);
      WriteBody(w, done, 12, pvc);
      done := done + [Field(12, Len(pvc))];
    }
    assert done == VendorFields(e);
  }

  method EncodeOne(n: U32, v: U32) returns (bytes: seq<Byte>)
    ensures bytes == EncodeFields([Field(n, Varint(v))])
  {
    var w := new ProtoWriter();
    EmptyEncodes();
    hide EncodeFields;
    WriteNumber(w, [], n, v);
    assert [] + [Field(n, Varint(v))] == [Field(n, Varint(v))];
    bytes := w.buf;
  }

  method EncodeStrings(n: U32, names: seq<string>) returns (bytes: seq<Byte>)
    requires forall i :: 0 <= i < |names| ==> |names[i]| < 100
    ensures bytes == EncodeFields(Strings(n, names))
  {
    var w := new ProtoWriter();
    WriteStrings(w, n, names);
    bytes := w.buf;
  }

  method WriteStrings(w: ProtoWriter, n: U32, names: seq<string>)
    requires w.buf == [] && forall i :: 0 <= i < |names| ==> |names[i]| < 100
    modifies w
    ensures w.buf == EncodeFields(Strings(n, names))
  {
    EmptyEncodes();
    hide EncodeFields;
    for i := 0 to |names|
      invariant w.buf == EncodeFields(Strings(n, names[..i]))
    {
      assert names[..i + 1][..i] == names[..i];
      WriteBody(w, Strings(n, names[..i]), n, Ascii(names[i]));
    }
    assert names[..|names|] == names;
  }

  method EncodeFtrace() returns (bytes: seq<Byte>)
    ensures bytes == EncodeFields(FtraceFields())
  {
    SmallNumber(1, 1);
    hide EncodeFields, Strings;
    var w := new ProtoWriter();
    WriteStrings(w, 1, FTRACE_EVENTS);
    var compact := EncodeOne(1, 1);
    WriteBody(w, Strings(1, FTRACE_EVENTS), 12, compact);
    bytes := w.buf;
  }

  // ---- The trace configuration ----

  const MODE_CAPPED: U32 := 1
  const MODE_FILE: U32 := 2

  datatype TraceParams = TraceParams(
    mode: U32, bufferSizeKb: U32, durationMs: U32, outputPath: seq<Byte>, maxFileSizeBytes: U64, sessionName: seq<Byte>)

  function BufferFields(sizeKb: U32, fillPolicy: U32): seq<Field> {
    [Field(1, Varint(sizeKb))] + NonZero(4, fillPolicy) + [Field(8, Varint(1))]
  }

  /** Each entry goes into a data source of its own. */
  function SourceFields(entries: seq<Entry>): seq<Field> {
    if entries == [] then []
    else
      var dsc := EncodeFields(EntryFields(entries[|entries| - 1]));
      SourceFields(entries[..|entries| - 1]) + [Field(2, Len(EncodeFields([Field(1, Len(dsc))])))]
  }

  function ModeFields(p: TraceParams): seq<Field> {
    if p.mode == MODE_CAPPED then [Field(3, Varint(p.durationMs))]
    else if p.mode == MODE_FILE then
      [Field(8, Varint(1)), Field(10, Varint(p.maxFileSizeBytes)), Field(9, Varint(1000)), Field(29, Len(p.outputPath))]
    else []
  }

  function TraceFields(p: TraceParams, entries: seq<Entry>): seq<Field> {
    [Field(1, Len(EncodeFields(BufferFields(p.bufferSizeKb, if p.mode == MODE_CAPPED then 2 else 1))))]
    + SourceFields(entries) + [Field(22, Len(p.sessionName))] + ModeFields(p)
  }

  /** The configuration that each data source of a trace configuration carries. */
  function SourceConfigs(fs: seq<Field>): seq<Option<seq<Byte>>> {
    if fs == [] then []
    else
      var f := fs[|fs| - 1];
      SourceConfigs(fs[..|fs| - 1]) +
        if f.number == 2 && f.value.Len? then
          [match FirstLen(Fields(f.value.bytes), 1)
           case None => None
           case Some(dsc) => ConfigExtract(dsc)]
        else []
  }

  function ConfigsOf(entries: seq<Entry>): seq<Option<seq<Byte>>> {
    seq(|entries|, i requires 0 <= i < |entries| => ConfigOf(entries[i]))
  }

  predicate SourcesFit(entries: seq<Entry>) {
    forall i :: 0 <= i < |entries| ==>
      && EntryFits(entries[i]) && |EncodeFields(EntryFields(entries[i]))| < TWO_64
      && |EncodeFields([Field(1, Len(EncodeFields(EntryFields(entries[i]))))])| < TWO_64
  }

  predicate NoSource(fs: seq<Field>) {
    forall f :: f in fs ==> f.number != 2
  }

  lemma {:induction false} NoSourceNoConfig(a: seq<Field>, b: seq<Field>)
    requires NoSource(b)
    ensures SourceConfigs(a + b) == SourceConfigs(a)
    decreases |b|
  {
    hide Fields, FirstLen, ConfigExtract;
    if b == [] {
      assert a + b == a;
    } else {
      var k := |b| - 1;
      assert (a + b)[..|a| + k] == a + b[..k] && (a + b)[|a| + k] == b[k] && b[k] in b;
      NoSourceNoConfig(a, b[..k]);
    }
  }

  lemma OneSource(e: Entry)
    requires EntryFits(e) && |EncodeFields(EntryFields(e))| < TWO_64
    ensures var dsc := EncodeFields(EntryFields(e));
      FirstLen(Fields(EncodeFields([Field(1, Len(dsc))])), 1) == Some(dsc) && ConfigExtract(dsc) == ConfigOf(e)
  {
    ConfigIsRecovered(e);
    var dsc := EncodeFields(EntryFields(e));
    assert AllWritable([Field(1, Len(dsc))]);
    hide EncodeFields, EntryFields, ConfigExtract, Fields, AllWritable;
    FieldsOfEncoded([Field(1, Len(dsc))]);
  }

  lemma {:induction false} SourcesRead(a: seq<Field>, entries: seq<Entry>)
    requires SourcesFit(entries) && NoSource(a)
    ensures SourceConfigs(a + SourceFields(entries)) == ConfigsOf(entries)
    ensures AllWritable(SourceFields(entries))
    decreases |entries|
  {
    hide EncodeFields, EntryFields, Fields, FirstLen, ConfigExtract, ConfigOf;
    if entries == [] {
      assert a + SourceFields(entries) == [] + a;
      NoSourceNoConfig([], a);
    } else {
      var k := |entries| - 1;
      SourcesRead(a, entries[..k]);
      OneSource(entries[k]);
      var last := Field(2, Len(EncodeFields([Field(1, Len(EncodeFields(EntryFields(entries[k]))))])));
      var all := a + SourceFields(entries);
      assert all == a + SourceFields(entries[..k]) + [last];
      assert all[..|all| - 1] == a + SourceFields(entries[..k]) && all[|all| - 1] == last;
      assert ConfigsOf(entries) == ConfigsOf(entries[..k]) + [ConfigOf(entries[k])];
    }
  }

  /** From the configuration of a whole trace, every data source's own configuration comes back, in order. */
  lemma TraceConfigCarriesAll(p: TraceParams, entries: seq<Entry>)
    requires SourcesFit(entries) && |p.sessionName| < TWO_64 && |p.outputPath| < TWO_64
    ensures SourceConfigs(Fields(EncodeFields(TraceFields(p, entries)))) == ConfigsOf(entries)
  {
    var policy := if p.mode == MODE_CAPPED then 2 else 1;
    var buffer := Field(1, Len(EncodeFields(BufferFields(p.bufferSizeKb, policy))));
    var tail := [Field(22, Len(p.sessionName))] + ModeFields(p);
    BufferIsSmall(p.bufferSizeKb, policy);
    assert AllWritable([buffer]) && AllWritable(tail) && NoSource([buffer]) && NoSource(tail);
    var fs := TraceFields(p, entries);
    assert fs == [buffer] + SourceFields(entries) + tail;
    hide EncodeFields, Fields, AllWritable, NoSource, SourceFields, SourceConfigs, ConfigsOf, BufferFields, TraceFields;
    SourcesRead([buffer], entries);
    NoSourceNoConfig([buffer] + SourceFields(entries), tail);
    AllWritableAppend([buffer], SourceFields(entries));
    AllWritableAppend([buffer] + SourceFields(entries), tail);
    FieldsOfEncoded(fs);
  }

  lemma BufferIsSmall(sizeKb: U32, policy: U32)
    ensures |EncodeFields(BufferFields(sizeKb, policy))| < TWO_64
  {
    var a, b, c := [Field(1, Varint(sizeKb))], NonZero(4, policy), [Field(8, Varint(1))];
    assert BufferFields(sizeKb, policy) == a + b + c;
    NumberSize(4, policy);
    SmallNumber(1, sizeKb);
    VarintIsShort(8 * 8);
    VarintIsShort(1);
    assert EncodeFields(c) == EncodeField(c[0]) + [];
    hide EncodeFields, NonZero, VarintBytes;
    EncodeFieldsAppend(a + b, c);
    EncodeFieldsAppend(a, b);
  }

  method EncodeTraceConfig(p: TraceParams, entries: seq<Entry>) returns (bytes: seq<Byte>)
    requires SourcesFit(entries) && |p.sessionName| < TWO_64 && |p.outputPath| < TWO_64
    ensures bytes == EncodeFields(TraceFields(p, entries))
  {
    var policy := if p.mode == MODE_CAPPED then 2 else 1;
    BufferIsSmall(p.bufferSizeKb, policy);
    var w := new ProtoWriter();
    EmptyEncodes();
    TraceParts(p, entries);
    hide *;
    var buffer := EncodeBuffer(p.bufferSizeKb, policy);
    WriteBody(w, [], 1, buffer);
    ghost var done := [] + [Field(1, Len(buffer))];
    WriteSources(w, done, entries);
    WriteBody(w, done + SourceFields(entries), 22, p.sessionName);
    WriteMode(w, done + SourceFields(entries) + [Field(22, Len(p.sessionName))], p);
    bytes := w.buf;
  }

  lemma TraceParts(p: TraceParams, entries: seq<Entry>)
    ensures TraceFields(p, entries)
         == [] + [Field(1, Len(EncodeFields(BufferFields(p.bufferSizeKb, if p.mode == MODE_CAPPED then 2 else 1))))]
            + SourceFields(entries) + [Field(22, Len(p.sessionName))] + ModeFields(p)
  {
    hide EncodeFields, BufferFields, SourceFields, ModeFields;
    var buffer := Field(1, Len(EncodeFields(BufferFields(p.bufferSizeKb, if p.mode == MODE_CAPPED then 2 else 1))));
    assert [] + [buffer] == [buffer];
  }

  method EncodeBuffer(sizeKb: U32, policy: U32) returns (bytes: seq<Byte>)
    ensures bytes == EncodeFields(BufferFields(sizeKb, policy))
  {
    hide EncodeFields, NonZero;
    var w := new ProtoWriter();
    EmptyEncodes();
    WriteNumber(w, [], 1, sizeKb);
    ghost var done := [] + [Field(1, Varint(sizeKb))];
    WriteNonZero(w, done, 4, policy);
    WriteNumber(w, done + NonZero(4, policy), 8, 1);
    assert done == [Field(1, Varint(sizeKb))];
    bytes := w.buf;
  }

  method WriteSources(w: ProtoWriter, ghost done: seq<Field>, entries: seq<Entry>)
    requires w.buf == EncodeFields(done) && SourcesFit(entries)
    modifies w
    ensures w.buf == EncodeFields(done + SourceFields(entries))
  {
    assert done + SourceFields(entries[..0]) == done;
    hide *;
    for i := 0 to |entries|
      invariant w.buf == EncodeFields(done + SourceFields(entries[..i]))
    {
      SourceStep(done, entries, i);
      var ds := EncodeSource(entries[i]);
      WriteBody(w, done + SourceFields(entries[..i]), 2, ds);
    }
    assert entries[..|entries|] == entries;
  }

  function SourceBytes(e: Entry): seq<Byte> {
    EncodeFields([Field(1, Len(EncodeFields(EntryFields(e))))])
  }

  method EncodeSource(e: Entry) returns (bytes: seq<Byte>)
    requires EntryFits(e) && |EncodeFields(EntryFields(e))| < TWO_64
    ensures bytes == SourceBytes(e)
  {
    hide EncodeFields, EntryFields;
    var dsc := EncodeEntry(e);
    var ds := new ProtoWriter();
    EmptyEncodes();
    WriteBody(ds, [], 1, dsc);
    assert [] + [Field(1, Len(dsc))] == [Field(1, Len(dsc))];
    bytes := ds.buf;
  }

  lemma SourceStep(done: seq<Field>, entries: seq<Entry>, i: nat)
    requires SourcesFit(entries) && i < |entries|
    ensures EntryFits(entries[i]) && |EncodeFields(EntryFields(entries[i]))| < TWO_64 &&
        |SourceBytes(entries[i])| < TWO_64
    ensures done + SourceFields(entries[..i]) + [Field(2, Len(SourceBytes(entries[i])))]
         == done + SourceFields(entries[..i + 1])
  {
    hide EncodeFields, EntryFields, EntryFits;
    assert entries[..i + 1][..i] == entries[..i];
  }

  method WriteMode(w: ProtoWriter, ghost done: seq<Field>, p: TraceParams)
    requires w.buf == EncodeFields(done) && |p.outputPath| < TWO_64
    modifies w
    ensures w.buf == EncodeFields(done + ModeFields(p))
  {
    hide EncodeFields;
    if p.mode == MODE_CAPPED {
      WriteNumber(w, done, 3, p.durationMs);
    } else if p.mode == MODE_FILE {
      WriteNumber(w, done, 8, 1);
      WriteNumber(w, done + [Field(8, Varint(1))], 10, p.maxFileSizeBytes);
      WriteNumber(w, done + [Field(8, Varint(1))] + [Field(10, Varint(p.maxFileSizeBytes))], 9, 1000);
      ghost var all := done + [Field(8, Varint(1))] + [Field(10, Varint(p.maxFileSizeBytes))] +
          [Field(9, Varint(1000))];
      WriteBody(w, all, 29, p.outputPath);
      assert all + [Field(29, Len(p.outputPath))] == done + ModeFields(p);
    } else {
      assert done + [] == done;
    }
  }
}
