/**
 * What a consumer that knows the schema reads out of a trace configuration: the buffer, the mode, the session, and what
 * each data source is asked for.
 */
module ConfigSchema {
  import opened Bits
  import opened ProtoWire
  import opened ProtoTree
  import opened SismoConfig

  // ---- Reading by field number ----

  /** The number in a field; the last one wins. */
  function NumberAt(fs: seq<Field>, n: U32): Option<U64> {
    if fs == [] then None
    else
      var rest := NumberAt(fs[1..], n);
      if rest.Some? then rest
      else if fs[0].number == n && fs[0].value.Varint? then Some(fs[0].value.v)
      else None
  }

  /** All the bodies in a field, in order. */
  function BodiesAt(fs: seq<Field>, n: U32): seq<seq<Byte>> {
    if fs == [] then []
    else (if fs[0].number == n && fs[0].value.Len? then [fs[0].value.bytes] else []) + BodiesAt(fs[1..], n)
  }

  lemma {:induction false} ReadAppend(a: seq<Field>, b: seq<Field>, n: U32)
    ensures NumberAt(a + b, n) == if NumberAt(b, n).Some? then NumberAt(b, n) else NumberAt(a, n)
    ensures BodiesAt(a + b, n) == BodiesAt(a, n) + BodiesAt(b, n)
    decreases |a|
  {
    if a == [] {
      assert a + b == b;
    } else {
      assert (a + b)[1..] == a[1..] + b;
      ReadAppend(a[1..], b, n);
    }
  }

  lemma ReadOne(f: Field, n: U32)
    ensures NumberAt([f], n) == if f.number == n && f.value.Varint? then Some(f.value.v) else None
    ensures BodiesAt([f], n) == if f.number == n && f.value.Len? then [f.value.bytes] else []
  {
    assert [f][1..] == [];
  }

  lemma ReadNonZero(m: U32, v: U64, n: U32)
    ensures NumberAt(NonZero(m, v), n) == if n == m && v != 0 then Some(v) else None
    ensures BodiesAt(NonZero(m, v), n) == []
  {
    if v != 0 {
      ReadOne(Field(m, Varint(v)), n);
    }
  }

  // ---- Data sources ----

  /** What a data source is asked for: its name, track event categories, ftrace events, and its producer's own. */
  datatype SourceRead = SourceRead(
    name: seq<seq<Byte>>, categories: seq<seq<Byte>>, ftraceEvents: seq<seq<Byte>>, compactSched: bool,
    config: seq<seq<Byte>>, memoryLimitKb: Option<U64>)

  /** The strings or bodies of field `n` inside the bodies of a field. */
  function Inside(bodies: seq<seq<Byte>>, n: U32): seq<seq<Byte>> {
    if bodies == [] then [] else BodiesAt(Fields(bodies[0]), n)
  }

  function NumberInside(bodies: seq<seq<Byte>>, n: U32): Option<U64> {
    if bodies == [] then None else NumberAt(Fields(bodies[0]), n)
  }

  function ReadSource(dsc: seq<Byte>): SourceRead {
    var fs := Fields(dsc);
    SourceRead(
      BodiesAt(fs, 1),
      Inside(BodiesAt(fs, 113), 2),
      Inside(BodiesAt(fs, 100), 1),
      NumberInside(Inside(BodiesAt(fs, 100), 12), 1) == Some(1),
      BodiesAt(fs, 2000),
      NumberInside(BodiesAt(fs, 12), 1))
  }

  /** What it should be asked for. */
  function SourceMeant(e: Entry): SourceRead {
    if e.kind == 0 then SourceRead([Ascii("track_event")], [Ascii("*")], [], false, [], None)
    else if e.kind == 2 then
      SourceRead([Ascii("linux.ftrace")], [],
                 [Ascii("sched/sched_switch"), Ascii("sched/sched_waking"), Ascii("sched/sched_wakeup"),
                  Ascii("sched/sched_process_exit"), Ascii("power/cpu_frequency"), Ascii("power/cpu_idle")],
                 true, [], None)
    else
      SourceRead([e.name], [], [], false, if e.sismoConfig == [] then [] else [e.sismoConfig],
                 if e.protovmMemoryLimitKb == 0 then None else Some(e.protovmMemoryLimitKb))
  }

  function Bodies(names: seq<string>): (bs: seq<seq<Byte>>)
    ensures |bs| == |names|
  {
    seq(|names|, i requires 0 <= i < |names| => Ascii(names[i]))
  }

  lemma {:induction false} StringsRead(m: U32, names: seq<string>, n: U32)
    ensures BodiesAt(Strings(m, names), n) == if n == m then Bodies(names) else []
    ensures NumberAt(Strings(m, names), n) == None
    decreases |names|
  {
    hide Ascii;
    if names == [] {
    } else {
      var k := |names| - 1;
      StringsRead(m, names[..k], n);
      ReadAppend(Strings(m, names[..k]), [Field(m, Len(Ascii(names[k])))], n);
      ReadOne(Field(m, Len(Ascii(names[k]))), n);
      assert n == m ==> Bodies(names) == Bodies(names[..k]) + [Ascii(names[k])];
    }
  }

  lemma {:induction false} StringsWritable(m: U32, names: seq<string>)
    requires forall i :: 0 <= i < |names| ==> |names[i]| < 100
    ensures AllWritable(Strings(m, names))
    decreases |names|
  {
    if names == [] {
    } else {
      StringsWritable(m, names[..|names| - 1]);
    }
  }

  lemma OneNumberReads(v: U32)
    ensures NumberAt(Fields(EncodeFields([Field(1, Varint(v))])), 1) == Some(v)
  {
    var fs := [Field(1, Varint(v))];
    FieldsOfEncoded(fs);
    ReadOne(fs[0], 1);
    hide EncodeFields, Fields;
  }

  lemma CategoriesRead()
    ensures BodiesAt(Fields(EncodeFields(Strings(2, ["*"]))), 2) == [Ascii("*")]
  {
    StringsRead(2, ["*"], 2);
    StringsWritable(2, ["*"]);
    hide Strings, EncodeFields, Fields;
    FieldsOfEncoded(Strings(2, ["*"]));
    assert Bodies(["*"]) == [Ascii("*")];
  }

  lemma FtraceReads()
    ensures var fs := Fields(EncodeFields(FtraceFields()));
      && BodiesAt(fs, 1) == Bodies(FTRACE_EVENTS)
      && BodiesAt(fs, 12) == [EncodeFields([Field(1, Varint(1))])]
  {
    var compact := Field(12, Len(EncodeFields([Field(1, Varint(1))])));
    StringsRead(1, FTRACE_EVENTS, 1);
    StringsRead(1, FTRACE_EVENTS, 12);
    SmallBodies();
    assert AllWritable([compact]);
    EventsAreShort();
    StringsWritable(1, FTRACE_EVENTS);
    hide Strings, EncodeFields, Fields, AllWritable, NumberAt, BodiesAt, FTRACE_EVENTS;
    ReadAppend(Strings(1, FTRACE_EVENTS), [compact], 1);
    ReadAppend(Strings(1, FTRACE_EVENTS), [compact], 12);
    ReadOne(compact, 1);
    ReadOne(compact, 12);
    AllWritableAppend(Strings(1, FTRACE_EVENTS), [compact]);
    FieldsOfEncoded(FtraceFields());
    assert Bodies(FTRACE_EVENTS) + [] == Bodies(FTRACE_EVENTS);
    assert [] + [EncodeFields([Field(1, Varint(1))])] == [EncodeFields([Field(1, Varint(1))])];
  }

  lemma EventsAreShort()
    ensures forall i :: 0 <= i < |FTRACE_EVENTS| ==> |FTRACE_EVENTS[i]| < 100
  {
  }

  lemma EventsAre()
    ensures Bodies(FTRACE_EVENTS) ==
      [Ascii("sched/sched_switch"), Ascii("sched/sched_waking"), Ascii("sched/sched_wakeup"),
       Ascii("sched/sched_process_exit"), Ascii("power/cpu_frequency"), Ascii("power/cpu_idle")]
  {
  }

  lemma TwoFieldsRead(a: Field, b: Field, n: U32)
    ensures BodiesAt([a, b], n) == BodiesAt([a], n) + BodiesAt([b], n)
  {
    assert [a, b] == [a] + [b];
    ReadAppend([a], [b], n);
  }

  lemma VendorReads(e: Entry, n: U32)
    requires n == 1 || n == 12 || n == 100 || n == 113 || n == 2000
    ensures BodiesAt(VendorFields(e), n) ==
      if n == 1 then [e.name]
      else if n == 2000 then if e.sismoConfig != [] then [e.sismoConfig] else []
      else if n == 12 then
        if e.protovmMemoryLimitKb > 0 then [EncodeFields([Field(1, Varint(e.protovmMemoryLimitKb))])] else []
      else []
  {
    var name, config, limit := Field(1, Len(e.name)), Field(2000, Len(e.sismoConfig)),
      Field(12, Len(EncodeFields([Field(1, Varint(e.protovmMemoryLimitKb))])));
    var b := if e.sismoConfig != [] then [config] else [];
    var c := if e.protovmMemoryLimitKb > 0 then [limit] else [];
    assert VendorFields(e) == [name] + b + c;
    hide EncodeFields, NumberAt;
    ReadAppend([name] + b, c, n);
    ReadAppend([name], b, n);
    ReadOne(name, n);
    ReadOne(config, n);
    ReadOne(limit, n);
  }

  /** A data source is asked for what its entry means, as a consumer that knows the field numbers reads it. */
  lemma EntryMeans(e: Entry)
    requires EntryFits(e)
    ensures ReadSource(EncodeFields(EntryFields(e))) == SourceMeant(e)
  {
    hide EncodeFields, Fields, AllWritable, BodiesAt, NumberAt, Strings, FtraceFields, VendorFields, Ascii, Bodies;
    EntryWritable(e);
    FieldsOfEncoded(EntryFields(e));
    if e.kind == 0 {
      var a, b := Field(1, Len(Ascii("track_event"))), Field(113, Len(EncodeFields(Strings(2, ["*"]))));
      CategoriesRead();
      FixedReads(a, b);
    } else if e.kind == 2 {
      var a, b := Field(1, Len(Ascii("linux.ftrace"))), Field(100, Len(EncodeFields(FtraceFields())));
      FtraceReads();
      EventsAre();
      OneNumberReads(1);
      FixedReads(a, b);
    } else {
      VendorReads(e, 1);
      VendorReads(e, 12);
      VendorReads(e, 100);
      VendorReads(e, 113);
      VendorReads(e, 2000);
      OneNumberReads(e.protovmMemoryLimitKb);
    }
  }

  lemma FixedReads(a: Field, b: Field)
    requires a.number == 1 && a.value.Len? && b.value.Len? && (b.number == 113 || b.number == 100)
    ensures forall n: U32 ::
              BodiesAt([a, b], n) == if n == 1 then [a.value.bytes] else if n == b.number then [b.value.bytes] else []
  {
    hide BodiesAt;
    forall n: U32
      ensures BodiesAt([a, b], n)
           == if n == 1 then [a.value.bytes] else if n == b.number then [b.value.bytes] else []
    {
      TwoFieldsRead(a, b, n);
      ReadOne(a, n);
      ReadOne(b, n);
    }
  }

  // ---- The whole configuration ----

  datatype BufferRead = BufferRead(sizeKb: Option<U64>, fillPolicy: Option<U64>, mode: Option<U64>)

  function ReadBuffer(body: seq<Byte>): BufferRead {
    var fs := Fields(body);
    BufferRead(NumberAt(fs, 1), NumberAt(fs, 4), NumberAt(fs, 8))
  }

  /** What is in each field of a trace configuration that a consumer looks at. */
  datatype TraceRead = TraceRead(
    buffers: seq<BufferRead>, sources: seq<SourceRead>, sessionName: seq<seq<Byte>>, durationMs: Option<U64>,
    writeIntoFile: Option<U64>, filePeriodMs: Option<U64>, maxFileSize: Option<U64>, outputPath: seq<seq<Byte>>)

  function ReadBuffers(bodies: seq<seq<Byte>>): seq<BufferRead> {
    seq(|bodies|, i requires 0 <= i < |bodies| => ReadBuffer(bodies[i]))
  }

  /** Each data source message holds its configuration in field 1. */
  function ReadSources(bodies: seq<seq<Byte>>): seq<SourceRead> {
    if bodies == [] then []
    else
      ReadSources(bodies[..|bodies| - 1]) + ReadConfigs(BodiesAt(Fields(bodies[|bodies| - 1]), 1))
  }

  function ReadConfigs(bodies: seq<seq<Byte>>): seq<SourceRead> {
    seq(|bodies|, i requires 0 <= i < |bodies| => ReadSource(bodies[i]))
  }

  function ReadTrace(bytes: seq<Byte>): TraceRead {
    var fs := Fields(bytes);
    TraceRead(
      ReadBuffers(BodiesAt(fs, 1)), ReadSources(BodiesAt(fs, 2)), BodiesAt(fs, 22),
      NumberAt(fs, 3), NumberAt(fs, 8), NumberAt(fs, 9), NumberAt(fs, 10), BodiesAt(fs, 29))
  }

  function SourcesMeant(entries: seq<Entry>): seq<SourceRead> {
    seq(|entries|, i requires 0 <= i < |entries| => SourceMeant(entries[i]))
  }

  /**
   * One buffer, which discards when it is full in the capped mode and is a ring in every other; the capped mode stops
   * after the duration; the file mode writes into the file every second, up to its size.
   */
  function TraceMeant(p: TraceParams, entries: seq<Entry>): TraceRead {
    var capped, file := p.mode == 1, p.mode == 2;
    TraceRead(
      [BufferRead(Some(p.bufferSizeKb), Some(if capped then 2 else 1), Some(1))],
      SourcesMeant(entries),
      [p.sessionName],
      if capped then Some(p.durationMs) else None,
      if file then Some(1) else None,
      if file then Some(1000) else None,
      if file then Some(p.maxFileSizeBytes) else None,
      if file then [p.outputPath] else [])
  }

  lemma BufferMeans(sizeKb: U32, policy: U32)
    requires policy != 0
    ensures ReadBuffer(EncodeFields(BufferFields(sizeKb, policy))) == BufferRead(Some(sizeKb), Some(policy), Some(1))
  {
    var a, b, c := [Field(1, Varint(sizeKb))], NonZero(4, policy), [Field(8, Varint(1))];
    assert BufferFields(sizeKb, policy) == a + b + c;
    assert AllWritable(a + b + c);
    FieldsOfEncoded(a + b + c);
    hide EncodeFields, Fields, NumberAt, AllWritable, BufferFields;
    forall n: U32
      ensures NumberAt(a + b + c, n) ==
        if n == 1 then Some(sizeKb) else if n == 4 then Some(policy) else if n == 8 then Some(1) else None
    {
      ReadAppend(a + b, c, n);
      ReadAppend(a, b, n);
      ReadOne(a[0], n);
      ReadNonZero(4, policy, n);
      ReadOne(c[0], n);
    }
  }

  lemma ModeReads(p: TraceParams, n: U32)
    ensures NumberAt(ModeFields(p), n) ==
      if p.mode == 1 && n == 3 then Some(p.durationMs)
      else if p.mode == 2 && n == 8 then Some(1)
      else if p.mode == 2 && n == 9 then Some(1000)
      else if p.mode == 2 && n == 10 then Some(p.maxFileSizeBytes)
      else None
    ensures BodiesAt(ModeFields(p), n) == if p.mode == 2 && n == 29 then [p.outputPath] else []
  {
    var a, b, c, d := Field(8, Varint(1)), Field(10, Varint(p.maxFileSizeBytes)), Field(9, Varint(1000)),
      Field(29, Len(p.outputPath));
    assert [a, b, c, d] == [a] + [b] + ([c] + [d]);
    hide NumberAt, BodiesAt;
    NothingRead(n);
    ReadAppend([a] + [b], [c] + [d], n);
    ReadAppend([a], [b], n);
    ReadAppend([c], [d], n);
    ReadOne(a, n);
    ReadOne(b, n);
    ReadOne(c, n);
    ReadOne(d, n);
    ReadOne(Field(3, Varint(p.durationMs)), n);
  }

  lemma NothingRead(n: U32)
    ensures NumberAt([], n) == None && BodiesAt([], n) == []
  {
  }

  lemma OneSourceMeans(e: Entry)
    requires EntryFits(e) && |EncodeFields(EntryFields(e))| < TWO_64
    ensures ReadConfigs(BodiesAt(Fields(SourceBytes(e)), 1)) == [SourceMeant(e)]
  {
    hide EncodeFields, EntryFields, Fields, AllWritable, ReadSource, SourceMeant, BodiesAt, NumberAt;
    var dsc := EncodeFields(EntryFields(e));
    EntryMeans(e);
    OneBodyReads(dsc);
    assert ReadConfigs([dsc]) == [ReadSource(dsc)];
  }

  lemma OneBodyReads(dsc: seq<Byte>)
    requires |dsc| < TWO_64
    ensures BodiesAt(Fields(EncodeFields([Field(1, Len(dsc))])), 1) == [dsc]
  {
    assert AllWritable([Field(1, Len(dsc))]);
    hide EncodeFields, Fields, AllWritable;
    FieldsOfEncoded([Field(1, Len(dsc))]);
    ReadOne(Field(1, Len(dsc)), 1);
  }

  lemma {:induction false} SourcesMean(entries: seq<Entry>, n: U32)
    requires SourcesFit(entries)
    ensures NumberAt(SourceFields(entries), n) == None
    ensures n != 2 ==> BodiesAt(SourceFields(entries), n) == []
    ensures n == 2 ==> ReadSources(BodiesAt(SourceFields(entries), n)) == SourcesMeant(entries)
    decreases |entries|
  {
    hide EncodeFields, EntryFields, ReadConfigs, SourceMeant, NumberAt, BodiesAt, Fields;
    NothingRead(n);
    if entries == [] {
    } else {
      var k := |entries| - 1;
      var last := Field(2, Len(SourceBytes(entries[k])));
      SourcesMean(entries[..k], n);
      assert SourceFields(entries) == SourceFields(entries[..k]) + [last];
      ReadAppend(SourceFields(entries[..k]), [last], n);
      ReadOne(last, n);
      OneSourceMeans(entries[k]);
      if n == 2 {
        SourcesOneMore(BodiesAt(SourceFields(entries[..k]), 2), SourceBytes(entries[k]));
        assert SourcesMeant(entries) == SourcesMeant(entries[..k]) + [SourceMeant(entries[k])];
      }
    }
  }

  lemma SourcesOneMore(bodies: seq<seq<Byte>>, body: seq<Byte>)
    ensures ReadSources(bodies + [body]) == ReadSources(bodies) + ReadConfigs(BodiesAt(Fields(body), 1))
  {
    assert (bodies + [body])[..|bodies|] == bodies;
    hide ReadConfigs, BodiesAt, Fields;
  }

  /** A consumer that knows the schema reads the trace configuration that was meant, in every mode. */
  lemma TraceMeans(p: TraceParams, entries: seq<Entry>)
    requires SourcesFit(entries) && |p.sessionName| < TWO_64 && |p.outputPath| < TWO_64
    ensures ReadTrace(EncodeFields(TraceFields(p, entries))) == TraceMeant(p, entries)
  {
    hide *;
    var fs := TraceFields(p, entries);
    TraceFieldsRead(p, entries);
    BuffersAreRead(p, entries);
    SourcesAreRead(p, entries);
    TraceBody(p, entries, 22);
    TraceBody(p, entries, 29);
    TraceNumber(p, entries, 3);
    TraceNumber(p, entries, 8);
    TraceNumber(p, entries, 9);
    TraceNumber(p, entries, 10);
    TraceReadIs(p, entries, EncodeFields(fs), fs);
  }

  lemma TraceReadIs(p: TraceParams, entries: seq<Entry>, bytes: seq<Byte>, fs: seq<Field>)
    requires Fields(bytes) == fs
    requires ReadBuffers(BodiesAt(fs, 1)) ==
      [BufferRead(Some(p.bufferSizeKb), Some(if p.mode == 1 then 2 else 1), Some(1))]
    requires ReadSources(BodiesAt(fs, 2)) == SourcesMeant(entries) && BodiesAt(fs, 22) == [p.sessionName]
    requires BodiesAt(fs, 29) == if p.mode == 2 then [p.outputPath] else []
    requires NumberAt(fs, 3) == if p.mode == 1 then Some(p.durationMs) else None
    requires NumberAt(fs, 8) == if p.mode == 2 then Some(1) else None
    requires NumberAt(fs, 9) == if p.mode == 2 then Some(1000) else None
    requires NumberAt(fs, 10) == if p.mode == 2 then Some(p.maxFileSizeBytes) else None
    ensures ReadTrace(bytes) == TraceMeant(p, entries)
  {
    hide Fields, ReadBuffers, BodiesAt, NumberAt, ReadSources, SourcesMeant;
  }

  lemma TraceNumber(p: TraceParams, entries: seq<Entry>, n: U32)
    requires SourcesFit(entries)
    ensures NumberAt(TraceFields(p, entries), n) ==
      if p.mode == 1 && n == 3 then Some(p.durationMs)
      else if p.mode == 2 && n == 8 then Some(1)
      else if p.mode == 2 && n == 9 then Some(1000)
      else if p.mode == 2 && n == 10 then Some(p.maxFileSizeBytes)
      else None
  {
    hide EncodeFields, BufferFields, TraceFields, NumberAt, BodiesAt, SourceFields, ModeFields;
    TraceFieldAt(p, entries, n);
    ModeReads(p, n);
  }

  lemma TraceBody(p: TraceParams, entries: seq<Entry>, n: U32)
    requires SourcesFit(entries) && n != 1 && n != 2
    ensures BodiesAt(TraceFields(p, entries), n) ==
      (if n == 22 then [p.sessionName] else []) + if p.mode == 2 && n == 29 then [p.outputPath] else []
  {
    hide EncodeFields, BufferFields, TraceFields, NumberAt, BodiesAt, SourceFields, ModeFields;
    TraceFieldAt(p, entries, n);
    SourcesMean(entries, n);
    ModeReads(p, n);
  }

  lemma BuffersAreRead(p: TraceParams, entries: seq<Entry>)
    requires SourcesFit(entries)
    ensures ReadBuffers(BodiesAt(TraceFields(p, entries), 1)) ==
      [BufferRead(Some(p.bufferSizeKb), Some(if p.mode == 1 then 2 else 1), Some(1))]
  {
    hide EncodeFields, BufferFields, TraceFields, NumberAt, BodiesAt, SourceFields, ModeFields, ReadBuffer;
    TraceFieldAt(p, entries, 1);
    SourcesMean(entries, 1);
    ModeReads(p, 1);
    BufferMeans(p.bufferSizeKb, if p.mode == 1 then 2 else 1);
    var body := EncodeFields(BufferFields(p.bufferSizeKb, if p.mode == 1 then 2 else 1));
    assert [body] + [] + [] + [] == [body];
    assert ReadBuffers([body]) == [ReadBuffer(body)];
  }

  lemma SourcesAreRead(p: TraceParams, entries: seq<Entry>)
    requires SourcesFit(entries)
    ensures ReadSources(BodiesAt(TraceFields(p, entries), 2)) == SourcesMeant(entries)
  {
    hide EncodeFields, BufferFields, TraceFields, NumberAt, BodiesAt, SourceFields, ModeFields, ReadSources;
    TraceFieldAt(p, entries, 2);
    SourcesMean(entries, 2);
    ModeReads(p, 2);
    var found := BodiesAt(SourceFields(entries), 2);
    assert [] + found + [] + [] == found;
  }

  lemma TraceFieldAt(p: TraceParams, entries: seq<Entry>, n: U32)
    requires SourcesFit(entries)
    ensures var body := EncodeFields(BufferFields(p.bufferSizeKb, if p.mode == 1 then 2 else 1));
      && NumberAt(TraceFields(p, entries), n) == NumberAt(ModeFields(p), n)
      && BodiesAt(TraceFields(p, entries), n) ==
         (if n == 1 then [body] else []) + BodiesAt(SourceFields(entries), n)
         + (if n == 22 then [p.sessionName] else []) + BodiesAt(ModeFields(p), n)
  {
    var buffer := Field(1, Len(EncodeFields(BufferFields(p.bufferSizeKb, if p.mode == 1 then 2 else 1))));
    var name := Field(22, Len(p.sessionName));
    assert TraceFields(p, entries) == [buffer] + SourceFields(entries) + [name] + ModeFields(p);
    hide EncodeFields, BufferFields, TraceFields, NumberAt, BodiesAt, SourceFields, ModeFields;
    SourcesMean(entries, n);
    ReadAppend([buffer] + SourceFields(entries) + [name], ModeFields(p), n);
    ReadAppend([buffer] + SourceFields(entries), [name], n);
    ReadAppend([buffer], SourceFields(entries), n);
    ReadOne(buffer, n);
    ReadOne(name, n);
  }

  lemma TraceFieldsRead(p: TraceParams, entries: seq<Entry>)
    requires SourcesFit(entries) && |p.sessionName| < TWO_64 && |p.outputPath| < TWO_64
    ensures Fields(EncodeFields(TraceFields(p, entries))) == TraceFields(p, entries)
  {
    var policy := if p.mode == MODE_CAPPED then 2 else 1;
    var buffer := Field(1, Len(EncodeFields(BufferFields(p.bufferSizeKb, policy))));
    var tail := [Field(22, Len(p.sessionName))] + ModeFields(p);
    BufferIsSmall(p.bufferSizeKb, policy);
    assert AllWritable([buffer]) && AllWritable(tail) && NoSource([]);
    assert TraceFields(p, entries) == [buffer] + SourceFields(entries) + tail;
    hide EncodeFields, Fields, AllWritable, SourceFields, BufferFields, TraceFields;
    SourcesRead([], entries);
    AllWritableAppend([buffer], SourceFields(entries));
    AllWritableAppend([buffer] + SourceFields(entries), tail);
    FieldsOfEncoded(TraceFields(p, entries));
  }
}
